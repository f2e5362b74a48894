/**
 * The minimal UTF-8 decoder of typestr.c (`utf8_decode_one`) and, as its
 * partner, the encoding of section 3 of RFC 3629.
 *
 * A C pointer into a NUL-terminated string is modelled as the suffix of the
 * string that starts at the pointer: a byte sequence whose last byte is 0.
 * The bit tests of the C code are written with division and remainder by
 * powers of two: for a byte b, `(b & 0xC0) == 0x80` is `b / 64 == 2`,
 * `(b & 0xE0) == 0xC0` is `b / 32 == 6`, `(b & 0xF0) == 0xE0` is
 * `b / 16 == 14`, `(b & 0xF8) == 0xF0` is `b / 8 == 30`, `b & 0x3F` is
 * `b % 64`, and `x << k` is `x * 2^k` (the or-ed fields never overlap).
 */
module Utf8 {
  type byte = b: int | 0 <= b < 256

  const MaxCodePoint: nat := 0x10FFFF

  /** A C string seen from some pointer: at least the terminating NUL is there. */
  predicate IsCString(s: seq<byte>) {
    |s| > 0 && s[|s| - 1] == 0
  }

  /** `(b & 0xC0) == 0x80`: a continuation byte 10xxxxxx. */
  predicate IsCont(b: byte) {
    b / 64 == 2
  }

  /** `b & 0x3F`: the six payload bits of a continuation byte. */
  function Low6(b: byte): nat {
    b % 64
  }

  /** The length returned by `utf8_decode_one` (0 on an invalid sequence) and
    * the code point written through `out`; when the length is 0 nothing is
    * written and the callers' initial 0 stays. */
  datatype Decoded = Decoded(n: nat, cp: nat)

  const Invalid := Decoded(0, 0)

  /** One step of `utf8_decode_one`, reading at most the bytes the C code reads. */
  function DecodeOne(s: seq<byte>): (r: Decoded)
    requires IsCString(s)
    ensures r.n <= 4 && r.cp <= MaxCodePoint
    ensures s[0] < 0x80 ==> r == Decoded(1, s[0])
    ensures r.n == 0 ==> r.cp == 0
    // for a non-NUL first byte, everything consumed lies before the terminator
    ensures s[0] != 0 ==> r.n < |s|
    ensures r.n == 2 ==> 0x80 <= r.cp <= 0x7FF
    ensures r.n == 3 ==> 0x800 <= r.cp <= 0xFFFF
    ensures r.n == 4 ==> 0x10000 <= r.cp <= MaxCodePoint
  {
    var b0: nat := s[0];
    if b0 < 0x80 then Decoded(1, b0)
    else if b0 / 32 == 6 then
      if !IsCont(s[1]) then Invalid
      else
        var cp := (b0 % 32) * 64 + Low6(s[1]);
        if cp < 0x80 then Invalid else Decoded(2, cp)
    else if b0 / 16 == 14 then
      if !IsCont(s[1]) || !IsCont(s[2]) then Invalid
      else
        var cp := (b0 % 16) * 4096 + Low6(s[1]) * 64 + Low6(s[2]);
        if cp < 0x800 then Invalid else Decoded(3, cp)
    else if b0 / 8 == 30 then
      if !IsCont(s[1]) || !IsCont(s[2]) || !IsCont(s[3]) then Invalid
      else
        var cp := (b0 % 8) * 262144 + Low6(s[1]) * 4096 + Low6(s[2]) * 64 + Low6(s[3]);
        if cp < 0x10000 || cp > MaxCodePoint then Invalid else Decoded(4, cp)
    else Invalid
  }

  /** What the short-circuit `||` chains guarantee: the continuation bytes
    * were all checked, and none of the bytes consumed is the terminator. */
  lemma DecodeOneReadsOnlyString(s: seq<byte>)
    requires IsCString(s)
    ensures DecodeOne(s).n >= 2 ==> forall k :: 1 <= k < DecodeOne(s).n ==> IsCont(s[k])
    ensures s[0] != 0 ==> forall k :: 0 <= k < DecodeOne(s).n ==> s[k] != 0
  {
  }

  /** The shortest-form encoding of a code point, section 3 of RFC 3629
    * (surrogates included: the decoder does not reject them either). */
  function Encode(cp: nat): (r: seq<byte>)
    requires cp <= MaxCodePoint
  {
    if cp < 0x80 then [cp]
    else if cp < 0x800 then [0xC0 + cp / 64, 0x80 + cp % 64]
    else if cp < 0x10000 then [0xE0 + cp / 4096, 0x80 + (cp / 64) % 64, 0x80 + cp % 64]
    else [0xF0 + cp / 262144, 0x80 + (cp / 4096) % 64, 0x80 + (cp / 64) % 64, 0x80 + cp % 64]
  }

  function EncodeAll(cps: seq<nat>): (r: seq<byte>)
    requires forall k :: 0 <= k < |cps| ==> cps[k] <= MaxCodePoint
  {
    if cps == [] then [] else Encode(cps[0]) + EncodeAll(cps[1..])
  }

  /** The UTF-8 bytes of a Dafny string (its characters are Unicode scalar values). */
  function EncodeString(s: string): (r: seq<byte>)
  {
    if s == [] then [] else Encode(s[0] as int) + EncodeString(s[1..])
  }

  lemma DivMod64(hi: int, lo: int)
    requires 0 <= hi && 0 <= lo < 64
    ensures (hi * 64 + lo) / 64 == hi && (hi * 64 + lo) % 64 == lo
  {
  }

  /** Round trip: the encoding of any code point, followed by the rest of a C
    * string, decodes back to that code point and consumes exactly its length. */
  lemma EncodeThenDecode(cp: nat, rest: seq<byte>)
    requires cp <= MaxCodePoint && IsCString(rest)
    ensures IsCString(Encode(cp) + rest)
    ensures DecodeOne(Encode(cp) + rest) == Decoded(|Encode(cp)|, cp)
  {
    var s := Encode(cp) + rest;
    assert s[|s| - 1] == rest[|rest| - 1];
    if cp < 0x80 {
    } else if cp < 0x800 {
      EncodeThenDecode2(cp, rest);
    } else if cp < 0x10000 {
      EncodeThenDecode3(cp, rest);
    } else {
      EncodeThenDecode4(cp, rest);
    }
  }

  lemma EncodeThenDecode2(cp: nat, rest: seq<byte>)
    requires 0x80 <= cp < 0x800 && IsCString(rest)
    ensures DecodeOne([0xC0 + cp / 64, 0x80 + cp % 64] + rest) == Decoded(2, cp)
  {
    var s: seq<byte> := [0xC0 + cp / 64, 0x80 + cp % 64] + rest;
    assert s[|s| - 1] == rest[|rest| - 1];
    var a: nat, b: nat := cp / 64, cp % 64;
    assert s[0] == 0xC0 + a && s[1] == 0x80 + b;
    assert s[0] / 32 == 6 && s[0] % 32 == a;
    assert IsCont(s[1]) && Low6(s[1]) == b;
  }

  lemma EncodeThenDecode3(cp: nat, rest: seq<byte>)
    requires 0x800 <= cp < 0x10000 && IsCString(rest)
    ensures DecodeOne([0xE0 + cp / 4096, 0x80 + (cp / 64) % 64, 0x80 + cp % 64] + rest) == Decoded(3, cp)
  {
    var s: seq<byte> := [0xE0 + cp / 4096, 0x80 + (cp / 64) % 64, 0x80 + cp % 64] + rest;
    assert s[|s| - 1] == rest[|rest| - 1];
    var a: nat, b: nat, c: nat := cp / 4096, (cp / 64) % 64, cp % 64;
    assert cp == a * 4096 + b * 64 + c;
    assert s[0] == 0xE0 + a && s[1] == 0x80 + b && s[2] == 0x80 + c;
    assert s[0] / 16 == 14 && s[0] % 16 == a;
    assert IsCont(s[1]) && Low6(s[1]) == b;
    assert IsCont(s[2]) && Low6(s[2]) == c;
  }

  lemma EncodeThenDecode4(cp: nat, rest: seq<byte>)
    requires 0x10000 <= cp <= MaxCodePoint && IsCString(rest)
    ensures DecodeOne([0xF0 + cp / 262144, 0x80 + (cp / 4096) % 64, 0x80 + (cp / 64) % 64, 0x80 + cp % 64] + rest)
         == Decoded(4, cp)
  {
    Digits4(cp);
    var s: seq<byte> := [0xF0 + cp / 262144, 0x80 + (cp / 4096) % 64, 0x80 + (cp / 64) % 64, 0x80 + cp % 64] + rest;
    assert s[|s| - 1] == rest[|rest| - 1];
    DecodeFour(s, cp / 262144, (cp / 4096) % 64, (cp / 64) % 64, cp % 64);
  }

  /** A code point of four encoded bytes, split into its 3+6+6+6 bit fields. */
  lemma Digits4(cp: nat)
    requires 0x10000 <= cp <= MaxCodePoint
    ensures cp / 262144 < 8
    ensures cp == (cp / 262144) * 262144 + ((cp / 4096) % 64) * 4096 + ((cp / 64) % 64) * 64 + cp % 64
  {
    var q, d := cp / 64, cp % 64;
    var r, c := q / 64, q % 64;
    var t, b := r / 64, r % 64;
    assert cp == t * 262144 + b * 4096 + c * 64 + d;
    assert cp / 4096 == r by {
      DivMod4096(r, c * 64 + d);
    }
    assert cp / 262144 == t by {
      DivMod262144(t, b * 4096 + c * 64 + d);
    }
  }

  lemma DivMod4096(hi: int, lo: int)
    requires 0 <= hi && 0 <= lo < 4096
    ensures (hi * 4096 + lo) / 4096 == hi
  {
  }

  lemma DivMod262144(hi: int, lo: int)
    requires 0 <= hi && 0 <= lo < 262144
    ensures (hi * 262144 + lo) / 262144 == hi
  {
  }

  /** The decoder on a well-formed four-byte sequence with the given fields. */
  lemma DecodeFour(s: seq<byte>, a: nat, b: nat, c: nat, d: nat)
    requires IsCString(s) && |s| >= 4 && a < 8 && b < 64 && c < 64 && d < 64
    requires s[0] == 0xF0 + a && s[1] == 0x80 + b && s[2] == 0x80 + c && s[3] == 0x80 + d
    requires 0x10000 <= a * 262144 + b * 4096 + c * 64 + d <= MaxCodePoint
    ensures DecodeOne(s) == Decoded(4, a * 262144 + b * 4096 + c * 64 + d)
  {
    assert s[0] / 32 == 7 && s[0] / 16 == 15 && s[0] / 8 == 30 && s[0] % 8 == a;
    assert IsCont(s[1]) && Low6(s[1]) == b;
    assert IsCont(s[2]) && Low6(s[2]) == c;
    assert IsCont(s[3]) && Low6(s[3]) == d;
  }

  /** The converse: whatever the decoder accepts is exactly the shortest-form
    * encoding of the code point it returns. */
  lemma DecodeIsEncoding(s: seq<byte>)
    requires IsCString(s) && DecodeOne(s).n > 0
    ensures DecodeOne(s).n <= |s|
    ensures s[..DecodeOne(s).n] == Encode(DecodeOne(s).cp)
  {
    var r := DecodeOne(s);
    if r.n == 2 {
      DecodeIsEncoding2(s);
    } else if r.n == 3 {
      DecodeIsEncoding3(s);
    } else if r.n == 4 {
      DecodeIsEncoding4(s);
    }
  }

  lemma DecodeIsEncoding2(s: seq<byte>)
    requires IsCString(s) && DecodeOne(s).n == 2
    ensures s[..2] == Encode(DecodeOne(s).cp)
  {
    var cp := DecodeOne(s).cp;
    var a: nat, b: nat := s[0] % 32, Low6(s[1]);
    DivMod64(a, b);
    assert cp == a * 64 + b;
    assert s[0] == 0xC0 + a && s[1] == 0x80 + b;
  }

  lemma DecodeIsEncoding3(s: seq<byte>)
    requires IsCString(s) && DecodeOne(s).n == 3
    ensures s[..3] == Encode(DecodeOne(s).cp)
  {
    var a: nat, b: nat, c: nat := s[0] % 16, Low6(s[1]), Low6(s[2]);
    assert DecodeOne(s).cp == a * 4096 + b * 64 + c && s[0] / 16 == 14 && IsCont(s[1]) && IsCont(s[2]);
    ContFields(s[1]);
    ContFields(s[2]);
    Encode3Fields(a, b, c);
    assert s[..3] == [s[0], s[1], s[2]];
  }

  lemma DecodeIsEncoding4(s: seq<byte>)
    requires IsCString(s) && DecodeOne(s).n == 4
    ensures s[..4] == Encode(DecodeOne(s).cp)
  {
    var a: nat, b: nat, c: nat, d: nat := s[0] % 8, Low6(s[1]), Low6(s[2]), Low6(s[3]);
    assert DecodeOne(s).cp == a * 262144 + b * 4096 + c * 64 + d && s[0] / 8 == 30;
    assert IsCont(s[1]) && IsCont(s[2]) && IsCont(s[3]);
    assert 0x10000 <= a * 262144 + b * 4096 + c * 64 + d <= MaxCodePoint;
    ContFields(s[1]);
    ContFields(s[2]);
    ContFields(s[3]);
    Encode4Fields(a, b, c, d);
    assert s[..4] == [s[0], s[1], s[2], s[3]];
  }

  /** A continuation byte is 0x80 plus its payload. */
  lemma ContFields(x: byte)
    requires IsCont(x)
    ensures x == 0x80 + Low6(x)
  {
  }

  /** The three-byte encoding of a code point given by its 4+6+6 bit fields. */
  lemma Encode3Fields(a: nat, b: nat, c: nat)
    requires a < 16 && b < 64 && c < 64 && 0x800 <= a * 4096 + b * 64 + c
    ensures Encode(a * 4096 + b * 64 + c) == [0xE0 + a, 0x80 + b, 0x80 + c]
  {
    var cp := a * 4096 + b * 64 + c;
    DivMod64(a * 64 + b, c);
    DivMod64(a, b);
    assert cp / 4096 == (cp / 64) / 64;
  }

  /** The four-byte encoding of a code point given by its 3+6+6+6 bit fields. */
  lemma Encode4Fields(a: nat, b: nat, c: nat, d: nat)
    requires a < 8 && b < 64 && c < 64 && d < 64
    requires 0x10000 <= a * 262144 + b * 4096 + c * 64 + d <= MaxCodePoint
    ensures Encode(a * 262144 + b * 4096 + c * 64 + d) == [0xF0 + a, 0x80 + b, 0x80 + c, 0x80 + d]
  {
    var cp := a * 262144 + b * 4096 + c * 64 + d;
    assert cp == ((a * 64 + b) * 64 + c) * 64 + d;
    DivMod64((a * 64 + b) * 64 + c, d);
    DivMod64(a * 64 + b, c);
    DivMod64(a, b);
    assert cp / 4096 == (cp / 64) / 64;
    assert cp / 262144 == ((cp / 64) / 64) / 64;
  }

  /** A stray continuation byte, or a lead byte 0xF8..0xFF, is rejected. */
  lemma InvalidLeadBytes(s: seq<byte>)
    requires IsCString(s) && ((0x80 <= s[0] <= 0xBF) || 0xF8 <= s[0])
    ensures DecodeOne(s).n == 0
  {
  }

  /** Surrogates are not rejected: ED A0 80 decodes to U+D800. */
  lemma SurrogateAccepted()
    ensures DecodeOne([0xED, 0xA0, 0x80, 0]) == Decoded(3, 0xD800)
  {
  }

  /** Overlong forms are rejected: C0 80 (an overlong NUL) and E0 80 80. */
  lemma OverlongRejected()
    ensures DecodeOne([0xC0, 0x80, 0]).n == 0
    ensures DecodeOne([0xE0, 0x80, 0x80, 0]).n == 0
    ensures DecodeOne([0xF4, 0x90, 0x80, 0x80, 0]).n == 0
  {
  }
}
