/**
 * The typing loops of typestr.c: `typestr_generic` and `typestr_x11` walk a
 * NUL-terminated UTF-8 string, decode one code point at a time (an invalid
 * sequence falls back to its first byte), and hand each code point to the
 * key-injection backend. The backend calls (`unicodeType`, `input_utf`,
 * `microsleep`) are foreign; here they are recorded, in order, as a log of
 * KeyEvents.
 */
module TypeStr {
  import opened Wrappers
  import opened Utf8

  /** One call into the key-injection backend. */
  datatype KeyEvent =
    | UnicodeType(value: nat, pid: nat, isPid: int)   // unicodeType(value, pid, isPid)
    | InputUtf(keysym: string)                        // input_utf(buf), X11 only
    | Sleep(ms: int)                                  // microsleep(ms)

  /** The first lines of each loop iteration: `n = utf8_decode_one(p, &cp)`,
    * and when `n <= 0` the fallback `cp = *p; n = 1` (the raw byte, advance 1). */
  function Next(s: seq<byte>): (r: Decoded)
    requires IsCString(s) && s[0] != 0
    ensures 1 <= r.n <= 4 && r.n < |s|
    ensures forall k :: 0 <= k < r.n ==> s[k] != 0
    ensures r.cp <= MaxCodePoint
    ensures DecodeOne(s).n == 0 ==> r == Decoded(1, s[0])
    ensures DecodeOne(s).n > 0 ==> r == DecodeOne(s)
  {
    DecodeOneReadsOnlyString(s);
    var d := DecodeOne(s);
    if d.n == 0 then Decoded(1, s[0]) else d
  }

  /** The code points the loops visit, from a pointer up to the terminator. */
  function Scan(s: seq<byte>): (r: seq<nat>)
    requires IsCString(s)
    ensures forall k :: 0 <= k < |r| ==> 0 < r[k] <= MaxCodePoint
    decreases |s|
  {
    if s[0] == 0 then []
    else
      var d := Next(s);
      assert IsCString(s[d.n..]);
      [d.cp] + Scan(s[d.n..])
  }

  /** `strlen`: the number of bytes before the terminator. */
  function Strlen(s: seq<byte>): (r: nat)
    requires IsCString(s)
    ensures r < |s| && s[r] == 0
    ensures forall k :: 0 <= k < r ==> s[k] != 0
    decreases |s|
  {
    if s[0] == 0 then 0 else 1 + Strlen(s[1..])
  }

  lemma {:induction false} StrlenSkip(s: seq<byte>, n: nat)
    requires IsCString(s) && n < |s|
    requires forall k :: 0 <= k < n ==> s[k] != 0
    ensures IsCString(s[n..]) && Strlen(s) == n + Strlen(s[n..])
  {
    if n > 0 {
      assert s[1..][n - 1..] == s[n..];
      StrlenSkip(s[1..], n - 1);
    }
  }

  /** Each step consumes at least one byte, so the loops emit at most one
    * code point per byte of the string. */
  lemma {:induction false} ScanBounded(s: seq<byte>)
    requires IsCString(s)
    ensures |Scan(s)| <= Strlen(s)
    decreases |s|
  {
    if s[0] != 0 {
      var d := Next(s);
      StrlenSkip(s, d.n);
      ScanBounded(s[d.n..]);
    }
  }

  /** For well-formed UTF-8 (code points 1..0x10FFFF, then a NUL), the loops
    * visit exactly the code points that were encoded. */
  lemma {:induction false} ScanOfEncoding(cps: seq<nat>, rest: seq<byte>)
    requires forall k :: 0 <= k < |cps| ==> 0 < cps[k] <= MaxCodePoint
    requires IsCString(rest) && rest[0] == 0
    ensures IsCString(EncodeAll(cps) + rest)
    ensures Scan(EncodeAll(cps) + rest) == cps
  {
    var s := EncodeAll(cps) + rest;
    assert s[|s| - 1] == rest[|rest| - 1];
    if cps != [] {
      var e := Encode(cps[0]);
      var tail := EncodeAll(cps[1..]) + rest;
      assert s == e + tail;
      assert tail[|tail| - 1] == rest[|rest| - 1];
      EncodeThenDecode(cps[0], tail);
      assert s[0] != 0;
      assert s[|e|..] == tail;
      ScanOfEncoding(cps[1..], rest);
      assert cps == [cps[0]] + cps[1..];
    }
  }

  /** Unfolding one step of the scan. */
  lemma ScanStep(s: seq<byte>)
    requires IsCString(s) && s[0] != 0
    ensures IsCString(s[Next(s).n..])
    ensures Scan(s) == [Next(s).cp] + Scan(s[Next(s).n..])
  {
  }

  function HexDigit(d: nat): char
    requires d < 16
  {
    "0123456789ABCDEF"[d]
  }

  /** `snprintf(buf, 16, "U%X", cp)` without the leading "U": upper-case
    * hexadecimal without leading zeros. */
  function Hex(n: nat): (r: string)
    ensures |r| >= 1
    ensures forall k :: 0 <= k < |r| ==> r[k] in "0123456789ABCDEF"
    ensures n > 0 ==> r[0] != '0'
  {
    if n < 16 then [HexDigit(n)] else Hex(n / 16) + [HexDigit(n % 16)]
  }

  function DigitValue(c: char): nat {
    if '0' <= c <= '9' then c as int - '0' as int
    else if 'A' <= c <= 'F' then c as int - 'A' as int + 10
    else 0
  }

  /** Reading a hexadecimal numeral, most significant digit first. */
  function HexValue(s: string): nat {
    if s == [] then 0 else HexValue(s[..|s| - 1]) * 16 + DigitValue(s[|s| - 1])
  }

  /** The keysym text names the code point: reading it back gives the value. */
  lemma {:induction false} HexRoundTrip(n: nat)
    ensures HexValue(Hex(n)) == n
  {
    if n >= 16 {
      HexRoundTrip(n / 16);
      var h := Hex(n / 16) + [HexDigit(n % 16)];
      assert h[..|h| - 1] == Hex(n / 16) && h[|h| - 1] == HexDigit(n % 16);
      DigitRoundTrip(n % 16);
      assert HexValue(h) == (n / 16) * 16 + n % 16;
    } else {
      DigitRoundTrip(n);
      assert [HexDigit(n)][..0] == [];
    }
  }

  /** Each digit character reads back as its value. */
  lemma DigitRoundTrip(d: nat)
    requires d < 16
    ensures DigitValue(HexDigit(d)) == d
  {
  }

  /** A code point needs at most six hex digits, so "U" + digits + NUL always
    * fits the 16-byte buffer and snprintf never truncates. */
  lemma {:induction false} HexFitsBuffer(n: nat)
    requires n <= MaxCodePoint
    ensures |Hex(n)| <= 6 && |"U" + Hex(n)| + 1 <= 16
  {
    HexLength(n, 6);
  }

  lemma {:induction false} HexLength(n: nat, k: nat)
    requires k >= 1 && n < Pow16(k)
    ensures |Hex(n)| <= k
  {
    if n >= 16 {
      assert k > 1;
      HexLength(n / 16, k - 1);
    }
  }

  function Pow16(k: nat): nat {
    if k == 0 then 1 else 16 * Pow16(k - 1)
  }

  function SleepIf(ms: int): seq<KeyEvent> {
    if ms > 0 then [Sleep(ms)] else []
  }

  /** What `typestr_generic` emits for the visited code points. */
  function GenericOf(cps: seq<nat>, pid: nat, tm: int, isPid: int): seq<KeyEvent> {
    if cps == [] then []
    else [UnicodeType(cps[0], pid, isPid)] + SleepIf(tm) + GenericOf(cps[1..], pid, tm, isPid)
  }

  /** What `typestr_x11` emits for one code point: ASCII through unicodeType
    * (pid and isPid ignored), anything wider as the keysym "U<HEX>". */
  function X11One(cp: nat, tm: int, tm1: int): seq<KeyEvent> {
    if cp < 0x80 then [UnicodeType(cp, 0, 0)] + SleepIf(tm)
    else [InputUtf("U" + Hex(cp))] + SleepIf(tm1) + SleepIf(tm)
  }

  function X11Of(cps: seq<nat>, tm: int, tm1: int): seq<KeyEvent> {
    if cps == [] then [] else X11One(cps[0], tm, tm1) + X11Of(cps[1..], tm, tm1)
  }

  /** Without delays the generic path is one unicodeType call per code point,
    * in order and with the caller's pid and isPid. */
  lemma {:induction false} GenericWithoutDelay(cps: seq<nat>, pid: nat, tm: int, isPid: int)
    requires tm <= 0
    ensures |GenericOf(cps, pid, tm, isPid)| == |cps|
    ensures forall k :: 0 <= k < |cps| ==> GenericOf(cps, pid, tm, isPid)[k] == UnicodeType(cps[k], pid, isPid)
  {
    if cps != [] {
      GenericWithoutDelay(cps[1..], pid, tm, isPid);
    }
  }

  /** The events of `typestr(text, pid, tm, tm1, isPid)` on the build selected by `x11`. */
  function TypeStrEvents(text: Option<seq<byte>>, pid: nat, tm: int, tm1: int, isPid: int, x11: bool): seq<KeyEvent>
    requires text.Some? ==> IsCString(text.value)
  {
    match text
    case None => []
    case Some(s) => if x11 then X11Of(Scan(s), tm, tm1) else GenericOf(Scan(s), pid, tm, isPid)
  }

  /** The loop of `typestr_generic`; the pointer `p` is the suffix it points to. */
  method TypeStrGeneric(text: seq<byte>, pid: nat, tm: int, isPid: int) returns (events: seq<KeyEvent>)
    requires IsCString(text)
    ensures events == GenericOf(Scan(text), pid, tm, isPid)
  {
    var p := text;
    events := [];
    while p[0] != 0
      invariant IsCString(p)
      invariant events + GenericOf(Scan(p), pid, tm, isPid) == GenericOf(Scan(text), pid, tm, isPid)
      decreases |p|
    {
      var d := Next(p);
      var cp, n := d.cp, d.n;
      var step := [UnicodeType(cp, pid, isPid)];
      if tm > 0 {
        step := step + [Sleep(tm)];
      }
      GenericStep(p, pid, tm, isPid);
      AppendAssoc(events, step, GenericOf(Scan(p[n..]), pid, tm, isPid));
      events := events + step;
      p := p[n..];
    }
  }

  /** One iteration of the generic loop: the events of the first code point,
    * then those of the rest of the string. */
  lemma GenericStep(p: seq<byte>, pid: nat, tm: int, isPid: int)
    requires IsCString(p) && p[0] != 0
    ensures IsCString(p[Next(p).n..])
    ensures GenericOf(Scan(p), pid, tm, isPid)
         == [UnicodeType(Next(p).cp, pid, isPid)] + SleepIf(tm) + GenericOf(Scan(p[Next(p).n..]), pid, tm, isPid)
  {
    ScanStep(p);
    var rest := Scan(p[Next(p).n..]);
    assert ([Next(p).cp] + rest)[1..] == rest;
  }

  /** What `typestr_x11` does for one code point: an ASCII one is typed directly;
    * any other goes through its keysym name "U" + hex digits, which reads back to
    * the code point and, for a scalar value, fits the 16-byte buffer. */
  lemma X11OneMeaning(cp: nat, tm: int, tm1: int)
    ensures cp < 0x80 ==>
      X11One(cp, tm, tm1)[0] == UnicodeType(cp, 0, 0)
      && |X11One(cp, tm, tm1)| == (if tm > 0 then 2 else 1)
    ensures cp >= 0x80 ==>
      X11One(cp, tm, tm1)[0].InputUtf?
      && |X11One(cp, tm, tm1)| == 1 + (if tm1 > 0 then 1 else 0) + (if tm > 0 then 1 else 0)
    ensures cp >= 0x80 ==>
      X11One(cp, tm, tm1)[0].keysym[0] == 'U'
      && HexValue(X11One(cp, tm, tm1)[0].keysym[1..]) == cp
    ensures 0x80 <= cp <= MaxCodePoint ==> |X11One(cp, tm, tm1)[0].keysym| + 1 <= 16
    ensures forall k :: 1 <= k < |X11One(cp, tm, tm1)| ==> X11One(cp, tm, tm1)[k].Sleep?
  {
    if cp >= 0x80 {
      var name := "U" + Hex(cp);
      HexRoundTrip(cp);
      assert name[1..] == Hex(cp);
      assert X11One(cp, tm, tm1)[0] == InputUtf(name);
      if cp <= MaxCodePoint {
        HexFitsBuffer(cp);
      }
    }
  }

  /** The calls `typestr_x11` makes for one decoded code point. */
  method X11Keys(cp: nat, tm: int, tm1: int) returns (step: seq<KeyEvent>)
    ensures step == X11One(cp, tm, tm1)
    ensures cp >= 0x80 ==> step[0].InputUtf? && HexValue(step[0].keysym[1..]) == cp
    ensures 0x80 <= cp <= MaxCodePoint ==> |step[0].keysym| + 1 <= 16
    ensures forall k :: 1 <= k < |step| ==> step[k].Sleep?
  {
    if cp < 0x80 {
      step := [UnicodeType(cp, 0, 0)];
      if tm > 0 {
        step := step + [Sleep(tm)];
      }
      assert step == [UnicodeType(cp, 0, 0)] + SleepIf(tm);
    } else {
      step := [InputUtf("U" + Hex(cp))];
      if tm1 > 0 {
        step := step + [Sleep(tm1)];
      }
      if tm > 0 {
        step := step + [Sleep(tm)];
      }
      assert step == [InputUtf("U" + Hex(cp))] + SleepIf(tm1) + SleepIf(tm);
    }
    X11OneMeaning(cp, tm, tm1);
  }

  /** The loop of `typestr_x11`; the pointer `p` is the suffix it points to. */
  method TypeStrX11(text: seq<byte>, tm: int, tm1: int) returns (events: seq<KeyEvent>)
    requires IsCString(text)
    ensures events == X11Of(Scan(text), tm, tm1)
  {
    var p := text;
    events := [];
    while p[0] != 0
      invariant IsCString(p)
      invariant events + X11Of(Scan(p), tm, tm1) == X11Of(Scan(text), tm, tm1)
      decreases |p|
    {
      var d := Next(p);
      var cp, n := d.cp, d.n;
      var step := X11Keys(cp, tm, tm1);
      X11Step(p, tm, tm1);
      AppendAssoc(events, step, X11Of(Scan(p[n..]), tm, tm1));
      events := events + step;
      p := p[n..];
    }
  }

  /** One iteration of the X11 loop. */
  lemma X11Step(p: seq<byte>, tm: int, tm1: int)
    requires IsCString(p) && p[0] != 0
    ensures IsCString(p[Next(p).n..])
    ensures X11Of(Scan(p), tm, tm1) == X11One(Next(p).cp, tm, tm1) + X11Of(Scan(p[Next(p).n..]), tm, tm1)
  {
    ScanStep(p);
    var rest := Scan(p[Next(p).n..]);
    assert ([Next(p).cp] + rest)[1..] == rest;
  }

  /** `typestr`: a NULL text types nothing; otherwise the platform's loop runs. */
  method TypeStr(text: Option<seq<byte>>, pid: nat, tm: int, tm1: int, isPid: int, x11: bool)
    returns (events: seq<KeyEvent>)
    requires text.Some? ==> IsCString(text.value)
    ensures text.None? ==> events == []
    ensures text.Some? && x11 ==> events == X11Of(Scan(text.value), tm, tm1)
    ensures text.Some? && !x11 ==> events == GenericOf(Scan(text.value), pid, tm, isPid)
  {
    if text.None? {
      return [];
    }
    if x11 {
      events := TypeStrX11(text.value, tm, tm1);
    } else {
      events := TypeStrGeneric(text.value, pid, tm, isPid);
    }
  }

  /** `typestr_simple`: `typestr` with pid 0, no per-character delay, the
    * 7 ms X11 delay and isPid 0. */
  method TypeStrSimple(text: Option<seq<byte>>, x11: bool) returns (events: seq<KeyEvent>)
    requires text.Some? ==> IsCString(text.value)
    ensures events == TypeStrEvents(text, 0, 0, 7, 0, x11)
  {
    events := TypeStr(text, 0, 0, 7, 0, x11);
  }
}
