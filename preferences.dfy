/** The preference store of the GUI: the pause hotkey and the denoise method,
  * normalised on the way in, persisted to an INI file and announced by
  * change signals. Qt's whitespace and case rules are taken on ASCII. */
module Preferences {

  /** ASCII whitespace: space, tab, line feed, vertical tab, form feed, carriage return. */
  predicate IsSpace(c: char) {
    c == ' ' || c == '\t' || c == '\n' || c == 11 as char || c == 12 as char || c == '\r'
  }

  predicate AllSpace(s: string) {
    forall k :: 0 <= k < |s| ==> IsSpace(s[k])
  }

  /** `s` without its leading whitespace. */
  function TrimStart(s: string): (r: string)
    ensures |r| <= |s| && r == s[|s| - |r|..]
    ensures AllSpace(s[..|s| - |r|])
    ensures r == [] || !IsSpace(r[0])
    decreases |s|
  {
    if s != [] && IsSpace(s[0]) then TrimStart(s[1..]) else s
  }

  /** `s` without its trailing whitespace. */
  function TrimEnd(s: string): (r: string)
    ensures |r| <= |s| && r == s[..|r|]
    ensures AllSpace(s[|r|..])
    ensures r == [] || !IsSpace(r[|r| - 1])
    decreases |s|
  {
    if s != [] && IsSpace(s[|s| - 1]) then TrimEnd(s[..|s| - 1]) else s
  }

  /** `QString::trimmed`. */
  /** `r` sits at offset `i` of `s` with only whitespace around it. */
  predicate PaddedAt(s: string, r: string, i: int) {
    0 <= i <= |s| - |r| && r == s[i..i + |r|] && AllSpace(s[..i]) && AllSpace(s[i + |r|..])
  }

  /** `s` without its leading and trailing whitespace. */
  function Trim(s: string): (r: string)
    ensures exists i :: PaddedAt(s, r, i)
    ensures r == [] || (!IsSpace(r[0]) && !IsSpace(r[|r| - 1]))
  {
    var t := TrimStart(s);
    var r := TrimEnd(t);
    TrimPadded(s, t, r);
    r
  }

  lemma TrimPadded(s: string, t: string, r: string)
    requires |t| <= |s| && t == s[|s| - |t|..] && AllSpace(s[..|s| - |t|])
    requires |r| <= |t| && r == t[..|r|] && AllSpace(t[|r|..])
    ensures PaddedAt(s, r, |s| - |t|)
  {
    var i := |s| - |t|;
    assert s[i..i + |r|] == r;
    assert s[i + |r|..] == t[|r|..];
  }

  function LowerChar(c: char): char {
    if 'A' <= c <= 'Z' then (c as int - 'A' as int + 'a' as int) as char else c
  }

  /** `QString::toLower`. */
  function ToLower(s: string): (r: string)
    ensures |r| == |s| && forall k :: 0 <= k < |s| ==> r[k] == LowerChar(s[k])
  {
    seq(|s|, k requires 0 <= k < |s| => LowerChar(s[k]))
  }

  const DefaultHotkey := "F12"
  const DefaultMethod := "gtcrn"
  const HotkeyKey := "pause_hotkey"
  const MethodKey := "denoise_method"

  predicate KnownMethod(m: string) {
    m in {"gtcrn", "rnnoise", "none"}
  }

  /** The hotkey `setHotkey` stores: trimmed, and F12 when nothing is left. */
  function NormalizeHotkey(h: string): (r: string)
    ensures r != []
    ensures Trim(h) != [] ==> r == Trim(h)
    ensures Trim(h) == [] ==> r == DefaultHotkey
  {
    var t := Trim(h);
    if t == [] then DefaultHotkey else t
  }

  /** The method `setDenoiseMethod` stores: trimmed and lower-cased, gtcrn
    * unless that is one of the known methods. */
  function NormalizeMethod(m: string): (r: string)
    ensures KnownMethod(r)
    ensures KnownMethod(ToLower(Trim(m))) ==> r == ToLower(Trim(m))
    ensures !KnownMethod(ToLower(Trim(m))) ==> r == DefaultMethod
  {
    var d := ToLower(Trim(m));
    if KnownMethod(d) then d else DefaultMethod
  }

  /** The value `load` reads for a key: the stored one, or the current field. */
  function Stored(ini: map<string, string>, key: string, current: string): string {
    if key in ini then ini[key] else current
  }

  /** The hotkey after `load`: not trimmed, but F12 when empty. */
  function LoadedHotkey(ini: map<string, string>, current: string): (r: string)
    ensures r != []
    ensures Stored(ini, HotkeyKey, current) != [] ==> r == Stored(ini, HotkeyKey, current)
    ensures Stored(ini, HotkeyKey, current) == [] ==> r == DefaultHotkey
  {
    var h := Stored(ini, HotkeyKey, current);
    if h == [] then DefaultHotkey else h
  }

  /** The method after `load`: lower-cased without trimming, then whitelisted. */
  function LoadedMethod(ini: map<string, string>, current: string): (r: string)
    ensures KnownMethod(r)
    ensures KnownMethod(ToLower(Stored(ini, MethodKey, current))) ==> r == ToLower(Stored(ini, MethodKey, current))
    ensures !KnownMethod(ToLower(Stored(ini, MethodKey, current))) ==> r == DefaultMethod
  {
    var d := ToLower(Stored(ini, MethodKey, current));
    if KnownMethod(d) then d else DefaultMethod
  }

  // ---------- Properties of the normalisation ----------

  lemma {:induction false} TrimStartOfSpaces(p: string, s: string)
    requires AllSpace(p)
    ensures TrimStart(p + s) == TrimStart(s)
    decreases |p|
  {
    if p != [] {
      assert (p + s)[0] == p[0];
      assert (p + s)[1..] == p[1..] + s;
      TrimStartOfSpaces(p[1..], s);
    } else {
      assert p + s == s;
    }
  }

  lemma {:induction false} TrimEndOfSpaces(s: string, q: string)
    requires AllSpace(q)
    ensures TrimEnd(s + q) == TrimEnd(s)
    decreases |q|
  {
    if q != [] {
      assert (s + q)[|s + q| - 1] == q[|q| - 1];
      assert (s + q)[..|s + q| - 1] == s + q[..|q| - 1];
      TrimEndOfSpaces(s, q[..|q| - 1]);
    } else {
      assert s + q == s;
    }
  }

  /** Trailing spaces survive the left trim unless the whole string is space. */
  lemma TrimStartThenSpaces(s: string, q: string)
    requires AllSpace(q)
    ensures TrimStart(s + q) == TrimStart(s) + q || (TrimStart(s) == [] && TrimStart(s + q) == [])
  {
    var n := |s| - |TrimStart(s)|;
    assert AllSpace(s[..n]);
    assert s + q == s[..n] + (s[n..] + q);
    TrimStartOfSpaces(s[..n], s[n..] + q);
    if TrimStart(s) != [] {
      assert (s[n..] + q)[0] == s[n];
    } else {
      assert s[n..] + q == q;
      TrimStartOfSpaces(q, []);
      assert q + [] == q;
    }
  }

  /** Whitespace around the text does not matter. */
  lemma TrimPadding(p: string, s: string, q: string)
    requires AllSpace(p) && AllSpace(q)
    ensures Trim(p + s + q) == Trim(s)
  {
    assert p + s + q == p + (s + q);
    TrimStartOfSpaces(p, s + q);
    TrimStartThenSpaces(s, q);
    if TrimStart(s) != [] {
      TrimEndOfSpaces(TrimStart(s), q);
    }
  }

  /** Trimming twice is trimming once. */
  lemma TrimIdempotent(s: string)
    ensures Trim(Trim(s)) == Trim(s)
  {
    var t := Trim(s);
    if t != [] {
      assert TrimStart(t) == t;
      assert TrimEnd(t) == t;
    }
  }

  lemma LowerCharSpace(c: char)
    ensures IsSpace(LowerChar(c)) <==> IsSpace(c)
  {
  }

  lemma {:induction false} TrimStartLower(s: string)
    ensures TrimStart(ToLower(s)) == ToLower(TrimStart(s))
    decreases |s|
  {
    if s != [] {
      LowerCharSpace(s[0]);
      assert ToLower(s)[1..] == ToLower(s[1..]);
      TrimStartLower(s[1..]);
    }
  }

  lemma {:induction false} TrimEndLower(s: string)
    ensures TrimEnd(ToLower(s)) == ToLower(TrimEnd(s))
    decreases |s|
  {
    if s != [] {
      LowerCharSpace(s[|s| - 1]);
      assert ToLower(s)[..|s| - 1] == ToLower(s[..|s| - 1]);
      TrimEndLower(s[..|s| - 1]);
    }
  }

  /** Lower-casing keeps whitespace where it is, so it commutes with trimming. */
  lemma TrimLower(s: string)
    ensures Trim(ToLower(s)) == ToLower(Trim(s))
  {
    TrimStartLower(s);
    TrimEndLower(TrimStart(s));
  }

  /** The stored method does not depend on case or surrounding whitespace:
    * inputs that agree up to those give the same method. */
  lemma MethodInsensitive(p: string, s: string, q: string, t: string)
    requires AllSpace(p) && AllSpace(q) && ToLower(s) == ToLower(t)
    ensures NormalizeMethod(p + s + q) == NormalizeMethod(t)
  {
    TrimPadding(p, s, q);
    TrimLower(s);
    TrimLower(t);
  }

  /** A string without outer whitespace is its own trim. */
  lemma TrimFixed(s: string)
    requires s == [] || (!IsSpace(s[0]) && !IsSpace(s[|s| - 1]))
    ensures Trim(s) == s
  {
  }

  /** A string without capitals is its own lower case. */
  lemma LowerFixed(s: string)
    requires forall k :: 0 <= k < |s| ==> !('A' <= s[k] <= 'Z')
    ensures ToLower(s) == s
  {
  }

  /** The known methods are their own trim ... */
  lemma KnownTrimmed(r: string)
    requires KnownMethod(r)
    ensures Trim(r) == r
  {
    TrimFixed(r);
  }

  /** ... and their own lower case. */
  lemma KnownLower(r: string)
    requires KnownMethod(r)
    ensures ToLower(r) == r
  {
    LowerFixed(r);
  }

  /** " RNNoise " is stored as "rnnoise". */
  lemma MethodExample()
    ensures NormalizeMethod(" RNNoise ") == "rnnoise"
  {
    TrimLowerExample();
  }

  lemma TrimLowerExample()
    ensures ToLower(Trim(" RNNoise ")) == "rnnoise"
  {
    TrimExample();
    LowerExample();
  }

  lemma TrimExample()
    ensures Trim(" RNNoise ") == "RNNoise"
  {
    TrimStartExample();
    TrimEndExample();
  }

  lemma TrimStartExample()
    ensures TrimStart(" RNNoise ") == "RNNoise "
  {
  }

  lemma TrimEndExample()
    ensures TrimEnd("RNNoise ") == "RNNoise"
  {
  }

  lemma LowerExample()
    ensures ToLower("RNNoise") == "rnnoise"
  {
    var w := "RNNoise";
    assert LowerChar(w[0]) == 'r' && LowerChar(w[1]) == 'n' && LowerChar(w[2]) == 'n';
  }

  /** Normalising a normalised hotkey changes nothing. */
  lemma HotkeyIdempotent(h: string)
    ensures NormalizeHotkey(NormalizeHotkey(h)) == NormalizeHotkey(h)
  {
    if Trim(h) == [] {
      DefaultHotkeyTrimmed();
    } else {
      TrimIdempotent(h);
    }
  }

  lemma DefaultHotkeyTrimmed()
    ensures Trim(DefaultHotkey) == DefaultHotkey
  {
    TrimFixed(DefaultHotkey);
  }

  /** Normalising a normalised method changes nothing. */
  lemma MethodIdempotent(m: string)
    ensures NormalizeMethod(NormalizeMethod(m)) == NormalizeMethod(m)
  {
    var r := NormalizeMethod(m);
    KnownTrimmed(r);
    KnownLower(r);
    assert ToLower(Trim(r)) == r;
  }

  /** The fields agree with what `load` would read from the file. */
  predicate InSync(ini: map<string, string>, hotkey: string, denoiseMethod: string) {
    LoadedHotkey(ini, hotkey) == hotkey && LoadedMethod(ini, denoiseMethod) == denoiseMethod
  }

  /** Loading puts the fields in sync with the file, so a second load changes nothing. */
  lemma LoadSyncs(ini: map<string, string>, hotkey: string, denoiseMethod: string)
    ensures InSync(ini, LoadedHotkey(ini, hotkey), LoadedMethod(ini, denoiseMethod))
  {
    var m := LoadedMethod(ini, denoiseMethod);
    if MethodKey !in ini {
      KnownLower(m);
    }
  }

  /** A hotkey that `setHotkey` writes is what `load` reads back. */
  lemma HotkeyRoundTrip(ini: map<string, string>, h: string, current: string)
    ensures LoadedHotkey(ini[HotkeyKey := NormalizeHotkey(h)], current) == NormalizeHotkey(h)
  {
  }

  /** A method that `setDenoiseMethod` writes is what `load` reads back. */
  lemma MethodRoundTrip(ini: map<string, string>, m: string, current: string)
    ensures LoadedMethod(ini[MethodKey := NormalizeMethod(m)], current) == NormalizeMethod(m)
  {
    KnownLower(NormalizeMethod(m));
  }

  /** `setHotkey` keeps the fields in sync with the file. */
  lemma SetHotkeyKeepsSync(ini: map<string, string>, hotkey: string, denoiseMethod: string, h: string)
    requires InSync(ini, hotkey, denoiseMethod)
    ensures var n := NormalizeHotkey(h);
      n == hotkey || InSync(ini[HotkeyKey := n], n, denoiseMethod)
  {
    var n := NormalizeHotkey(h);
    HotkeyRoundTrip(ini, h, n);
    HotkeyWriteKeepsMethod(ini, n, denoiseMethod);
  }

  /** Writing the hotkey entry leaves the loaded method as it was. */
  lemma HotkeyWriteKeepsMethod(ini: map<string, string>, n: string, denoiseMethod: string)
    ensures LoadedMethod(ini[HotkeyKey := n], denoiseMethod) == LoadedMethod(ini, denoiseMethod)
  {
    assert Stored(ini[HotkeyKey := n], MethodKey, denoiseMethod) == Stored(ini, MethodKey, denoiseMethod);
  }

  /** Writing the method entry leaves the loaded hotkey as it was. */
  lemma MethodWriteKeepsHotkey(ini: map<string, string>, n: string, hotkey: string)
    ensures LoadedHotkey(ini[MethodKey := n], hotkey) == LoadedHotkey(ini, hotkey)
  {
    assert Stored(ini[MethodKey := n], HotkeyKey, hotkey) == Stored(ini, HotkeyKey, hotkey);
  }

  /** `setDenoiseMethod` keeps the fields in sync with the file. */
  lemma SetMethodKeepsSync(ini: map<string, string>, hotkey: string, denoiseMethod: string, m: string)
    requires InSync(ini, hotkey, denoiseMethod)
    ensures var n := NormalizeMethod(m);
      n == denoiseMethod || InSync(ini[MethodKey := n], hotkey, n)
  {
    var n := NormalizeMethod(m);
    MethodRoundTrip(ini, m, n);
    MethodWriteKeepsHotkey(ini, n, hotkey);
  }

  /** A settings write: key and value. */
  datatype Write = Write(key: string, value: string)

  /** `PreferenceManager` with its two fields; the INI file is a map, each
    * `setValue` and `sync` pair is one entry of `writes`, and the signals
    * are the values they carried. */
  class PreferenceManager {
    var hotkey: string
    var denoiseMethod: string
    var ini: map<string, string>
    var writes: seq<Write>
    var hotkeySignals: seq<string>
    var methodSignals: seq<string>

    predicate Synced()
      reads this
    {
      InSync(ini, hotkey, denoiseMethod)
    }

    /** The fields start at their defaults; the file is whatever is on disk. */
    constructor (ini: map<string, string>)
      ensures hotkey == DefaultHotkey && denoiseMethod == DefaultMethod
      ensures this.ini == ini && writes == [] && hotkeySignals == [] && methodSignals == []
    {
      hotkey := DefaultHotkey;
      denoiseMethod := DefaultMethod;
      this.ini := ini;
      writes := [];
      hotkeySignals := [];
      methodSignals := [];
    }

    /** `load`: read both settings, falling back on the current values. */
    method Load()
      modifies this`hotkey, this`denoiseMethod
      ensures hotkey == LoadedHotkey(ini, old(hotkey)) && hotkey != []
      ensures denoiseMethod == LoadedMethod(ini, old(denoiseMethod)) && KnownMethod(denoiseMethod)
      ensures Synced()
    {
      var h := if HotkeyKey in ini then ini[HotkeyKey] else hotkey;
      if h == [] {
        h := DefaultHotkey;
      }
      LoadSyncs(ini, hotkey, denoiseMethod);
      hotkey := h;
      var dm := ToLower(if MethodKey in ini then ini[MethodKey] else denoiseMethod);
      if dm != "gtcrn" && dm != "rnnoise" && dm != "none" {
        dm := DefaultMethod;
      }
      denoiseMethod := dm;
    }

    /** `setHotkey`: store the normalised hotkey; on a change, write it once
      * and signal it once. */
    method SetHotkey(h: string)
      modifies this`hotkey, this`ini, this`writes, this`hotkeySignals
      ensures hotkey == NormalizeHotkey(h) && hotkey != []
      ensures NormalizeHotkey(h) == old(hotkey) ==>
        ini == old(ini) && writes == old(writes) && hotkeySignals == old(hotkeySignals)
      ensures NormalizeHotkey(h) != old(hotkey) ==>
        ini == old(ini)[HotkeyKey := hotkey] && writes == old(writes) + [Write(HotkeyKey, hotkey)]
        && hotkeySignals == old(hotkeySignals) + [hotkey]
      ensures old(Synced()) ==> Synced()
    {
      var newHotkey := NormalizeHotkey(h);
      if Synced() {
        SetHotkeyKeepsSync(ini, hotkey, denoiseMethod, h);
      }
      StoreHotkey(newHotkey);
    }

    /** The write and the signal of `setHotkey` for an already normalised value. */
    method StoreHotkey(n: string)
      modifies this`hotkey, this`ini, this`writes, this`hotkeySignals
      ensures hotkey == n
      ensures n == old(hotkey) ==> ini == old(ini) && writes == old(writes) && hotkeySignals == old(hotkeySignals)
      ensures n != old(hotkey) ==>
        ini == old(ini)[HotkeyKey := n] && writes == old(writes) + [Write(HotkeyKey, n)]
        && hotkeySignals == old(hotkeySignals) + [n]
    {
      if n == hotkey {
        return;
      }
      hotkey := n;
      ini := ini[HotkeyKey := n];
      writes := writes + [Write(HotkeyKey, n)];
      hotkeySignals := hotkeySignals + [n];
    }

    /** `setDenoiseMethod`: store the normalised method; on a change, write
      * it once and signal it once. */
    method SetDenoiseMethod(m: string)
      modifies this`denoiseMethod, this`ini, this`writes, this`methodSignals
      ensures denoiseMethod == NormalizeMethod(m) && KnownMethod(denoiseMethod)
      ensures NormalizeMethod(m) == old(denoiseMethod) ==>
        ini == old(ini) && writes == old(writes) && methodSignals == old(methodSignals)
      ensures NormalizeMethod(m) != old(denoiseMethod) ==>
        ini == old(ini)[MethodKey := denoiseMethod] && writes == old(writes) + [Write(MethodKey, denoiseMethod)]
        && methodSignals == old(methodSignals) + [denoiseMethod]
      ensures old(Synced()) ==> Synced()
    {
      var dm := NormalizeMethod(m);
      if Synced() {
        SetMethodKeepsSync(ini, hotkey, denoiseMethod, m);
      }
      StoreMethod(dm);
    }

    /** The write and the signal of `setDenoiseMethod` for an already normalised value. */
    method StoreMethod(n: string)
      modifies this`denoiseMethod, this`ini, this`writes, this`methodSignals
      ensures denoiseMethod == n
      ensures n == old(denoiseMethod) ==> ini == old(ini) && writes == old(writes) && methodSignals == old(methodSignals)
      ensures n != old(denoiseMethod) ==>
        ini == old(ini)[MethodKey := n] && writes == old(writes) + [Write(MethodKey, n)]
        && methodSignals == old(methodSignals) + [n]
    {
      if n == denoiseMethod {
        return;
      }
      denoiseMethod := n;
      ini := ini[MethodKey := n];
      writes := writes + [Write(MethodKey, n)];
      methodSignals := methodSignals + [n];
    }

    /** Setting the same hotkey twice is setting it once. */
    method SetHotkeyTwice(h: string)
      modifies this`hotkey, this`ini, this`writes, this`hotkeySignals
      ensures hotkey == NormalizeHotkey(h)
      ensures NormalizeHotkey(h) == old(hotkey) ==>
        ini == old(ini) && writes == old(writes) && hotkeySignals == old(hotkeySignals)
      ensures NormalizeHotkey(h) != old(hotkey) ==>
        ini == old(ini)[HotkeyKey := hotkey] && writes == old(writes) + [Write(HotkeyKey, hotkey)]
        && hotkeySignals == old(hotkeySignals) + [hotkey]
    {
      SetHotkey(h);
      SetHotkey(h);
    }

    /** Setting the same method twice is setting it once. */
    method SetDenoiseMethodTwice(m: string)
      modifies this`denoiseMethod, this`ini, this`writes, this`methodSignals
      ensures denoiseMethod == NormalizeMethod(m)
      ensures NormalizeMethod(m) == old(denoiseMethod) ==>
        ini == old(ini) && writes == old(writes) && methodSignals == old(methodSignals)
      ensures NormalizeMethod(m) != old(denoiseMethod) ==>
        ini == old(ini)[MethodKey := denoiseMethod] && writes == old(writes) + [Write(MethodKey, denoiseMethod)]
        && methodSignals == old(methodSignals) + [denoiseMethod]
    {
      SetDenoiseMethod(m);
      SetDenoiseMethod(m);
    }

    /** Once loaded, a hotkey that is set survives a reload, and so does the method. */
    method SetHotkeyThenLoad(h: string)
      requires Synced()
      modifies this`hotkey, this`denoiseMethod, this`ini, this`writes, this`hotkeySignals
      ensures hotkey == NormalizeHotkey(h) && denoiseMethod == old(denoiseMethod)
    {
      SetHotkey(h);
      Load();
    }

    /** Once loaded, a method that is set survives a reload, and so does the hotkey. */
    method SetDenoiseMethodThenLoad(m: string)
      requires Synced()
      modifies this`hotkey, this`denoiseMethod, this`ini, this`writes, this`methodSignals
      ensures denoiseMethod == NormalizeMethod(m) && hotkey == old(hotkey)
    {
      SetDenoiseMethod(m);
      ghost var n := denoiseMethod;
      ghost var k := hotkey;
      assert LoadedMethod(ini, n) == n && LoadedHotkey(ini, k) == k by {
        assert Synced();
      }
      Load();
    }
  }
}
