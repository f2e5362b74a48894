/** The voice commands of the worker and what it does with recognized text:
  * classification against four fixed phrases, the change to the pause flag,
  * the full-stop normalisation and the decision whether the text is typed. */
module Commands {
  import opened Wrappers
  import opened Utf8
  import opened Search

  /** The UTF-8 bytes of the pause phrases 停止语音输入 and 停止输入. */
  const StopVoiceInput: seq<byte> :=
    [0xE5, 0x81, 0x9C, 0xE6, 0xAD, 0xA2, 0xE8, 0xAF, 0xAD, 0xE9, 0x9F, 0xB3, 0xE8, 0xBE, 0x93, 0xE5, 0x85, 0xA5]
  const StopInput: seq<byte> :=
    [0xE5, 0x81, 0x9C, 0xE6, 0xAD, 0xA2, 0xE8, 0xBE, 0x93, 0xE5, 0x85, 0xA5]

  /** The UTF-8 bytes of the resume phrases 开启语音输入 and 启动语音输入. */
  const OpenVoiceInput: seq<byte> :=
    [0xE5, 0xBC, 0x80, 0xE5, 0x90, 0xAF, 0xE8, 0xAF, 0xAD, 0xE9, 0x9F, 0xB3, 0xE8, 0xBE, 0x93, 0xE5, 0x85, 0xA5]
  const StartVoiceInput: seq<byte> :=
    [0xE5, 0x90, 0xAF, 0xE5, 0x8A, 0xA8, 0xE8, 0xAF, 0xAD, 0xE9, 0x9F, 0xB3, 0xE8, 0xBE, 0x93, 0xE5, 0x85, 0xA5]

  /** The byte constants are the UTF-8 encodings of the phrases. Each proof
    * splits the phrase into its characters, the constant into three-byte
    * groups, and matches them with the encoding of each character. */
  lemma StopVoiceInputIsUtf8()
    ensures StopVoiceInput == EncodeString("停止语音输入")
  {
    StopVoiceInputByCharacter();
    StopVoiceInputInGroups();
    assert Encode('停' as int) == [0xE5, 0x81, 0x9C] by {
      Encode3Fields(5, 1, 28);
    }
    assert Encode('止' as int) == [0xE6, 0xAD, 0xA2] by {
      Encode3Fields(6, 45, 34);
    }
    assert Encode('语' as int) == [0xE8, 0xAF, 0xAD] by {
      Encode3Fields(8, 47, 45);
    }
    assert Encode('音' as int) == [0xE9, 0x9F, 0xB3] by {
      Encode3Fields(9, 31, 51);
    }
    assert Encode('输' as int) == [0xE8, 0xBE, 0x93] by {
      Encode3Fields(8, 62, 19);
    }
    assert Encode('入' as int) == [0xE5, 0x85, 0xA5] by {
      Encode3Fields(5, 5, 37);
    }
  }

  lemma StopVoiceInputByCharacter()
    ensures EncodeString("停止语音输入") == Encode('停' as int) + (Encode('止' as int) + (Encode('语' as int) + (Encode('音' as int) + (Encode('输' as int) + Encode('入' as int)))))
  {
    assert EncodeString("停止语音输入") == Encode('停' as int) + EncodeString("止语音输入");
    assert EncodeString("止语音输入") == Encode('止' as int) + EncodeString("语音输入");
    assert EncodeString("语音输入") == Encode('语' as int) + EncodeString("音输入");
    assert EncodeString("音输入") == Encode('音' as int) + EncodeString("输入");
    assert EncodeString("输入") == Encode('输' as int) + EncodeString("入");
    assert EncodeString("入") == Encode('入' as int);
  }

  lemma StopVoiceInputInGroups()
    ensures StopVoiceInput == [0xE5, 0x81, 0x9C] + ([0xE6, 0xAD, 0xA2] + ([0xE8, 0xAF, 0xAD] + ([0xE9, 0x9F, 0xB3] + ([0xE8, 0xBE, 0x93] + [0xE5, 0x85, 0xA5]))))
  {
  }

  lemma StopInputIsUtf8()
    ensures StopInput == EncodeString("停止输入")
  {
    StopInputByCharacter();
    StopInputInGroups();
    assert Encode('停' as int) == [0xE5, 0x81, 0x9C] by {
      Encode3Fields(5, 1, 28);
    }
    assert Encode('止' as int) == [0xE6, 0xAD, 0xA2] by {
      Encode3Fields(6, 45, 34);
    }
    assert Encode('输' as int) == [0xE8, 0xBE, 0x93] by {
      Encode3Fields(8, 62, 19);
    }
    assert Encode('入' as int) == [0xE5, 0x85, 0xA5] by {
      Encode3Fields(5, 5, 37);
    }
  }

  lemma StopInputByCharacter()
    ensures EncodeString("停止输入") == Encode('停' as int) + (Encode('止' as int) + (Encode('输' as int) + Encode('入' as int)))
  {
    assert EncodeString("停止输入") == Encode('停' as int) + EncodeString("止输入");
    assert EncodeString("止输入") == Encode('止' as int) + EncodeString("输入");
    assert EncodeString("输入") == Encode('输' as int) + EncodeString("入");
    assert EncodeString("入") == Encode('入' as int);
  }

  lemma StopInputInGroups()
    ensures StopInput == [0xE5, 0x81, 0x9C] + ([0xE6, 0xAD, 0xA2] + ([0xE8, 0xBE, 0x93] + [0xE5, 0x85, 0xA5]))
  {
  }

  lemma OpenVoiceInputIsUtf8()
    ensures OpenVoiceInput == EncodeString("开启语音输入")
  {
    OpenVoiceInputByCharacter();
    OpenVoiceInputInGroups();
    assert Encode('开' as int) == [0xE5, 0xBC, 0x80] by {
      Encode3Fields(5, 60, 0);
    }
    assert Encode('启' as int) == [0xE5, 0x90, 0xAF] by {
      Encode3Fields(5, 16, 47);
    }
    assert Encode('语' as int) == [0xE8, 0xAF, 0xAD] by {
      Encode3Fields(8, 47, 45);
    }
    assert Encode('音' as int) == [0xE9, 0x9F, 0xB3] by {
      Encode3Fields(9, 31, 51);
    }
    assert Encode('输' as int) == [0xE8, 0xBE, 0x93] by {
      Encode3Fields(8, 62, 19);
    }
    assert Encode('入' as int) == [0xE5, 0x85, 0xA5] by {
      Encode3Fields(5, 5, 37);
    }
  }

  lemma OpenVoiceInputByCharacter()
    ensures EncodeString("开启语音输入") == Encode('开' as int) + (Encode('启' as int) + (Encode('语' as int) + (Encode('音' as int) + (Encode('输' as int) + Encode('入' as int)))))
  {
    assert EncodeString("开启语音输入") == Encode('开' as int) + EncodeString("启语音输入");
    assert EncodeString("启语音输入") == Encode('启' as int) + EncodeString("语音输入");
    assert EncodeString("语音输入") == Encode('语' as int) + EncodeString("音输入");
    assert EncodeString("音输入") == Encode('音' as int) + EncodeString("输入");
    assert EncodeString("输入") == Encode('输' as int) + EncodeString("入");
    assert EncodeString("入") == Encode('入' as int);
  }

  lemma OpenVoiceInputInGroups()
    ensures OpenVoiceInput == [0xE5, 0xBC, 0x80] + ([0xE5, 0x90, 0xAF] + ([0xE8, 0xAF, 0xAD] + ([0xE9, 0x9F, 0xB3] + ([0xE8, 0xBE, 0x93] + [0xE5, 0x85, 0xA5]))))
  {
  }

  lemma StartVoiceInputIsUtf8()
    ensures StartVoiceInput == EncodeString("启动语音输入")
  {
    StartVoiceInputByCharacter();
    StartVoiceInputInGroups();
    assert Encode('启' as int) == [0xE5, 0x90, 0xAF] by {
      Encode3Fields(5, 16, 47);
    }
    assert Encode('动' as int) == [0xE5, 0x8A, 0xA8] by {
      Encode3Fields(5, 10, 40);
    }
    assert Encode('语' as int) == [0xE8, 0xAF, 0xAD] by {
      Encode3Fields(8, 47, 45);
    }
    assert Encode('音' as int) == [0xE9, 0x9F, 0xB3] by {
      Encode3Fields(9, 31, 51);
    }
    assert Encode('输' as int) == [0xE8, 0xBE, 0x93] by {
      Encode3Fields(8, 62, 19);
    }
    assert Encode('入' as int) == [0xE5, 0x85, 0xA5] by {
      Encode3Fields(5, 5, 37);
    }
  }

  lemma StartVoiceInputByCharacter()
    ensures EncodeString("启动语音输入") == Encode('启' as int) + (Encode('动' as int) + (Encode('语' as int) + (Encode('音' as int) + (Encode('输' as int) + Encode('入' as int)))))
  {
    assert EncodeString("启动语音输入") == Encode('启' as int) + EncodeString("动语音输入");
    assert EncodeString("动语音输入") == Encode('动' as int) + EncodeString("语音输入");
    assert EncodeString("语音输入") == Encode('语' as int) + EncodeString("音输入");
    assert EncodeString("音输入") == Encode('音' as int) + EncodeString("输入");
    assert EncodeString("输入") == Encode('输' as int) + EncodeString("入");
    assert EncodeString("入") == Encode('入' as int);
  }

  lemma StartVoiceInputInGroups()
    ensures StartVoiceInput == [0xE5, 0x90, 0xAF] + ([0xE5, 0x8A, 0xA8] + ([0xE8, 0xAF, 0xAD] + ([0xE9, 0x9F, 0xB3] + ([0xE8, 0xBE, 0x93] + [0xE5, 0x85, 0xA5]))))
  {
  }

  datatype Command = PauseCommand | ResumeCommand | NotCommand

  ghost predicate HasPausePhrase(text: seq<byte>) {
    Contains(text, StopVoiceInput) || Contains(text, StopInput)
  }

  ghost predicate HasResumePhrase(text: seq<byte>) {
    Contains(text, OpenVoiceInput) || Contains(text, StartVoiceInput)
  }

  /** The branch `HandleVoiceCommand` takes: the pause phrases are looked for
    * first, so they win over a resume phrase in the same text. */
  function Classify(text: seq<byte>): (c: Command)
    ensures c == PauseCommand <==> HasPausePhrase(text)
    ensures c == ResumeCommand <==> !HasPausePhrase(text) && HasResumePhrase(text)
    ensures c == NotCommand <==> !HasPausePhrase(text) && !HasResumePhrase(text)
  {
    FindFromStart(text, StopVoiceInput);
    FindFromStart(text, StopInput);
    FindFromStart(text, OpenVoiceInput);
    FindFromStart(text, StartVoiceInput);
    if Find(text, StopVoiceInput, 0).Some? || Find(text, StopInput, 0).Some? then PauseCommand
    else if Find(text, OpenVoiceInput, 0).Some? || Find(text, StartVoiceInput, 0).Some? then ResumeCommand
    else NotCommand
  }

  /** The pause flag after a command: set by a pause phrase, cleared by a
    * resume phrase, untouched otherwise. */
  function AfterCommand(paused: bool, c: Command): bool {
    match c
    case PauseCommand => true
    case ResumeCommand => false
    case NotCommand => paused
  }

  /** A command applied twice has the effect of applying it once, and the
    * second application changes nothing (so it fires no display sync). */
  lemma CommandIdempotent(paused: bool, text: seq<byte>)
    ensures AfterCommand(AfterCommand(paused, Classify(text)), Classify(text)) == AfterCommand(paused, Classify(text))
  {
  }

  /** 请停止输入谢谢 pauses: the phrase 停止输入 sits inside it. */
  lemma PausePhraseInSentence()
    ensures Classify([0xE8, 0xAF, 0xB7] + StopInput + [0xE8, 0xB0, 0xA2, 0xE8, 0xB0, 0xA2]) == PauseCommand
  {
    ContainsSelf(StopInput);
    ContainsInContext([0xE8, 0xAF, 0xB7], StopInput, [0xE8, 0xB0, 0xA2, 0xE8, 0xB0, 0xA2], StopInput);
  }

  /** The resume phrase 开启语音输入 on its own is a resume command. */
  lemma ResumePhraseAlone()
    ensures Classify(OpenVoiceInput) == ResumeCommand
  {
    ContainsSelf(OpenVoiceInput);
    forall k: nat ensures !MatchAt(OpenVoiceInput, StopInput, k) {
      if k + |StopInput| <= |OpenVoiceInput| {
        assert OpenVoiceInput[k..k + |StopInput|][0] == OpenVoiceInput[k];
        assert OpenVoiceInput[k..k + |StopInput|][1] == OpenVoiceInput[k + 1];
        assert !(OpenVoiceInput[k] == 0xE5 && OpenVoiceInput[k + 1] == 0x81);
      }
    }
    forall k: nat ensures !MatchAt(OpenVoiceInput, StopVoiceInput, k) {
      if k + |StopVoiceInput| <= |OpenVoiceInput| {
        assert OpenVoiceInput[k..k + |StopVoiceInput|][1] == OpenVoiceInput[k + 1];
      }
    }
  }

  // ---------- The full-stop normalisation ----------

  /** The UTF-8 bytes of the ideographic full stop (U+3002) and of ','. */
  const FullStop: seq<byte> := [0xE3, 0x80, 0x82]
  const Comma: byte := 0x2C

  /** Every full stop, scanning from the front, replaced by one comma. */
  function ReplaceFullStops(s: seq<byte>): seq<byte>
    decreases |s|
  {
    if |s| < 3 then s
    else if s[..3] == FullStop then [Comma] + ReplaceFullStops(s[3..])
    else [s[0]] + ReplaceFullStops(s[1..])
  }

  /** The number of positions where a full stop starts. */
  function Occurrences(s: seq<byte>): nat
    decreases |s|
  {
    if |s| < 3 then 0
    else (if s[..3] == FullStop then 1 else 0) + Occurrences(s[1..])
  }

  lemma MatchShift(u: seq<byte>, k: nat)
    requires |u| > 0
    ensures MatchAt(u[1..], FullStop, k) <==> MatchAt(u, FullStop, k + 1)
  {
    if k + 3 <= |u| - 1 {
      assert u[1..][k..k + 3] == u[k + 1..k + 4];
    }
  }

  /** A string that does not start with a full stop keeps its first byte. */
  lemma ReplaceCleanHead(u: seq<byte>)
    requires |u| > 0 && !MatchAt(u, FullStop, 0)
    ensures ReplaceFullStops(u) == [u[0]] + ReplaceFullStops(u[1..])
  {
    if |u| < 3 {
      assert ReplaceFullStops(u[1..]) == u[1..];
      assert u == [u[0]] + u[1..];
    }
  }

  /** A prefix free of full stops passes through the replacement unchanged. */
  lemma {:induction false} ReplaceSkipsPrefix(u: seq<byte>, j: nat)
    requires j <= |u|
    requires forall k: nat :: k < j ==> !MatchAt(u, FullStop, k)
    ensures ReplaceFullStops(u) == u[..j] + ReplaceFullStops(u[j..])
    decreases j
  {
    if j == 0 {
      assert u[j..] == u;
    } else {
      ReplaceCleanHead(u);
      CleanAfterHead(u, j);
      ReplaceSkipsPrefix(u[1..], j - 1);
      assert u[1..][..j - 1] == u[1..j];
      assert u[1..][j - 1..] == u[j..];
      AppendAssoc([u[0]], u[1..j], ReplaceFullStops(u[j..]));
      assert [u[0]] + u[1..j] == u[..j];
    }
  }

  /** Dropping the first byte keeps a clean prefix clean, one byte shorter. */
  lemma CleanAfterHead(u: seq<byte>, j: nat)
    requires 0 < j <= |u|
    requires forall k: nat :: k < j ==> !MatchAt(u, FullStop, k)
    ensures forall k: nat :: k < j - 1 ==> !MatchAt(u[1..], FullStop, k)
  {
    forall k: nat | k < j - 1
      ensures !MatchAt(u[1..], FullStop, k)
    {
      MatchShift(u, k);
    }
  }

  /** A string that starts with a full stop starts its replacement with a comma. */
  lemma ReplaceAtStart(v: seq<byte>)
    requires |v| >= 3 && v[..3] == FullStop
    ensures ReplaceFullStops(v) == [Comma] + ReplaceFullStops(v[3..])
  {
  }

  /** One round of the loop keeps the already-rewritten prefix plus the
    * replacement of the rest equal to the replacement of the original. */
  lemma NormalizeStep(text: seq<byte>, pos: nat, q: nat)
    requires pos <= |text| && Find(text, FullStop, pos) == Some(q)
    ensures q + 1 <= |text[..q] + [Comma] + text[q + 3..]|
    ensures var next := text[..q] + [Comma] + text[q + 3..];
      next[..q + 1] + ReplaceFullStops(next[q + 1..]) == text[..pos] + ReplaceFullStops(text[pos..])
  {
    SuffixReplace(text, pos, q);
    var rest := ReplaceFullStops(text[q + 3..]);
    var next := text[..q] + [Comma] + text[q + 3..];
    assert next[..q + 1] == text[..q] + [Comma];
    assert next[q + 1..] == text[q + 3..];
    assert text[..q] == text[..pos] + text[pos..q];
    AppendAssoc(text[..pos], text[pos..q], [Comma]);
    AppendAssoc(text[..pos], text[pos..q] + [Comma], rest);
  }

  /** The rest of the text from `pos` is clean up to the full stop at `q`. */
  lemma SuffixReplace(text: seq<byte>, pos: nat, q: nat)
    requires pos <= q && MatchAt(text, FullStop, q)
    requires forall k: nat :: pos <= k < q ==> !MatchAt(text, FullStop, k)
    ensures ReplaceFullStops(text[pos..]) == text[pos..q] + [Comma] + ReplaceFullStops(text[q + 3..])
  {
    var u := text[pos..];
    var d := q - pos;
    forall k: nat | k < d
      ensures !MatchAt(u, FullStop, k)
    {
      NoMatchInSuffix(text, pos, k);
    }
    ReplaceSkipsPrefix(u, d);
    assert u[..d] == text[pos..q];
    assert u[d..] == text[q..];
    assert text[q..][..3] == text[q..q + 3];
    ReplaceAtStart(text[q..]);
    assert text[q..][3..] == text[q + 3..];
    AppendAssoc(text[pos..q], [Comma], ReplaceFullStops(text[q + 3..]));
  }

  /** When no full stop is left at or after `pos`, the rest is kept as it is. */
  lemma NormalizeDone(text: seq<byte>, pos: nat)
    requires pos <= |text| && Find(text, FullStop, pos) == None
    ensures text[..pos] + ReplaceFullStops(text[pos..]) == text
  {
    var u := text[pos..];
    forall k: nat
      ensures !MatchAt(u, FullStop, k)
    {
      NoMatchInSuffix(text, pos, k);
    }
    ReplaceWithoutFullStop(u);
    assert text[..pos] + u == text;
  }

  lemma NoMatchInSuffix(text: seq<byte>, pos: nat, k: nat)
    requires pos <= |text| && !MatchAt(text, FullStop, pos + k)
    ensures !MatchAt(text[pos..], FullStop, k)
  {
    if k + 3 <= |text| - pos {
      assert text[pos..][k..k + 3] == text[pos + k..pos + k + 3];
    }
  }

  /** The loop that rewrites `text` in place: find the next full stop at or
    * after `pos`, replace it by a comma and continue one byte later. */
  method Normalize(orig: seq<byte>) returns (text: seq<byte>)
    ensures text == ReplaceFullStops(orig)
  {
    text := orig;
    var pos: nat := 0;
    var found := Find(text, FullStop, pos);
    while found.Some?
      invariant pos <= |text|
      invariant found == Find(text, FullStop, pos)
      invariant text[..pos] + ReplaceFullStops(text[pos..]) == ReplaceFullStops(orig)
      decreases |text| - pos
    {
      var q := found.value;
      NormalizeStep(text, pos, q);
      text := text[..q] + [Comma] + text[q + 3..];
      pos := q + 1;
      found := Find(text, FullStop, pos);
    }
    NormalizeDone(text, pos);
  }

  /** The first byte of the replacement is either a comma or the first input byte. */
  lemma ReplaceHead(u: seq<byte>)
    requires |u| > 0
    ensures |ReplaceFullStops(u)| > 0
    ensures ReplaceFullStops(u)[0] == Comma || ReplaceFullStops(u)[0] == u[0]
    ensures ReplaceFullStops(u)[0] == Comma && u[0] != Comma ==> |u| >= 3 && u[..3] == FullStop
    ensures ReplaceFullStops(u)[0] != Comma ==> ReplaceFullStops(u) == [u[0]] + ReplaceFullStops(u[1..])
  {
  }

  /** No full stop is left in the output. */
  lemma {:induction false} NoFullStopLeft(s: seq<byte>)
    ensures forall k: nat :: !MatchAt(ReplaceFullStops(s), FullStop, k)
    decreases |s|
  {
    var r := ReplaceFullStops(s);
    if |s| < 3 {
      forall k: nat ensures !MatchAt(r, FullStop, k) {
      }
    } else if s[..3] == FullStop {
      NoFullStopLeft(s[3..]);
      forall k: nat ensures !MatchAt(r, FullStop, k) {
        if k > 0 {
          MatchShift(r, k - 1);
          assert r[1..] == ReplaceFullStops(s[3..]);
        }
      }
    } else {
      NoFullStopLeft(s[1..]);
      var t := ReplaceFullStops(s[1..]);
      assert r == [s[0]] + t;
      forall k: nat ensures !MatchAt(r, FullStop, k) {
        if k > 0 {
          MatchShift(r, k - 1);
          assert r[1..] == t;
        } else {
          ReplaceHead(s[1..]);
          if t[0] == Comma {
            assert r[1] == Comma;
          } else {
            var t2 := ReplaceFullStops(s[2..]);
            assert s[1..][1..] == s[2..];
            assert t == [s[1]] + t2;
            ReplaceHead(s[2..]);
            if t2[0] == Comma {
              assert r[2] == Comma;
            } else {
              assert r[..3] == s[..3];
            }
          }
        }
      }
    }
  }

  /** Each full stop (three bytes) becomes one byte. */
  lemma {:induction false} ReplaceLength(s: seq<byte>)
    ensures |ReplaceFullStops(s)| == |s| - 2 * Occurrences(s)
    decreases |s|
  {
    if |s| >= 3 {
      if s[..3] == FullStop {
        ReplaceLength(s[3..]);
        if |s[1..]| >= 3 {
          assert s[1..][..3] != FullStop by {
            assert s[1..][0] == s[1];
          }
        }
        assert s[1..][1..] == s[2..];
        if |s[2..]| >= 3 {
          assert s[2..][..3] != FullStop by {
            assert s[2..][0] == s[2];
          }
        }
        assert s[2..][1..] == s[3..];
        assert Occurrences(s[1..]) == Occurrences(s[2..]) == Occurrences(s[3..]);
      } else {
        ReplaceLength(s[1..]);
      }
    }
  }

  /** A text without a full stop is typed exactly as recognized. */
  lemma {:induction false} ReplaceWithoutFullStop(s: seq<byte>)
    requires forall k: nat :: !MatchAt(s, FullStop, k)
    ensures ReplaceFullStops(s) == s
  {
    ReplaceSkipsPrefix(s, |s|);
    assert s[..|s|] == s;
  }

  /** Normalising twice is normalising once. */
  lemma ReplaceIdempotent(s: seq<byte>)
    ensures ReplaceFullStops(ReplaceFullStops(s)) == ReplaceFullStops(s)
  {
    NoFullStopLeft(s);
    ReplaceWithoutFullStop(ReplaceFullStops(s));
  }

  /** A three-byte character other than the full stop is kept as it is. */
  lemma ReplaceKeepsChar(c: seq<byte>, rest: seq<byte>)
    requires PlainChar(c)
    ensures ReplaceFullStops(c + rest) == c + ReplaceFullStops(rest)
  {
    var s := c + rest;
    assert s[..3][0] == c[0];
    assert ReplaceFullStops(s) == [c[0]] + ReplaceFullStops(s[1..]);
    if |s[1..]| >= 3 {
      assert s[1..][..3][0] == c[1];
    }
    assert s[1..][1..] == s[2..];
    assert ReplaceFullStops(s[1..]) == [c[1]] + ReplaceFullStops(s[2..]);
    if |s[2..]| >= 3 {
      assert s[2..][..3][0] == c[2];
    }
    assert s[2..][1..] == rest;
    assert ReplaceFullStops(s[2..]) == [c[2]] + ReplaceFullStops(rest);
    assert c == [c[0]] + [c[1]] + [c[2]];
  }

  /** A full stop becomes a comma. */
  lemma ReplaceFullStopChar(rest: seq<byte>)
    ensures ReplaceFullStops(FullStop + rest) == [Comma] + ReplaceFullStops(rest)
  {
    assert (FullStop + rest)[..3] == FullStop;
    assert (FullStop + rest)[3..] == rest;
  }

  /** The UTF-8 bytes of 你, 好, 世 and 界. */
  const Ni: seq<byte> := [0xE4, 0xBD, 0xA0]
  const Hao: seq<byte> := [0xE5, 0xA5, 0xBD]
  const Shi: seq<byte> := [0xE4, 0xB8, 0x96]
  const Jie: seq<byte> := [0xE7, 0x95, 0x8C]

  /** A three-byte character that cannot start or overlap a full stop. */
  predicate PlainChar(c: seq<byte>) {
    |c| == 3 && c[0] != 0xE3 && c[1] != 0xE3 && c[2] != 0xE3
  }

  /** Two two-character sentences, each closed by a full stop, come out
    * with a comma after each. */
  lemma ReplaceSentences(a: seq<byte>, b: seq<byte>, c: seq<byte>, d: seq<byte>)
    requires PlainChar(a) && PlainChar(b) && PlainChar(c) && PlainChar(d)
    ensures ReplaceFullStops(a + b + FullStop + c + d + FullStop) == a + b + [Comma] + c + d + [Comma]
  {
    var e2 := d + FullStop;
    var e3 := c + e2;
    var e4 := FullStop + e3;
    var e5 := b + e4;
    var e6 := a + e5;
    Regroup(a, b, FullStop, c, d, FullStop);
    Regroup(a, b, [Comma], c, d, [Comma]);
    assert ReplaceFullStops(e2) == d + [Comma] by {
      ReplaceFullStopChar([]);
      assert FullStop + [] == FullStop;
      ReplaceKeepsChar(d, FullStop);
    }
    ReplaceKeepsChar(c, e2);
    ReplaceFullStopChar(e3);
    ReplaceKeepsChar(b, e4);
    ReplaceKeepsChar(a, e5);
  }

  /** Six pieces concatenated left to right, regrouped to the right. */
  lemma Regroup<T>(a: seq<T>, b: seq<T>, c: seq<T>, d: seq<T>, e: seq<T>, f: seq<T>)
    ensures a + b + c + d + e + f == a + (b + (c + (d + (e + f))))
  {
    AppendAssoc(a + b + c + d, e, f);
    AppendAssoc(a + b + c, d, e + f);
    AppendAssoc(a + b, c, d + (e + f));
    AppendAssoc(a, b, c + (d + (e + f)));
  }

  /** 你好。世界。 becomes 你好,世界, . */
  lemma ReplaceExample()
    ensures ReplaceFullStops(Ni + Hao + FullStop + Shi + Jie + FullStop) == Ni + Hao + [Comma] + Shi + Jie + [Comma]
  {
    ReplaceSentences(Ni, Hao, Shi, Jie);
  }

  // ---------- What happens to a final recognition result ----------

  /** The outcome of one final result: the new pause flag, whether the
    * display was synced, and the normalised text if it was typed. */
  datatype Route = Route(paused: bool, synced: bool, typed: Option<seq<byte>>)

  /** The segment branch as written: the command is handled, its verdict is
    * dropped, and the text is typed whenever the flag is clear afterwards. */
  function FinalRoute(paused: bool, text: seq<byte>): (r: Route)
    ensures r.paused == AfterCommand(paused, Classify(text))
    ensures r.synced <==> r.paused != paused
    ensures r.typed.Some? <==> !r.paused
    ensures r.typed.Some? ==> r.typed.value == ReplaceFullStops(text)
  {
    var p := AfterCommand(paused, Classify(text));
    Route(p, p != paused, if p then None else Some(ReplaceFullStops(text)))
  }

  /** A pause phrase is never typed. */
  lemma PausePhraseNeverTyped(paused: bool, text: seq<byte>)
    requires HasPausePhrase(text)
    ensures FinalRoute(paused, text).typed == None
  {
  }

  /** As written, a resume command is typed: the utterance 开启语音输入
    * resumes input and is then typed, although a command is not meant to be. */
  lemma ResumePhraseIsTyped(paused: bool)
    ensures FinalRoute(paused, OpenVoiceInput).typed == Some(OpenVoiceInput)
  {
    ResumePhraseAlone();
    NoLeadByteNoFullStop(OpenVoiceInput);
    ReplaceWithoutFullStop(OpenVoiceInput);
    ResumeIsTyped(paused, OpenVoiceInput);
  }

  /** As written, any text classified as a resume command is typed. */
  lemma ResumeIsTyped(paused: bool, text: seq<byte>)
    requires Classify(text) == ResumeCommand
    ensures FinalRoute(paused, text).typed == Some(ReplaceFullStops(text))
  {
  }

  /** A text without the byte 0xE3 holds no full stop. */
  lemma NoLeadByteNoFullStop(s: seq<byte>)
    requires 0xE3 !in s
    ensures forall k: nat :: !MatchAt(s, FullStop, k)
  {
    forall k: nat
      ensures !MatchAt(s, FullStop, k)
    {
      if k + 3 <= |s| {
        assert s[k..k + 3][0] == s[k];
      }
    }
  }

  /** The segment branch as intended: a command changes the flag and is not typed. */
  function FinalRouteIntended(paused: bool, text: seq<byte>): (r: Route)
    ensures r.paused == AfterCommand(paused, Classify(text))
    ensures r.synced <==> r.paused != paused
    ensures r.typed.Some? <==> !r.paused && Classify(text) == NotCommand
    ensures r.typed.Some? ==> r.typed.value == ReplaceFullStops(text)
  {
    var c := Classify(text);
    var p := AfterCommand(paused, c);
    Route(p, p != paused, if p || c != NotCommand then None else Some(ReplaceFullStops(text)))
  }

  /** With the verdict honoured, no command phrase is ever typed, and the
    * two routes agree on every text that is not a command. */
  lemma IntendedNeverTypesCommands(paused: bool, text: seq<byte>)
    ensures HasPausePhrase(text) || HasResumePhrase(text) ==> FinalRouteIntended(paused, text).typed == None
    ensures !HasPausePhrase(text) && !HasResumePhrase(text) ==> FinalRouteIntended(paused, text) == FinalRoute(paused, text)
  {
  }
}
