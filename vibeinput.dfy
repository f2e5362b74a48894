/** The speech-to-typing engine: its process-wide state (pause flag, stop and
  * running flags, the worker thread, the sample queue and the outputs to the
  * GUI and the keyboard), the lifecycle API, and one iteration of the worker
  * loop over explicit state. */
module VibeInput {
  import opened Wrappers
  import opened Utf8
  import opened TypeStr
  import opened Search
  import opened Commands
  import opened Vad

  /** The globals of the engine. The GUI callbacks `sync_display`,
    * `got_tmp_input` and `got_input`, and the key injection done by
    * `typestr`, are recorded as logs. */
  class State {
    var paused: bool
    var stop: bool
    var running: bool
    /** The `std::thread` object holds a thread that has not been joined. */
    var workerJoinable: bool
    /** The worker thread has not returned yet. */
    var workerAlive: bool
    /** `std::terminate` was called: a thread object was assigned over while joinable. */
    var terminated: bool
    /** Audio chunks pushed by the microphone callback, oldest first. */
    var queue: seq<seq<Sample>>
    /** Number of `sync_display` calls. */
    var syncs: nat
    /** Texts passed to `got_tmp_input` and to `got_input`. */
    var previews: seq<seq<byte>>
    var inputs: seq<seq<byte>>
    /** Key events injected by `typestr_simple`. */
    var keys: seq<KeyEvent>

    constructor ()
      ensures !paused && !stop && !running && !workerJoinable && !workerAlive && !terminated
      ensures queue == [] && syncs == 0 && previews == [] && inputs == [] && keys == []
    {
      paused, stop, running := false, false, false;
      workerJoinable, workerAlive, terminated := false, false, false;
      queue, syncs := [], 0;
      previews, inputs, keys := [], [], [];
    }

    /** Until the process is terminated, a running engine has a live worker
      * and a live worker is joinable. */
    predicate Valid()
      reads this
    {
      terminated || ((workerAlive ==> workerJoinable) && (running ==> workerAlive))
    }

    /** `TogglePause`: negates the single pause flag. */
    method TogglePause()
      modifies this`paused
      ensures paused == !old(paused)
    {
      paused := !paused;
    }

    /** Two toggles restore the flag. */
    method TogglePauseTwice()
      modifies this`paused
      ensures paused == old(paused)
    {
      TogglePause();
      TogglePause();
    }

    /** `VibeInputTogglePause`: toggle, then sync the display. */
    method VibeInputTogglePause()
      modifies this`paused, this`syncs
      ensures paused == !old(paused)
      ensures syncs == old(syncs) + 1
    {
      TogglePause();
      syncs := syncs + 1;
    }

    /** `VibeInputIsPaused`. */
    function IsPaused(): (r: bool)
      reads this
      ensures r == paused
    {
      paused
    }

    /** `HandleVoiceCommand`: true for any command phrase; the flag is set or
      * cleared, and the display synced only when the flag actually changes. */
    method HandleVoiceCommand(text: seq<byte>) returns (handled: bool)
      modifies this`paused, this`syncs
      ensures handled <==> HasPausePhrase(text) || HasResumePhrase(text)
      ensures paused == AfterCommand(old(paused), Classify(text))
      ensures syncs == old(syncs) + (if paused != old(paused) then 1 else 0)
    {
      if Find(text, StopVoiceInput, 0).Some? || Find(text, StopInput, 0).Some? {
        if !paused {
          paused := true;
          syncs := syncs + 1;
        }
        return true;
      }
      if Find(text, OpenVoiceInput, 0).Some? || Find(text, StartVoiceInput, 0).Some? {
        if paused {
          paused := false;
          syncs := syncs + 1;
        }
        return true;
      }
      return false;
    }

    /** `RecordCallback`: queue the chunk; keep recording unless stopping. */
    method RecordCallback(chunk: seq<Sample>) returns (keepGoing: bool)
      modifies this`queue
      ensures queue == old(queue) + [chunk]
      ensures keepGoing == !stop
    {
      queue := queue + [chunk];
      keepGoing := !stop;
    }

    /** `VibeInputStart` as written. A second start while running does
      * nothing. Otherwise a new thread is assigned to `g_worker`; if the old
      * thread object is still joinable, that assignment terminates the process. */
    method Start()
      requires Valid() && !terminated
      modifies this`running, this`stop, this`workerJoinable, this`workerAlive, this`terminated
      ensures old(running) ==>
        running == old(running) && stop == old(stop) && workerJoinable == old(workerJoinable)
        && workerAlive == old(workerAlive) && terminated == old(terminated)
      ensures !old(running) ==> running && !stop && terminated == (old(terminated) || old(workerJoinable))
      ensures !old(running) && !old(workerJoinable) ==> workerJoinable && workerAlive
      ensures Valid()
    {
      if running {
        return;
      }
      running := true;
      stop := false;
      if workerJoinable {
        terminated := true;
        return;
      }
      workerJoinable := true;
      workerAlive := true;
    }

    /** The end of the worker thread: `WorkerMain` returned (because it was
      * stopped or because a model, the device or the stream failed) and the
      * thread clears `running`. The thread object stays joinable. */
    method WorkerReturns()
      requires Valid() && !terminated && workerAlive
      modifies this`running, this`workerAlive
      ensures !running && !workerAlive
      ensures Valid()
    {
      running := false;
      workerAlive := false;
    }

    /** `VibeInputStop` as written: nothing when not running; otherwise ask
      * the worker to stop, join it and clear `running`. */
    method Stop()
      requires Valid() && !terminated
      modifies this`running, this`stop, this`workerJoinable, this`workerAlive
      ensures !old(running) ==>
        running == old(running) && stop == old(stop)
        && workerJoinable == old(workerJoinable) && workerAlive == old(workerAlive)
      ensures old(running) ==> !running && stop && !workerJoinable && !workerAlive
      ensures Valid()
    {
      if !running {
        return;
      }
      stop := true;
      if workerJoinable {
        workerAlive := false;
        workerJoinable := false;
      }
      running := false;
    }

    /** `VibeInputStart` with the finished thread joined before a new one is
      * assigned: it never terminates the process. */
    method StartJoined()
      requires Valid() && !terminated
      modifies this`running, this`stop, this`workerJoinable, this`workerAlive
      ensures old(running) ==> running && stop == old(stop) && workerJoinable && workerAlive
      ensures !old(running) ==> running && !stop && workerJoinable && workerAlive
      ensures Valid()
    {
      if running {
        return;
      }
      running := true;
      stop := false;
      if workerJoinable {
        workerAlive := false;
        workerJoinable := false;
      }
      workerJoinable := true;
      workerAlive := true;
    }

    /** `VibeInputStop` that joins a thread that returned on its own too. */
    method StopJoined()
      requires Valid() && !terminated
      modifies this`running, this`stop, this`workerJoinable, this`workerAlive
      ensures !running && !workerJoinable && !workerAlive
      ensures stop == (old(stop) || old(running) || old(workerJoinable))
      ensures Valid()
    {
      if !running && !workerJoinable {
        return;
      }
      stop := true;
      if workerJoinable {
        workerAlive := false;
        workerJoinable := false;
      }
      running := false;
    }
  }

  /** A worker that gives up on its own (a model file is missing, say),
    * followed by the GUI's stop and a new start, ends the process. */
  method EarlyReturnThenRestart() returns (terminated: bool)
    ensures terminated
  {
    var g := new State();
    g.Start();
    g.WorkerReturns();
    g.Stop();
    g.Start();
    terminated := g.terminated;
  }

  /** The same sequence with the joining versions leaves a running worker. */
  method EarlyReturnThenRestartJoined() returns (terminated: bool, running: bool)
    ensures !terminated && running
  {
    var g := new State();
    g.StartJoined();
    g.WorkerReturns();
    g.StopJoined();
    g.StartJoined();
    terminated, running := g.terminated, g.running;
  }

  // ---------- The worker loop ----------

  /** The windows the feed loop hands to the detector, starting at `off`:
    * while more than one window of unread samples is buffered. */
  function Windows(buf: seq<Sample>, off: int): seq<Window>
    requires 0 <= off <= |buf|
    decreases |buf| - off
  {
    if off + WindowSize < |buf| then [buf[off..off + WindowSize]] + Windows(buf, off + WindowSize) else []
  }

  /** Each window is 512 consecutive samples, the k-th starting 512 k after
    * `off`; after the last one at most 512 samples are left unread. */
  lemma {:induction false} WindowsContiguous(buf: seq<Sample>, off: int)
    requires 0 <= off <= |buf|
    ensures off + WindowSize * |Windows(buf, off)| <= |buf|
    ensures |buf| - (off + WindowSize * |Windows(buf, off)|) <= WindowSize
    ensures forall k :: 0 <= k < |Windows(buf, off)| ==>
      off + WindowSize * k + WindowSize <= |buf| && Windows(buf, off)[k] == buf[off + WindowSize * k..off + WindowSize * k + WindowSize]
    decreases |buf| - off
  {
    if off + WindowSize < |buf| {
      WindowsContiguous(buf, off + WindowSize);
      var w := Windows(buf, off);
      var rest := Windows(buf, off + WindowSize);
      assert w == [buf[off..off + WindowSize]] + rest;
      forall k | 0 <= k < |w|
        ensures off + WindowSize * k + WindowSize <= |buf| && w[k] == buf[off + WindowSize * k..off + WindowSize * k + WindowSize]
      {
        if k > 0 {
          assert w[k] == rest[k - 1];
          assert off + WindowSize + WindowSize * (k - 1) == off + WindowSize * k;
        }
      }
    }
  }

  /** Feeding a window, then the rest. */
  lemma AlongStep(detects: seq<Window> -> bool, completes: seq<Window> -> seq<Segment>,
                  h: seq<Window>, w: Window, rest: seq<Window>)
    ensures DetectedAlong(detects, h, [w] + rest) == (detects(h + [w]) || DetectedAlong(detects, h + [w], rest))
    ensures CompletedAlong(completes, h, [w] + rest) == completes(h + [w]) + CompletedAlong(completes, h + [w], rest)
  {
    assert ([w] + rest)[1..] == rest;
  }

  /** Accepting one window moves it from the windows still to feed onto the
    * history, and its detection and segments onto the outputs. */
  lemma FeedStep(detects: seq<Window> -> bool, completes: seq<Window> -> seq<Segment>,
                 h: seq<Window>, pend: seq<Segment>, st: bool, w: Window, rest: seq<Window>)
    ensures (h + [w]) + rest == h + ([w] + rest)
    ensures (pend + completes(h + [w])) + CompletedAlong(completes, h + [w], rest)
      == pend + CompletedAlong(completes, h, [w] + rest)
    ensures ((st || detects(h + [w])) || DetectedAlong(detects, h + [w], rest))
      == (st || DetectedAlong(detects, h, [w] + rest))
  {
    AlongStep(detects, completes, h, w, rest);
    AppendAssoc(h, [w], rest);
    AppendAssoc(pend, completes(h + [w]), CompletedAlong(completes, h + [w], rest));
  }

  /** A final result's text as handed to `typestr_simple`: a C string, which
    * ends at its first NUL byte. */
  function TypedKeys(text: seq<byte>, x11: bool): seq<KeyEvent> {
    TypeStrEvents(Some(text + [0]), 0, 0, 7, 0, x11)
  }

  /** What draining a series of final results does to the outputs. */
  datatype Effects = Effects(paused: bool, syncs: nat, inputs: seq<seq<byte>>, keys: seq<KeyEvent>)

  /** The effect of routing each text in turn, starting with the flag `paused`. */
  function Drained(paused: bool, texts: seq<seq<byte>>, x11: bool): Effects
    decreases |texts|
  {
    if texts == [] then Effects(paused, 0, [], [])
    else
      var r := FinalRoute(paused, texts[0]);
      var e := Drained(r.paused, texts[1..], x11);
      Effects(e.paused, (if r.synced then 1 else 0) + e.syncs,
              (if r.typed.Some? then [r.typed.value] else []) + e.inputs,
              (if r.typed.Some? then TypedKeys(r.typed.value, x11) else []) + e.keys)
  }

  /** The recognizer's text for each segment. */
  function Texts(decode: seq<Sample> -> seq<byte>, segs: seq<Segment>): (r: seq<seq<byte>>)
    ensures |r| == |segs| && forall k :: 0 <= k < |segs| ==> r[k] == decode(segs[k])
  {
    if segs == [] then [] else [decode(segs[0])] + Texts(decode, segs[1..])
  }

  /** Draining a first text, then the rest. */
  lemma DrainedStep(paused: bool, texts: seq<seq<byte>>, text: seq<byte>, rest: seq<seq<byte>>, x11: bool)
    requires texts == [text] + rest
    ensures var r := FinalRoute(paused, text);
      var e := Drained(r.paused, rest, x11);
      Drained(paused, texts, x11) == Effects(e.paused, (if r.synced then 1 else 0) + e.syncs,
        (if r.typed.Some? then [r.typed.value] else []) + e.inputs,
        (if r.typed.Some? then TypedKeys(r.typed.value, x11) else []) + e.keys)
  {
    assert texts[0] == text && texts[1..] == rest;
  }

  /** Routing the first text and then draining the rest accounts for the
    * whole effect of draining all of them. */
  lemma DrainOneEffect(p0: bool, s0: nat, i0: seq<seq<byte>>, k0: seq<KeyEvent>, text: seq<byte>,
                       rest: seq<seq<byte>>, x11: bool, p1: bool, s1: nat, i1: seq<seq<byte>>, k1: seq<KeyEvent>)
    requires var r := FinalRoute(p0, text);
      p1 == r.paused && s1 == s0 + (if r.synced then 1 else 0)
      && i1 == i0 + (if r.typed.Some? then [r.typed.value] else [])
      && k1 == k0 + (if r.typed.Some? then TypedKeys(r.typed.value, x11) else [])
    ensures var before := Drained(p0, [text] + rest, x11);
      var after := Drained(p1, rest, x11);
      after.paused == before.paused && s1 + after.syncs == s0 + before.syncs
      && i1 + after.inputs == i0 + before.inputs && k1 + after.keys == k0 + before.keys
  {
    var r := FinalRoute(p0, text);
    var e := Drained(r.paused, rest, x11);
    DrainedStep(p0, [text] + rest, text, rest, x11);
    AppendAssoc(i0, if r.typed.Some? then [r.typed.value] else [], e.inputs);
    AppendAssoc(k0, if r.typed.Some? then TypedKeys(r.typed.value, x11) else [], e.keys);
  }

  /** No text that holds a pause phrase ever reaches the keyboard or `got_input`. */
  lemma {:induction false} PausedTextsNotTyped(paused: bool, texts: seq<seq<byte>>, x11: bool)
    requires forall k :: 0 <= k < |texts| ==> HasPausePhrase(texts[k])
    ensures Drained(paused, texts, x11).inputs == [] && Drained(paused, texts, x11).keys == []
    decreases |texts|
  {
    if texts != [] {
      PausedTextsNotTyped(FinalRoute(paused, texts[0]).paused, texts[1..], x11);
    }
  }

  /** A paused engine that hears no resume phrase stays paused and types nothing. */
  lemma {:induction false} PausedStaysQuiet(texts: seq<seq<byte>>, x11: bool)
    requires forall k :: 0 <= k < |texts| ==> !HasResumePhrase(texts[k])
    ensures Drained(true, texts, x11).paused
    ensures Drained(true, texts, x11).inputs == [] && Drained(true, texts, x11).keys == []
    decreases |texts|
  {
    if texts != [] {
      assert FinalRoute(true, texts[0]).paused;
      PausedStaysQuiet(texts[1..], x11);
    }
  }

  /** A chunk as it enters the buffer: resampled when a resampler exists. */
  function Resampled(resample: Option<seq<Sample> -> seq<Sample>>, chunk: seq<Sample>): seq<Sample> {
    match resample
    case None => chunk
    case Some(f) => f(chunk)
  }

  /** The engines one worker iteration drives. */
  datatype Engines = Engines(detects: seq<Window> -> bool, completes: seq<Window> -> seq<Segment>,
                             decode: seq<Sample> -> seq<byte>, resample: Option<seq<Sample> -> seq<Sample>>, x11: bool)

  /** What one worker iteration reads and changes: the worker's locals, the
    * detector's history and queue, and the engine's flag and outputs. */
  datatype Snapshot = Snapshot(buffer: seq<Sample>, offset: int, speechStarted: bool,
                               fed: seq<Window>, pending: seq<Segment>,
                               paused: bool, syncs: nat, previews: seq<seq<byte>>,
                               inputs: seq<seq<byte>>, keys: seq<KeyEvent>)

  /** Appending a queued chunk, resampled when a resampler exists. */
  function AfterIngest(s: Snapshot, chunk: seq<Sample>, en: Engines): (r: Snapshot)
    ensures |r.buffer| == |s.buffer| + |Resampled(en.resample, chunk)|
    ensures r.buffer[..|s.buffer|] == s.buffer && r.buffer[|s.buffer|..] == Resampled(en.resample, chunk)
    ensures r.(buffer := s.buffer) == s
  {
    s.(buffer := s.buffer + Resampled(en.resample, chunk))
  }

  /** The feed loop: the windows beyond the read position go to the detector. */
  function AfterFeed(s: Snapshot, en: Engines): (r: Snapshot)
    requires 0 <= s.offset <= |s.buffer|
    ensures 0 <= r.offset <= |r.buffer| && |r.buffer| - r.offset <= WindowSize && r.buffer == s.buffer
    ensures |s.fed| <= |r.fed| && r.fed[..|s.fed|] == s.fed
    ensures s.speechStarted ==> r.speechStarted
  {
    var w := Windows(s.buffer, s.offset);
    WindowsContiguous(s.buffer, s.offset);
    assert (s.fed + w)[..|s.fed|] == s.fed;
    s.(offset := s.offset + WindowSize * |w|, fed := s.fed + w,
       pending := s.pending + CompletedAlong(en.completes, s.fed, w),
       speechStarted := s.speechStarted || DetectedAlong(en.detects, s.fed, w))
  }

  /** Before speech starts only the last ten windows are kept. */
  function AfterTrim(s: Snapshot): (r: Snapshot)
    requires 0 <= s.offset <= |s.buffer| && |s.buffer| - s.offset <= WindowSize
    ensures 0 <= r.offset <= |r.buffer| && r.buffer[r.offset..] == s.buffer[s.offset..]
    ensures |r.buffer| <= 10 * WindowSize || r.speechStarted
    ensures r.(buffer := s.buffer, offset := s.offset) == s
  {
    if !s.speechStarted && |s.buffer| > 10 * WindowSize then
      s.(buffer := s.buffer[|s.buffer| - 10 * WindowSize..], offset := s.offset - (|s.buffer| - 10 * WindowSize))
    else s
  }

  /** The speculative decode: after 0.4 s of speech the buffer is previewed
    * and handled as a command. */
  function AfterSpeculate(s: Snapshot, elapsedOver: bool, en: Engines): (r: Snapshot)
    ensures r.(previews := s.previews, paused := s.paused, syncs := s.syncs) == s
    ensures !(s.speechStarted && elapsedOver) ==> r == s
    ensures s.speechStarted && elapsedOver ==>
      r.previews == s.previews + [en.decode(s.buffer)] && r.paused == AfterCommand(s.paused, Classify(en.decode(s.buffer)))
  {
    if s.speechStarted && elapsedOver then
      var p := AfterCommand(s.paused, Classify(en.decode(s.buffer)));
      s.(previews := s.previews + [en.decode(s.buffer)], paused := p,
         syncs := s.syncs + (if p != s.paused then 1 else 0))
    else s
  }

  /** The drain loop: every finished segment is routed; any segment resets
    * the speech state. */
  function AfterDrain(s: Snapshot, en: Engines): (r: Snapshot)
    ensures r.pending == [] && r.fed == s.fed && r.previews == s.previews
    ensures s.pending == [] ==> r == s
    ensures s.pending != [] ==> r.buffer == [] && r.offset == 0 && !r.speechStarted
  {
    var e := Drained(s.paused, Texts(en.decode, s.pending), en.x11);
    if s.pending == [] then s
    else s.(buffer := [], offset := 0, speechStarted := false, pending := [], paused := e.paused,
            syncs := s.syncs + e.syncs, inputs := s.inputs + e.inputs, keys := s.keys + e.keys)
  }

  /** The state after one iteration of the `WorkerMain` loop that takes the
    * queued `chunk`. */
  function Iterate(s: Snapshot, chunk: seq<Sample>, elapsedOver: bool, en: Engines): (r: Snapshot)
    requires 0 <= s.offset <= |s.buffer|
    ensures 0 <= r.offset <= |r.buffer| && |r.buffer| - r.offset <= WindowSize
    ensures r.pending == [] && |s.fed| <= |r.fed| && r.fed[..|s.fed|] == s.fed
    ensures |r.buffer| <= 10 * WindowSize || r.speechStarted
  {
    var s1 := AfterFeed(AfterIngest(s, chunk, en), en);
    var s2 := AfterTrim(s1);
    AfterDrain(AfterSpeculate(s2, elapsedOver, en), en)
  }

  /** Draining nothing leaves the outputs; draining anything leaves them
    * as the effect of the drained texts says. */
  lemma AfterDrainEffect(s: Snapshot, en: Engines)
    ensures var r := AfterDrain(s, en);
      var e := Drained(s.paused, Texts(en.decode, s.pending), en.x11);
      r.paused == e.paused && r.syncs == s.syncs + e.syncs && r.inputs == s.inputs + e.inputs && r.keys == s.keys + e.keys
  {
    if s.pending == [] {
      assert s.inputs + [] == s.inputs && s.keys + [] == s.keys;
    }
  }

  /** Routing the oldest finished segment leaves the same state to be
    * reached by draining the rest. */
  lemma DrainOneStep(s: Snapshot, r: Snapshot, en: Engines)
    requires s.pending != []
    requires r.pending == s.pending[1..] && r.fed == s.fed && r.previews == s.previews
    requires r.buffer == [] && r.offset == 0 && !r.speechStarted
    requires var t := FinalRoute(s.paused, en.decode(s.pending[0]));
      r.paused == t.paused && r.syncs == s.syncs + (if t.synced then 1 else 0)
      && r.inputs == s.inputs + (if t.typed.Some? then [t.typed.value] else [])
      && r.keys == s.keys + (if t.typed.Some? then TypedKeys(t.typed.value, en.x11) else [])
    ensures AfterDrain(r, en) == AfterDrain(s, en)
  {
    var text := en.decode(s.pending[0]);
    var rest := Texts(en.decode, r.pending);
    assert Texts(en.decode, s.pending) == [text] + rest;
    DrainOneEffect(s.paused, s.syncs, s.inputs, s.keys, text, rest, en.x11, r.paused, r.syncs, r.inputs, r.keys);
    AfterDrainEffect(r, en);
    AfterDrainEffect(s, en);
    var a, b := AfterDrain(r, en), AfterDrain(s, en);
    assert a.buffer == b.buffer && a.offset == b.offset && a.speechStarted == b.speechStarted;
    assert a.fed == b.fed && a.pending == b.pending && a.previews == b.previews;
    assert a.paused == b.paused && a.syncs == b.syncs && a.inputs == b.inputs && a.keys == b.keys;
  }

  /** Once speech is under way, a speculative decode that hears a pause
    * phrase stops the segments of the same iteration from being typed,
    * unless one of them holds a resume phrase. */
  lemma SpeculativePauseHoldsTyping(s: Snapshot, chunk: seq<Sample>, en: Engines)
    requires 0 <= s.offset <= |s.buffer| && s.speechStarted
    requires HasPausePhrase(en.decode(s.buffer + Resampled(en.resample, chunk)))
    requires var fed := AfterFeed(AfterIngest(s, chunk, en), en);
      forall k :: 0 <= k < |fed.pending| ==> !HasResumePhrase(en.decode(fed.pending[k]))
    ensures var r := Iterate(s, chunk, true, en);
      r.paused && r.inputs == s.inputs && r.keys == s.keys
  {
    var s1 := AfterFeed(AfterIngest(s, chunk, en), en);
    var s3 := AfterSpeculate(AfterTrim(s1), true, en);
    assert s3.paused && s3.pending == s1.pending && s3.inputs == s.inputs && s3.keys == s.keys;
    var texts := Texts(en.decode, s1.pending);
    forall k | 0 <= k < |texts|
      ensures !HasResumePhrase(texts[k])
    {
      assert texts[k] == en.decode(s1.pending[k]);
    }
    PausedStaysQuiet(texts, en.x11);
    AfterDrainEffect(s3, en);
    assert s.inputs + [] == s.inputs && s.keys + [] == s.keys;
  }

  /** What the loop does next. */
  datatype Outcome = Stopped | Idle | Processed

  /** The locals of `WorkerMain` and the engines it drives. */
  class Worker {
    const g: State
    const vad: VoiceActivityDetector
    /** The recognizer: the UTF-8 text of decoding some samples. */
    const decode: seq<Sample> -> seq<byte>
    /** The resampler, when the microphone rate is not 16 kHz. */
    const resample: Option<seq<Sample> -> seq<Sample>>
    /** Which `typestr` build types the text. */
    const x11: bool

    var buffer: seq<Sample>
    var offset: int
    var speechStarted: bool

    constructor (g: State, vad: VoiceActivityDetector, decode: seq<Sample> -> seq<byte>,
                 resample: Option<seq<Sample> -> seq<Sample>>, x11: bool)
      ensures this.g == g && this.vad == vad && this.decode == decode && this.resample == resample && this.x11 == x11
      ensures buffer == [] && offset == 0 && !speechStarted
    {
      this.g := g;
      this.vad := vad;
      this.decode := decode;
      this.resample := resample;
      this.x11 := x11;
      buffer := [];
      offset := 0;
      speechStarted := false;
    }

    /** The read position lies inside the buffer, so the `size_t` comparison
      * of the feed loop never sees a negative offset. */
    predicate Valid()
      reads this
    {
      0 <= offset <= |buffer|
    }

    /** The engines this worker drives. */
    function Env(): Engines {
      Engines(vad.detects, vad.completes, decode, resample, x11)
    }

    /** The part of the state one iteration reads and changes. */
    function Snap(): Snapshot
      reads this, vad, g
    {
      Snapshot(buffer, offset, speechStarted, vad.fed, vad.pending, g.paused, g.syncs, g.previews, g.inputs, g.keys)
    }

    /** Take the oldest chunk off the queue and append it, resampled if needed. */
    method Ingest()
      requires g.queue != []
      modifies this`buffer, g`queue
      ensures g.queue == old(g.queue)[1..]
      ensures buffer == old(buffer) + Resampled(resample, old(g.queue)[0])
      ensures Snap() == AfterIngest(old(Snap()), old(g.queue)[0], Env())
    {
      var s := g.queue[0];
      if resample.None? {
        buffer := buffer + s;
      } else {
        buffer := buffer + resample.value(s);
      }
      g.queue := g.queue[1..];
    }

    /** The feed loop: every whole window beyond the read position goes to the
      * detector, and speech counts as started once the detector reports it. */
    method FeedWindows()
      requires Valid()
      modifies this`offset, this`speechStarted, vad
      ensures Valid() && |buffer| - offset <= WindowSize
      ensures offset == old(offset) + WindowSize * |Windows(buffer, old(offset))|
      ensures vad.fed == old(vad.fed) + Windows(buffer, old(offset))
      ensures vad.pending == old(vad.pending) + CompletedAlong(vad.completes, old(vad.fed), Windows(buffer, old(offset)))
      ensures speechStarted == (old(speechStarted) || DetectedAlong(vad.detects, old(vad.fed), Windows(buffer, old(offset))))
      ensures Snap() == AfterFeed(old(Snap()), Env())
    {
      var off, started := offset, speechStarted;
      ghost var w0 := Windows(buffer, off);
      ghost var fed0, pending0 := vad.fed, vad.pending;
      ghost var todo := w0;
      while off + WindowSize < |buffer|
        invariant 0 <= off <= |buffer| && todo == Windows(buffer, off)
        invariant off + WindowSize * |todo| == offset + WindowSize * |w0|
        invariant vad.fed + todo == fed0 + w0
        invariant vad.pending + CompletedAlong(vad.completes, vad.fed, todo)
          == pending0 + CompletedAlong(vad.completes, fed0, w0)
        invariant (started || DetectedAlong(vad.detects, vad.fed, todo))
          == (speechStarted || DetectedAlong(vad.detects, fed0, w0))
        modifies vad
        decreases |buffer| - off
      {
        var w := buffer[off..off + WindowSize];
        ghost var rest := Windows(buffer, off + WindowSize);
        assert todo == [w] + rest;
        started := FeedOne(w, started, rest);
        off := off + WindowSize;
        todo := rest;
      }
      assert todo == [];
      assert vad.fed + todo == vad.fed;
      assert vad.pending + CompletedAlong(vad.completes, vad.fed, todo) == vad.pending;
      offset, speechStarted := off, started;
    }

    /** One pass of the window loop: `AcceptWaveform`, then the sticky
      * "speech started" flag; `rest` are the windows still to come. */
    method FeedOne(w: Window, started: bool, ghost rest: seq<Window>) returns (started': bool)
      modifies vad
      ensures vad.fed == old(vad.fed) + [w] && vad.pending == old(vad.pending) + vad.completes(vad.fed)
      ensures started' == (started || vad.detects(vad.fed))
      ensures vad.fed + rest == old(vad.fed) + ([w] + rest)
      ensures vad.pending + CompletedAlong(vad.completes, vad.fed, rest)
        == old(vad.pending) + CompletedAlong(vad.completes, old(vad.fed), [w] + rest)
      ensures (started' || DetectedAlong(vad.detects, vad.fed, rest))
        == (started || DetectedAlong(vad.detects, old(vad.fed), [w] + rest))
    {
      FeedStep(vad.detects, vad.completes, vad.fed, vad.pending, started, w, rest);
      vad.AcceptWaveform(w);
      started' := started;
      if !started' && vad.IsDetected() {
        started' := true;
      }
    }

    /** Before speech starts only the last ten windows of audio are kept;
      * the read position moves back by as much as was dropped. */
    method TrimLookback()
      requires Valid() && |buffer| - offset <= WindowSize
      modifies this`buffer, this`offset
      ensures !speechStarted && |old(buffer)| > 10 * WindowSize ==>
        buffer == old(buffer)[|old(buffer)| - 10 * WindowSize..]
        && offset == old(offset) - (|old(buffer)| - 10 * WindowSize)
      ensures speechStarted || |old(buffer)| <= 10 * WindowSize ==> buffer == old(buffer) && offset == old(offset)
      ensures Valid() && buffer[offset..] == old(buffer)[old(offset)..]
      ensures |buffer| <= 10 * WindowSize || speechStarted
      ensures Snap() == AfterTrim(old(Snap()))
    {
      if !speechStarted {
        if |buffer| > 10 * WindowSize {
          offset := offset - (|buffer| - 10 * WindowSize);
          buffer := buffer[|buffer| - 10 * WindowSize..];
        }
      }
    }

    /** The speculative decode, once speech has gone on for more than 0.4 s
      * (`elapsedOver`): the whole buffer is decoded, shown as a preview and
      * checked for a command, but never typed. */
    method Speculate(elapsedOver: bool)
      modifies g`previews, g`paused, g`syncs
      ensures speechStarted && elapsedOver ==>
        g.previews == old(g.previews) + [decode(buffer)]
        && g.paused == AfterCommand(old(g.paused), Classify(decode(buffer)))
        && g.syncs == old(g.syncs) + (if g.paused != old(g.paused) then 1 else 0)
      ensures !(speechStarted && elapsedOver) ==>
        g.previews == old(g.previews) && g.paused == old(g.paused) && g.syncs == old(g.syncs)
      ensures Snap() == AfterSpeculate(old(Snap()), elapsedOver, Env())
    {
      if speechStarted && elapsedOver {
        var text := decode(buffer);
        g.previews := g.previews + [text];
        var _ := g.HandleVoiceCommand(text);
      }
    }

    /** What happens to one final result: the command is handled and its
      * verdict ignored; unless the engine is now paused the normalised text
      * goes to `got_input` and is typed. */
    method RouteFinal(text: seq<byte>)
      modifies g`paused, g`syncs, g`inputs, g`keys
      ensures var r := FinalRoute(old(g.paused), text);
        g.paused == r.paused && g.syncs == old(g.syncs) + (if r.synced then 1 else 0)
        && g.inputs == old(g.inputs) + (if r.typed.Some? then [r.typed.value] else [])
        && g.keys == old(g.keys) + (if r.typed.Some? then TypedKeys(r.typed.value, x11) else [])
    {
      var _ := g.HandleVoiceCommand(text);
      if !g.paused {
        var typed := Normalize(text);
        g.inputs := g.inputs + [typed];
        var events := TypeStrSimple(Some(typed + [0]), x11);
        g.keys := g.keys + events;
      }
    }

    /** One round of the drain loop: take the oldest segment, decode and
      * route it, and reset the speech state. What is left to drain then has
      * the rest of the original effect. */
    method DrainOne()
      requires vad.pending != []
      modifies this`buffer, this`offset, this`speechStarted, vad, g`paused, g`syncs, g`inputs, g`keys
      ensures vad.pending == old(vad.pending)[1..] && vad.fed == old(vad.fed)
      ensures AfterDrain(Snap(), Env()) == AfterDrain(old(Snap()), Env())
      ensures buffer == [] && offset == 0 && !speechStarted
    {
      ghost var s0 := Snap();
      var segment := vad.Front();
      vad.Pop();
      var text := decode(segment);
      RouteFinal(text);
      buffer := [];
      offset := 0;
      speechStarted := false;
      DrainOneStep(s0, Snap(), Env());
    }

    /** The drain loop: every finished segment is decoded and routed, and the
      * speech state is reset. */
    method DrainSegments()
      modifies this`buffer, this`offset, this`speechStarted, vad, g`paused, g`syncs, g`inputs, g`keys
      ensures Snap() == AfterDrain(old(Snap()), Env())
      ensures vad.pending == [] && vad.fed == old(vad.fed)
      ensures var e := Drained(old(g.paused), Texts(decode, old(vad.pending)), x11);
        g.paused == e.paused && g.syncs == old(g.syncs) + e.syncs
        && g.inputs == old(g.inputs) + e.inputs && g.keys == old(g.keys) + e.keys
      ensures old(vad.pending) != [] ==> buffer == [] && offset == 0 && !speechStarted
      ensures old(vad.pending) == [] ==>
        buffer == old(buffer) && offset == old(offset) && speechStarted == old(speechStarted)
    {
      ghost var s0 := Snap();
      AfterDrainEffect(s0, Env());
      while !vad.IsEmpty()
        invariant AfterDrain(Snap(), Env()) == AfterDrain(s0, Env())
        decreases |vad.pending|
      {
        DrainOne();
      }
    }

    /** One iteration of the `WorkerMain` loop. A stop request ends the loop;
      * with nothing queued nothing happens; otherwise one chunk is taken and
      * the iteration does what `Iterate` says. */
    method Step(elapsedOver: bool) returns (o: Outcome)
      requires Valid()
      modifies this`buffer, this`offset, this`speechStarted, vad, g`queue, g`previews, g`paused, g`syncs, g`inputs, g`keys
      ensures Valid()
      ensures o == Stopped <==> old(g.stop)
      ensures o == Idle <==> !old(g.stop) && old(g.queue) == []
      ensures o == Processed ==>
        g.queue == old(g.queue)[1..] && Snap() == Iterate(old(Snap()), old(g.queue)[0], elapsedOver, Env())
      ensures o != Processed ==> g.queue == old(g.queue) && Snap() == old(Snap())
    {
      if g.stop {
        return Stopped;
      }
      if g.queue == [] {
        return Idle;
      }
      Process(elapsedOver);
      return Processed;
    }

    /** The body of one iteration once a chunk is queued. */
    method Process(elapsedOver: bool)
      requires Valid() && g.queue != []
      modifies this`buffer, this`offset, this`speechStarted, vad, g`queue, g`previews, g`paused, g`syncs, g`inputs, g`keys
      ensures Valid()
      ensures g.queue == old(g.queue)[1..]
      ensures Snap() == Iterate(old(Snap()), old(g.queue)[0], elapsedOver, Env())
    {
      Listen();
      Respond(elapsedOver);
    }

    /** The audio half of an iteration: take the chunk, feed the windows and
      * trim the look-back. */
    method Listen()
      requires Valid() && g.queue != []
      modifies this`buffer, this`offset, this`speechStarted, vad, g`queue
      ensures Valid() && g.queue == old(g.queue)[1..]
      ensures Snap() == AfterTrim(AfterFeed(AfterIngest(old(Snap()), old(g.queue)[0], Env()), Env()))
    {
      ghost var s0 := Snap();
      ghost var chunk := g.queue[0];
      Ingest();
      ghost var s1 := Snap();
      FeedWindows();
      ghost var s2 := Snap();
      TrimLookback();
      assert s1 == AfterIngest(s0, chunk, Env());
      assert s2 == AfterFeed(s1, Env());
    }

    /** The text half of an iteration: the speculative decode, then the drain
      * of every finished segment. */
    method Respond(elapsedOver: bool)
      modifies this`buffer, this`offset, this`speechStarted, vad, g`previews, g`paused, g`syncs, g`inputs, g`keys
      ensures Snap() == AfterDrain(AfterSpeculate(old(Snap()), elapsedOver, Env()), Env())
    {
      ghost var s0 := Snap();
      Speculate(elapsedOver);
      assert Snap() == AfterSpeculate(s0, elapsedOver, Env());
      DrainSegments();
    }
  }
}
