/** The voice-activity detector as the worker uses it: windows go in, a
  * "speech detected" flag and a queue of finished speech segments come out.
  * The detector itself is an ONNX model; here its answers are two oracle
  * functions of the windows it has been fed so far. */
module Vad {
  /** An audio sample; its value plays no part in the bookkeeping. */
  type Sample(==)

  type Window = seq<Sample>

  /** The samples of one finished speech segment. */
  type Segment = seq<Sample>

  /** The number of samples per window the worker feeds (`window_size`). */
  const WindowSize: nat := 512

  class VoiceActivityDetector {
    /** Whether speech is detected after the given history of windows. */
    const detects: seq<Window> -> bool
    /** The segments that become complete when the last window of the
      * history is accepted. */
    const completes: seq<Window> -> seq<Segment>

    /** Every window accepted so far, oldest first. */
    var fed: seq<Window>
    /** Finished segments not yet popped, oldest first. */
    var pending: seq<Segment>

    constructor (detects: seq<Window> -> bool, completes: seq<Window> -> seq<Segment>)
      ensures this.detects == detects && this.completes == completes
      ensures fed == [] && pending == []
    {
      this.detects := detects;
      this.completes := completes;
      fed := [];
      pending := [];
    }

    /** `AcceptWaveform`: one more window; it may finish segments. */
    method AcceptWaveform(w: Window)
      modifies this
      ensures fed == old(fed) + [w]
      ensures pending == old(pending) + completes(fed)
    {
      fed := fed + [w];
      pending := pending + completes(fed);
    }

    /** `IsDetected`. */
    function IsDetected(): bool
      reads this
    {
      detects(fed)
    }

    /** `IsEmpty`: no finished segment is waiting. */
    function IsEmpty(): (r: bool)
      reads this
      ensures r <==> |pending| == 0
    {
      pending == []
    }

    /** `Front`: the oldest finished segment. */
    function Front(): Segment
      reads this
      requires pending != []
    {
      pending[0]
    }

    /** `Pop`: drop the oldest finished segment. */
    method Pop()
      requires pending != []
      modifies this
      ensures pending == old(pending)[1..]
      ensures fed == old(fed)
    {
      pending := pending[1..];
    }
  }

  /** Whether speech is detected right after one of the windows `ws`, fed
    * one at a time after the history `h`. */
  function DetectedAlong(detects: seq<Window> -> bool, h: seq<Window>, ws: seq<Window>): bool
    decreases |ws|
  {
    if ws == [] then false
    else detects(h + [ws[0]]) || DetectedAlong(detects, h + [ws[0]], ws[1..])
  }

  /** The segments finished while the windows `ws` are fed after the history `h`. */
  function CompletedAlong(completes: seq<Window> -> seq<Segment>, h: seq<Window>, ws: seq<Window>): seq<Segment>
    decreases |ws|
  {
    if ws == [] then []
    else completes(h + [ws[0]]) + CompletedAlong(completes, h + [ws[0]], ws[1..])
  }
}
