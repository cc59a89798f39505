/**
 Capture, inference and control as three threads around two latest-value channels. Each lock-held
 section and each clock reading is one step; any interleaving of the steps is a run. The clock never
 returns less than it has returned before.
 */
module Pipeline {
  import opened Common
  import opened Channel

  datatype FramePacket = FramePacket(sequence: int, captured: real)

  datatype DetectionPacket = DetectionPacket(frame: FramePacket, started: real, completed: real, healthy: bool)

  /** A command sent for a result; `decided` is when its freshness was checked, None for the first hold. */
  datatype Applied = Applied(packet: DetectionPacket, decided: Option<real>, commanded: real)

  datatype CapturePhase = Idle | HasFrame(sequence: int) | HasPacket(packet: FramePacket) | CaptureStopped

  datatype InferencePhase =
    | Waiting
    | Took(packet: FramePacket)
    | Detecting(packet: FramePacket, started: real)
    | Detected(result: DetectionPacket)
    | InferenceStopped

  datatype ControlPhase =
    | Starting
    | Holding // the first result is in, the first hold may be sent
    | Looping
    | Applying(decided: real)
    | ControlStopped

  datatype Pipe = Pipe(
    clock: real,
    frames: Chan<FramePacket>,
    results: Chan<DetectionPacket>,
    capture: CapturePhase,
    previousSequence: Option<int>,
    inference: InferencePhase,
    frameVersion: nat,
    control: ControlPhase,
    current: Option<DetectionPacket>,
    resultVersion: nat,
    captured: seq<FramePacket>,      // everything published by capture
    detected: seq<DetectionPacket>,  // everything published by inference
    applied: seq<Applied>)

  datatype Event =
    | CaptureRead(sequence: int) | CaptureStamp(t: real) | CapturePublish | CaptureStop
    | InferTake | InferStart(t: real) | InferComplete(t: real) | InferPublish | InferStop
    | ControlFirst | ControlHold(t: real) | ControlBegin | ControlPeek | ControlWait
    | ControlDecide(t: real) | ControlApply(t: real) | ControlStop

  function Initial(): Pipe {
    Pipe(0.0, Fresh(), Fresh(), Idle, None, Waiting, 0, Starting, None, 0, [], [], [])
  }

  function Later(clock: real, t: real): real {
    if t < clock then clock else t
  }

  // ---- the threads ----

  function StepCapture(s: Pipe, event: Event): Pipe {
    match event
    case CaptureRead(sequence) =>
      if !s.capture.Idle? then s
      else if s.previousSequence.Some? && sequence <= s.previousSequence.value then
        s.(capture := CaptureStopped, frames := Step(s.frames, Close))
      else s.(capture := HasFrame(sequence), previousSequence := Some(sequence))
    case CaptureStamp(t) =>
      if !s.capture.HasFrame? then s
      else
        var now := Later(s.clock, t);
        s.(clock := now, capture := HasPacket(FramePacket(s.capture.sequence, now)))
    case CapturePublish =>
      if !s.capture.HasPacket? then s
      else if s.frames.closed then s.(capture := CaptureStopped)
      else s.(frames := Step(s.frames, Publish(s.capture.packet)), capture := Idle,
              captured := s.captured + [s.capture.packet])
    case CaptureStop => s.(capture := CaptureStopped, frames := Step(s.frames, Close))
    case _ => s
  }

  function StepInference(s: Pipe, event: Event): Pipe {
    match event
    case InferTake =>
      var read := Latest(s.frameVersion, true);
      var seen := Seen(s.frames, read);
      if !s.inference.Waiting? then s
      else if seen.None? then s.(frames := Step(s.frames, read))
      else s.(frames := Step(s.frames, read), frameVersion := seen.value.version, inference := Took(seen.value.value))
    case InferStart(t) =>
      if !s.inference.Took? then s
      else
        var now := Later(s.clock, t);
        s.(clock := now, inference := Detecting(s.inference.packet, now))
    case InferComplete(t) =>
      if !s.inference.Detecting? then s
      else
        var now := Later(s.clock, t);
        var p := s.inference.packet;
        if now < s.inference.started || s.inference.started < p.captured then
          s.(clock := now, inference := InferenceStopped, results := Step(s.results, Close))
        else s.(clock := now, inference := Detected(DetectionPacket(p, s.inference.started, now, true)))
    case InferPublish =>
      if !s.inference.Detected? then s
      else if s.results.closed then s.(inference := InferenceStopped)
      else s.(results := Step(s.results, Publish(s.inference.result)), inference := Waiting,
              detected := s.detected + [s.inference.result])
    case InferStop => s.(inference := InferenceStopped, results := Step(s.results, Close))
    case _ => s
  }

  /** Adopt a result newer than the one held. */
  function Adopt(s: Pipe, seen: Option<Versioned<DetectionPacket>>): Pipe {
    if seen.Some? && seen.value.version > s.resultVersion
    then s.(current := Some(seen.value.value), resultVersion := seen.value.version)
    else s
  }

  function ReadResult(s: Pipe, read: Operation<DetectionPacket>): Pipe {
    Adopt(s, Seen(s.results, read)).(results := Step(s.results, read))
  }

  function StepControl(s: Pipe, freshness: real, event: Event): Pipe {
    match event
    case ControlFirst =>
      var read := Latest(0, true);
      if !s.control.Starting? || Seen(s.results, read).None? then s
      else ReadResult(s, read).(control := Holding)
    case ControlHold(t) =>
      if !s.control.Holding? || s.current.None? then s
      else
        var now := Later(s.clock, t);
        s.(clock := now, control := Looping, applied := s.applied + [Applied(s.current.value, None, now)])
    case ControlBegin => if s.control.Holding? then s.(control := Looping) else s
    case ControlPeek =>
      if s.control.Looping? then ReadResult(s, Peek) else s
    case ControlWait =>
      if s.control.Looping? then ReadResult(s, Latest(s.resultVersion, true)) else s
    case ControlDecide(t) =>
      if !s.control.Looping? || s.current.None? then s
      else
        var now := Later(s.clock, t);
        var age := now - s.current.value.completed;
        if age < 0.0 || !s.current.value.healthy || age > freshness then s.(clock := now, control := ControlStopped)
        else s.(clock := now, control := Applying(now))
    case ControlApply(t) =>
      if !s.control.Applying? || s.current.None? then s
      else
        var now := Later(s.clock, t);
        s.(clock := now, control := Looping,
           applied := s.applied + [Applied(s.current.value, Some(s.control.decided), now)])
    case ControlStop =>
      s.(control := ControlStopped, frames := Step(s.frames, Close), results := Step(s.results, Close))
    case _ => s
  }

  function After(s: Pipe, freshness: real, event: Event): Pipe {
    if event.CaptureRead? || event.CaptureStamp? || event.CapturePublish? || event.CaptureStop? then StepCapture(s, event)
    else if event.InferTake? || event.InferStart? || event.InferComplete? || event.InferPublish? || event.InferStop? then
      StepInference(s, event)
    else StepControl(s, freshness, event)
  }

  function Run(freshness: real, events: seq<Event>, n: nat): Pipe
    requires n <= |events|
  {
    if n == 0 then Initial() else After(Run(freshness, events, n - 1), freshness, events[n - 1])
  }

  // ---- what every interleaving keeps ----

  /** The channel holds the newest of what was published. */
  predicate Carries<T(==)>(c: Chan<T>, published: seq<T>) {
    && c.version == |published|
    && c.value == (if published == [] then None else Some(published[|published| - 1]))
  }

  predicate CaptureInv(s: Pipe) {
    && Carries(s.frames, s.captured)
    && (forall i :: 0 <= i < |s.captured| ==> s.captured[i].captured <= s.clock)
    && (forall i, j :: 0 <= i < j < |s.captured| ==> s.captured[i].sequence < s.captured[j].sequence)
    && (s.captured != [] || s.capture.HasFrame? || s.capture.HasPacket? ==> s.previousSequence.Some?)
    && (forall i :: 0 <= i < |s.captured| ==>
          s.captured[i].sequence <= s.previousSequence.value
          && (s.capture.HasFrame? || s.capture.HasPacket? ==> s.captured[i].sequence < s.previousSequence.value))
    && (s.capture.HasFrame? ==> s.capture.sequence == s.previousSequence.value)
    && (s.capture.HasPacket? ==>
          s.capture.packet.sequence == s.previousSequence.value && s.capture.packet.captured <= s.clock)
  }

  /** The frame inference works on, if any. */
  function InHand(phase: InferencePhase): Option<FramePacket> {
    match phase
    case Took(p) => Some(p)
    case Detecting(p, _) => Some(p)
    case Detected(r) => Some(r.frame)
    case _ => None
  }

  predicate Timed(r: DetectionPacket, clock: real) {
    r.frame.captured <= r.started <= r.completed <= clock
  }

  predicate InferenceInv(s: Pipe) {
    && Carries(s.results, s.detected)
    && s.frameVersion <= |s.captured|
    && (InHand(s.inference).Some? ==> s.frameVersion > 0 && InHand(s.inference).value == s.captured[s.frameVersion - 1])
    && (s.inference.Detecting? ==> s.inference.packet.captured <= s.inference.started <= s.clock)
    && (s.inference.Detected? ==> Timed(s.inference.result, s.clock))
    && (s.detected != [] ==> s.frameVersion > 0)
    && (forall i :: 0 <= i < |s.detected| ==> s.detected[i].frame in s.captured && Timed(s.detected[i], s.clock))
    && (forall i, j :: 0 <= i < j < |s.detected| ==> s.detected[i].frame.sequence < s.detected[j].frame.sequence)
    && (forall i :: 0 <= i < |s.detected| ==>
          s.detected[i].frame.sequence <= s.captured[s.frameVersion - 1].sequence
          && (InHand(s.inference).Some? ==> s.detected[i].frame.sequence < s.captured[s.frameVersion - 1].sequence))
  }

  predicate AppliedInv(a: Applied, s: Pipe, freshness: real) {
    && a.packet in s.detected
    && a.packet.completed <= a.commanded <= s.clock
    && (a.decided.Some? ==> a.packet.completed <= a.decided.value <= a.commanded
                            && a.decided.value - a.packet.completed <= freshness)
  }

  predicate ControlInv(s: Pipe, freshness: real) {
    && s.resultVersion <= |s.detected|
    && (s.current.Some? <==> s.resultVersion > 0)
    && (s.current.Some? ==> s.current.value == s.detected[s.resultVersion - 1])
    && (s.control.Applying? ==>
          && s.current.Some?
          && s.current.value.completed <= s.control.decided <= s.clock
          && s.control.decided - s.current.value.completed <= freshness)
    && (s.applied != [] ==> s.current.Some?)
    && (forall i :: 0 <= i < |s.applied| ==>
          AppliedInv(s.applied[i], s, freshness) && s.applied[i].packet.frame.sequence <= s.current.value.frame.sequence)
    && (forall i, j :: 0 <= i < j < |s.applied| ==>
          s.applied[i].packet.frame.sequence <= s.applied[j].packet.frame.sequence
          && s.applied[i].commanded <= s.applied[j].commanded)
  }

  predicate Inv(s: Pipe, freshness: real) {
    CaptureInv(s) && InferenceInv(s) && ControlInv(s, freshness)
  }

  // Nothing a thread relies on is changed by another except that time passes and more is published.

  lemma CaptureUndisturbed(s: Pipe, t: Pipe)
    requires CaptureInv(s) && s.clock <= t.clock
    requires t.capture == s.capture && t.previousSequence == s.previousSequence && t.captured == s.captured
    requires t.frames.version == s.frames.version && t.frames.value == s.frames.value
    ensures CaptureInv(t)
  {
  }

  lemma InferenceUndisturbed(s: Pipe, t: Pipe)
    requires InferenceInv(s) && s.clock <= t.clock && s.captured <= t.captured
    requires t.inference == s.inference && t.frameVersion == s.frameVersion && t.detected == s.detected
    requires t.results.version == s.results.version && t.results.value == s.results.value
    ensures InferenceInv(t)
  {
    assert forall p :: p in s.captured ==> p in t.captured;
  }

  lemma ControlUndisturbed(s: Pipe, t: Pipe, freshness: real)
    requires ControlInv(s, freshness) && s.clock <= t.clock && s.detected <= t.detected
    requires t.control == s.control && t.current == s.current && t.resultVersion == s.resultVersion && t.applied == s.applied
    ensures ControlInv(t, freshness)
  {
    assert forall p :: p in s.detected ==> p in t.detected;
  }

  lemma CaptureTouchesOnly(s: Pipe, event: Event)
    ensures var t := StepCapture(s, event);
            && s.clock <= t.clock && s.captured <= t.captured
            && t.inference == s.inference && t.frameVersion == s.frameVersion && t.detected == s.detected
            && t.results == s.results
            && t.control == s.control && t.current == s.current
            && t.resultVersion == s.resultVersion && t.applied == s.applied
  {
  }

  lemma CaptureKeepsInv(s: Pipe, freshness: real, event: Event)
    requires Inv(s, freshness)
    ensures Inv(StepCapture(s, event), freshness)
  {
    var t := StepCapture(s, event);
    CaptureSteps(s, event);
    CaptureTouchesOnly(s, event);
    InferenceUndisturbed(s, t);
    ControlUndisturbed(s, t, freshness);
  }

  lemma CaptureSteps(s: Pipe, event: Event)
    requires CaptureInv(s)
    ensures CaptureInv(StepCapture(s, event))
  {
    match event
    case CaptureStamp(_) => CaptureStampSteps(s, event);
    case CapturePublish => CapturePublishSteps(s, event);
    case _ =>
  }

  lemma CaptureStampSteps(s: Pipe, event: Event)
    requires CaptureInv(s) && event.CaptureStamp?
    ensures CaptureInv(StepCapture(s, event))
  {
  }

  lemma CapturePublishSteps(s: Pipe, event: Event)
    requires CaptureInv(s) && event.CapturePublish?
    ensures CaptureInv(StepCapture(s, event))
  {
  }

  lemma TakeSteps(s: Pipe)
    requires CaptureInv(s) && InferenceInv(s)
    ensures InferenceInv(StepInference(s, InferTake))
  {
    if s.inference.Waiting? && Seen(s.frames, Latest(s.frameVersion, true)).Some? {
      var last := |s.captured| - 1;
      forall i | 0 <= i < |s.detected|
        ensures s.detected[i].frame.sequence < s.captured[last].sequence
      {
        assert s.captured[s.frameVersion - 1].sequence < s.captured[last].sequence;
      }
    }
  }

  lemma StampSteps(s: Pipe, event: Event)
    requires CaptureInv(s) && InferenceInv(s) && (event.InferStart? || event.InferComplete? || event.InferStop?)
    ensures InferenceInv(StepInference(s, event))
  {
  }

  lemma PublishSteps(s: Pipe)
    requires CaptureInv(s) && InferenceInv(s)
    ensures InferenceInv(StepInference(s, InferPublish))
  {
    if s.inference.Detected? && !s.results.closed {
      var t := StepInference(s, InferPublish);
      assert t.detected == s.detected + [s.inference.result];
      assert s.inference.result.frame in s.captured;
    }
  }

  lemma InferenceKeepsInv(s: Pipe, freshness: real, event: Event)
    requires Inv(s, freshness)
    ensures Inv(StepInference(s, event), freshness)
  {
    match event {
      case InferTake => TakeSteps(s);
      case InferPublish => PublishSteps(s);
      case InferStart(_) => StampSteps(s, event);
      case InferComplete(_) => StampSteps(s, event);
      case InferStop => StampSteps(s, event);
      case _ =>
    }
    InferenceLeavesOthers(s, freshness, event);
  }

  lemma InferenceLeavesOthers(s: Pipe, freshness: real, event: Event)
    requires CaptureInv(s) && ControlInv(s, freshness) && (s.inference.Detecting? ==> s.inference.started <= s.clock)
    ensures var t := StepInference(s, event); CaptureInv(t) && ControlInv(t, freshness)
  {
    var t := StepInference(s, event);
    assert s.detected <= t.detected;
    CaptureUndisturbed(s, t);
    ControlUndisturbed(s, t, freshness);
  }

  /** A newer result is never for an older frame. */
  lemma AdoptSteps(s: Pipe, freshness: real, seen: Option<Versioned<DetectionPacket>>)
    requires InferenceInv(s) && ControlInv(s, freshness) && !s.control.Applying?
    requires seen.Some? ==> 1 <= seen.value.version <= |s.detected| && seen.value.value == s.detected[seen.value.version - 1]
    ensures ControlInv(Adopt(s, seen), freshness)
  {
    var t := Adopt(s, seen);
    if t != s && s.current.Some? {
      assert s.detected[s.resultVersion - 1].frame.sequence < s.detected[t.resultVersion - 1].frame.sequence;
    }
  }

  lemma ApplySteps(s: Pipe, freshness: real, event: Event)
    requires InferenceInv(s) && ControlInv(s, freshness)
    requires event.ControlHold? || event.ControlApply?
    ensures ControlInv(StepControl(s, freshness, event), freshness)
  {
    var t := StepControl(s, freshness, event);
    if t != s {
      var last := |s.applied|;
      assert t.applied[..last] == s.applied;
      assert s.current.value in s.detected;
      assert AppliedInv(t.applied[last], t, freshness);
      assert forall i :: 0 <= i < last ==> t.applied[i] == s.applied[i] && AppliedInv(s.applied[i], s, freshness);
    }
  }

  lemma DecideSteps(s: Pipe, freshness: real, event: Event)
    requires ControlInv(s, freshness) && (event.ControlDecide? || event.ControlBegin? || event.ControlStop?)
    ensures ControlInv(StepControl(s, freshness, event), freshness)
  {
  }

  lemma ReadKeeps(s: Pipe, freshness: real, read: Operation<DetectionPacket>)
    requires InferenceInv(s) && ControlInv(s, freshness) && !s.control.Applying?
    ensures ControlInv(ReadResult(s, read), freshness)
    ensures Seen(s.results, read).Some? && Seen(s.results, read).value.version > s.resultVersion ==>
              ReadResult(s, read).current.Some?
  {
    var adopted := Adopt(s, Seen(s.results, read));
    AdoptSteps(s, freshness, Seen(s.results, read));
    ControlUndisturbed(adopted, ReadResult(s, read), freshness);
  }

  lemma FirstSteps(s: Pipe, freshness: real)
    requires InferenceInv(s) && ControlInv(s, freshness)
    ensures ControlInv(StepControl(s, freshness, ControlFirst), freshness)
  {
    if s.control.Starting? && Seen(s.results, Latest(0, true)).Some? {
      ReadKeeps(s, freshness, Latest(0, true));
      PhaseChange(ReadResult(s, Latest(0, true)), Holding, freshness);
    }
  }

  lemma PhaseChange(s: Pipe, phase: ControlPhase, freshness: real)
    requires ControlInv(s, freshness) && !phase.Applying?
    ensures ControlInv(s.(control := phase), freshness)
  {
  }

  lemma ControlKeepsInv(s: Pipe, freshness: real, event: Event)
    requires Inv(s, freshness)
    ensures Inv(StepControl(s, freshness, event), freshness)
  {
    if event.ControlFirst? {
      FirstSteps(s, freshness);
    } else if event.ControlPeek? && s.control.Looping? {
      ReadKeeps(s, freshness, Peek);
    } else if event.ControlWait? && s.control.Looping? {
      ReadKeeps(s, freshness, Latest(s.resultVersion, true));
    } else if event.ControlHold? || event.ControlApply? {
      ApplySteps(s, freshness, event);
    } else if event.ControlDecide? || event.ControlBegin? || event.ControlStop? {
      DecideSteps(s, freshness, event);
    }
    ControlLeavesOthers(s, freshness, event);
  }

  /** Control marks results as consumed, and closes channels at the end; it publishes nothing. */
  lemma ControlTouchesOnly(s: Pipe, freshness: real, event: Event)
    ensures var t := StepControl(s, freshness, event);
            && s.clock <= t.clock
            && t.capture == s.capture && t.previousSequence == s.previousSequence && t.captured == s.captured
            && t.frames.version == s.frames.version && t.frames.value == s.frames.value
            && t.inference == s.inference && t.frameVersion == s.frameVersion && t.detected == s.detected
            && t.results.version == s.results.version && t.results.value == s.results.value
  {
  }

  lemma ControlLeavesOthers(s: Pipe, freshness: real, event: Event)
    requires CaptureInv(s) && InferenceInv(s)
    ensures var t := StepControl(s, freshness, event); CaptureInv(t) && InferenceInv(t)
  {
    var t := StepControl(s, freshness, event);
    ControlTouchesOnly(s, freshness, event);
    CaptureUndisturbed(s, t);
    InferenceUndisturbed(s, t);
  }

  lemma AfterKeepsInv(s: Pipe, freshness: real, event: Event)
    requires Inv(s, freshness)
    ensures Inv(After(s, freshness, event), freshness)
  {
    CaptureKeepsInv(s, freshness, event);
    InferenceKeepsInv(s, freshness, event);
    ControlKeepsInv(s, freshness, event);
  }

  lemma {:induction false} RunKeepsInv(freshness: real, events: seq<Event>, n: nat)
    requires n <= |events|
    ensures Inv(Run(freshness, events, n), freshness)
  {
    if n > 0 {
      RunKeepsInv(freshness, events, n - 1);
      AfterKeepsInv(Run(freshness, events, n - 1), freshness, events[n - 1]);
    }
  }

  /**
   Under every interleaving: each command was sent for a frame that capture published; frame numbers
   of commands never decrease; capture, start and end of inference, the freshness check and the
   command follow each other in time; and the result was no older than the limit at the check.
   */
  lemma CommandsFollowFrames(freshness: real, events: seq<Event>, i: nat, j: nat)
    requires var applied := Run(freshness, events, |events|).applied; i <= j < |applied|
    ensures var s := Run(freshness, events, |events|);
            var a, b := s.applied[i], s.applied[j];
            && a.packet.frame in s.captured
            && a.packet.frame.sequence <= b.packet.frame.sequence && a.commanded <= b.commanded
            && a.packet.frame.captured <= a.packet.started <= a.packet.completed <= a.commanded
            && (a.decided.Some? ==>
                  && a.packet.completed <= a.decided.value <= a.commanded
                  && a.decided.value - a.packet.completed <= freshness)
  {
    RunKeepsInv(freshness, events, |events|);
    var s := Run(freshness, events, |events|);
    assert AppliedInv(s.applied[i], s, freshness);
    var k :| 0 <= k < |s.detected| && s.detected[k] == s.applied[i].packet;
  }

  /** No frame is inferred twice, and results appear in frame order. */
  lemma EachFrameInferredOnce(freshness: real, events: seq<Event>, i: nat, j: nat)
    requires i < j < |Run(freshness, events, |events|).detected|
    ensures var s := Run(freshness, events, |events|);
            s.detected[i].frame.sequence < s.detected[j].frame.sequence && s.detected[i].frame in s.captured
  {
    RunKeepsInv(freshness, events, |events|);
  }
}
