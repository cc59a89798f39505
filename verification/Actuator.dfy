/**
 The host's actuator object: stop-and-wait exchanges with bounded retries, the handshake, session
 faults and the "position uncertain" bookkeeping, proved against the link and the firmware.
 */
module Actuator {
  import opened Common
  import opened Wire
  import opened Mapping
  import opened Link
  import opened Transport
  import Expiry
  import Firmware
  import FirmwareRuns

  const MAX_UNRELATED_RESPONSES := 8

  datatype Failure =
    | Closed
    | NotConnected
    | SessionFaulted
    | OutputsDisabled
    | InvalidTarget
    | Cancelled
    | TransportFailed
    | TimedOut
    | MalformedReply
    | WrongReply
    | WrongVersion
    | Rejected(code: ErrorCode)

  /** What one attempt's reads led to. */
  datatype Attempt = Nothing | Unparsed | Settled(result: Result<Response, Failure>)

  /** What was known of the link when the next number was taken. */
  function StartOf(n: Net, command: Command): Start {
    Start(n.issued + 1, command, Quiet(n), Pose(n.fw), n.writes)
  }

  /** What the host believes of its session. */
  datatype Beliefs = Beliefs(connected: bool, enabled: bool, faulted: bool, uncertain: bool)

  /**
   How an exchange can fail, and what the host then believes; `written` is the link before the first
   write, and `mayHide` says that the command was written again with time for an expiry between.
   */
  predicate FailedWith(command: Command, written: Net, n: Net, mayHide: bool,
                       failure: Failure, was: Beliefs, now: Beliefs)
  {
    match failure
    case Rejected(code) =>
      && Quiet(n) && (Applied(n) ==> n.expired && code == NotEnabled && mayHide)
      && now == was.(enabled := was.enabled && code != NotEnabled)
    case TimedOut => now == was.(enabled := false, uncertain := was.uncertain || IsMotion(command))
    case TransportFailed =>
      now == was.(connected := false, enabled := false, uncertain := was.uncertain || IsMotion(command))
    case Cancelled =>
      && IsMotion(command)
      && (now == was.(enabled := false, uncertain := true) || (n == written && now == was))
    case NotConnected => n == written && now == was
    case MalformedReply => now == Beliefs(false, false, true, true)
    case _ => false
  }

  /** The answer an exchange accepts: the right kind, the right number, and still true of the firmware. */
  predicate Accepted(command: Command, n: Net, response: Response) {
    && (if command.Status? then response.Report? else response.Ack?)
    && SequenceOf(response) == command.sequence
    && Quiet(n) && Current(n, response) && Suits(command, response) && Consistent(response)
  }

  /** What the host believes after an exchange with this result. */
  predicate Ended(command: Command, written: Net, n: Net, mayHide: bool,
                  result: Result<Response, Failure>, was: Beliefs, now: Beliefs)
  {
    match result
    case Ok(response) => Accepted(command, n, response) && now == was
    case Err(failure) => FailedWith(command, written, n, mayHide, failure, was, now)
  }

  /** The pose is the old one, unless a refused retry hides that it is the requested one. */
  predicate OldPoseUnlessHidden(cfg: Firmware.Config, before: Net, n: Net, command: Command,
                                mayHide: bool, failure: Failure)
  {
    && Pose(n.fw) == (if Applied(n) then FirmwareRuns.Requested(cfg, command) else Pose(before.fw))
    && (Applied(n) ==> IsMotion(command) && failure == Rejected(NotEnabled) && mayHide)
  }

  /** Only a refused retry can leave the host connected and certain of a pose that has changed. */
  lemma FailureMeans(cfg: Firmware.Config, before: Net, n: Net, command: Command, mayHide: bool,
                     failure: Failure, was: Beliefs, now: Beliefs)
    requires InExchange(cfg, n, StartOf(before, command))
    requires FailedWith(command, Issue(before, command), n, mayHide, failure, was, now)
    requires was.connected && !was.uncertain ==> Quiet(before)
    requires now.connected && !now.uncertain
    ensures was.connected && !was.uncertain && Quiet(n)
    ensures OldPoseUnlessHidden(cfg, before, n, command, mayHide, failure)
  {
    if failure.TimedOut? {
      NoMotionStaysQuiet(cfg, n, StartOf(before, command));
    }
  }

  /** What the ACK of a command names. */
  function AckOf(command: Command): Acked {
    match command
    case Set(_, _, _) => AckSet
    case Center(_) => AckCenter
    case Enable(_) => AckEnable
    case _ => AckDisable
  }

  /** What the host may believe together. */
  predicate Coherent(b: Beliefs) {
    && (b.enabled ==> b.connected && !b.uncertain)
    && (b.connected ==> !b.faulted)
  }

  lemma EndedIsCoherent(command: Command, written: Net, n: Net, mayHide: bool,
                        result: Result<Response, Failure>, was: Beliefs, now: Beliefs)
    requires Ended(command, written, n, mayHide, result, was, now) && Coherent(was)
    ensures Coherent(now) && (now.connected ==> was.connected) && (now.enabled ==> was.enabled)
  {
  }

  /** The pose a response names. */
  function Degrees(response: Response): (Degree, Degree)
    requires response.Ack? || response.Report?
  {
    match response
    case Ack(_, _, p, t) => (p, t)
    case Report(_, _, p, t, _) => (p, t)
  }

  class ArduinoSerialActuator {
    const pan: Axis
    const tilt: Axis
    const retries: nat
    const link: SerialLink

    var nextSequence: Sequence
    var connected: bool
    var enabled: bool
    var sessionFaulted: bool
    var closed: bool
    var positionUncertain: bool
    var startupReadySeen: bool
    var panDeg: real
    var tiltDeg: real
    var physicalPan: Degree
    var physicalTilt: Degree

    /** The pose the host last saw confirmed, in physical and in logical degrees. */
    ghost predicate PoseInv()
      reads this
    {
      && ValidAxis(pan) && ValidAxis(tilt)
      && InLogical(pan, panDeg) && InLogical(tilt, tiltDeg)
      && InPhysical(pan, physicalPan) && InPhysical(tilt, physicalTilt)
      && physicalPan == Map(pan, panDeg) && physicalTilt == Map(tilt, tiltDeg)
    }

    ghost predicate SessionInv()
      reads this, link
    {
      && NetInv(link.cfg, link.net)
      && Coherent(Believed())
      && (connected ==> !closed)
      && (connected && !positionUncertain ==> Quiet(link.net))
    }

    /** The command carries the number just taken. */
    ghost predicate Numbered(command: Command)
      reads this, link
    {
      command.sequence == SeqOf(link.net.issued + 1) && nextSequence == NextSequence(command.sequence)
    }

    ghost predicate Valid()
      reads this, link
    {
      PoseInv() && SessionInv() && nextSequence == SeqOf(link.net.issued + 1)
    }

    ghost function Believed(): Beliefs
      reads this
    {
      Beliefs(connected, enabled, sessionFaulted, positionUncertain)
    }

    /** The pose last confirmed, in logical and in physical degrees. */
    ghost function Shown(): (real, real, Degree, Degree)
      reads this
    {
      (panDeg, tiltDeg, physicalPan, physicalTilt)
    }

    ghost function HostPose(): (int, int)
      reads this
    {
      (physicalPan, physicalTilt)
    }

    /** A connected host that is not uncertain holds the firmware's pose. */
    ghost predicate Agrees()
      reads this, link
    {
      connected && !positionUncertain ==> Pose(link.net.fw) == HostPose()
    }

    constructor (pan: Axis, tilt: Axis, retries: nat, link: SerialLink)
      requires ValidAxis(pan) && ValidAxis(tilt)
      requires NetInv(link.cfg, link.net) && link.net.issued == 0
      ensures Valid() && Agrees() && !connected && !closed && this.link == link
      ensures this.pan == pan && this.tilt == tilt && this.retries == retries
    {
      this.pan, this.tilt, this.retries, this.link := pan, tilt, retries, link;
      nextSequence := MIN_SEQUENCE;
      connected, enabled, sessionFaulted := false, false, false;
      closed, positionUncertain, startupReadySeen := false, false, false;
      panDeg, tiltDeg := pan.initial, tilt.initial;
      InitialMapsToNeutral(pan);
      InitialMapsToNeutral(tilt);
      physicalPan, physicalTilt := pan.neutral, tilt.neutral;
    }

    method TakeSequence() returns (sequence: Sequence)
      requires Valid()
      modifies `nextSequence
      ensures PoseInv() && SessionInv()
      ensures sequence == SeqOf(link.net.issued + 1) && nextSequence == NextSequence(sequence)
    {
      sequence := nextSequence;
      nextSequence := NextSequence(sequence);
    }

    method SessionIntegrityFault()
      modifies `connected, `enabled, `sessionFaulted, `positionUncertain
      ensures !connected && !enabled && sessionFaulted && positionUncertain
    {
      connected := false;
      enabled := false;
      sessionFaulted := true;
      positionUncertain := true;
    }

    method MarkUncertainFor(command: Command)
      modifies `enabled, `positionUncertain
      ensures !enabled && positionUncertain == (old(positionUncertain) || IsMotion(command))
    {
      enabled := false;
      if command.Set? || command.Center? || command.Enable? {
        positionUncertain := true;
      }
    }

    method LoseTransport(command: Command)
      modifies `connected, `enabled, `positionUncertain
      ensures Believed() == old(Believed()).(connected := false, enabled := false,
                                             uncertain := old(positionUncertain) || IsMotion(command))
    {
      connected := false;
      MarkUncertainFor(command);
    }

    method CancellationRequested() returns (requested: bool)
    {
      requested := *;
    }

    // ---- one exchange ----

    /** The current command was written again, with time for an expiry between. */
    ghost predicate MayHide()
      reads link
    {
      link.sent >= 2 && !link.inSpan
    }

    /** A response with the current number or none settles the exchange, except a READY; all others are skipped. */
    method Consider(command: Command, response: Response) returns (verdict: Option<Result<Response, Failure>>)
      modifies `connected, `enabled, `sessionFaulted, `positionUncertain, `startupReadySeen
      ensures response.Error? && (response.sequence == 0 || response.sequence == command.sequence) ==>
                && verdict == Some(Err(Rejected(response.code)))
                && enabled == (old(enabled) && response.code != NotEnabled)
                && unchanged(`connected, `sessionFaulted, `positionUncertain, `startupReadySeen)
      ensures response.Ready? ==>
                && verdict.None? && Believed() == old(Believed())
                && startupReadySeen == (old(startupReadySeen) || response.sequence == 0)
      ensures (response.Ack? || response.Report?) && SequenceOf(response) == command.sequence ==>
                if response.Report? == command.Status? then
                  && verdict == Some(Ok(response))
                  && unchanged(`connected, `enabled, `sessionFaulted, `positionUncertain, `startupReadySeen)
                else
                  && verdict == Some(Err(WrongReply)) && unchanged(`startupReadySeen)
                  && !connected && !enabled && sessionFaulted && positionUncertain
      ensures SequenceOf(response) != command.sequence && !response.Ready?
              && !(response.Error? && response.sequence == 0) ==>
                verdict.None? && unchanged(`connected, `enabled, `sessionFaulted, `positionUncertain, `startupReadySeen)
    {
      verdict := None;
      if response.Error? {
        if response.sequence == 0 || response.sequence == command.sequence {
          if response.code == NotEnabled {
            enabled := false;
          }
          return Some(Err(Rejected(response.code)));
        }
      } else if response.Ready? {
        if response.sequence == 0 {
          startupReadySeen := true;
        }
      } else if SequenceOf(response) == command.sequence {
        if response.Report? != command.Status? {
          SessionIntegrityFault();
          return Some(Err(WrongReply));
        }
        return Some(Ok(response));
      }
    }

    /** The same, judged against the link the response was read from. */
    method Judge(command: Command, response: Response) returns (verdict: Option<Result<Response, Failure>>)
      requires !command.Hello? && Correlated(link.net, response)
      requires link.net.issued >= 1 && link.net.current == command
      requires Refuses(link.net, response) && (link.sent <= 1 || link.inSpan) ==> !Applied(link.net)
      modifies `connected, `enabled, `sessionFaulted, `positionUncertain, `startupReadySeen
      ensures verdict.None? ==> Believed() == old(Believed())
      ensures verdict.Some? ==>
                && (verdict.value.Ok? || verdict.value.error.Rejected?)
                && Ended(command, link.net, link.net, MayHide(), verdict.value, old(Believed()), Believed())
    {
      verdict := Consider(command, response);
    }

    /** One read, while the attempt goes on: it may settle the exchange or end the attempt. */
    method ReadOnce(command: Command, ghost s: Start) returns (attempt: Option<Attempt>)
      requires !command.Hello? && InExchange(link.cfg, link.net, s) && s.command == command && link.Tracked()
      modifies `connected, `enabled, `sessionFaulted, `positionUncertain, `startupReadySeen, link`net, link`clock
      ensures InExchange(link.cfg, link.net, s) && link.Tracked()
      ensures attempt.None? || !attempt.value.Settled? ==> Believed() == old(Believed())
      ensures attempt.Some? && attempt.value.Settled? ==>
                && attempt.value.result != Err(Cancelled) && attempt.value.result != Err(NotConnected)
                && Ended(command, link.net, link.net, MayHide(), attempt.value.result, old(Believed()), Believed())
    {
      var reading := link.ReadFrame();
      match reading {
        case Silence =>
          return Some(Nothing);
        case Garbled =>
          return Some(Unparsed);
        case Failed =>
          LoseTransport(command);
          return Some(Settled(Err(TransportFailed)));
        case Received(response) =>
          var verdict := Judge(command, response);
          attempt := if verdict.Some? then Some(Settled(verdict.value)) else None;
      }
    }

    /** The reads of one attempt: at most eight, until an answer, a silence or an unparsable frame. */
    method AwaitReply(command: Command, ghost s: Start) returns (attempt: Attempt)
      requires !command.Hello? && InExchange(link.cfg, link.net, s) && s.command == command && link.Tracked()
      modifies `connected, `enabled, `sessionFaulted, `positionUncertain, `startupReadySeen, link`net, link`clock
      ensures InExchange(link.cfg, link.net, s) && link.Tracked()
      ensures !attempt.Settled? ==> Believed() == old(Believed())
      ensures attempt.Settled? ==>
                && attempt.result != Err(Cancelled) && attempt.result != Err(NotConnected)
                && Ended(command, link.net, link.net, MayHide(), attempt.result, old(Believed()), Believed())
    {
      for read := 0 to MAX_UNRELATED_RESPONSES
        invariant InExchange(link.cfg, link.net, s) && link.Tracked()
        invariant Believed() == old(Believed())
      {
        var settled := ReadOnce(command, s);
        if settled.Some? {
          return settled.value;
        }
      }
      attempt := Nothing;
    }

    /** One attempt: a motion is not written once cancellation is asked for. */
    method AttemptOnce(command: Command, writeStarted: bool, ghost s: Start) returns (outcome: Attempt)
      requires !command.Hello? && InExchange(link.cfg, link.net, s) && s.command == command && link.Tracked()
      modifies `connected, `enabled, `sessionFaulted, `positionUncertain, `startupReadySeen
      modifies link`net, link`clock, link`sent
      ensures InExchange(link.cfg, link.net, s) && link.Tracked()
      ensures link.sent <= old(link.sent) + 1
      ensures !outcome.Settled? ==> Believed() == old(Believed())
      ensures outcome.Settled? ==>
                && outcome.result != Err(NotConnected)
                && (outcome.result == Err(Cancelled) && writeStarted ==> !enabled && positionUncertain)
                && Ended(command, old(link.net), link.net, MayHide(), outcome.result, old(Believed()), Believed())
    {
      if IsMotion(command) {
        var cancelled := CancellationRequested();
        if cancelled {
          if writeStarted {
            MarkUncertainFor(command);
          }
          return Settled(Err(Cancelled));
        }
      }
      outcome := WriteAndAwait(command, s);
    }

    method WriteAndAwait(command: Command, ghost s: Start) returns (outcome: Attempt)
      requires !command.Hello? && InExchange(link.cfg, link.net, s) && s.command == command && link.Tracked()
      modifies `connected, `enabled, `sessionFaulted, `positionUncertain, `startupReadySeen
      modifies link`net, link`clock, link`sent
      ensures InExchange(link.cfg, link.net, s) && link.Tracked()
      ensures link.sent <= old(link.sent) + 1
      ensures !outcome.Settled? ==> Believed() == old(Believed())
      ensures outcome.Settled? ==>
                && outcome.result != Err(Cancelled) && outcome.result != Err(NotConnected)
                && Ended(command, link.net, link.net, MayHide(), outcome.result, old(Believed()), Believed())
    {
      var submitted := link.Write();
      if !submitted {
        LoseTransport(command);
        return Settled(Err(TransportFailed));
      }
      outcome := AwaitReply(command, s);
    }

    method Attempts(command: Command, ghost s: Start) returns (r: Result<Response, Failure>)
      requires !command.Hello? && InExchange(link.cfg, link.net, s) && s.command == command
      requires link.Tracked() && link.sent == 0
      modifies `connected, `enabled, `sessionFaulted, `positionUncertain, `startupReadySeen
      modifies link`net, link`clock, link`sent
      ensures InExchange(link.cfg, link.net, s) && link.sent <= retries + 1
      ensures Ended(command, old(link.net), link.net, MayHide(), r, old(Believed()), Believed())
    {
      var open := link.IsOpen();
      if !open {
        return Err(NotConnected);
      }
      var malformed, writeStarted := false, false;
      for attempt := 0 to retries + 1
        invariant InExchange(link.cfg, link.net, s) && link.Tracked()
        invariant Believed() == old(Believed())
        invariant (!writeStarted ==> link.net == old(link.net)) && link.sent <= attempt
      {
        var outcome := AttemptOnce(command, writeStarted, s);
        if outcome.Settled? {
          return outcome.result;
        }
        writeStarted := true;
        malformed := malformed || outcome.Unparsed?;
      }
      MarkUncertainFor(command);
      if malformed {
        SessionIntegrityFault();
        return Err(MalformedReply);
      }
      return Err(TimedOut);
    }

    /** Take the command's number into the link's count. */
    method Begin(command: Command)
      requires PoseInv() && SessionInv() && Numbered(command)
      modifies link`net, link`begun, link`sent, link`inSpan
      ensures link.net == Issue(old(link.net), command) && nextSequence == SeqOf(link.net.issued + 1)
      ensures InExchange(link.cfg, link.net, StartOf(old(link.net), command))
      ensures link.Tracked() && link.begun == link.clock && link.sent == 0 && link.inSpan == old(link.BeforeExpiry(command))
    {
      link.Begin(command);
      SeqOfNext(link.net.issued);
    }

    method BeginAndAttempt(command: Command) returns (r: Result<Response, Failure>)
      requires !command.Hello? && PoseInv() && SessionInv() && Numbered(command)
      modifies `connected, `enabled, `sessionFaulted, `positionUncertain, `startupReadySeen, link
      ensures PoseInv() && nextSequence == SeqOf(link.net.issued + 1)
      ensures InExchange(link.cfg, link.net, StartOf(old(link.net), command))
      ensures Ended(command, Issue(old(link.net), command), link.net, MayHide(), r, old(Believed()), Believed())
      ensures MayHide() ==> retries >= 1 && !old(link.BeforeExpiry(command))
    {
      ghost var before := link.net;
      Begin(command);
      r := Attempts(command, StartOf(before, command));
    }

    /**
     One stop-and-wait exchange: the command is written at most retries + 1 times. An answer is only
     accepted if it is true of the firmware now; every failure leaves the host disconnected,
     uncertain or with a quiet link whose pose is the old one, except that a retry of a motion already
     applied can be refused with NOT_ENABLED after the watchdog expired.
     */
    method Exchange(command: Command) returns (r: Result<Response, Failure>)
      requires !command.Hello? && PoseInv() && SessionInv() && Numbered(command)
      modifies `connected, `enabled, `sessionFaulted, `positionUncertain, `startupReadySeen, link
      ensures Valid() && link.net.current == command && AtMostOnce(link.cfg, old(link.net), link.net, command)
      ensures Ended(command, Issue(old(link.net), command), link.net, MayHide(), r, old(Believed()), Believed())
      ensures r.Err? && connected && !positionUncertain ==>
                && old(connected) && !old(positionUncertain)
                && OldPoseUnlessHidden(link.cfg, old(link.net), link.net, command,
                                       retries >= 1 && !old(link.BeforeExpiry(command)), r.error)
    {
      ghost var before := link.net;
      r := BeginAndAttempt(command);
      EndedIsCoherent(command, Issue(before, command), link.net, MayHide(), r, old(Believed()), Believed());
      if r.Err? && connected && !positionUncertain {
        FailureMeans(link.cfg, before, link.net, command, MayHide(), r.error, old(Believed()), Believed());
      }
    }

    /** An ACK for another command is a session fault. */
    method NamesCommand(response: Response, expected: Acked) returns (own: bool)
      requires response.Ack?
      modifies `connected, `enabled, `sessionFaulted, `positionUncertain
      ensures own <==> response.acked == expected
      ensures Believed() == if own then old(Believed()) else Beliefs(false, false, true, true)
    {
      own := response.acked == expected;
      if !own {
        SessionIntegrityFault();
      }
    }

    /** Behind this link that fault never happens: an accepted ACK is the command's own. */
    method Acknowledged(command: Command, expected: Acked) returns (r: Result<Response, Failure>)
      requires !command.Hello? && !command.Status? && PoseInv() && SessionInv() && Numbered(command)
      requires expected == AckOf(command)
      modifies `connected, `enabled, `sessionFaulted, `positionUncertain, `startupReadySeen, link
      ensures Valid() && link.net.current == command && AtMostOnce(link.cfg, old(link.net), link.net, command)
      ensures Ended(command, Issue(old(link.net), command), link.net, MayHide(), r, old(Believed()), Believed())
      ensures r.Ok? ==> r.value.acked == expected
      ensures r.Err? && connected && !positionUncertain ==>
                && old(connected) && !old(positionUncertain)
                && OldPoseUnlessHidden(link.cfg, old(link.net), link.net, command,
                                       retries >= 1 && !old(link.BeforeExpiry(command)), r.error)
    {
      r := Exchange(command);
      if r.Ok? {
        var own := NamesCommand(r.value, expected);
        assert own;
      }
    }

    // ---- operations ----

    /** A motion that was applied and then refused: the firmware moved and the host did not notice. */
    ghost predicate Overtaken(failure: Option<Failure>)
      reads this, link
    {
      && failure == Some(Rejected(NotEnabled))
      && connected && !positionUncertain
      && Applied(link.net) && FirmwareRuns.Requested(link.cfg, link.net.current) != HostPose()
    }

    function ConnectionFailure(): Failure
      reads this
    {
      if closed then Closed else if sessionFaulted then SessionFaulted else NotConnected
    }

    /** Adopt a confirmed pose. */
    method Confirm(response: Response, logicalPan: real, logicalTilt: real)
      requires response.Ack? || response.Report?
      requires ValidAxis(pan) && ValidAxis(tilt) && InLogical(pan, logicalPan) && InLogical(tilt, logicalTilt)
      requires var (p, t) := Degrees(response);
               p == Map(pan, logicalPan) && t == Map(tilt, logicalTilt) && InPhysical(pan, p) && InPhysical(tilt, t)
      modifies `panDeg, `tiltDeg, `physicalPan, `physicalTilt
      ensures PoseInv() && HostPose() == Degrees(response) && panDeg == logicalPan && tiltDeg == logicalTilt
    {
      panDeg, tiltDeg := logicalPan, logicalTilt;
      physicalPan, physicalTilt := Degrees(response).0, Degrees(response).1;
    }

    /** A motion must be acknowledged at the degrees it asked for; it then restores certainty. */
    method ConfirmRequested(response: Response, requested: (Degree, Degree), logicalPan: real, logicalTilt: real)
      returns (failure: Option<Failure>)
      requires (response.Ack? || response.Report?) && Quiet(link.net)
      requires PoseInv() && SessionInv() && InLogical(pan, logicalPan) && InLogical(tilt, logicalTilt)
      requires requested == (Map(pan, logicalPan), Map(tilt, logicalTilt))
      requires InPhysical(pan, requested.0) && InPhysical(tilt, requested.1)
      modifies `connected, `enabled, `sessionFaulted, `positionUncertain
      modifies `panDeg, `tiltDeg, `physicalPan, `physicalTilt
      ensures PoseInv() && SessionInv()
      ensures Degrees(response) == requested ==>
                && failure.None? && Believed() == old(Believed()).(uncertain := false)
                && HostPose() == Degrees(response) && panDeg == logicalPan && tiltDeg == logicalTilt
      ensures Degrees(response) != requested ==>
                && failure == Some(WrongReply) && Believed() == Beliefs(false, false, true, true)
                && Shown() == old(Shown())
    {
      if Degrees(response) != requested {
        SessionIntegrityFault();
        return Some(WrongReply);
      }
      Confirm(response, logicalPan, logicalTilt);
      positionUncertain := false;
      failure := None;
    }

    /** ENABLE and CENTER must be acknowledged at the configured physical neutral. */
    method AcknowledgedAtNeutral(command: Command, expected: Acked) returns (failure: Option<Failure>)
      requires (command.Enable? || command.Center?) && PoseInv() && SessionInv() && Numbered(command)
      requires expected == AckOf(command)
      modifies `connected, `enabled, `sessionFaulted, `positionUncertain, `startupReadySeen
      modifies `panDeg, `tiltDeg, `physicalPan, `physicalTilt, link
      ensures Valid()
      ensures failure.None? ==>
                && unchanged(`connected, `enabled) && !positionUncertain
                && Pose(link.net.fw) == HostPose() == (pan.neutral, tilt.neutral)
                && panDeg == pan.initial && tiltDeg == tilt.initial
                && Quiet(link.net)
      ensures failure.Some? ==> Shown() == old(Shown()) && (enabled ==> old(enabled))
      ensures old(Agrees()) ==> (Agrees() <==> !Overtaken(failure))
      ensures retries == 0 || old(link.BeforeExpiry(command)) ==> !Overtaken(failure)
    {
      var r := Acknowledged(command, expected);
      if r.Err? {
        return Some(r.error);
      }
      InitialMapsToNeutral(pan);
      InitialMapsToNeutral(tilt);
      failure := ConfirmRequested(r.value, (pan.neutral, tilt.neutral), pan.initial, tilt.initial);
    }

    method Enable() returns (failure: Option<Failure>)
      requires Valid()
      modifies `nextSequence, `connected, `enabled, `sessionFaulted, `positionUncertain, `startupReadySeen
      modifies `panDeg, `tiltDeg, `physicalPan, `physicalTilt, link
      ensures Valid()
      ensures failure.None? ==>
                && connected && enabled && !positionUncertain
                && Pose(link.net.fw) == HostPose() == (pan.neutral, tilt.neutral)
                && panDeg == pan.initial && tiltDeg == tilt.initial
      ensures failure.Some? ==> Shown() == old(Shown()) && (enabled ==> old(enabled))
      ensures old(Agrees()) ==> (Agrees() <==> !Overtaken(failure))
      ensures retries == 0 || link.Swift() ==> !Overtaken(failure)
    {
      if !connected {
        return Some(ConnectionFailure());
      }
      var cancelled := CancellationRequested();
      if cancelled {
        return Some(Cancelled);
      }
      var sequence := TakeSequence();
      failure := AcknowledgedAtNeutral(Command.Enable(sequence), AckEnable);
      if failure.None? {
        enabled := true;
      }
    }

    method Center() returns (failure: Option<Failure>)
      requires Valid()
      modifies `nextSequence, `connected, `enabled, `sessionFaulted, `positionUncertain, `startupReadySeen
      modifies `panDeg, `tiltDeg, `physicalPan, `physicalTilt, link
      ensures Valid()
      ensures failure.None? ==>
                && connected && enabled && !positionUncertain
                && Pose(link.net.fw) == HostPose() == (pan.neutral, tilt.neutral)
                && panDeg == pan.initial && tiltDeg == tilt.initial
      ensures failure.Some? ==> Shown() == old(Shown()) && (enabled ==> old(enabled))
      ensures old(Agrees()) ==> (Agrees() <==> !Overtaken(failure))
      ensures retries == 0 || old(link.BeforeExpiry(Command.Center(nextSequence))) ==> !Overtaken(failure)
    {
      if !enabled {
        return Some(if connected then OutputsDisabled else ConnectionFailure());
      }
      var cancelled := CancellationRequested();
      if cancelled {
        return Some(Cancelled);
      }
      var sequence := TakeSequence();
      failure := AcknowledgedAtNeutral(Command.Center(sequence), AckCenter);
    }

    method AcknowledgedSet(command: Command, targetPan: real, targetTilt: real) returns (failure: Option<Failure>)
      requires command.Set? && PoseInv() && SessionInv() && Numbered(command) && enabled
      requires InLogical(pan, targetPan) && InLogical(tilt, targetTilt)
      requires command.pan == Map(pan, targetPan) && command.tilt == Map(tilt, targetTilt)
      requires InPhysical(pan, command.pan) && InPhysical(tilt, command.tilt)
      modifies `connected, `enabled, `sessionFaulted, `positionUncertain, `startupReadySeen
      modifies `panDeg, `tiltDeg, `physicalPan, `physicalTilt, link
      ensures Valid()
      ensures failure.None? ==>
                && connected && enabled && !positionUncertain
                && Pose(link.net.fw) == HostPose() == (command.pan, command.tilt)
                && panDeg == targetPan && tiltDeg == targetTilt
      ensures failure != Some(InvalidTarget)
      ensures failure.Some? ==> Shown() == old(Shown())
      ensures failure in {Some(TimedOut), Some(MalformedReply), Some(WrongReply), Some(TransportFailed)} ==>
                !enabled && positionUncertain
      ensures AtMostOnce(link.cfg, old(link.net), link.net, command)
      ensures old(Agrees()) ==> (Agrees() <==> !Overtaken(failure))
      ensures retries == 0 || link.Swift() ==> !Overtaken(failure)
    {
      var r := Acknowledged(command, AckSet);
      if r.Err? {
        return Some(r.error);
      }
      failure := ConfirmRequested(r.value, (command.pan, command.tilt), targetPan, targetTilt);
    }

    /**
     Move to a logical target. Returning normally means the firmware has exactly the requested
     physical pose. From the first write on, every failure but a refusal leaves the host disabled
     and uncertain with its confirmed pose untouched; and the pose was written at most once.
     */
    method Apply(targetPan: real, targetTilt: real) returns (failure: Option<Failure>)
      requires Valid()
      modifies `nextSequence, `connected, `enabled, `sessionFaulted, `positionUncertain, `startupReadySeen
      modifies `panDeg, `tiltDeg, `physicalPan, `physicalTilt, link
      ensures Valid()
      ensures failure.None? ==>
                && connected && enabled && !positionUncertain
                && Pose(link.net.fw) == HostPose() == (Map(pan, targetPan), Map(tilt, targetTilt))
                && panDeg == targetPan && tiltDeg == targetTilt
      ensures failure == Some(InvalidTarget) ==> !InLogical(pan, targetPan) || !InLogical(tilt, targetTilt)
      ensures failure.Some? ==> Shown() == old(Shown()) && (enabled ==> old(enabled))
      ensures failure in {Some(TimedOut), Some(MalformedReply), Some(WrongReply), Some(TransportFailed)} ==>
                !enabled && positionUncertain
      ensures old(enabled) ==> link.net.writes <= old(link.net.writes) + 1
      ensures old(enabled) ==> Pose(link.net.fw) == old(Pose(link.net.fw))
                               || Pose(link.net.fw) == (Map(pan, targetPan), Map(tilt, targetTilt))
      ensures !old(enabled) ==> failure.Some? && link.net == old(link.net)
      ensures old(Agrees()) ==> (Agrees() <==> !Overtaken(failure))
      ensures retries == 0 || link.Swift() ==> !Overtaken(failure)
    {
      if !enabled {
        return Some(if connected then OutputsDisabled else ConnectionFailure());
      }
      var cancelled := CancellationRequested();
      if cancelled {
        return Some(Cancelled);
      }
      if !InLogical(pan, targetPan) || !InLogical(tilt, targetTilt) {
        return Some(InvalidTarget);
      }
      MapStaysPhysical(pan, targetPan);
      MapStaysPhysical(tilt, targetTilt);
      var sequence := TakeSequence();
      failure := AcknowledgedSet(Command.Set(sequence, Map(pan, targetPan), Map(tilt, targetTilt)), targetPan, targetTilt);
    }

    /** Adopt a confirmed pose with the logical angles it unmaps to, unless it lies outside the limits. */
    method ConfirmShown(response: Response) returns (ok: bool)
      requires (response.Ack? || response.Report?) && PoseInv()
      modifies `panDeg, `tiltDeg, `physicalPan, `physicalTilt
      ensures var (p, t) := Degrees(response);
              ok <==> InPhysical(pan, p) && InPhysical(tilt, t)
                      && InLogical(pan, Unmap(pan, p)) && InLogical(tilt, Unmap(tilt, t))
      ensures PoseInv()
      ensures ok ==> HostPose() == Degrees(response)
      ensures !ok ==> Shown() == old(Shown())
    {
      var (p, t) := Degrees(response);
      if !InPhysical(pan, p) || !InPhysical(tilt, t) {
        return false;
      }
      var logicalPan, logicalTilt := Unmap(pan, p), Unmap(tilt, t);
      if !InLogical(pan, logicalPan) || !InLogical(tilt, logicalTilt) {
        return false;
      }
      MapUndoesUnmap(pan, p);
      MapUndoesUnmap(tilt, t);
      Confirm(response, logicalPan, logicalTilt);
      ok := true;
    }

    /** A confirmed pose the host cannot represent is a session fault. */
    method ShowOrFault(response: Response) returns (ok: bool)
      requires (response.Ack? || response.Report?) && Valid()
      modifies `connected, `enabled, `sessionFaulted, `positionUncertain
      modifies `panDeg, `tiltDeg, `physicalPan, `physicalTilt
      ensures Valid()
      ensures ok ==> HostPose() == Degrees(response) && Believed() == old(Believed())
      ensures !ok ==> !connected && !enabled && Shown() == old(Shown())
    {
      ok := ConfirmShown(response);
      if !ok {
        SessionIntegrityFault();
      }
    }

    method AcknowledgedDisable(command: Command) returns (failure: Option<Failure>)
      requires command.Disable? && PoseInv() && SessionInv() && Numbered(command)
      modifies `connected, `enabled, `sessionFaulted, `positionUncertain, `startupReadySeen
      modifies `panDeg, `tiltDeg, `physicalPan, `physicalTilt, link
      ensures Valid()
      ensures failure.None? ==>
                && Believed() == old(Believed())
                && Pose(link.net.fw) == HostPose() && !link.net.fw.enabled && Quiet(link.net)
      ensures failure.Some? ==>
                Shown() == old(Shown()) && (enabled ==> old(enabled)) && (connected ==> old(connected))
      ensures old(Agrees()) ==> Agrees()
    {
      var r := Acknowledged(command, AckDisable);
      if r.Err? {
        return Some(r.error);
      }
      var shown := ShowOrFault(r.value);
      failure := if shown then None else Some(WrongReply);
    }

    /** DISABLE is confirmed only by a firmware whose outputs are off. */
    method DisableInternal() returns (failure: Option<Failure>)
      requires Valid()
      modifies `nextSequence, `connected, `enabled, `sessionFaulted, `positionUncertain, `startupReadySeen
      modifies `panDeg, `tiltDeg, `physicalPan, `physicalTilt, link
      ensures Valid()
      ensures failure.None? ==>
                && Believed() == old(Believed()).(enabled := false)
                && Pose(link.net.fw) == HostPose() && !link.net.fw.enabled && Quiet(link.net)
      ensures failure.Some? ==>
                Shown() == old(Shown()) && (enabled ==> old(enabled)) && (connected ==> old(connected))
      ensures old(Agrees()) ==> Agrees()
    {
      var sequence := TakeSequence();
      failure := AcknowledgedDisable(Command.Disable(sequence));
      if failure.None? {
        enabled := false;
      }
    }

    method Disable() returns (failure: Option<Failure>)
      requires Valid()
      modifies `nextSequence, `connected, `enabled, `sessionFaulted, `positionUncertain, `startupReadySeen
      modifies `panDeg, `tiltDeg, `physicalPan, `physicalTilt, link
      ensures Valid()
      ensures failure.None? ==> connected && !enabled && Pose(link.net.fw) == HostPose() && !link.net.fw.enabled
      ensures failure.Some? ==> Shown() == old(Shown()) && (enabled ==> old(enabled))
      ensures old(Agrees()) ==> Agrees()
    {
      if !connected {
        return Some(ConnectionFailure());
      }
      failure := DisableInternal();
    }

    /** A confirmed status restores certainty about the pose, and never shows live outputs as off. */
    method Status() returns (r: Result<Response, Failure>)
      requires Valid()
      modifies `nextSequence, `connected, `enabled, `sessionFaulted, `positionUncertain, `startupReadySeen
      modifies `panDeg, `tiltDeg, `physicalPan, `physicalTilt, link
      ensures Valid()
      ensures r.Ok? ==>
                && r.value.Report? && connected && !positionUncertain
                && Pose(link.net.fw) == HostPose() == Degrees(r.value)
                && enabled == r.value.enabled && (!enabled ==> !link.net.fw.enabled)
      ensures r.Err? ==> Shown() == old(Shown()) && (enabled ==> old(enabled))
      ensures old(Agrees()) ==> Agrees()
    {
      if !connected {
        return Err(ConnectionFailure());
      }
      var sequence := TakeSequence();
      r := Reported(Command.Status(sequence));
      if r.Err? {
        return;
      }
      var shown := ShowOrFault(r.value);
      if !shown {
        return Err(WrongReply);
      }
      enabled := r.value.enabled;
      positionUncertain := false;
      if r.value.watchdog.Expired? {
        enabled := false;
      }
    }

    /** A status whose enabled flag and watchdog state contradict each other is a session fault. */
    method AgreesWithItself(response: Response) returns (ok: bool)
      requires response.Report?
      modifies `connected, `enabled, `sessionFaulted, `positionUncertain
      ensures ok <==> Consistent(response)
      ensures Believed() == if ok then old(Believed()) else Beliefs(false, false, true, true)
    {
      ok := response.enabled == response.watchdog.Armed?;
      if !ok {
        SessionIntegrityFault();
      }
    }

    /** Behind this link that fault never happens: every status the firmware sends agrees with itself. */
    method Reported(command: Command) returns (r: Result<Response, Failure>)
      requires command.Status? && PoseInv() && SessionInv() && Numbered(command)
      modifies `connected, `enabled, `sessionFaulted, `positionUncertain, `startupReadySeen, link
      ensures Valid()
      ensures Ended(command, Issue(old(link.net), command), link.net, MayHide(), r, old(Believed()), Believed())
      ensures r.Err? ==> (enabled ==> old(enabled)) && (old(Agrees()) ==> Agrees())
    {
      r := Exchange(command);
      if r.Ok? {
        var ok := AgreesWithItself(r.value);
        assert ok;
      }
    }

    // ---- session start and end ----

    /** One response read during the handshake: the READY waited for, a refusal, or one to be skipped. */
    method ConsiderReady(command: Command, response: Response) returns (verdict: Option<Result<Response, Failure>>)
      requires command.Hello? && Correlated(link.net, response)
      requires link.net.issued >= 1 && link.net.current == command
      modifies `startupReadySeen
      ensures verdict.Some? && verdict.value.Ok? ==>
                verdict.value.value.Ready? && verdict.value.value.sequence == command.sequence && Quiet(link.net)
    {
      verdict := None;
      if response.Ready? {
        if response.sequence == 0 {
          startupReadySeen := true;
        } else if response.sequence != command.sequence {
          return Some(Err(WrongReply));
        } else {
          return Some(Ok(response));
        }
      } else if response.Error? && (response.sequence == 0 || response.sequence == command.sequence) {
        return Some(Err(Rejected(response.code)));
      }
    }

    method AwaitReady(command: Command) returns (attempt: Attempt)
      requires command.Hello? && NetInv(link.cfg, link.net)
      requires link.net.issued >= 1 && link.net.current == command
      modifies `startupReadySeen, link
      ensures Elapsed(link.cfg, old(link.net), link.net)
      ensures attempt.Settled? && attempt.result.Ok? ==>
                attempt.result.value.Ready? && attempt.result.value.sequence == command.sequence && Quiet(link.net)
    {
      for read := 0 to MAX_UNRELATED_RESPONSES
        invariant Elapsed(link.cfg, old(link.net), link.net)
      {
        var reading := link.ReadFrame();
        match reading {
          case Silence =>
            return Nothing;
          case Garbled =>
            return Settled(Err(MalformedReply));
          case Failed =>
            return Settled(Err(TransportFailed));
          case Received(response) =>
            var verdict := ConsiderReady(command, response);
            if verdict.Some? {
              return Settled(verdict.value);
            }
        }
      }
      attempt := Nothing;
    }

    /** HELLO is written until READY arrives or the startup deadline passes, after any number of attempts. */
    method Handshake(command: Command) returns (r: Result<Response, Failure>)
      requires command.Hello? && PoseInv() && SessionInv() && Numbered(command)
      modifies `enabled, `startupReadySeen, link
      ensures Valid() && (enabled ==> old(enabled))
      ensures r.Ok? ==> r.value.Ready? && r.value.sequence == command.sequence && Quiet(link.net)
      ensures old(Agrees()) ==> Agrees()
    {
      ghost var s := StartOf(link.net, command);
      Begin(command);
      r := HandshakeAttempts(command, s);
      if s.quiet {
        NoMotionStaysQuiet(link.cfg, link.net, s);
      }
    }

    method HandshakeAttempts(command: Command, ghost s: Start) returns (r: Result<Response, Failure>)
      requires command.Hello? && InExchange(link.cfg, link.net, s) && s.command == command
      modifies `enabled, `startupReadySeen, link
      ensures InExchange(link.cfg, link.net, s) && (enabled ==> old(enabled))
      ensures r.Ok? ==> r.value.Ready? && r.value.sequence == command.sequence && Quiet(link.net)
    {
      var open := link.IsOpen();
      if !open {
        return Err(NotConnected);
      }
      var attempts: nat := *;
      while attempts > 0
        invariant InExchange(link.cfg, link.net, s) && enabled == old(enabled)
      {
        var submitted := link.Write();
        if !submitted {
          return Err(TransportFailed);
        }
        var outcome := AwaitReady(command);
        if outcome.Settled? {
          return outcome.result;
        }
        link.Progress(false);
        attempts := attempts - 1;
      }
      enabled := false;
      r := Err(TimedOut);
    }

    /** Open the port, shake hands and disable the outputs; only then is the host connected. */
    method Open() returns (failure: Option<Failure>)
      requires Valid()
      modifies `nextSequence, `connected, `enabled, `sessionFaulted, `positionUncertain, `startupReadySeen
      modifies `panDeg, `tiltDeg, `physicalPan, `physicalTilt, link
      ensures Valid()
      ensures failure.None? ==> connected
      ensures failure.None? && !old(connected) ==>
                && !enabled && !positionUncertain && !sessionFaulted
                && Pose(link.net.fw) == HostPose() && !link.net.fw.enabled
      ensures failure.Some? ==> !connected && !enabled && Shown() == old(Shown())
      ensures old(Agrees()) ==> Agrees()
    {
      if closed {
        return Some(Closed);
      }
      if connected {
        return None;
      }
      startupReadySeen := false;
      failure := Connect();
      if failure.Some? {
        connected := false;
        enabled := false;
        return;
      }
      positionUncertain := false;
      sessionFaulted := false;
      connected := true;
    }

    method Connect() returns (failure: Option<Failure>)
      requires Valid() && !connected && !closed
      modifies `nextSequence, `connected, `enabled, `sessionFaulted, `positionUncertain, `startupReadySeen
      modifies `panDeg, `tiltDeg, `physicalPan, `physicalTilt, link
      ensures Valid() && !connected
      ensures failure.None? ==> !enabled && Pose(link.net.fw) == HostPose() && !link.net.fw.enabled && Quiet(link.net)
      ensures failure.Some? ==> Shown() == old(Shown())
    {
      var ok := link.Open();
      if !ok {
        return Some(TransportFailed);
      }
      ok := link.ResetInputBuffer();
      if !ok {
        return Some(TransportFailed);
      }
      link.Progress(false);
      var sequence := TakeSequence();
      var ready := Handshake(Command.Hello(sequence));
      if ready.Err? {
        return Some(ready.error);
      }
      if ready.value.protocol != PROTOCOL_VERSION {
        return Some(WrongVersion);
      }
      failure := DisableInternal();
    }

    /**
     Closing tries to leave the outputs off, and never leaves the host connected. Where a DISABLE is
     confirmed, at once or after a new handshake, the firmware's outputs are off.
     */
    method Close() returns (ghost confirmed: bool)
      requires Valid()
      modifies `nextSequence, `connected, `enabled, `sessionFaulted, `positionUncertain, `startupReadySeen, `closed
      modifies `panDeg, `tiltDeg, `physicalPan, `physicalTilt, link
      ensures Valid() && closed && (!old(closed) ==> !connected && !enabled)
      ensures confirmed ==> !link.net.fw.enabled && Quiet(link.net) && Pose(link.net.fw) == HostPose()
    {
      confirmed := false;
      if closed {
        return;
      }
      var open := link.IsOpen();
      if (connected || sessionFaulted) && open {
        confirmed := AttemptSafeDisableOnClose();
      }
      connected := false;
      enabled := false;
      closed := true;
    }

    method AttemptSafeDisableOnClose() returns (ghost confirmed: bool)
      requires Valid()
      modifies `nextSequence, `connected, `enabled, `sessionFaulted, `positionUncertain, `startupReadySeen
      modifies `panDeg, `tiltDeg, `physicalPan, `physicalTilt, link
      ensures Valid()
      ensures confirmed ==> !link.net.fw.enabled && Quiet(link.net) && Pose(link.net.fw) == HostPose()
    {
      var failure := DisableInternal();
      confirmed := failure.None?;
      if failure.None? {
        return;
      }
      var open := link.IsOpen();
      if !open {
        return;
      }
      var ok := link.ResetInputBuffer();
      if !ok {
        return;
      }
      var sequence := TakeSequence();
      var ready := Handshake(Command.Hello(sequence));
      if ready.Err? || ready.value.protocol != PROTOCOL_VERSION {
        return;
      }
      failure := DisableInternal();
      confirmed := failure.None?;
    }
  }

  /**
   What a caller may ask for. An early CENTER is only asked for while the armed deadline is further
   ahead than an exchange lasts.
   */
  datatype Operation =
    | OpenSession | EnableOutputs | CenterOutputs(early: bool) | DisableOutputs | ReadStatus | CloseSession
    | MoveTo(pan: real, tilt: real)
    | Idle // only time passes

  /**
   Nothing can hide a motion from this host: it never retries, or every exchange is shorter than the
   watchdog's timeout and every CENTER is early.
   */
  ghost predicate NothingHides(host: ArduinoSerialActuator, operations: seq<Operation>)
    reads host
  {
    host.retries == 0
    || (host.link.Swift() && forall k :: 0 <= k < |operations| && operations[k].CenterOutputs? ==> operations[k].early)
  }

  method Perform(host: ArduinoSerialActuator, operation: Operation)
    requires host.Valid()
    modifies host, host.link
    ensures host.Valid()
    ensures old(host.Agrees()) && NothingHides(host, [operation]) ==> host.Agrees()
  {
    assert NothingHides(host, [operation]) && operation.CenterOutputs? && host.retries > 0 ==> [operation][0].early;
    match operation {
      case OpenSession =>
        var _ := host.Open();
      case EnableOutputs =>
        var _ := host.Enable();
      case CenterOutputs(early) =>
        if !early || host.link.BeforeExpiry(Command.Center(host.nextSequence)) {
          var _ := host.Center();
        }
      case DisableOutputs =>
        var _ := host.Disable();
      case ReadStatus =>
        var _ := host.Status();
      case CloseSession =>
        var _ := host.Close();
      case MoveTo(pan, tilt) =>
        var _ := host.Apply(pan, tilt);
      case Idle =>
        host.link.Progress(false);
    }
  }

  /**
   Any sequence of operations, over any losses, delays and garbled replies: if nothing can hide a
   motion, a connected host that is not uncertain holds the firmware's pose.
   */
  method Session(host: ArduinoSerialActuator, operations: seq<Operation>)
    requires host.Valid() && host.Agrees()
    modifies host, host.link
    ensures host.Valid() && (NothingHides(host, operations) ==> host.Agrees())
  {
    for k := 0 to |operations|
      invariant host.Valid() && (NothingHides(host, operations) ==> host.Agrees())
    {
      assert NothingHides(host, operations) ==> NothingHides(host, [operations[k]]);
      Perform(host, operations[k]);
    }
  }

  /** The same from scratch: a new host on a new link to a firmware in any state it can have reached. */
  method SessionFrom(cfg: Firmware.Config, firmware: Firmware.Machine, announced: bool, span: Option<real>,
                     pan: Axis, tilt: Axis, retries: nat, operations: seq<Operation>)
    returns (host: ArduinoSerialActuator)
    requires Firmware.ValidConfig(cfg) && Firmware.Inv(cfg, firmware)
    requires ValidAxis(pan) && ValidAxis(tilt)
    ensures host.Valid() && host.retries == retries && host.link.span == span && host.link.cfg == cfg
    ensures NothingHides(host, operations) ==> host.Agrees()
  {
    AttachedInv(cfg, firmware, announced);
    var link := new SerialLink(cfg, span, Attached(firmware, announced));
    host := new ArduinoSerialActuator(pan, tilt, retries, link);
    Session(host, operations);
  }
}
