/**
 Motions the host does not notice. A motion is applied and its acknowledgement lost; its retry is
 then refused, because the watchdog expired or because the retry arrived corrupted; and the host
 takes the refusal for the answer: it stays connected and certain of the old pose.
 */
module HiddenMotions {
  import opened Actuator
  import opened Codec
  import opened Common
  import opened Expiry
  import opened Firmware
  import opened Link
  import opened Transport
  import opened Wire
  import FirmwareRuns
  import Tokens

  /** Connected, certain, and wrong about the pose. */
  ghost predicate Deceived(host: ArduinoSerialActuator)
    reads host, host.link
  {
    host.connected && !host.positionUncertain && Pose(host.link.net.fw) != host.HostPose()
  }

  /** The host is about to send a motion that the firmware would carry out and that changes the pose. */
  ghost predicate AboutToMove(host: ArduinoSerialActuator, command: Command)
    requires host.Valid()
    reads host, host.link
  {
    && host.connected && !host.positionUncertain && host.Agrees()
    && command.sequence == host.nextSequence && host.link.net.outbox == []
    && WouldMove(host.link.cfg, host.link.net.fw, command, host.link.clock)
    && FirmwareRuns.Requested(host.link.cfg, command) != Pose(host.link.net.fw)
  }

  /** The replies still waiting are few enough for one attempt's reads, and none was held back for a cycle. */
  predicate ReadableInbox(n: Net) {
    && |n.inbox| < MAX_UNRELATED_RESPONSES
    && forall i :: 0 <= i < |n.inbox| ==> n.issued + 1 < n.inbox[i].id + CYCLE
  }

  /** The reply tells this command nothing: another number, and no error without one. */
  predicate Skipped(n: Net, reply: Reply, command: Command) {
    && n.issued < reply.id + CYCLE
    && SequenceOf(reply.response) != command.sequence
    && (reply.response.Error? ==> reply.response.sequence != 0)
  }

  /** After the older replies, which tell this command nothing, its refusal waits. */
  predicate RefusalAhead(n: Net, older: seq<Reply>, command: Command) {
    && |older| < MAX_UNRELATED_RESPONSES
    && n.inbox == older + [Reply(n.issued, Error(command.sequence, NotEnabled))]
    && forall i :: 0 <= i < |older| ==> Skipped(n, older[i], command)
  }

  lemma RefusalIsAhead(cfg: Config, before: Net, command: Command, now: real)
    requires NetInv(cfg, before) && before.outbox == [] && command.sequence == SeqOf(before.issued + 1)
    requires WouldMove(cfg, before.fw, command, now) && ReadableInbox(before)
    requires before.fw.enabled ==> before.fw.deadline.value <= now + cfg.timeout
    ensures var n := RunNet(cfg, Issue(before, command), HidingRun(now, SafeUntil(cfg, before.fw, command, now)), 4);
            && RefusalAhead(n, before.inbox, command) && n.outbox == [] && n.issued == before.issued + 1
            && Pose(n.fw) == FirmwareRuns.Requested(cfg, command)
  {
    HidingRunHides(cfg, before, command, now);
    OlderAreSkipped(cfg, before, Issue(before, command), command);
  }

  lemma OlderAreSkipped(cfg: Config, before: Net, n: Net, command: Command)
    requires NetInv(cfg, before) && ReadableInbox(before)
    requires n.issued == before.issued + 1 && command.sequence == SeqOf(n.issued)
    ensures forall i :: 0 <= i < |before.inbox| ==> Skipped(n, before.inbox[i], command)
  {
    forall i | 0 <= i < |before.inbox|
      ensures Skipped(n, before.inbox[i], command)
    {
      var id := before.inbox[i].id;
      if id >= 1 && SeqOf(id) == SeqOf(n.issued) {
        SeqOfInjective(id, n.issued);
      }
    }
  }

  /** One attempt's write, and the firmware's handling of it. */
  method WriteHandled(link: SerialLink, now: real, answered: bool)
    requires NetInv(link.cfg, link.net) && link.Possible(Handled(now, answered), true)
    modifies link`net, link`clock, link`sent
    ensures link.net == After(link.cfg, After(link.cfg, old(link.net), Resend), Handled(now, answered))
    ensures NetInv(link.cfg, link.net) && link.clock == now && link.sent == old(link.sent) + 1
  {
    link.Submit();
    EventKeepsInv(link.cfg, link.net, Handled(now, answered));
    link.Step(Handled(now, answered), true);
  }

  lemma ExpiryIsAhead(cfg: Config, m: Machine, command: Command, now: real)
    requires ValidConfig(cfg) && Inv(cfg, m) && WouldMove(cfg, m, command, now)
    ensures now < SafeUntil(cfg, m, command, now)
  {
  }

  /** The course on the link: written and applied with the ACK lost, then written again as the watchdog expires. */
  method HideOnLink(link: SerialLink, ghost start: real, expiry: real)
    requires NetInv(link.cfg, link.net) && link.clock == link.begun == start < expiry && link.sent == 0
    requires link.span.Some? ==> expiry < start + link.span.value
    modifies link`net, link`clock, link`sent
    ensures link.net == RunNet(link.cfg, old(link.net), HidingRun(start, expiry), 4)
    ensures NetInv(link.cfg, link.net) && link.clock == expiry && link.sent == 2
  {
    WriteHandled(link, link.clock, false);
    WriteHandled(link, expiry, true);
    HidingRunIs(link.cfg, old(link.net), start, expiry);
  }

  /** One read of the oldest reply, and the host's decision on it. */
  method ReadNext(host: ArduinoSerialActuator, command: Command) returns (verdict: Option<Result<Response, Failure>>)
    requires NetInv(host.link.cfg, host.link.net) && host.link.net.inbox != []
    requires host.link.net.issued < host.link.net.inbox[0].id + CYCLE
    modifies host`connected, host`enabled, host`sessionFaulted, host`positionUncertain, host`startupReadySeen
    modifies host.link`net, host.link`clock
    ensures NetInv(host.link.cfg, host.link.net)
    ensures host.link.net == old(host.link.net).(inbox := old(host.link.net.inbox)[1..])
    ensures Skipped(old(host.link.net), old(host.link.net.inbox[0]), command) ==>
              verdict.None? && host.Believed() == old(host.Believed())
    ensures old(host.link.net.inbox[0].response) == Error(command.sequence, NotEnabled) ==>
              && verdict == Some(Err(Rejected(NotEnabled)))
              && host.Believed() == old(host.Believed()).(enabled := false)
  {
    var reading := host.link.TakeReply();
    verdict := host.Consider(command, reading.response);
  }

  lemma HeadOf<T>(older: seq<T>, k: nat, last: T)
    requires k < |older|
    ensures (older[k..] + [last])[0] == older[k] && (older[k..] + [last])[1..] == older[k + 1..] + [last]
  {
  }

  /** The reads of one attempt go past the older replies to the refusal. */
  method ReadThrough(host: ArduinoSerialActuator, command: Command, ghost older: seq<Reply>)
    returns (verdict: Option<Result<Response, Failure>>)
    requires NetInv(host.link.cfg, host.link.net) && RefusalAhead(host.link.net, older, command)
    modifies host`connected, host`enabled, host`sessionFaulted, host`positionUncertain, host`startupReadySeen
    modifies host.link`net, host.link`clock
    ensures verdict == Some(Err(Rejected(NotEnabled)))
    ensures NetInv(host.link.cfg, host.link.net) && host.link.net == old(host.link.net).(inbox := [])
    ensures host.Believed() == old(host.Believed()).(enabled := false)
  {
    ghost var refusal := Reply(host.link.net.issued, Error(command.sequence, NotEnabled));
    for read := 0 to |host.link.net.inbox| - 1
      invariant NetInv(host.link.cfg, host.link.net) && host.link.net.inbox == older[read..] + [refusal]
      invariant host.link.net == old(host.link.net).(inbox := host.link.net.inbox)
      invariant host.Believed() == old(host.Believed())
    {
      HeadOf(older, read, refusal);
      verdict := ReadNext(host, command);
    }
    verdict := ReadNext(host, command);
  }

  /**
   Whatever the motion, wherever the firmware is: a host that may write twice, on a link whose
   exchanges can last until the watchdog's expiry, can be deceived. Every step is one its exchange
   takes: the number, two writes, the reads up to the refusal and its decision on each.
   */
  method RefusedAfterExpiry(host: ArduinoSerialActuator, command: Command)
    returns (verdict: Option<Result<Response, Failure>>)
    requires host.Valid() && AboutToMove(host, command) && ReadableInbox(host.link.net)
    requires host.retries >= 1 && !host.link.BeforeExpiry(command)
    requires host.link.net.fw.enabled ==> host.link.net.fw.deadline.value <= host.link.clock + host.link.cfg.timeout
    modifies host, host.link
    ensures verdict == Some(Err(Rejected(NotEnabled))) && host.link.sent <= host.retries + 1
    ensures host.Valid() && Deceived(host) && !host.Agrees()
    ensures !host.enabled && host.Shown() == old(host.Shown())
  {
    ghost var before := host.link.net;
    BeginHidden(host, command);
    verdict := ReadThrough(host, command, before.inbox);
  }

  method TakeNumber(host: ArduinoSerialActuator, command: Command)
    requires host.Valid() && command.sequence == host.nextSequence
    modifies host`nextSequence, host.link`net, host.link`begun, host.link`sent, host.link`inSpan
    ensures host.link.net == Issue(old(host.link.net), command) && NetInv(host.link.cfg, host.link.net)
    ensures host.link.begun == host.link.clock && host.link.sent == 0
    ensures host.nextSequence == SeqOf(host.link.net.issued + 1)
  {
    var _ := host.TakeSequence();
    host.Begin(command);
  }

  /** The exchange up to the refusal waiting to be read. */
  method BeginHidden(host: ArduinoSerialActuator, command: Command)
    requires host.Valid() && AboutToMove(host, command) && ReadableInbox(host.link.net)
    requires !host.link.BeforeExpiry(command)
    requires host.link.net.fw.enabled ==> host.link.net.fw.deadline.value <= host.link.clock + host.link.cfg.timeout
    modifies host`nextSequence, host.link
    ensures NetInv(host.link.cfg, host.link.net) && host.link.sent == 2
    ensures RefusalAhead(host.link.net, old(host.link.net.inbox), command)
    ensures host.link.net.outbox == [] && Pose(host.link.net.fw) == FirmwareRuns.Requested(host.link.cfg, command)
    ensures host.nextSequence == SeqOf(host.link.net.issued + 1)
  {
    ghost var before := host.link.net;
    var expiry := SafeUntil(host.link.cfg, host.link.net.fw, command, host.link.clock);
    ExpiryIsAhead(host.link.cfg, before.fw, command, host.link.clock);
    RefusalIsAhead(host.link.cfg, before, command, host.link.clock);
    TakeNumber(host, command);
    HideOnLink(host.link, host.link.clock, expiry);
  }

  /** The firmware applies the command handled now and its acknowledgement is lost. */
  function AppliedUnheard(cfg: Config, before: Net, command: Command, now: real): Net {
    Outcome(cfg, before, command, [Resend, Handled(now, false)])
  }

  lemma AppliedUnheardIs(cfg: Config, before: Net, command: Command, now: real)
    requires NetInv(cfg, before) && before.outbox == [] && command.sequence == SeqOf(before.issued + 1)
    requires WouldMove(cfg, before.fw, command, now)
    ensures var n := AppliedUnheard(cfg, before, command, now);
            Applied(n) && Pose(n.fw) == FirmwareRuns.Requested(cfg, command) && n.inbox == before.inbox
  {
    var issued := Issue(before, command);
    var events := [Resend, Handled(now, false)];
    WouldMoveIsAcknowledged(cfg, before.fw, command, now);
    HandleSettles(cfg, before.fw, command, now);
    TickKeepsRoute(before.fw, command, now);
    WriteThenHandled(cfg, issued, now, false);
    RunNext(cfg, issued, events, 0);
    RunNext(cfg, issued, events, 1);
  }

  /** A frame that does not parse is refused, under the number it still shows, and moves nothing. */
  lemma CorruptedIsRefused(cfg: Config, m: Machine, frame: string, now: real)
    requires ParseCommand(frame).Err?
    ensures var (after, response) := HandleFrame(cfg, m, frame, now);
            && Pose(after) == Pose(m)
            && response == Error(BestEffortSequence(frame), CodeFor(ParseCommand(frame).error))
            && response.code != NotEnabled
  {
  }

  /**
   Whatever the retry is corrupted into: a frame that does not parse is taken for the motion's
   refusal if and only if it shows the motion's number or none, and leaves the host deceived and
   with its outputs still enabled.
   */
  method RefusedAfterCorruption(host: ArduinoSerialActuator, command: Command, frame: string, later: real)
    returns (verdict: Option<Result<Response, Failure>>)
    requires host.Valid() && AboutToMove(host, command) && ParseCommand(frame).Err?
    modifies host, host.link
    ensures verdict == (if BestEffortSequence(frame) == 0 || BestEffortSequence(frame) == command.sequence
                        then Some(Err(Rejected(CodeFor(ParseCommand(frame).error)))) else None)
    ensures Deceived(host) && host.enabled == old(host.enabled) && host.Shown() == old(host.Shown())
  {
    AppliedUnheardIs(host.link.cfg, host.link.net, command, host.link.clock);
    var applied := AppliedUnheard(host.link.cfg, host.link.net, command, host.link.clock);
    CorruptedIsRefused(host.link.cfg, applied.fw, frame, later);
    var (after, response) := HandleFrame(host.link.cfg, applied.fw, frame, later);
    host.link.net := applied.(fw := after);
    verdict := host.Consider(command, response);
  }

  /** Noise without a space in place of the retry is such a frame. */
  lemma NoiseShowsNoNumber(noise: string)
    requires Tokens.NoSpace(noise)
    ensures ParseCommand(noise).Err? && BestEffortSequence(noise) == 0
  {
    OneToken(noise);
    if DecodeFrame(noise).Ok? {
      OneToken(DecodeFrame(noise).value);
    }
  }

  lemma OneToken(word: string)
    requires Tokens.NoSpace(word)
    ensures Tokens.Split(word) == [word]
  {
    Tokens.SplitOfJoin([word]);
  }

  /** It happens in the same session: SET 4 40 50 is applied at 1.5 s, its ACK lost, and its retry arrives as noise. */
  lemma CorruptionInASession(noise: string)
    requires Tokens.NoSpace(noise)
    ensures var n := AppliedUnheard(SESSION_CONFIG, EnabledSession(), SET_FOUR, 1.5);
            var (after, response) := HandleFrame(SESSION_CONFIG, n.fw, noise, 2.0);
            && Pose(EnabledSession().fw) == (90, 90) && Pose(after) == (40, 50)
            && response.Error? && response.sequence == 0
  {
    SessionIsReady();
    AppliedUnheardIs(SESSION_CONFIG, EnabledSession(), SET_FOUR, 1.5);
    NoiseShowsNoNumber(noise);
    var n := AppliedUnheard(SESSION_CONFIG, EnabledSession(), SET_FOUR, 1.5);
    CorruptedIsRefused(SESSION_CONFIG, n.fw, noise, 2.0);
  }
}
