/**
 The serial transport as the host uses it, on top of the link. Every call may take any amount of
 time, during which the firmware ticks, handles requests and loses or gains replies; every call may
 fail. Only a write puts a request on the link.
 */
module Transport {
  import opened Common
  import opened Wire
  import opened Link
  import opened Expiry
  import Firmware

  /** What one bounded read gives: nothing in time, bytes that do not parse, a port error, or a response. */
  datatype Reading = Silence | Garbled | Failed | Received(response: Response)

  /** Time passed on the link without the host writing. */
  ghost predicate Elapsed(cfg: Firmware.Config, before: Net, after: Net) {
    && Evolved(cfg, before, after)
    && (Quiet(before) ==> Quiet(after) && Pose(after.fw) == Pose(before.fw) && after.writes == before.writes)
  }

  /** What holds of the link after any of the host's calls. */
  ghost predicate Evolved(cfg: Firmware.Config, before: Net, after: Net) {
    && NetInv(cfg, after)
    && after.issued == before.issued && after.current == before.current
    && forall s :: InExchange(cfg, before, s) ==> InExchange(cfg, after, s)
  }

  lemma EventElapses(cfg: Firmware.Config, n: Net, event: Event)
    requires NetInv(cfg, n)
    ensures Evolved(cfg, n, After(cfg, n, event))
    ensures !event.Resend? ==> Elapsed(cfg, n, After(cfg, n, event))
  {
    EventKeepsInv(cfg, n, event);
    forall s | InExchange(cfg, n, s)
      ensures InExchange(cfg, After(cfg, n, event), s)
    {
      EventKeepsExchange(cfg, n, s, event);
    }
    if Quiet(n) && !event.Resend? {
      QuietPersists(cfg, n, event);
    }
  }

  /** A response carrying the current number is the current command's, and its answer still holds. */
  predicate Correlated(n: Net, response: Response) {
    && (SequenceOf(response) == 0 ==> response.Ready?)
    && (n.issued >= 1 && SequenceOf(response) == n.current.sequence ==>
          && n.processed == n.issued && Quiet(n) && Current(n, response)
          && Suits(n.current, response) && Consistent(response))
  }

  lemma HeadCorrelates(cfg: Firmware.Config, n: Net)
    requires NetInv(cfg, n) && n.inbox != [] && n.issued < n.inbox[0].id + CYCLE
    ensures Correlated(After(cfg, n, LoseReply), n.inbox[0].response)
  {
    var id := n.inbox[0].id;
    if id >= 1 && SeqOf(id) == SeqOf(n.issued) {
      SeqOfInjective(id, n.issued);
    }
  }

  /** The response refuses the current command by its number. */
  predicate Refuses(n: Net, response: Response) {
    response.Error? && response.sequence == n.current.sequence
  }

  lemma HeadIsHonest(cfg: Firmware.Config, n: Net)
    requires NetInv(cfg, n) && n.issued >= 1 && n.inbox != [] && n.issued < n.inbox[0].id + CYCLE
    requires Refuses(n, n.inbox[0].response) && RefusalsHonest(n)
    ensures !Applied(n)
  {
    SeqOfInjective(n.inbox[0].id, n.issued);
    assert RefusalWaits(n, 0);
  }

  /** What the number of writes and the times say of the current exchange. */
  ghost predicate TrackedNet(cfg: Firmware.Config, n: Net, sent: nat, inSpan: bool, span: Option<real>,
                             begun: real, clock: real)
  {
    && n.issued >= 1 && HandledOnce(n, sent)
    && (inSpan ==> span.Some? && InTime(cfg, n, begun, begun + span.value, clock))
  }

  lemma TrackedFromStart(cfg: Firmware.Config, n: Net, command: Command, span: Option<real>, clock: real)
    requires NetInv(cfg, n)
    ensures var inSpan := span.Some? && clock + span.value <= SafeUntil(cfg, n.fw, command, clock);
            TrackedNet(cfg, Issue(n, command), 0, inSpan, span, clock, clock)
  {
    IssueIsUnwritten(cfg, n, command);
    if span.Some? && clock + span.value <= SafeUntil(cfg, n.fw, command, clock) {
      IssueIsInTime(cfg, n, command, clock, clock + span.value);
    }
  }

  lemma TrackedNext(cfg: Firmware.Config, n: Net, sent: nat, inSpan: bool, span: Option<real>, begun: real, clock: real,
                    event: Event)
    requires NetInv(cfg, n) && TrackedNet(cfg, n, sent, inSpan, span, begun, clock)
    requires span.Some? ==> Prompt(event, begun + span.value, clock)
    ensures TrackedNet(cfg, After(cfg, n, event), sent + Written(event), inSpan, span, begun, Moment(event, clock))
  {
    EventKeepsOnce(cfg, n, sent, event);
    if inSpan {
      EventKeepsTime(cfg, n, begun, begun + span.value, clock, event);
    }
  }

  class SerialLink {
    const cfg: Firmware.Config
    /**
     If given, time does not go back and every handling in an exchange comes less than this after the
     exchange began; otherwise nothing is known of times.
     */
    const span: Option<real>
    var net: Net
    var clock: real          // the latest time on the link
    var begun: real          // when the current exchange began
    ghost var sent: nat      // writes in the current exchange, the failed ones included
    ghost var inSpan: bool   // the watchdog could not expire within the span when it began

    constructor (cfg: Firmware.Config, span: Option<real>, net: Net)
      requires NetInv(cfg, net)
      ensures this.cfg == cfg && this.span == span && this.net == net
    {
      this.cfg, this.span, this.net := cfg, span, net;
      clock, begun, sent, inSpan := 0.0, 0.0, 0, false;
    }

    /** An exchange of this command begun now is over before the watchdog can expire on its motion. */
    predicate BeforeExpiry(command: Command)
      requires NetInv(cfg, net)
      reads this
    {
      span.Some? && clock + span.value <= SafeUntil(cfg, net.fw, command, clock)
    }

    /** Every exchange is shorter than the watchdog's timeout. */
    predicate Swift() {
      span.Some? && span.value <= cfg.timeout
    }

    ghost predicate Tracked()
      reads this
    {
      TrackedNet(cfg, net, sent, inSpan, span, begun, clock)
    }

    /** The host takes a number and turns to its exchange. */
    method Begin(command: Command)
      requires NetInv(cfg, net) && command.sequence == SeqOf(net.issued + 1)
      modifies `net, `begun, `sent, `inSpan
      ensures net == Issue(old(net), command) && begun == clock && sent == 0 && inSpan == old(BeforeExpiry(command))
      ensures InExchange(cfg, net, Start(old(net.issued) + 1, command, Quiet(old(net)), Pose(old(net.fw)),
                                         old(net.writes)))
      ensures Tracked()
    {
      IssueStarts(cfg, net, command);
      TrackedFromStart(cfg, net, command, span, clock);
      sent, inSpan := 0, BeforeExpiry(command);
      net, begun := Issue(net, command), clock;
    }

    /** Whether the times allow this to happen next. */
    predicate Possible(event: Event, inExchange: bool)
      reads this
    {
      span.Some? ==>
        && clock <= Moment(event, clock)
        && (inExchange && event.Handled? ==> event.now < begun + span.value)
    }

    /** Any number of ticks, deliveries and losses, inside an exchange or between two. */
    method Progress(inExchange: bool)
      requires NetInv(cfg, net)
      modifies `net, `clock
      ensures Elapsed(cfg, old(net), net)
      ensures inExchange && old(Tracked()) ==> Tracked()
    {
      var steps: nat := *;
      while steps > 0
        invariant NetInv(cfg, net) && Elapsed(cfg, old(net), net)
        invariant inExchange && old(Tracked()) ==> Tracked()
      {
        var event: Event := *;
        if !event.Resend? && Possible(event, inExchange) {
          EventElapses(cfg, net, event);
          Step(event, inExchange);
        }
        steps := steps - 1;
      }
    }

    method Step(event: Event, inExchange: bool)
      requires NetInv(cfg, net) && !event.Resend? && Possible(event, inExchange)
      modifies `net, `clock
      ensures net == After(cfg, old(net), event) && clock == Moment(event, old(clock))
      ensures inExchange && old(Tracked()) ==> Tracked()
    {
      if inExchange && Tracked() {
        TrackedNext(cfg, net, sent, inSpan, span, begun, clock, event);
      }
      net, clock := After(cfg, net, event), Moment(event, clock);
    }

    /** The port can be found closed at any time. */
    method IsOpen() returns (open: bool)
    {
      open := *;
    }

    method Open() returns (ok: bool)
      requires NetInv(cfg, net)
      modifies `net, `clock
      ensures Elapsed(cfg, old(net), net)
    {
      Progress(false);
      ok := *;
    }

    /** Submit the current command; a failed write may still have put it on the link. */
    method Write() returns (ok: bool)
      requires NetInv(cfg, net)
      modifies `net, `clock, `sent
      ensures Evolved(cfg, old(net), net) && (old(Tracked()) ==> Tracked())
      ensures sent <= old(sent) + 1
    {
      ok := *;
      var submitted: bool := *;
      if ok || submitted {
        Submit();
      }
      Progress(true);
    }

    method Submit()
      requires NetInv(cfg, net)
      modifies `net, `sent
      ensures net == After(cfg, old(net), Resend) && sent == old(sent) + 1
      ensures Evolved(cfg, old(net), net) && (old(Tracked()) ==> Tracked())
    {
      EventElapses(cfg, net, Resend);
      if Tracked() {
        TrackedNext(cfg, net, sent, inSpan, span, begun, clock, Resend);
      }
      net := After(cfg, net, Resend);
      sent := sent + 1;
    }

    /**
     A bounded read. The link does not hold a reply back until 65535 further numbers have been
     issued; such a reply is lost. While the current command was written at most once, or if its
     exchange began early enough before any expiry, a refusal of it means that it moved nothing.
     */
    method ReadFrame() returns (reading: Reading)
      requires NetInv(cfg, net)
      modifies `net, `clock
      ensures Elapsed(cfg, old(net), net) && (old(Tracked()) ==> Tracked())
      ensures reading.Received? ==> Correlated(net, reading.response)
      ensures reading.Received? && old(Tracked()) && Refuses(net, reading.response) && (sent <= 1 || inSpan) ==>
                !Applied(net)
    {
      Progress(true);
      var outcome: Reading := *;
      if outcome.Received? && net.inbox != [] && net.issued < net.inbox[0].id + CYCLE {
        reading := TakeReply();
      } else {
        reading := if outcome.Received? then Silence else outcome;
        var consumed: bool := *;
        if consumed {
          DropReply();
        }
      }
    }

    method DropReply()
      requires NetInv(cfg, net)
      modifies `net, `clock
      ensures net == After(cfg, old(net), LoseReply)
      ensures Elapsed(cfg, old(net), net) && (old(Tracked()) ==> Tracked())
    {
      EventElapses(cfg, net, LoseReply);
      Step(LoseReply, true);
    }

    /** Take the oldest reply. */
    method TakeReply() returns (reading: Reading)
      requires NetInv(cfg, net) && net.inbox != [] && net.issued < net.inbox[0].id + CYCLE
      modifies `net, `clock
      ensures Elapsed(cfg, old(net), net) && (old(Tracked()) ==> Tracked())
      ensures reading == Received(old(net.inbox[0].response)) && net == After(cfg, old(net), LoseReply)
      ensures Correlated(net, reading.response)
      ensures old(Tracked()) && Refuses(net, reading.response) && (sent <= 1 || inSpan) ==> !Applied(net)
    {
      reading := Received(net.inbox[0].response);
      HeadCorrelates(cfg, net);
      if Tracked() && Refuses(net, reading.response) && (sent <= 1 || inSpan) {
        HeadIsHonest(cfg, net);
      }
      DropReply();
    }

    /** Discard what has arrived and not been read. */
    method ResetInputBuffer() returns (ok: bool)
      requires NetInv(cfg, net)
      modifies `net
      ensures Elapsed(cfg, old(net), net)
      ensures ok ==> net.inbox == []
    {
      ok := *;
      if ok {
        while net.inbox != []
          invariant NetInv(cfg, net) && Elapsed(cfg, old(net), net)
          decreases |net.inbox|
        {
          EventElapses(cfg, net, LoseReply);
          net := After(cfg, net, LoseReply);
        }
      }
    }
  }
}
