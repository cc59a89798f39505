/**
 The serial link and the firmware behind it. Requests and replies are queued in order; the link may
 lose or delay any of them, and may garble a reply beyond parsing, but neither forges nor reorders.
 Ghost-like identifiers count the numbers the host has issued, so that a reply can be matched to
 the exchange it belongs to across wraparounds.
 */
module Link {
  import opened Common
  import opened Wire
  import opened Firmware
  import opened FirmwareRuns

  datatype Request = Request(id: nat, command: Command)
  datatype Reply = Reply(id: nat, response: Response)

  datatype Net = Net(
    fw: Machine,
    outbox: seq<Request>,
    inbox: seq<Reply>,
    issued: nat,       // numbers taken by the host so far
    current: Command,  // the command of the newest number
    processed: nat,    // newest number the firmware has handled
    moved: bool,       // handling that number wrote a pose
    expired: bool,     // the watchdog expired since it did
    writes: nat)       // pose writes so far

  const CYCLE := MAX_SEQUENCE

  /** The wire number of the id-th number issued. */
  function SeqOf(id: nat): Sequence
    requires id >= 1
  {
    (id - 1) % CYCLE + 1
  }

  lemma SeqOfNext(id: nat)
    requires id >= 1
    ensures NextSequence(SeqOf(id)) == SeqOf(id + 1)
  {
  }

  /** Within one cycle a wire number belongs to one id. */
  lemma SeqOfInjective(a: nat, b: nat)
    requires 1 <= a <= b < a + CYCLE && SeqOf(a) == SeqOf(b)
    ensures a == b
  {
  }

  function Pose(m: Machine): (int, int) {
    (m.pan, m.tilt)
  }

  // ---- what the link and the firmware may do ----

  datatype Event =
    | Wait(now: real)            // the firmware ticks
    | Resend                     // the host writes the current command again
    | Handled(now: real, answered: bool) // the firmware handles the oldest request; its reply may be lost
    | LoseRequest
    | LoseReply

  function Deliver(cfg: Config, n: Net, now: real, answered: bool): Net
    requires n.outbox != []
  {
    var request := n.outbox[0];
    var (after, response) := Handle(cfg, n.fw, request.command, now);
    var ticked := Tick(n.fw, now);
    var wrote := IsMotion(request.command) && RouteOf(ticked, request.command).Fresh? && response.Ack?;
    var repeat := request.id == n.processed;
    n.(fw := after,
       outbox := n.outbox[1..],
       inbox := if answered then n.inbox + [Reply(request.id, response)] else n.inbox,
       processed := request.id,
       moved := wrote || (repeat && n.moved),
       expired := !wrote && repeat && (n.expired || (n.fw.enabled && !ticked.enabled)),
       writes := n.writes + if wrote then 1 else 0)
  }

  function After(cfg: Config, n: Net, event: Event): Net {
    match event
    case Wait(now) =>
      var ticked := Tick(n.fw, now);
      n.(fw := ticked, expired := n.expired || (n.fw.enabled && !ticked.enabled))
    case Resend => if n.issued == 0 then n else n.(outbox := n.outbox + [Request(n.issued, n.current)])
    case Handled(now, answered) => if n.outbox == [] then n else Deliver(cfg, n, now, answered)
    case LoseRequest => if n.outbox == [] then n else n.(outbox := n.outbox[1..])
    case LoseReply => if n.inbox == [] then n else n.(inbox := n.inbox[1..])
  }

  // ---- invariant ----

  predicate OutboxInv(n: Net) {
    && (forall i :: 0 <= i < |n.outbox| ==>
          && 1 <= n.outbox[i].id && n.processed <= n.outbox[i].id <= n.issued
          && n.outbox[i].command.sequence == SeqOf(n.outbox[i].id)
          && (n.outbox[i].id == n.issued ==> n.outbox[i].command == n.current)
          && (n.outbox[i].id == n.processed ==> !RouteOf(n.fw, n.outbox[i].command).Fresh?)
          && (n.outbox[i].id == n.processed && n.moved && n.fw.last.Some? ==>
                n.outbox[i].command == n.fw.last.value.command))
    && (forall i, j :: 0 <= i < j < |n.outbox| ==>
          && n.outbox[i].id <= n.outbox[j].id
          && (n.outbox[i].id == n.outbox[j].id ==> n.outbox[i].command == n.outbox[j].command))
  }

  /** A reply to the newest handled number is still true, and refuses an applied motion only after an expiry. */
  predicate Current(n: Net, response: Response) {
    match response
    case Ack(_, acked, pan, tilt) => (pan, tilt) == Pose(n.fw) && (acked.AckDisable? ==> !n.fw.enabled)
    case Report(_, on, pan, tilt, _) => (pan, tilt) == Pose(n.fw) && (!on ==> !n.fw.enabled)
    case Error(_, code) => n.moved ==> n.expired && code == NotEnabled
    case Ready(_, _, _) => true
  }

  /** A status agrees with itself: it shows the outputs on exactly while the watchdog is armed. */
  predicate Consistent(response: Response) {
    response.Report? ==> (response.enabled <==> response.watchdog.Armed?)
  }

  /** An error, or the answer of the command's own kind. */
  predicate Suits(command: Command, response: Response) {
    match response
    case Error(_, _) => true
    case Ready(_, _, _) => command.Hello?
    case Report(_, _, _, _, _) => command.Status?
    case Ack(_, acked, _, _) =>
      match acked
      case AckSet => command.Set?
      case AckCenter => command.Center?
      case AckEnable => command.Enable?
      case AckDisable => command.Disable?
  }

  predicate InboxInv(n: Net) {
    forall i :: 0 <= i < |n.inbox| ==>
      && n.inbox[i].id <= n.processed && Consistent(n.inbox[i].response)
      && (1 <= n.inbox[i].id == n.issued ==> Suits(n.current, n.inbox[i].response))
      && (if n.inbox[i].id == 0 then n.inbox[i].response.Ready? && n.inbox[i].response.sequence == 0
          else SequenceOf(n.inbox[i].response) == SeqOf(n.inbox[i].id))
      && (n.inbox[i].id == n.processed ==> Current(n, n.inbox[i].response))
  }

  predicate NetInv(cfg: Config, n: Net) {
    && ValidConfig(cfg) && Inv(cfg, n.fw)
    && n.processed <= n.issued
    && (n.issued >= 1 ==> n.current.sequence == SeqOf(n.issued))
    && OutboxInv(n)
    && InboxInv(n)
    && (n.moved ==> n.processed >= 1 && n.fw.last.Some?
                    && n.fw.last.value.response.Ack? && IsMotion(n.fw.last.value.command))
    && (n.moved && !n.expired ==> n.fw.enabled)
    && (1 <= n.processed == n.issued ==> !RouteOf(n.fw, n.current).Fresh?)
    && (n.moved && n.processed == n.issued ==> n.fw.last.value.command == n.current)
  }

  /** No request in flight can move the outputs any more. */
  predicate Quiet(n: Net) {
    forall i :: 0 <= i < |n.outbox| && IsMotion(n.outbox[i].command) ==> n.outbox[i].id == n.processed
  }

  /** What was known when the current number was taken. */
  datatype Start = Start(issued: nat, command: Command, quiet: bool, pose: (int, int), writes: nat)

  predicate Applied(n: Net) {
    n.processed == n.issued && n.moved
  }

  /** From a quiet start, only the current command can have moved the outputs, and only once. */
  predicate InExchange(cfg: Config, n: Net, s: Start) {
    && NetInv(cfg, n) && n.issued == s.issued >= 1 && n.current == s.command
    && (s.quiet ==>
          && (forall i :: 0 <= i < |n.outbox| && IsMotion(n.outbox[i].command) ==>
                n.outbox[i].id == n.processed || n.outbox[i].id == n.issued)
          && (if Applied(n) then Pose(n.fw) == Requested(cfg, s.command) && IsMotion(s.command) && n.writes == s.writes + 1
              else Pose(n.fw) == s.pose && n.writes == s.writes))
  }

  /** A host attaches to a firmware in any state it can have reached; its startup READY may still be waiting. */
  function Attached(m: Machine, announced: bool): Net {
    Net(m, [], if announced then [Reply(0, Ready(0, PROTOCOL_VERSION, FIRMWARE_VERSION))] else [],
        0, Hello(MIN_SEQUENCE), 0, false, false, 0)
  }

  lemma AttachedInv(cfg: Config, m: Machine, announced: bool)
    requires ValidConfig(cfg) && Inv(cfg, m)
    ensures NetInv(cfg, Attached(m, announced)) && Quiet(Attached(m, announced))
  {
  }

  // ---- one event ----

  lemma TickKeepsRoute(m: Machine, command: Command, now: real)
    ensures RouteOf(Tick(m, now), command) == RouteOf(m, command)
    ensures Pose(Tick(m, now)) == Pose(m) && Tick(m, now).last == m.last
  {
  }

  /** Handling one request, seen from the firmware. */
  lemma HandleSettles(cfg: Config, m: Machine, command: Command, now: real)
    requires ValidConfig(cfg) && Inv(cfg, m)
    ensures var (after, response) := Handle(cfg, m, command, now);
            var isFresh := RouteOf(m, command).Fresh?;
            && Inv(cfg, after)
            && SequenceOf(response) == command.sequence && Consistent(response) && Suits(command, response)
            && !RouteOf(after, command).Fresh?
            && (response.Ack? ==> (response.pan, response.tilt) == Pose(after)
                                  && (response.acked.AckDisable? ==> !after.enabled))
            && (response.Report? ==> (response.pan, response.tilt) == Pose(after) && response.enabled == after.enabled)
            && (if isFresh && IsMotion(command) && response.Ack?
                then Pose(after) == Requested(cfg, command) && after.enabled
                     && after.last == Some(Memory(command, response))
                else Pose(after) == Pose(m))
            && (!isFresh ==> after.enabled == Tick(m, now).enabled)
            && (!isFresh && !command.Hello? ==> after.last == m.last)
  {
    HandleKeepsInv(cfg, m, command, now);
    RepliesAreTruthful(cfg, m, command, now);
    TickKeepsInv(cfg, m, now);
    var ticked := Tick(m, now);
    TickKeepsRoute(m, command, now);
    if RouteOf(ticked, command).Repeated? {
      RepeatKeepsInv(cfg, ticked, command, now);
    } else if RouteOf(ticked, command).Fresh? {
      ExecuteAnswers(cfg, ticked, command, now);
    }
  }

  /** A retransmission of an applied motion is refused only once the outputs are off. */
  lemma RepeatOfApplied(cfg: Config, m: Machine, command: Command, now: real)
    requires ValidConfig(cfg) && Inv(cfg, m) && IsMotion(command)
    requires m.last.Some? && m.last.value.command == command && m.last.value.response.Ack?
    ensures var (after, response) := Handle(cfg, m, command, now);
            && (response.Error? ==> !Tick(m, now).enabled && response.code == NotEnabled)
            && after.last == m.last
  {
    TickKeepsRoute(m, command, now);
    TickKeepsInv(cfg, m, now);
  }

  lemma DeliverKeepsOutbox(cfg: Config, n: Net, now: real, answered: bool)
    requires NetInv(cfg, n) && n.outbox != []
    ensures OutboxInv(Deliver(cfg, n, now, answered))
  {
    var head := n.outbox[0];
    var next := Deliver(cfg, n, now, answered);
    HandleSettles(cfg, n.fw, head.command, now);
    assert forall i :: 0 <= i < |next.outbox| ==> next.outbox[i] == n.outbox[i + 1];
    assert forall i :: 0 <= i < |next.outbox| && next.outbox[i].id == head.id ==> next.outbox[i].command == head.command;
  }

  lemma DeliverKeepsInbox(cfg: Config, n: Net, now: real, answered: bool)
    requires NetInv(cfg, n) && n.outbox != []
    ensures InboxInv(Deliver(cfg, n, now, answered))
  {
    var head := n.outbox[0];
    var next := Deliver(cfg, n, now, answered);
    var (after, response) := Handle(cfg, n.fw, head.command, now);
    HandleSettles(cfg, n.fw, head.command, now);
    TickKeepsRoute(n.fw, head.command, now);
    forall i | 0 <= i < |next.inbox| && next.inbox[i].id == next.processed
      ensures Current(next, next.inbox[i].response)
    {
      if i < |n.inbox| {
        // an earlier reply to the same number: handling it again moves nothing
        assert n.inbox[i].id == n.processed == head.id && !RouteOf(n.fw, head.command).Fresh?;
      } else {
        RepliesOfDelivery(cfg, n, now, answered);
      }
    }
  }

  /** The reply just given is true of the state it leaves. */
  lemma RepliesOfDelivery(cfg: Config, n: Net, now: real, answered: bool)
    requires NetInv(cfg, n) && n.outbox != []
    ensures Current(Deliver(cfg, n, now, answered), Handle(cfg, n.fw, n.outbox[0].command, now).1)
  {
    var head := n.outbox[0];
    HandleSettles(cfg, n.fw, head.command, now);
    TickKeepsRoute(n.fw, head.command, now);
    if n.moved && head.id == n.processed {
      RepeatOfApplied(cfg, n.fw, head.command, now);
    }
  }

  lemma DeliverKeepsInv(cfg: Config, n: Net, now: real, answered: bool)
    requires NetInv(cfg, n) && n.outbox != []
    ensures NetInv(cfg, Deliver(cfg, n, now, answered))
  {
    var head := n.outbox[0];
    DeliverKeepsOutbox(cfg, n, now, answered);
    DeliverKeepsInbox(cfg, n, now, answered);
    HandleSettles(cfg, n.fw, head.command, now);
    TickKeepsRoute(n.fw, head.command, now);
    if n.moved && head.id == n.processed {
      RepeatOfApplied(cfg, n.fw, head.command, now);
    }
  }

  lemma WaitKeepsInv(cfg: Config, n: Net, now: real)
    requires NetInv(cfg, n)
    ensures NetInv(cfg, After(cfg, n, Wait(now)))
  {
    TickKeepsInv(cfg, n.fw, now);
    TickKeepsRoute(n.fw, n.current, now);
    forall i | 0 <= i < |n.outbox|
      ensures RouteOf(Tick(n.fw, now), n.outbox[i].command) == RouteOf(n.fw, n.outbox[i].command)
    {
      TickKeepsRoute(n.fw, n.outbox[i].command, now);
    }
  }

  lemma WriteKeepsInv(cfg: Config, n: Net)
    requires NetInv(cfg, n)
    ensures NetInv(cfg, After(cfg, n, Resend))
  {
  }

  lemma LossKeepsInv(cfg: Config, n: Net, event: Event)
    requires NetInv(cfg, n) && (event.LoseRequest? || event.LoseReply?)
    ensures NetInv(cfg, After(cfg, n, event))
  {
    if event.LoseRequest? && n.outbox != [] {
      DropKeepsOutbox(n);
    } else if event.LoseReply? && n.inbox != [] {
      DropKeepsInbox(n);
    }
  }

  lemma DropKeepsOutbox(n: Net)
    requires OutboxInv(n) && n.outbox != []
    ensures OutboxInv(n.(outbox := n.outbox[1..]))
  {
    var rest := n.outbox[1..];
    assert forall i :: 0 <= i < |rest| ==> rest[i] == n.outbox[i + 1];
  }

  lemma DropKeepsInbox(n: Net)
    requires InboxInv(n) && n.inbox != []
    ensures InboxInv(n.(inbox := n.inbox[1..]))
  {
    var next := n.(inbox := n.inbox[1..]);
    assert forall i :: 0 <= i < |next.inbox| ==> next.inbox[i] == n.inbox[i + 1];
    assert forall i :: 0 <= i < |next.inbox| ==>
                         Current(next, next.inbox[i].response) == Current(n, n.inbox[i + 1].response);
  }

  /** Whatever the link and the firmware do next, the invariant is kept. */
  lemma EventKeepsInv(cfg: Config, n: Net, event: Event)
    requires NetInv(cfg, n)
    ensures NetInv(cfg, After(cfg, n, event))
  {
    match event
    case Wait(now) => WaitKeepsInv(cfg, n, now);
    case Resend => WriteKeepsInv(cfg, n);
    case Handled(now, answered) =>
      if n.outbox != [] {
        DeliverKeepsInv(cfg, n, now, answered);
      }
    case LoseRequest => LossKeepsInv(cfg, n, event);
    case LoseReply => LossKeepsInv(cfg, n, event);
  }

  // ---- exchanges ----

  /** The host takes the next number for a new command. */
  function Issue(n: Net, command: Command): Net {
    n.(issued := n.issued + 1, current := command)
  }

  lemma IssueStarts(cfg: Config, n: Net, command: Command)
    requires NetInv(cfg, n) && command.sequence == SeqOf(n.issued + 1)
    ensures InExchange(cfg, Issue(n, command), Start(n.issued + 1, command, Quiet(n), Pose(n.fw), n.writes))
  {
  }

  lemma DeliverKeepsExchange(cfg: Config, n: Net, s: Start, now: real, answered: bool)
    requires InExchange(cfg, n, s) && n.outbox != []
    ensures InExchange(cfg, Deliver(cfg, n, now, answered), s)
  {
    var head := n.outbox[0];
    var next := Deliver(cfg, n, now, answered);
    DeliverKeepsInv(cfg, n, now, answered);
    HandleSettles(cfg, n.fw, head.command, now);
    TickKeepsRoute(n.fw, head.command, now);
    assert forall i :: 0 <= i < |next.outbox| ==> next.outbox[i] == n.outbox[i + 1];
  }

  lemma EventKeepsExchange(cfg: Config, n: Net, s: Start, event: Event)
    requires InExchange(cfg, n, s)
    ensures InExchange(cfg, After(cfg, n, event), s)
  {
    EventKeepsInv(cfg, n, event);
    match event
    case Wait(now) => TickKeepsRoute(n.fw, n.current, now);
    case Handled(now, answered) =>
      if n.outbox != [] {
        DeliverKeepsExchange(cfg, n, s, now, answered);
      }
    case _ =>
  }

  function RunNet(cfg: Config, n: Net, events: seq<Event>, k: nat): Net
    requires k <= |events|
  {
    if k == 0 then n else After(cfg, RunNet(cfg, n, events, k - 1), events[k - 1])
  }

  lemma {:induction false} RunKeepsExchange(cfg: Config, n: Net, s: Start, events: seq<Event>, k: nat)
    requires InExchange(cfg, n, s) && k <= |events|
    ensures InExchange(cfg, RunNet(cfg, n, events, k), s)
  {
    if k > 0 {
      RunKeepsExchange(cfg, n, s, events, k - 1);
      EventKeepsExchange(cfg, RunNet(cfg, n, events, k - 1), s, events[k - 1]);
    }
  }

  /** A reply with the current number belongs to the current command and leaves nothing in flight that moves. */
  lemma CorrelatedReply(cfg: Config, n: Net, s: Start, i: nat)
    requires InExchange(cfg, n, s) && i < |n.inbox|
    requires SequenceOf(n.inbox[i].response) == s.command.sequence
    requires n.issued < n.inbox[i].id + CYCLE && n.inbox[i].id != 0
    ensures n.inbox[i].id == n.processed == n.issued
    ensures Quiet(n) && Current(n, n.inbox[i].response)
    ensures Suits(s.command, n.inbox[i].response) && Consistent(n.inbox[i].response)
  {
    SeqOfInjective(n.inbox[i].id, n.issued);
  }

  /**
   One whole exchange, for every way its attempts and replies can be lost, delayed or repeated:
   from a quiet link the pose is written at most once and ends as the old or the requested one; a
   correlated acknowledgement or status names the pose the firmware has; a correlated refusal
   means the pose is the old one, unless the watchdog expired after this command had moved it.
   */
  lemma ExchangeOutcome(cfg: Config, before: Net, command: Command, events: seq<Event>, i: nat)
    requires NetInv(cfg, before) && Quiet(before) && command.sequence == SeqOf(before.issued + 1)
    ensures var n := RunNet(cfg, Issue(before, command), events, |events|);
            && before.writes <= n.writes <= before.writes + 1
            && Pose(n.fw) == (if n.writes == before.writes then Pose(before.fw) else Requested(cfg, command))
            && (i < |n.inbox| && n.issued < n.inbox[i].id + CYCLE && n.inbox[i].id != 0
                && SequenceOf(n.inbox[i].response) == command.sequence ==>
                  && Quiet(n)
                  && match n.inbox[i].response
                     case Ack(_, _, pan, tilt) => (pan, tilt) == Pose(n.fw)
                     case Report(_, _, pan, tilt, _) => (pan, tilt) == Pose(n.fw)
                     case Error(_, code) => Pose(n.fw) == Pose(before.fw) || (n.moved && n.expired && code == NotEnabled)
                     case Ready(_, _, _) => true)
  {
    var s := Start(before.issued + 1, command, true, Pose(before.fw), before.writes);
    IssueStarts(cfg, before, command);
    RunKeepsExchange(cfg, Issue(before, command), s, events, |events|);
    var n := RunNet(cfg, Issue(before, command), events, |events|);
    if i < |n.inbox| && n.issued < n.inbox[i].id + CYCLE && n.inbox[i].id != 0
       && SequenceOf(n.inbox[i].response) == command.sequence {
      CorrelatedReply(cfg, n, s, i);
    }
  }

  /** With nothing more written, a quiet link stays quiet and the pose stays where it is. */
  lemma QuietPersists(cfg: Config, n: Net, event: Event)
    requires NetInv(cfg, n) && Quiet(n) && !event.Resend?
    ensures var next := After(cfg, n, event);
            Quiet(next) && Pose(next.fw) == Pose(n.fw) && next.writes == n.writes
  {
    match event
    case Wait(now) => TickKeepsRoute(n.fw, n.current, now);
    case Handled(now, answered) =>
      if n.outbox != [] {
        var next := Deliver(cfg, n, now, answered);
        HandleSettles(cfg, n.fw, n.outbox[0].command, now);
        TickKeepsRoute(n.fw, n.outbox[0].command, now);
        assert forall i :: 0 <= i < |next.outbox| ==> next.outbox[i] == n.outbox[i + 1];
      }
    case _ =>
  }

  /** An exchange that asks for no motion leaves a quiet link quiet, however it ends. */
  lemma NoMotionStaysQuiet(cfg: Config, n: Net, s: Start)
    requires InExchange(cfg, n, s) && s.quiet && !IsMotion(s.command)
    ensures Quiet(n) && Pose(n.fw) == s.pose && n.writes == s.writes
  {
  }

  /** From a quiet link, the pose was written at most once since, and only to what the command asks. */
  predicate AtMostOnce(cfg: Config, before: Net, after: Net, command: Command) {
    Quiet(before) ==>
      && before.writes <= after.writes <= before.writes + 1
      && Pose(after.fw) == (if after.writes == before.writes then Pose(before.fw) else Requested(cfg, command))
  }
}
