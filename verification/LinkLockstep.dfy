/**
 Host and firmware stay on the same sequence numbers: a session of exchanges over the lossy link in
 which the firmware handles every number, through any number of wraparounds; and what happens to
 the rest of a session in which it misses one.
 */
module LinkLockstep {
  import opened Common
  import opened Wire
  import opened Firmware
  import opened Link

  /** The firmware last accepted the newest number it handled. */
  predicate InStep(n: Net) {
    && n.processed >= 1 && n.fw.last.Some?
    && n.fw.last.value.command.sequence == SeqOf(n.processed)
    && (n.processed == n.issued ==> n.fw.last.value.command == n.current)
  }

  predicate OutOfSequence(response: Response) {
    response.Error? && (response.code == BadSequence || response.code == StaleSequence)
  }

  /** The host is at most one number ahead, and no reply to its newest number complains about numbers. */
  predicate InSync(cfg: Config, n: Net) {
    && NetInv(cfg, n)
    && n.issued <= n.processed + 1
    && InStep(n)
    && forall i :: 0 <= i < |n.inbox| && n.inbox[i].id == n.issued ==> !OutOfSequence(n.inbox[i].response)
  }

  /** A HELLO that has been handled has put the firmware in step, whatever it did before. */
  predicate Greeted(cfg: Config, n: Net) {
    && NetInv(cfg, n) && n.current.Hello? && n.issued >= 1
    && (n.processed == n.issued ==> InStep(n))
    && forall i :: 0 <= i < |n.inbox| && n.inbox[i].id == n.issued ==> n.inbox[i].response.Ready?
  }

  /** The expected number is executed, and executing never complains about numbers. */
  lemma ExpectedIsAccepted(cfg: Config, m: Machine, command: Command, now: real)
    requires ValidConfig(cfg) && Inv(cfg, m)
    requires command.Hello? || (m.last.Some? && command.sequence == NextSequence(m.last.value.command.sequence))
    ensures var (after, response) := Handle(cfg, m, command, now);
            && after.last.Some? && after.last.value.command == command
            && !OutOfSequence(response) && (command.Hello? ==> response.Ready?)
  {
    TickKeepsInv(cfg, m, now);
    TickKeepsRoute(m, command, now);
    if !command.Hello? {
      ExecuteAnswers(cfg, Tick(m, now), command, now);
    }
  }

  /** A retransmission of the last command is answered again, and the number stays the last. */
  lemma RepeatIsAccepted(cfg: Config, m: Machine, command: Command, now: real)
    requires ValidConfig(cfg) && Inv(cfg, m) && m.last.Some? && command == m.last.value.command
    ensures var (after, response) := Handle(cfg, m, command, now);
            && after.last.Some? && after.last.value.command == command
            && !OutOfSequence(response) && (command.Hello? ==> response.Ready?)
  {
    TickKeepsInv(cfg, m, now);
    TickKeepsRoute(m, command, now);
  }

  /** A request with the last number, whatever it asks, leaves the last number the last. */
  lemma LastNumberStays(cfg: Config, m: Machine, command: Command, now: real)
    requires m.last.Some? && command.sequence == m.last.value.command.sequence
    ensures var after := Handle(cfg, m, command, now).0;
            after.last.Some? && after.last.value.command.sequence == command.sequence
  {
    TickKeepsRoute(m, command, now);
  }

  lemma DeliverKeepsSync(cfg: Config, n: Net, now: real, answered: bool)
    requires InSync(cfg, n) && n.outbox != []
    ensures InSync(cfg, Deliver(cfg, n, now, answered))
  {
    var head := n.outbox[0];
    var next := Deliver(cfg, n, now, answered);
    DeliverKeepsInv(cfg, n, now, answered);
    if head.id == n.issued {
      if n.processed == n.issued {
        RepeatIsAccepted(cfg, n.fw, head.command, now);
      } else {
        SeqOfNext(n.processed);
        ExpectedIsAccepted(cfg, n.fw, head.command, now);
      }
    } else {
      LastNumberStays(cfg, n.fw, head.command, now);
    }
  }

  lemma DeliverKeepsGreeting(cfg: Config, n: Net, now: real, answered: bool)
    requires Greeted(cfg, n) && n.outbox != []
    ensures Greeted(cfg, Deliver(cfg, n, now, answered))
  {
    DeliverKeepsInv(cfg, n, now, answered);
    if n.outbox[0].id == n.issued {
      ExpectedIsAccepted(cfg, n.fw, n.outbox[0].command, now);
    }
  }

  lemma EventKeepsSync(cfg: Config, n: Net, event: Event)
    requires InSync(cfg, n)
    ensures InSync(cfg, After(cfg, n, event))
  {
    EventKeepsInv(cfg, n, event);
    match event
    case Wait(now) => TickKeepsRoute(n.fw, n.current, now);
    case Handled(now, answered) =>
      if n.outbox != [] {
        DeliverKeepsSync(cfg, n, now, answered);
      }
    case _ =>
  }

  lemma EventKeepsGreeting(cfg: Config, n: Net, event: Event)
    requires Greeted(cfg, n)
    ensures Greeted(cfg, After(cfg, n, event))
  {
    EventKeepsInv(cfg, n, event);
    match event
    case Wait(now) => TickKeepsRoute(n.fw, n.current, now);
    case Handled(now, answered) =>
      if n.outbox != [] {
        DeliverKeepsGreeting(cfg, n, now, answered);
      }
    case _ =>
  }

  // ---- sessions ----

  /** One exchange: a command and everything that happens on the link until its reply is read. */
  datatype Turn = Turn(command: Command, events: seq<Event>)

  function AfterTurns(cfg: Config, n: Net, turns: seq<Turn>, k: nat): Net
    requires k <= |turns|
  {
    if k == 0 then n else AfterTurn(cfg, AfterTurns(cfg, n, turns, k - 1), turns[k - 1])
  }

  function AfterTurn(cfg: Config, n: Net, turn: Turn): Net {
    RunNet(cfg, Issue(n, turn.command), turn.events, |turn.events|)
  }

  /** The k-th command takes the next number, and the firmware has handled it when its exchange ends. */
  predicate GoodTurn(cfg: Config, n: Net, turns: seq<Turn>, k: nat)
    requires k < |turns|
  {
    && turns[k].command.sequence == SeqOf(AfterTurns(cfg, n, turns, k).issued + 1)
    && AfterTurns(cfg, n, turns, k + 1).processed == AfterTurns(cfg, n, turns, k + 1).issued
  }

  predicate Session(cfg: Config, n: Net, turns: seq<Turn>) {
    turns != [] && turns[0].command.Hello? && forall k: nat :: k < |turns| ==> GoodTurn(cfg, n, turns, k)
  }

  lemma {:induction false} RunKeepsSync(cfg: Config, n: Net, events: seq<Event>, k: nat)
    requires InSync(cfg, n) && k <= |events|
    ensures InSync(cfg, RunNet(cfg, n, events, k))
  {
    if k > 0 {
      RunKeepsSync(cfg, n, events, k - 1);
      EventKeepsSync(cfg, RunNet(cfg, n, events, k - 1), events[k - 1]);
    }
  }

  lemma {:induction false} RunKeepsGreeting(cfg: Config, n: Net, events: seq<Event>, k: nat)
    requires Greeted(cfg, n) && k <= |events|
    ensures Greeted(cfg, RunNet(cfg, n, events, k))
  {
    if k > 0 {
      RunKeepsGreeting(cfg, n, events, k - 1);
      EventKeepsGreeting(cfg, RunNet(cfg, n, events, k - 1), events[k - 1]);
    }
  }

  /** A reply with the current number has arrived, held back for less than a cycle. */
  predicate Answered(n: Net) {
    exists i :: 0 <= i < |n.inbox| && n.inbox[i].id != 0 && n.issued < n.inbox[i].id + CYCLE
                && SequenceOf(n.inbox[i].response) == n.current.sequence
  }

  /** The host can tell that a number was handled: it has its reply. */
  lemma AnsweredMeansHandled(cfg: Config, n: Net)
    requires NetInv(cfg, n) && n.issued >= 1 && Answered(n)
    ensures n.processed == n.issued
  {
    var i :| 0 <= i < |n.inbox| && n.inbox[i].id != 0 && n.issued < n.inbox[i].id + CYCLE
             && SequenceOf(n.inbox[i].response) == n.current.sequence;
    SeqOfInjective(n.inbox[i].id, n.issued);
  }

  lemma IssueKeepsSync(cfg: Config, n: Net, command: Command)
    requires InSync(cfg, n) && n.processed == n.issued && command.sequence == SeqOf(n.issued + 1)
    ensures InSync(cfg, Issue(n, command))
  {
    IssueStarts(cfg, n, command);
  }

  lemma IssueGreets(cfg: Config, n: Net, command: Command)
    requires NetInv(cfg, n) && command.Hello? && command.sequence == SeqOf(n.issued + 1)
    ensures Greeted(cfg, Issue(n, command))
  {
    IssueStarts(cfg, n, command);
  }

  /** One turn: from a HELLO, or in step and handled before, the link is in step and handled after. */
  lemma TurnKeepsStep(cfg: Config, n: Net, turn: Turn)
    requires NetInv(cfg, n) && turn.command.sequence == SeqOf(n.issued + 1)
    requires turn.command.Hello? || (InSync(cfg, n) && n.processed == n.issued)
    requires AfterTurn(cfg, n, turn).processed == AfterTurn(cfg, n, turn).issued
    ensures var after := AfterTurn(cfg, n, turn); InSync(cfg, after) && after.processed == after.issued
  {
    if turn.command.Hello? {
      IssueGreets(cfg, n, turn.command);
      RunKeepsGreeting(cfg, Issue(n, turn.command), turn.events, |turn.events|);
    } else {
      IssueKeepsSync(cfg, n, turn.command);
      RunKeepsSync(cfg, Issue(n, turn.command), turn.events, |turn.events|);
    }
  }

  /**
   From any state of the link and the firmware, after a HELLO and any number of exchanges whose
   command the firmware each time handles, answered or not: the firmware expects exactly the number
   the host takes next, and no reply to the newest number was BAD_SEQUENCE or STALE_SEQUENCE, at any
   number of wraparounds.
   */
  lemma {:induction false} NumbersStayInStep(cfg: Config, n: Net, turns: seq<Turn>, k: nat)
    requires NetInv(cfg, n) && Session(cfg, n, turns) && 1 <= k <= |turns|
    ensures var after := AfterTurns(cfg, n, turns, k);
            && InSync(cfg, after) && after.processed == after.issued
            && NextSequence(after.fw.last.value.command.sequence) == SeqOf(after.issued + 1)
  {
    if k > 1 {
      NumbersStayInStep(cfg, n, turns, k - 1);
    }
    assert GoodTurn(cfg, n, turns, k - 1);
    TurnKeepsStep(cfg, AfterTurns(cfg, n, turns, k - 1), turns[k - 1]);
    SeqOfNext(AfterTurns(cfg, n, turns, k).issued);
  }

  // ---- a number the firmware misses ----

  lemma SeqOfApart(a: nat, b: nat)
    requires 1 <= a <= b
    ensures SeqOf(a) == SeqOf(b) <==> (b - a) % CYCLE == 0
  {
  }

  /** In step, the command taken next is executed if and only if the numbers not handled make whole cycles. */
  lemma ExecutesExactlyWhenHandled(cfg: Config, n: Net, command: Command)
    requires NetInv(cfg, n) && InStep(n) && !command.Hello? && command.sequence == SeqOf(n.issued + 1)
    ensures RouteOf(Issue(n, command).fw, command).Fresh? <==> (n.issued - n.processed) % CYCLE == 0
    ensures InSync(cfg, n) ==> (RouteOf(Issue(n, command).fw, command).Fresh? <==> n.processed == n.issued)
  {
    SeqOfNext(n.processed);
    SeqOfApart(n.processed + 1, n.issued + 1);
    SeqOfApart(n.processed, n.processed + 1);
  }

  /**
   The firmware last accepted number `p` and can no longer see its successor: what is in flight is
   older or newer, and everything newer has been refused.
   */
  predicate Stalled(n: Net, p: nat, pose: (int, int), writes: nat) {
    && 1 <= p < n.issued < p + CYCLE
    && n.fw.last.Some? && n.fw.last.value.command.sequence == SeqOf(p)
    && Pose(n.fw) == pose && n.writes == writes
    && (forall i :: 0 <= i < |n.outbox| ==>
          n.outbox[i].id == p || (p + 1 < n.outbox[i].id <= n.issued && !n.outbox[i].command.Hello?))
    && (forall i :: 0 <= i < |n.inbox| && n.inbox[i].id > p ==> n.inbox[i].response.Error?)
  }

  /** A number that is neither the last nor the expected one is refused without effect. */
  lemma NeitherIsRefused(cfg: Config, m: Machine, command: Command, now: real)
    requires ValidConfig(cfg) && Inv(cfg, m) && !command.Hello? && m.last.Some?
    requires command.sequence != m.last.value.command.sequence
    requires command.sequence != NextSequence(m.last.value.command.sequence)
    ensures Handle(cfg, m, command, now).0 == Tick(m, now) && Handle(cfg, m, command, now).1.Error?
  {
    TickKeepsInv(cfg, m, now);
    TickKeepsRoute(m, command, now);
  }

  /** What the firmware does with the oldest request then. */
  lemma HeadWhileStalled(cfg: Config, n: Net, p: nat, pose: (int, int), writes: nat, now: real)
    requires NetInv(cfg, n) && Stalled(n, p, pose, writes) && n.outbox != []
    ensures var head := n.outbox[0];
            var (after, response) := Handle(cfg, n.fw, head.command, now);
            && !RouteOf(Tick(n.fw, now), head.command).Fresh? && Pose(after) == pose
            && after.last.Some? && after.last.value.command.sequence == SeqOf(p)
            && (head.id > p ==> response.Error?)
  {
    var head := n.outbox[0];
    TickKeepsRoute(n.fw, head.command, now);
    HandleSettles(cfg, n.fw, head.command, now);
    SeqOfNext(p);
    SeqOfApart(p, head.id);
    if head.id == p {
      SeqOfApart(p, p + 1);
      LastNumberStays(cfg, n.fw, head.command, now);
    } else {
      SeqOfApart(p + 1, head.id);
      NeitherIsRefused(cfg, n.fw, head.command, now);
    }
  }

  lemma DeliverStaysStalled(cfg: Config, n: Net, p: nat, pose: (int, int), writes: nat, now: real, answered: bool)
    requires NetInv(cfg, n) && Stalled(n, p, pose, writes) && n.outbox != []
    ensures Stalled(Deliver(cfg, n, now, answered), p, pose, writes)
  {
    HeadWhileStalled(cfg, n, p, pose, writes, now);
    var next := Deliver(cfg, n, now, answered);
    assert forall i :: 0 <= i < |next.outbox| ==> next.outbox[i] == n.outbox[i + 1];
  }

  /** Stalled, in the exchange of a newer number. */
  predicate StalledTurn(cfg: Config, n: Net, p: nat, pose: (int, int), writes: nat, issued: nat) {
    && NetInv(cfg, n) && Stalled(n, p, pose, writes)
    && n.issued == issued > p + 1 && !n.current.Hello?
  }

  lemma EventStaysStalled(cfg: Config, n: Net, p: nat, pose: (int, int), writes: nat, issued: nat, event: Event)
    requires StalledTurn(cfg, n, p, pose, writes, issued)
    ensures StalledTurn(cfg, After(cfg, n, event), p, pose, writes, issued)
  {
    EventKeepsInv(cfg, n, event);
    if event.Handled? && n.outbox != [] {
      DeliverStaysStalled(cfg, n, p, pose, writes, event.now, event.answered);
    }
  }

  lemma {:induction false} RunStaysStalled(cfg: Config, n: Net, p: nat, pose: (int, int), writes: nat, issued: nat,
                                           events: seq<Event>, k: nat)
    requires StalledTurn(cfg, n, p, pose, writes, issued) && k <= |events|
    ensures StalledTurn(cfg, RunNet(cfg, n, events, k), p, pose, writes, issued)
  {
    if k > 0 {
      RunStaysStalled(cfg, n, p, pose, writes, issued, events, k - 1);
      EventStaysStalled(cfg, RunNet(cfg, n, events, k - 1), p, pose, writes, issued, events[k - 1]);
    }
  }

  lemma StallBegins(cfg: Config, n: Net)
    requires NetInv(cfg, n) && InStep(n) && n.issued == n.processed + 1
    requires forall i :: 0 <= i < |n.outbox| ==> n.outbox[i].id != n.issued
    ensures Stalled(n, n.processed, Pose(n.fw), n.writes)
  {
  }

  lemma TurnStaysStalled(cfg: Config, n: Net, p: nat, pose: (int, int), writes: nat, turn: Turn)
    requires NetInv(cfg, n) && Stalled(n, p, pose, writes) && n.issued + 1 < p + CYCLE
    requires !turn.command.Hello? && turn.command.sequence == SeqOf(n.issued + 1)
    ensures var after := AfterTurn(cfg, n, turn);
            NetInv(cfg, after) && Stalled(after, p, pose, writes) && after.issued == n.issued + 1
  {
    IssueStarts(cfg, n, turn.command);
    RunStaysStalled(cfg, Issue(n, turn.command), p, pose, writes, n.issued + 1, turn.events, |turn.events|);
  }

  /** No HELLO, and each command takes the next number. */
  predicate Numbered(cfg: Config, n: Net, turns: seq<Turn>) {
    forall k: nat :: k < |turns| ==> NumberedTurn(cfg, n, turns, k)
  }

  predicate NumberedTurn(cfg: Config, n: Net, turns: seq<Turn>, k: nat)
    requires k < |turns|
  {
    !turns[k].command.Hello? && turns[k].command.sequence == SeqOf(AfterTurns(cfg, n, turns, k).issued + 1)
  }

  /**
   One missed number costs the rest of the session: if an exchange ended with its number unhandled
   and no longer in flight, no later command is executed however often it is sent and answered, the
   pose stays and every answer is a refusal, until a HELLO or until the numbers come round again.
   */
  lemma {:induction false} MissedNumberStalls(cfg: Config, n: Net, turns: seq<Turn>, k: nat)
    requires NetInv(cfg, n) && InStep(n) && n.issued == n.processed + 1
    requires forall i :: 0 <= i < |n.outbox| ==> n.outbox[i].id != n.issued
    requires Numbered(cfg, n, turns) && k <= |turns| && n.issued + k < n.processed + CYCLE
    ensures var after := AfterTurns(cfg, n, turns, k);
            && NetInv(cfg, after) && after.issued == n.issued + k
            && Stalled(after, n.processed, Pose(n.fw), n.writes)
  {
    if k == 0 {
      StallBegins(cfg, n);
    } else {
      MissedNumberStalls(cfg, n, turns, k - 1);
      assert NumberedTurn(cfg, n, turns, k - 1);
      TurnStaysStalled(cfg, AfterTurns(cfg, n, turns, k - 1), n.processed, Pose(n.fw), n.writes, turns[k - 1]);
    }
  }

  /** After power-on, HELLO 1 is handled and answered. */
  function GreetedLink(cfg: Config): Net {
    AfterTurn(cfg, Attached(Initial(cfg), true), Turn(Hello(1), [Resend, Handled(0.0, true)]))
  }

  /** Then STATUS 2 is written and lost. */
  function MissedStatus(cfg: Config): Net {
    AfterTurn(cfg, GreetedLink(cfg), Turn(Status(2), [Resend, LoseRequest]))
  }

  lemma TwoEvents(cfg: Config, n: Net, first: Event, second: Event)
    ensures RunNet(cfg, n, [first, second], 2) == After(cfg, After(cfg, n, first), second)
  {
    assert RunNet(cfg, n, [first, second], 1) == After(cfg, n, first);
  }

  lemma GreetedLinkIs(cfg: Config)
    requires ValidConfig(cfg)
    ensures var n := GreetedLink(cfg);
            && InSync(cfg, n) && n.issued == n.processed == 1 && n.outbox == []
            && n.fw == Handle(cfg, Initial(cfg), Hello(1), 0.0).0
  {
    var attached, turn := Attached(Initial(cfg), true), Turn(Hello(1), [Resend, Handled(0.0, true)]);
    InitialInv(cfg);
    AttachedInv(cfg, Initial(cfg), true);
    var written := After(cfg, Issue(attached, turn.command), Resend);
    assert written.outbox == [Request(1, Hello(1))];
    TwoEvents(cfg, Issue(attached, turn.command), Resend, Handled(0.0, true));
    TurnKeepsStep(cfg, attached, turn);
  }

  lemma MissedStatusIs(cfg: Config)
    requires ValidConfig(cfg)
    ensures var n := MissedStatus(cfg);
            && NetInv(cfg, n) && InStep(n) && n.issued == 2 && n.processed == 1 && n.outbox == []
            && n.fw == Handle(cfg, Initial(cfg), Hello(1), 0.0).0
  {
    GreetedLinkIs(cfg);
    var issued := Issue(GreetedLink(cfg), Status(2));
    IssueKeepsSync(cfg, GreetedLink(cfg), Status(2));
    TwoEvents(cfg, issued, Resend, LoseRequest);
    EventKeepsSync(cfg, issued, Resend);
    EventKeepsSync(cfg, After(cfg, issued, Resend), LoseRequest);
  }

  /** What the firmware answers to SET 3 then. */
  lemma SetThreeIsRefused(cfg: Config, pan: Degree, tilt: Degree, now: real)
    ensures Handle(cfg, Handle(cfg, Initial(cfg), Hello(1), 0.0).0, Set(3, pan, tilt), now).1 == Error(3, BadSequence)
  {
  }

  /** The stall happens: the SET sent next is handled and refused, and the pose is still the neutral one. */
  lemma StallExample(cfg: Config, pan: Degree, tilt: Degree, now: real)
    requires ValidConfig(cfg)
    ensures var n := AfterTurn(cfg, MissedStatus(cfg), Turn(Set(3, pan, tilt), [Resend, Handled(now, true)]));
            && n.processed == n.issued == 3 && Pose(n.fw) == (cfg.neutralPan, cfg.neutralTilt)
            && n.inbox != [] && n.inbox[|n.inbox| - 1] == Reply(3, Error(3, BadSequence))
  {
    var missed, turn := MissedStatus(cfg), Turn(Set(3, pan, tilt), [Resend, Handled(now, true)]);
    MissedStatusIs(cfg);
    assert NumberedTurn(cfg, missed, [turn], 0);
    MissedNumberStalls(cfg, missed, [turn], 1);
    assert AfterTurns(cfg, missed, [turn], 1) == AfterTurn(cfg, missed, turn);
    var issued := Issue(missed, turn.command);
    assert After(cfg, issued, Resend).outbox == [Request(3, turn.command)];
    TwoEvents(cfg, issued, Resend, Handled(now, true));
    SetThreeIsRefused(cfg, pan, tilt, now);
  }
}
