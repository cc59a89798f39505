/**
 When a watchdog expiry hides a motion: the firmware applies it, its acknowledgement is lost, the
 watchdog expires, and the host is told NOT_ENABLED. Which exchanges can end so, exactly, and which
 timing rules it out.
 */
module Expiry {
  import opened Common
  import opened Wire
  import opened Firmware
  import opened Link
  import FirmwareRuns

  /** A refusal of the current command waits to be read. */
  predicate RefusalWaits(n: Net, i: int) {
    0 <= i < |n.inbox| && n.inbox[i].id == n.issued && n.inbox[i].response.Error?
  }

  /** Every refusal of the current command means that it has moved nothing. */
  ghost predicate RefusalsHonest(n: Net) {
    forall i :: RefusalWaits(n, i) ==> !Applied(n)
  }

  // ---- one write ----

  /** The current command was written `sent` times; while it was written at most once, it is handled at most once. */
  ghost predicate HandledOnce(n: Net, sent: nat) {
    && (sent == 0 ==> n.processed < n.issued && forall i :: 0 <= i < |n.outbox| ==> n.outbox[i].id != n.issued)
    && (sent <= 1 ==>
          && (forall i, j :: 0 <= i < j < |n.outbox| ==> n.outbox[i].id != n.issued || n.outbox[j].id != n.issued)
          && (forall i :: 0 <= i < |n.outbox| && n.outbox[i].id == n.issued ==> n.processed < n.issued)
          && RefusalsHonest(n))
  }

  function Written(event: Event): nat {
    if event.Resend? then 1 else 0
  }

  lemma IssueIsUnwritten(cfg: Config, n: Net, command: Command)
    requires NetInv(cfg, n)
    ensures HandledOnce(Issue(n, command), 0)
  {
  }

  lemma DeliverKeepsOnce(cfg: Config, n: Net, sent: nat, now: real, answered: bool)
    requires NetInv(cfg, n) && n.issued >= 1 && HandledOnce(n, sent) && n.outbox != []
    ensures HandledOnce(Deliver(cfg, n, now, answered), sent)
  {
    var head, next := n.outbox[0], Deliver(cfg, n, now, answered);
    assert forall i :: 0 <= i < |next.outbox| ==> next.outbox[i] == n.outbox[i + 1];
    if sent <= 1 && head.id == n.issued {
      HandleSettles(cfg, n.fw, head.command, now);
      assert forall i :: 0 <= i < |n.inbox| ==> n.inbox[i].id < n.issued;
      assert forall i :: 0 <= i < |n.inbox| ==> next.inbox[i] == n.inbox[i];
    }
  }

  /** Nothing that leaves the waiting replies as they are, or drops the oldest, makes a refusal dishonest. */
  lemma StillHonest(n: Net, next: Net)
    requires RefusalsHonest(n) && next.issued == n.issued && Applied(next) == Applied(n)
    requires next.inbox == n.inbox || (n.inbox != [] && next.inbox == n.inbox[1..])
    ensures RefusalsHonest(next)
  {
    forall i | RefusalWaits(next, i)
      ensures !Applied(next)
    {
      assert RefusalWaits(n, if next.inbox == n.inbox then i else i + 1);
    }
  }

  lemma EventKeepsOnce(cfg: Config, n: Net, sent: nat, event: Event)
    requires NetInv(cfg, n) && n.issued >= 1 && HandledOnce(n, sent)
    ensures HandledOnce(After(cfg, n, event), sent + Written(event))
  {
    var next := After(cfg, n, event);
    if event.Handled? && n.outbox != [] {
      DeliverKeepsOnce(cfg, n, sent, event.now, event.answered);
    } else if sent <= 1 {
      StillHonest(n, next);
    }
  }

  // ---- in time ----

  /**
   Before `limit` no expiry can come between the motion and its retries: once applied, the deadline
   is no earlier, and the outputs are off only after it. CENTER does not re-arm the watchdog, so for
   it the deadline must be late enough beforehand.
   */
  ghost predicate InTime(cfg: Config, n: Net, start: real, limit: real, last: real) {
    && limit <= start + cfg.timeout && start <= last
    && ((Applied(n) || n.current.Center?) && n.fw.enabled ==> n.fw.deadline.Some? && limit <= n.fw.deadline.value)
    && (Applied(n) && !n.fw.enabled ==> limit <= last)
    && RefusalsHonest(n)
  }

  /** The moment after an event; writes and losses take no time of their own. */
  function Moment(event: Event, last: real): real {
    match event
    case Wait(now) => now
    case Handled(now, _) => now
    case _ => last
  }

  /** The event does not go back in time, and is not a handling at or after the limit. */
  predicate Prompt(event: Event, limit: real, last: real) {
    last <= Moment(event, last) && (event.Handled? ==> event.now < limit)
  }

  lemma IssueIsInTime(cfg: Config, n: Net, command: Command, start: real, limit: real)
    requires NetInv(cfg, n) && limit <= start + cfg.timeout
    requires command.Center? && n.fw.enabled ==> limit <= n.fw.deadline.value
    ensures InTime(cfg, Issue(n, command), start, limit, start)
  {
  }

  /** A retry of an applied motion while the outputs are on is acknowledged again. */
  lemma RetryInTime(cfg: Config, m: Machine, command: Command, now: real)
    requires ValidConfig(cfg) && Inv(cfg, m) && IsMotion(command)
    requires m.last.Some? && m.last.value.command == command && m.last.value.response.Ack?
    requires m.enabled && now < m.deadline.value
    ensures var (after, response) := Handle(cfg, m, command, now);
            && response.Ack? && after.enabled
            && (after.deadline == m.deadline || after.deadline == Some(now + cfg.timeout))
  {
    assert Tick(m, now) == m;
  }

  lemma DeliverKeepsTime(cfg: Config, n: Net, start: real, limit: real, last: real, now: real, answered: bool)
    requires NetInv(cfg, n) && n.issued >= 1 && n.outbox != []
    requires InTime(cfg, n, start, limit, last) && last <= now < limit
    ensures InTime(cfg, Deliver(cfg, n, now, answered), start, limit, now)
  {
    var head, next := n.outbox[0], Deliver(cfg, n, now, answered);
    FirmwareRuns.OutputsAfterCommand(cfg, n.fw, head.command, now);
    TickKeepsRoute(n.fw, head.command, now);
    HandleKeepsInv(cfg, n.fw, head.command, now);
    if Applied(n) {
      RetryInTime(cfg, n.fw, head.command, now);
    } else {
      HandleSettles(cfg, n.fw, head.command, now);
    }
    forall i | RefusalWaits(next, i)
      ensures !Applied(next)
    {
      if i < |n.inbox| {
        assert n.inbox[i].id <= n.processed;
        assert RefusalWaits(n, i);
      }
    }
  }

  lemma EventKeepsTime(cfg: Config, n: Net, start: real, limit: real, last: real, event: Event)
    requires NetInv(cfg, n) && n.issued >= 1
    requires InTime(cfg, n, start, limit, last) && Prompt(event, limit, last)
    ensures InTime(cfg, After(cfg, n, event), start, limit, Moment(event, last))
  {
    if event.Handled? && n.outbox != [] {
      DeliverKeepsTime(cfg, n, start, limit, last, event.now, event.answered);
    } else {
      StillHonest(n, After(cfg, n, event));
    }
  }

  // ---- whole exchanges ----

  /** How often the host writes. */
  function Writes(events: seq<Event>): nat {
    if events == [] then 0 else Writes(events[..|events| - 1]) + Written(events[|events| - 1])
  }

  /** The moment reached after the events. */
  function Reached(events: seq<Event>, start: real): real {
    if events == [] then start else Moment(events[|events| - 1], Reached(events[..|events| - 1], start))
  }

  /** The events follow each other in time from `start`, with every handling before `until`, if that is bounded. */
  predicate Timely(events: seq<Event>, start: real, until: Option<real>) {
    events != [] ==>
      var front, event := events[..|events| - 1], events[|events| - 1];
      && Timely(front, start, until)
      && Reached(front, start) <= Moment(event, Reached(front, start))
      && (event.Handled? && until.Some? ==> event.now < until.value)
  }

  lemma RunSnoc(cfg: Config, n: Net, events: seq<Event>)
    requires events != []
    ensures var front := events[..|events| - 1];
            RunNet(cfg, n, events, |events|) == After(cfg, RunNet(cfg, n, front, |front|), events[|events| - 1])
  {
    RunOfPrefix(cfg, n, events, |events| - 1, |events| - 1);
  }

  lemma {:induction false} RunOfPrefix(cfg: Config, n: Net, events: seq<Event>, m: nat, k: nat)
    requires k <= m <= |events|
    ensures RunNet(cfg, n, events[..m], k) == RunNet(cfg, n, events, k)
  {
    if k > 0 {
      RunOfPrefix(cfg, n, events, m, k - 1);
    }
  }

  function Outcome(cfg: Config, before: Net, command: Command, events: seq<Event>): Net {
    RunNet(cfg, Issue(before, command), events, |events|)
  }

  lemma {:induction false} RunKeepsOnce(cfg: Config, before: Net, command: Command, events: seq<Event>)
    requires NetInv(cfg, before) && command.sequence == SeqOf(before.issued + 1)
    ensures InExchange(cfg, Outcome(cfg, before, command, events),
                       Start(before.issued + 1, command, Quiet(before), Pose(before.fw), before.writes))
    ensures HandledOnce(Outcome(cfg, before, command, events), Writes(events))
  {
    var s := Start(before.issued + 1, command, Quiet(before), Pose(before.fw), before.writes);
    IssueStarts(cfg, before, command);
    RunKeepsExchange(cfg, Issue(before, command), s, events, |events|);
    if events == [] {
      IssueIsUnwritten(cfg, before, command);
    } else {
      var front, event := events[..|events| - 1], events[|events| - 1];
      RunKeepsOnce(cfg, before, command, front);
      RunSnoc(cfg, Issue(before, command), events);
      EventKeepsOnce(cfg, Outcome(cfg, before, command, front), Writes(front), event);
    }
  }

  lemma {:induction false} RunKeepsTime(cfg: Config, before: Net, command: Command, events: seq<Event>,
                                        start: real, limit: real)
    requires NetInv(cfg, before) && command.sequence == SeqOf(before.issued + 1)
    requires limit <= start + cfg.timeout && (command.Center? && before.fw.enabled ==> limit <= before.fw.deadline.value)
    requires Timely(events, start, Some(limit))
    ensures InTime(cfg, Outcome(cfg, before, command, events), start, limit, Reached(events, start))
  {
    if events == [] {
      IssueIsInTime(cfg, before, command, start, limit);
    } else {
      var front, event := events[..|events| - 1], events[|events| - 1];
      RunKeepsTime(cfg, before, command, front, start, limit);
      RunKeepsOnce(cfg, before, command, front);
      RunSnoc(cfg, Issue(before, command), events);
      EventKeepsTime(cfg, Outcome(cfg, before, command, front), start, limit, Reached(front, start), event);
    }
  }

  /** The last moment before which every handling must come for no expiry to hide the motion. */
  function SafeUntil(cfg: Config, m: Machine, command: Command, start: real): real
    requires m.enabled ==> m.deadline.Some?
  {
    if command.Center? && m.enabled && m.deadline.value < start + cfg.timeout then m.deadline.value
    else start + cfg.timeout
  }

  /** The motion is hidden: the pose has changed and a refusal of the command waits. */
  ghost predicate Hidden(before: Net, after: Net) {
    Pose(after.fw) != Pose(before.fw) && exists i :: RefusalWaits(after, i)
  }

  /**
   From any quiet link: an exchange that writes once hides no motion, whatever its timing; neither
   does one whose handlings all come within the timeout of its start and, for CENTER, before the
   armed deadline, however often it writes.
   */
  lemma NothingHidden(cfg: Config, before: Net, command: Command, events: seq<Event>, start: real)
    requires NetInv(cfg, before) && Quiet(before) && command.sequence == SeqOf(before.issued + 1)
    requires Writes(events) <= 1 || Timely(events, start, Some(SafeUntil(cfg, before.fw, command, start)))
    ensures !Hidden(before, Outcome(cfg, before, command, events))
  {
    RunKeepsOnce(cfg, before, command, events);
    if Writes(events) > 1 {
      RunKeepsTime(cfg, before, command, events, start, SafeUntil(cfg, before.fw, command, start));
    }
  }

  // ---- exactly when ----

  /** The firmware would carry the motion out now: a caller can see it from the state and the clock. */
  predicate WouldMove(cfg: Config, m: Machine, command: Command, now: real) {
    && IsMotion(command) && RouteOf(m, command).Fresh?
    && (command.Set? ==> InLimits(cfg, command.pan, command.tilt))
    && (!command.Enable? ==> Tick(m, now).enabled)
  }

  lemma WouldMoveIsAcknowledged(cfg: Config, m: Machine, command: Command, now: real)
    requires ValidConfig(cfg) && Inv(cfg, m) && IsMotion(command)
    ensures WouldMove(cfg, m, command, now) <==> RouteOf(m, command).Fresh? && Handle(cfg, m, command, now).1.Ack?
  {
    TickKeepsRoute(m, command, now);
  }

  // ---- older requests still in flight ----

  /** Some of the requests, in their order. */
  predicate Among(kept: seq<Request>, all: seq<Request>) {
    kept == []
    || (all != []
        && (|| (kept[|kept| - 1] == all[|all| - 1] && Among(kept[..|kept| - 1], all[..|all| - 1]))
            || Among(kept, all[..|all| - 1])))
  }

  predicate NoMotion(requests: seq<Request>) {
    forall i :: 0 <= i < |requests| ==> !IsMotion(requests[i].command)
  }

  /** The firmware after handling all of them at one moment. */
  function HandleAll(cfg: Config, m: Machine, requests: seq<Request>, now: real): Machine {
    if requests == [] then m
    else Handle(cfg, HandleAll(cfg, m, requests[..|requests| - 1], now), requests[|requests| - 1].command, now).0
  }

  /**
   The firmware would carry the motion out now, once it has handled some of the older requests in
   flight; it may lose the others. Motions among them are repeats and do not matter.
   */
  ghost predicate CouldMove(cfg: Config, before: Net, command: Command, now: real) {
    exists kept: seq<Request> :: MovesAfter(cfg, before, command, now, kept)
  }

  predicate MovesAfter(cfg: Config, before: Net, command: Command, now: real, kept: seq<Request>) {
    && Among(kept, before.outbox) && NoMotion(kept)
    && WouldMove(cfg, HandleAll(cfg, before.fw, kept, now), command, now)
  }

  lemma CouldMoveAlone(cfg: Config, before: Net, command: Command, now: real)
    requires before.outbox == []
    ensures CouldMove(cfg, before, command, now) <==> WouldMove(cfg, before.fw, command, now)
  {
    assert HandleAll(cfg, before.fw, [], now) == before.fw;
    if WouldMove(cfg, before.fw, command, now) {
      assert MovesAfter(cfg, before, command, now, []);
    }
  }

  lemma AmongNext(kept: seq<Request>, all: seq<Request>, j: nat)
    requires j < |all| && Among(kept, all[..j])
    ensures Among(kept, all[..j + 1]) && Among(kept + [all[j]], all[..j + 1])
  {
    assert all[..j + 1][..j] == all[..j];
    assert (kept + [all[j]])[..|kept|] == kept;
  }

  lemma HandleAllNext(cfg: Config, m: Machine, requests: seq<Request>, request: Request, now: real)
    ensures HandleAll(cfg, m, requests + [request], now) ==
            Handle(cfg, HandleAll(cfg, m, requests, now), request.command, now).0
  {
    assert (requests + [request])[..|requests|] == requests;
  }

  /** Handling no motion keeps the invariant, switches nothing on and re-arms nothing. */
  lemma NoMotionKeepsLease(cfg: Config, m: Machine, command: Command, now: real)
    requires ValidConfig(cfg) && Inv(cfg, m) && !IsMotion(command)
    ensures var after := Handle(cfg, m, command, now).0;
            && Inv(cfg, after) && Pose(after) == Pose(m)
            && (after.enabled ==> Tick(m, now).enabled && after.deadline == m.deadline)
  {
    FirmwareRuns.OutputsAfterCommand(cfg, m, command, now);
    HandleSettles(cfg, m, command, now);
  }

  lemma {:induction false} AllKeepLease(cfg: Config, m: Machine, requests: seq<Request>, now: real)
    requires ValidConfig(cfg) && Inv(cfg, m) && NoMotion(requests)
    ensures var after := HandleAll(cfg, m, requests, now);
            && Inv(cfg, after) && Pose(after) == Pose(m)
            && (after.enabled ==> m.enabled && after.deadline == m.deadline)
  {
    if requests != [] {
      var front, last := requests[..|requests| - 1], requests[|requests| - 1];
      AllKeepLease(cfg, m, front, now);
      NoMotionKeepsLease(cfg, HandleAll(cfg, m, front, now), last.command, now);
    }
  }

  /** `a` has seen the same numbers as `b`, and has its outputs on at `now` if `b` has. */
  predicate Follows(a: Machine, b: Machine, now: real) {
    && (a.last.Some? <==> b.last.Some?)
    && (a.last.Some? ==> a.last.value.command == b.last.value.command)
    && a.rejected == b.rejected
    && (Tick(b, now).enabled ==> Tick(a, now).enabled)
  }

  lemma FollowedRoutes(a: Machine, b: Machine, command: Command, now: real)
    requires Follows(a, b, now)
    ensures RouteOf(a, command) == RouteOf(b, command)
  {
  }

  /** Handling no motion, now in the one and later in the other, keeps them so. */
  lemma NoMotionFollows(cfg: Config, a: Machine, b: Machine, command: Command, now: real, t: real)
    requires ValidConfig(cfg) && Inv(cfg, a) && Inv(cfg, b) && Follows(a, b, now) && !IsMotion(command) && now <= t
    ensures Follows(Handle(cfg, a, command, now).0, Handle(cfg, b, command, t).0, now)
  {
    FollowedRoutes(a, b, command, now);
    TickKeepsRoute(a, command, now);
    TickKeepsRoute(b, command, t);
    FirmwareRuns.OutputsAfterCommand(cfg, a, command, now);
    FirmwareRuns.OutputsAfterCommand(cfg, b, command, t);
  }

  /** Handling a motion that is not fresh changes neither the numbers nor, towards on, the outputs. */
  lemma RepeatFollows(cfg: Config, a: Machine, b: Machine, command: Command, now: real, t: real)
    requires ValidConfig(cfg) && Inv(cfg, b) && Follows(a, b, now) && IsMotion(command) && now <= t
    requires !RouteOf(b, command).Fresh?
    ensures Follows(a, Handle(cfg, b, command, t).0, now)
  {
    TickKeepsRoute(b, command, t);
    FirmwareRuns.OutputsAfterCommand(cfg, b, command, t);
  }

  /** What is left in flight are the older requests from the j-th on, and then the current one. */
  predicate LeftFrom(n: Net, older: seq<Request>, j: nat)
    requires j <= |older|
  {
    && |n.outbox| >= |older| - j
    && (forall i :: 0 <= i < |older| - j ==> n.outbox[i] == older[j + i])
    && (forall i :: |older| - j <= i < |n.outbox| ==> n.outbox[i] == Request(n.issued, n.current))
  }

  /** So far `kept` of the older requests have been handled, as seen from now. */
  predicate HandledSome(cfg: Config, before: Net, n: Net, now: real, j: int, kept: seq<Request>) {
    && 0 <= j <= |before.outbox| && LeftFrom(n, before.outbox, j)
    && Among(kept, before.outbox[..j]) && NoMotion(kept)
    && Follows(HandleAll(cfg, before.fw, kept, now), n.fw, now)
  }

  /** Nothing has carried the motion out, and until it is handled only older requests have been. */
  ghost predicate Unmoved(cfg: Config, before: Net, n: Net, now: real) {
    && !Applied(n)
    && (n.processed < n.issued ==> exists j, kept :: HandledSome(cfg, before, n, now, j, kept))
  }

  lemma IssueIsUnmoved(cfg: Config, before: Net, command: Command, now: real)
    requires NetInv(cfg, before)
    ensures Unmoved(cfg, before, Issue(before, command), now)
  {
    assert HandledSome(cfg, before, Issue(before, command), now, 0, []);
  }

  lemma LeftAfterHead(n: Net, older: seq<Request>, j: nat)
    requires j <= |older| && LeftFrom(n, older, j) && n.outbox != []
    ensures j < |older| ==> n.outbox[0] == older[j] && LeftFrom(n.(outbox := n.outbox[1..]), older, j + 1)
    ensures j == |older| ==>
              n.outbox[0] == Request(n.issued, n.current) && LeftFrom(n.(outbox := n.outbox[1..]), older, j)
  {
    var rest := n.outbox[1..];
    assert forall i :: 0 <= i < |rest| ==> rest[i] == n.outbox[i + 1];
  }

  /** The exchange of a motion on the link it started from. */
  predicate MotionExchange(cfg: Config, before: Net, n: Net, command: Command) {
    && NetInv(cfg, before) && Quiet(before) && IsMotion(command)
    && InExchange(cfg, n, Start(before.issued + 1, command, true, Pose(before.fw), before.writes))
  }

  /** Handling an older request: if it is no motion, it is one more kept; a motion is a repeat. */
  lemma OlderHandled(cfg: Config, before: Net, n: Net, command: Command, now: real, j: nat, kept: seq<Request>, t: real)
    requires MotionExchange(cfg, before, n, command) && HandledSome(cfg, before, n, now, j, kept)
    requires j < |before.outbox| && n.outbox != [] && now <= t
    ensures var request := before.outbox[j];
            var after := Handle(cfg, n.fw, request.command, t).0;
            && n.outbox[0] == request && request.id < n.issued
            && Among(kept, before.outbox[..j + 1]) && Among(kept + [request], before.outbox[..j + 1])
            && (if IsMotion(request.command) then Follows(HandleAll(cfg, before.fw, kept, now), after, now)
                else Follows(HandleAll(cfg, before.fw, kept + [request], now), after, now))
  {
    var request := before.outbox[j];
    LeftAfterHead(n, before.outbox, j);
    AmongNext(kept, before.outbox, j);
    var a := HandleAll(cfg, before.fw, kept, now);
    if IsMotion(request.command) {
      RepeatFollows(cfg, a, n.fw, request.command, now, t);
    } else {
      AllKeepLease(cfg, before.fw, kept, now);
      HandleAllNext(cfg, before.fw, kept, request, now);
      NoMotionFollows(cfg, a, n.fw, request.command, now, t);
    }
  }

  lemma OlderDelivered(cfg: Config, before: Net, n: Net, command: Command, now: real, j: nat, kept: seq<Request>,
                       t: real, answered: bool)
    requires MotionExchange(cfg, before, n, command) && HandledSome(cfg, before, n, now, j, kept)
    requires j < |before.outbox| && n.outbox != [] && now <= t
    ensures Unmoved(cfg, before, Deliver(cfg, n, t, answered), now)
  {
    var request, next := before.outbox[j], Deliver(cfg, n, t, answered);
    OlderHandled(cfg, before, n, command, now, j, kept, t);
    LeftAfterHead(n, before.outbox, j);
    if IsMotion(request.command) {
      assert HandledSome(cfg, before, next, now, j + 1, kept);
    } else {
      assert HandledSome(cfg, before, next, now, j + 1, kept + [request]);
    }
  }

  /** The firmware that follows would carry the motion out now if this one does so later. */
  lemma FollowerWouldMove(cfg: Config, a: Machine, b: Machine, command: Command, now: real, t: real)
    requires Follows(a, b, now) && now <= t && WouldMove(cfg, b, command, t)
    ensures WouldMove(cfg, a, command, now)
  {
    FollowedRoutes(a, b, command, now);
  }

  lemma MovesNowIfLater(cfg: Config, before: Net, n: Net, command: Command, now: real, kept: seq<Request>, t: real)
    requires HandledSome(cfg, before, n, now, |before.outbox|, kept) && now <= t && WouldMove(cfg, n.fw, command, t)
    ensures CouldMove(cfg, before, command, now)
  {
    assert before.outbox[..|before.outbox|] == before.outbox;
    FollowerWouldMove(cfg, HandleAll(cfg, before.fw, kept, now), n.fw, command, now, t);
    assert MovesAfter(cfg, before, command, now, kept);
  }

  lemma CurrentDelivered(cfg: Config, before: Net, n: Net, command: Command, now: real, kept: seq<Request>,
                         t: real, answered: bool)
    requires MotionExchange(cfg, before, n, command) && !CouldMove(cfg, before, command, now)
    requires !Applied(n) && HandledSome(cfg, before, n, now, |before.outbox|, kept) && n.outbox != [] && now <= t
    ensures Unmoved(cfg, before, Deliver(cfg, n, t, answered), now)
  {
    LeftAfterHead(n, before.outbox, |before.outbox|);
    WouldMoveIsAcknowledged(cfg, n.fw, command, t);
    TickKeepsRoute(n.fw, command, t);
    if WouldMove(cfg, n.fw, command, t) {
      MovesNowIfLater(cfg, before, n, command, now, kept, t);
    }
  }

  lemma DeliverKeepsUnmoved(cfg: Config, before: Net, n: Net, command: Command, now: real, t: real, answered: bool)
    requires MotionExchange(cfg, before, n, command) && !CouldMove(cfg, before, command, now)
    requires Unmoved(cfg, before, n, now) && n.outbox != [] && now <= t
    ensures Unmoved(cfg, before, Deliver(cfg, n, t, answered), now)
  {
    if n.processed < n.issued {
      var j, kept :| HandledSome(cfg, before, n, now, j, kept);
      if j < |before.outbox| {
        OlderDelivered(cfg, before, n, command, now, j, kept, t, answered);
      } else {
        CurrentDelivered(cfg, before, n, command, now, kept, t, answered);
      }
    } else {
      TickKeepsRoute(n.fw, command, t);
    }
  }

  lemma LossKeepsSome(cfg: Config, before: Net, n: Net, now: real, j: nat, kept: seq<Request>)
    requires HandledSome(cfg, before, n, now, j, kept) && n.outbox != []
    ensures HandledSome(cfg, before, n.(outbox := n.outbox[1..]), now,
                        if j < |before.outbox| then j + 1 else j, kept)
  {
    LeftAfterHead(n, before.outbox, j);
    if j < |before.outbox| {
      AmongNext(kept, before.outbox, j);
    }
  }

  /** Time, writes and lost replies leave the older requests as they are. */
  lemma OtherKeepsSome(cfg: Config, before: Net, n: Net, now: real, j: nat, kept: seq<Request>, event: Event)
    requires HandledSome(cfg, before, n, now, j, kept) && (event.Wait? ==> now <= event.now)
    requires event.Wait? || event.Resend? || event.LoseReply? || n.outbox == []
    ensures HandledSome(cfg, before, After(cfg, n, event), now, j, kept)
  {
  }

  lemma EventKeepsUnmoved(cfg: Config, before: Net, n: Net, command: Command, now: real, event: Event)
    requires MotionExchange(cfg, before, n, command) && !CouldMove(cfg, before, command, now)
    requires Unmoved(cfg, before, n, now) && (event.Wait? || event.Handled? ==> now <= event.now)
    ensures Unmoved(cfg, before, After(cfg, n, event), now)
  {
    var next := After(cfg, n, event);
    if event.Handled? && n.outbox != [] {
      DeliverKeepsUnmoved(cfg, before, n, command, now, event.now, event.answered);
    } else if n.processed < n.issued {
      var j, kept :| HandledSome(cfg, before, n, now, j, kept);
      if event.LoseRequest? && n.outbox != [] {
        LossKeepsSome(cfg, before, n, now, j, kept);
        assert HandledSome(cfg, before, next, now, if j < |before.outbox| then j + 1 else j, kept);
      } else {
        OtherKeepsSome(cfg, before, n, now, j, kept, event);
      }
    }
  }

  lemma {:induction false} RunStaysUnmoved(cfg: Config, before: Net, command: Command, events: seq<Event>,
                                           now: real, until: Option<real>)
    requires NetInv(cfg, before) && Quiet(before) && IsMotion(command) && command.sequence == SeqOf(before.issued + 1)
    requires !CouldMove(cfg, before, command, now) && Timely(events, now, until)
    ensures Unmoved(cfg, before, Outcome(cfg, before, command, events), now) && now <= Reached(events, now)
  {
    if events == [] {
      IssueIsUnmoved(cfg, before, command, now);
    } else {
      var front, event := events[..|events| - 1], events[|events| - 1];
      RunStaysUnmoved(cfg, before, command, front, now, until);
      RunKeepsOnce(cfg, before, command, front);
      RunSnoc(cfg, Issue(before, command), events);
      EventKeepsUnmoved(cfg, before, Outcome(cfg, before, command, front), command, now, event);
    }
  }

  /** The run that hides a motion: applied now and the ACK lost, handled again as the watchdog expires. */
  function HidingRun(now: real, expiry: real): seq<Event> {
    [Resend, Handled(now, false), Resend, Handled(expiry, true)]
  }

  /** The firmware's side of it. */
  lemma AppliedThenRefused(cfg: Config, m: Machine, command: Command, now: real)
    requires ValidConfig(cfg) && Inv(cfg, m) && WouldMove(cfg, m, command, now)
    requires m.enabled ==> m.deadline.value <= now + cfg.timeout
    ensures var (moved, ack) := Handle(cfg, m, command, now);
            && ack.Ack? && Pose(moved) == FirmwareRuns.Requested(cfg, command)
            && Handle(cfg, moved, command, SafeUntil(cfg, m, command, now)).1 == Error(command.sequence, NotEnabled)
            && Pose(Handle(cfg, moved, command, SafeUntil(cfg, m, command, now)).0) == Pose(moved)
    ensures now < SafeUntil(cfg, m, command, now)
  {
    TickKeepsRoute(m, command, now);
    assert RouteOf(Tick(m, now), command).Fresh?;
  }

  lemma TimelySnoc(events: seq<Event>, event: Event, start: real, until: Option<real>)
    ensures Timely(events + [event], start, until) <==>
            && Timely(events, start, until) && Reached(events, start) <= Moment(event, Reached(events, start))
            && (event.Handled? && until.Some? ==> event.now < until.value)
    ensures Reached(events + [event], start) == Moment(event, Reached(events, start))
    ensures Writes(events + [event]) == Writes(events) + Written(event)
  {
    assert (events + [event])[..|events|] == events;
  }

  /** With nothing in flight, the current command is written and handled. */
  lemma WriteThenHandled(cfg: Config, n: Net, now: real, answered: bool)
    requires n.outbox == [] && n.issued >= 1
    ensures var (after, response) := Handle(cfg, n.fw, n.current, now);
            var next := After(cfg, After(cfg, n, Resend), Handled(now, answered));
            && next.fw == after && next.outbox == []
            && next.inbox == (if answered then n.inbox + [Reply(n.issued, response)] else n.inbox)
            && next.issued == n.issued && next.current == n.current
  {
    var written := After(cfg, n, Resend);
    assert written.outbox == [Request(n.issued, n.current)];
    assert written.outbox[1..] == [];
  }

  /** Written, handled, and the reply lost. */
  function Unheard(cfg: Config, n: Net, now: real): Net {
    After(cfg, After(cfg, n, Resend), Handled(now, false))
  }

  lemma UnheardIs(cfg: Config, n: Net, now: real)
    requires n.outbox == [] && n.issued >= 1
    ensures var next := Unheard(cfg, n, now);
            && next.fw == Handle(cfg, n.fw, n.current, now).0 && next.outbox == [] && next.inbox == n.inbox
            && next.issued == n.issued && next.current == n.current
  {
    WriteThenHandled(cfg, n, now, false);
  }

  lemma HidingRunIs(cfg: Config, n: Net, now: real, expiry: real)
    ensures RunNet(cfg, n, HidingRun(now, expiry), 4) ==
            After(cfg, After(cfg, Unheard(cfg, n, now), Resend), Handled(expiry, true))
  {
    RunFour(cfg, n, HidingRun(now, expiry));
  }

  /** What the two attempts leave, whatever they did. */
  lemma TwoAttempts(cfg: Config, before: Net, command: Command, now: real, expiry: real)
    requires before.outbox == []
    ensures var n := Outcome(cfg, before, command, HidingRun(now, expiry));
            var (after, response) := Handle(cfg, Handle(cfg, before.fw, command, now).0, command, expiry);
            && n.fw == after && n.outbox == [] && n.issued == before.issued + 1
            && n.inbox == before.inbox + [Reply(before.issued + 1, response)]
  {
    var issued := Issue(before, command);
    UnheardIs(cfg, issued, now);
    WriteThenHandled(cfg, Unheard(cfg, issued, now), expiry, true);
    HidingRunIs(cfg, issued, now, expiry);
  }

  lemma HidingRunHides(cfg: Config, before: Net, command: Command, now: real)
    requires NetInv(cfg, before) && before.outbox == [] && command.sequence == SeqOf(before.issued + 1)
    requires WouldMove(cfg, before.fw, command, now)
    requires before.fw.enabled ==> before.fw.deadline.value <= now + cfg.timeout
    ensures var n := Outcome(cfg, before, command, HidingRun(now, SafeUntil(cfg, before.fw, command, now)));
            && n.inbox == before.inbox + [Reply(before.issued + 1, Error(command.sequence, NotEnabled))]
            && Pose(n.fw) == FirmwareRuns.Requested(cfg, command)
            && n.outbox == [] && n.issued == before.issued + 1
  {
    var expiry := SafeUntil(cfg, before.fw, command, now);
    AppliedThenRefused(cfg, before.fw, command, now);
    TwoAttempts(cfg, before, command, now, expiry);
  }

  lemma RunFour(cfg: Config, n: Net, events: seq<Event>)
    requires |events| == 4
    ensures RunNet(cfg, n, events, 4) ==
            After(cfg, After(cfg, After(cfg, After(cfg, n, events[0]), events[1]), events[2]), events[3])
  {
    RunNext(cfg, n, events, 0);
    RunNext(cfg, n, events, 1);
    RunNext(cfg, n, events, 2);
    RunNext(cfg, n, events, 3);
  }

  lemma RunNext(cfg: Config, n: Net, events: seq<Event>, k: nat)
    requires k < |events|
    ensures RunNet(cfg, n, events, 0) == n
    ensures RunNet(cfg, n, events, k + 1) == After(cfg, RunNet(cfg, n, events, k), events[k])
  {
  }

  /** Some course of events with at most so many writes, in that time, hides the motion. */
  ghost predicate CanHide(cfg: Config, before: Net, command: Command, now: real, writes: nat, until: Option<real>) {
    exists events: seq<Event> :: HidesBy(cfg, before, command, now, writes, until, events)
  }

  ghost predicate HidesBy(cfg: Config, before: Net, command: Command, now: real, writes: nat, until: Option<real>,
                          events: seq<Event>)
  {
    Writes(events) <= writes && Timely(events, now, until) && Hidden(before, Outcome(cfg, before, command, events))
  }

  // ---- the course with older requests ----

  /** A course so far: it took its events from `n`, none is a write, and it ends now with these left in flight. */
  predicate Cleared(cfg: Config, n: Net, events: seq<Event>, now: real, until: Option<real>,
                    rest: seq<Request>, m: Machine)
  {
    && Timely(events, now, until) && Reached(events, now) == now && Writes(events) == 0
    && var after := RunNet(cfg, n, events, |events|);
       && after.outbox == rest && after.fw == m && after.inbox == n.inbox
       && after.issued == n.issued && after.current == n.current
  }

  lemma ClearedNext(cfg: Config, n: Net, events: seq<Event>, now: real, until: Option<real>,
                    request: Request, rest: seq<Request>, m: Machine, keep: bool)
    requires Cleared(cfg, n, events, now, until, [request] + rest, m) && (until.Some? ==> now < until.value)
    ensures Cleared(cfg, n, events + [if keep then Handled(now, false) else LoseRequest], now, until, rest,
                    if keep then Handle(cfg, m, request.command, now).0 else m)
  {
    var event := if keep then Handled(now, false) else LoseRequest;
    TimelySnoc(events, event, now, until);
    RunSnoc(cfg, n, events + [event]);
    assert (events + [event])[..|events|] == events;
    assert ([request] + rest)[1..] == rest && ([request] + rest)[0] == request;
  }

  /** The older requests can all be disposed of now: those kept handled unheard, the others lost. */
  lemma {:induction false} OlderCleared(cfg: Config, n: Net, older: seq<Request>, rest: seq<Request>, kept: seq<Request>,
                                        now: real, until: Option<real>)
    returns (events: seq<Event>)
    requires n.outbox == older + rest && Among(kept, older) && (until.Some? ==> now < until.value)
    ensures Cleared(cfg, n, events, now, until, rest, HandleAll(cfg, n.fw, kept, now))
  {
    if older == [] {
      events := [];
      assert older + rest == rest;
    } else {
      var front, last := older[..|older| - 1], older[|older| - 1];
      assert older + rest == front + ([last] + rest);
      var keep := kept != [] && kept[|kept| - 1] == last && Among(kept[..|kept| - 1], front);
      var before := OlderCleared(cfg, n, front, [last] + rest, if keep then kept[..|kept| - 1] else kept, now, until);
      ClearedNext(cfg, n, before, now, until, last, rest,
                  HandleAll(cfg, n.fw, if keep then kept[..|kept| - 1] else kept, now), keep);
      events := before + [if keep then Handled(now, false) else LoseRequest];
    }
  }

  lemma RunMore(cfg: Config, n: Net, events: seq<Event>, event: Event)
    ensures RunNet(cfg, n, events + [event], |events| + 1) == After(cfg, RunNet(cfg, n, events, |events|), event)
  {
    RunSnoc(cfg, n, events + [event]);
    assert (events + [event])[..|events|] == events;
  }

  /** The four steps that hide the motion, after any course. */
  function ThenHiding(events: seq<Event>, now: real, expiry: real): seq<Event> {
    events + [Resend] + [Handled(now, false)] + [Resend] + [Handled(expiry, true)]
  }

  lemma ThenHidingIsTimely(events: seq<Event>, now: real, expiry: real, until: Option<real>)
    requires Timely(events, now, until) && Reached(events, now) == now && Writes(events) == 0
    requires now <= expiry && (until.None? || expiry < until.value)
    ensures Timely(ThenHiding(events, now, expiry), now, until) && Writes(ThenHiding(events, now, expiry)) == 2
  {
    TimelySnoc(events, Resend, now, until);
    TimelySnoc(events + [Resend], Handled(now, false), now, until);
    TimelySnoc(events + [Resend] + [Handled(now, false)], Resend, now, until);
    TimelySnoc(events + [Resend] + [Handled(now, false)] + [Resend], Handled(expiry, true), now, until);
  }

  lemma ThenHidingRuns(cfg: Config, n: Net, events: seq<Event>, now: real, expiry: real)
    ensures var course := ThenHiding(events, now, expiry);
            RunNet(cfg, n, course, |course|) ==
            After(cfg, After(cfg, Unheard(cfg, RunNet(cfg, n, events, |events|), now), Resend), Handled(expiry, true))
  {
    RunMore(cfg, n, events, Resend);
    RunMore(cfg, n, events + [Resend], Handled(now, false));
    RunMore(cfg, n, events + [Resend] + [Handled(now, false)], Resend);
    RunMore(cfg, n, events + [Resend] + [Handled(now, false)] + [Resend], Handled(expiry, true));
  }

  /** With nothing else in flight, these steps leave a refusal waiting at the requested pose. */
  lemma HidingSteps(cfg: Config, n: Net, m: Machine, now: real)
    requires n.outbox == [] && n.issued >= 1 && n.fw == m && ValidConfig(cfg) && Inv(cfg, m)
    requires WouldMove(cfg, m, n.current, now) && (m.enabled ==> m.deadline.value <= now + cfg.timeout)
    ensures var after := After(cfg, After(cfg, Unheard(cfg, n, now), Resend),
                               Handled(SafeUntil(cfg, m, n.current, now), true));
            && after.issued == n.issued && after.inbox != []
            && after.inbox[|after.inbox| - 1] == Reply(n.issued, Error(n.current.sequence, NotEnabled))
            && Pose(after.fw) == FirmwareRuns.Requested(cfg, n.current)
  {
    AppliedThenRefused(cfg, m, n.current, now);
    UnheardIs(cfg, n, now);
    WriteThenHandled(cfg, Unheard(cfg, n, now), SafeUntil(cfg, m, n.current, now), true);
  }

  lemma CourseHides(cfg: Config, before: Net, command: Command, now: real, until: Option<real>, kept: seq<Request>)
    returns (events: seq<Event>)
    requires NetInv(cfg, before) && Quiet(before) && command.sequence == SeqOf(before.issued + 1)
    requires before.fw.enabled ==> before.fw.deadline.value <= now + cfg.timeout
    requires MovesAfter(cfg, before, command, now, kept) && FirmwareRuns.Requested(cfg, command) != Pose(before.fw)
    requires until.None? || SafeUntil(cfg, before.fw, command, now) < until.value
    ensures HidesBy(cfg, before, command, now, 2, until, events)
  {
    var m := HandleAll(cfg, before.fw, kept, now);
    AllKeepLease(cfg, before.fw, kept, now);
    AppliedThenRefused(cfg, m, command, now);
    assert before.outbox + [] == before.outbox;
    var clearing := OlderCleared(cfg, Issue(before, command), before.outbox, [], kept, now, until);
    HidesAfterClearing(cfg, before, command, now, until, clearing, m);
    events := ThenHiding(clearing, now, SafeUntil(cfg, m, command, now));
  }

  lemma HidesAfterClearing(cfg: Config, before: Net, command: Command, now: real, until: Option<real>,
                           clearing: seq<Event>, m: Machine)
    requires ValidConfig(cfg) && Inv(cfg, m) && Cleared(cfg, Issue(before, command), clearing, now, until, [], m)
    requires WouldMove(cfg, m, command, now) && FirmwareRuns.Requested(cfg, command) != Pose(before.fw)
    requires m.enabled ==> m.deadline.value <= now + cfg.timeout
    requires now < SafeUntil(cfg, m, command, now) && (until.None? || SafeUntil(cfg, m, command, now) < until.value)
    ensures HidesBy(cfg, before, command, now, 2, until, ThenHiding(clearing, now, SafeUntil(cfg, m, command, now)))
  {
    var issued, expiry := Issue(before, command), SafeUntil(cfg, m, command, now);
    HidingSteps(cfg, RunNet(cfg, issued, clearing, |clearing|), m, now);
    ThenHidingRuns(cfg, issued, clearing, now, expiry);
    ThenHidingIsTimely(clearing, now, expiry, until);
    var after := Outcome(cfg, before, command, ThenHiding(clearing, now, expiry));
    assert RefusalWaits(after, |after.inbox| - 1);
  }

  /**
   From any quiet link with the watchdog armed no later than now, an exchange can hide its motion if
   and only if it may write twice, the firmware would carry the motion out now, if need be after
   handling some of the older requests in flight, the pose would change, and handlings may come as
   late as the expiry. All four can be seen before the call.
   */
  lemma HidesExactlyWhen(cfg: Config, before: Net, command: Command, now: real, writes: nat, until: Option<real>)
    requires NetInv(cfg, before) && Quiet(before) && IsMotion(command) && command.sequence == SeqOf(before.issued + 1)
    requires before.fw.enabled ==> before.fw.deadline.value <= now + cfg.timeout
    ensures CanHide(cfg, before, command, now, writes, until) <==>
            && writes >= 2
            && CouldMove(cfg, before, command, now)
            && FirmwareRuns.Requested(cfg, command) != Pose(before.fw)
            && (until.None? || SafeUntil(cfg, before.fw, command, now) < until.value)
  {
    var late := until.None? || SafeUntil(cfg, before.fw, command, now) < until.value;
    if writes >= 2 && CouldMove(cfg, before, command, now)
       && FirmwareRuns.Requested(cfg, command) != Pose(before.fw) && late
    {
      var kept: seq<Request> :| MovesAfter(cfg, before, command, now, kept);
      var events := CourseHides(cfg, before, command, now, until, kept);
      assert HidesBy(cfg, before, command, now, writes, until, events);
    }
    forall events: seq<Event> | HidesBy(cfg, before, command, now, writes, until, events)
      ensures writes >= 2 && CouldMove(cfg, before, command, now)
              && FirmwareRuns.Requested(cfg, command) != Pose(before.fw) && late
    {
      HiddenMeans(cfg, before, command, now, until, events);
    }
  }

  lemma HiddenMeans(cfg: Config, before: Net, command: Command, now: real, until: Option<real>, events: seq<Event>)
    requires NetInv(cfg, before) && Quiet(before) && IsMotion(command) && command.sequence == SeqOf(before.issued + 1)
    requires Timely(events, now, until) && Hidden(before, Outcome(cfg, before, command, events))
    ensures Writes(events) >= 2 && CouldMove(cfg, before, command, now)
    ensures FirmwareRuns.Requested(cfg, command) != Pose(before.fw)
    ensures until.None? || SafeUntil(cfg, before.fw, command, now) < until.value
  {
    RunKeepsOnce(cfg, before, command, events);
    if !CouldMove(cfg, before, command, now) {
      RunStaysUnmoved(cfg, before, command, events, now, until);
    }
    if Writes(events) < 2 || (until.Some? && until.value <= SafeUntil(cfg, before.fw, command, now)) {
      if until.Some? && until.value <= SafeUntil(cfg, before.fw, command, now) {
        EarlierIsTimely(events, now, until.value, SafeUntil(cfg, before.fw, command, now));
      }
      NothingHidden(cfg, before, command, events, now);
    }
  }

  lemma {:induction false} EarlierIsTimely(events: seq<Event>, start: real, until: real, later: real)
    requires Timely(events, start, Some(until)) && until <= later
    ensures Timely(events, start, Some(later))
  {
    if events != [] {
      EarlierIsTimely(events[..|events| - 1], start, until, later);
    }
  }

  // ---- in a session ----

  /** An exchange whose first request is handled and whose reply is read. */
  function Clean(cfg: Config, n: Net, command: Command, now: real): Net {
    Outcome(cfg, n, command, [Resend, Handled(now, true), LoseReply])
  }

  lemma CleanExchange(cfg: Config, n: Net, command: Command, now: real)
    requires n.outbox == [] && n.inbox == [] && n.processed == n.issued && command.sequence == SeqOf(n.issued + 1)
    ensures var (after, response) := Handle(cfg, n.fw, command, now);
            var wrote := IsMotion(command) && RouteOf(Tick(n.fw, now), command).Fresh? && response.Ack?;
            Clean(cfg, n, command, now) ==
            Net(after, [], [], n.issued + 1, command, n.issued + 1, wrote, false, n.writes + if wrote then 1 else 0)
  {
    var events := [Resend, Handled(now, true), LoseReply];
    var first := After(cfg, Issue(n, command), Resend);
    assert first.outbox == [Request(n.issued + 1, command)];
    var second := After(cfg, first, Handled(now, true));
    assert |second.inbox| == 1 && second.outbox == [];
    RunNext(cfg, Issue(n, command), events, 0);
    RunNext(cfg, Issue(n, command), events, 1);
    RunNext(cfg, Issue(n, command), events, 2);
  }

  const SESSION_CONFIG := Config(20, 160, 35, 145, 90, 90, 1.0)

  /** After power-on, the startup READY is read and HELLO 1 answered at once. */
  function GreetedSession(): Net {
    Clean(SESSION_CONFIG, After(SESSION_CONFIG, Attached(Initial(SESSION_CONFIG), true), LoseReply), Hello(1), 0.0)
  }

  /** Then DISABLE 2. */
  function DisabledSession(): Net {
    Clean(SESSION_CONFIG, GreetedSession(), Disable(2), 0.5)
  }

  /** Then ENABLE 3. */
  function EnabledSession(): Net {
    Clean(SESSION_CONFIG, DisabledSession(), Enable(3), 1.0)
  }

  const OUTPUTS_OFF := Machine(false, 90, 90, Idle, None, None, None)

  lemma GreetedSessionIs()
    ensures GreetedSession() ==
            Net(OUTPUTS_OFF.(last := Some(Memory(Hello(1), Ready(1, PROTOCOL_VERSION, FIRMWARE_VERSION)))),
                [], [], 1, Hello(1), 1, false, false, 0)
  {
    var attached := After(SESSION_CONFIG, Attached(Initial(SESSION_CONFIG), true), LoseReply);
    assert attached.inbox == [];
    CleanExchange(SESSION_CONFIG, attached, Hello(1), 0.0);
  }

  lemma DisabledSessionIs()
    ensures DisabledSession() ==
            Net(OUTPUTS_OFF.(last := Some(Memory(Disable(2), Ack(2, AckDisable, 90, 90)))),
                [], [], 2, Disable(2), 2, false, false, 0)
  {
    GreetedSessionIs();
    CleanExchange(SESSION_CONFIG, GreetedSession(), Disable(2), 0.5);
  }

  lemma EnabledSessionIs()
    ensures EnabledSession() ==
            Net(Machine(true, 90, 90, Armed, Some(2.0), Some(Memory(Enable(3), Ack(3, AckEnable, 90, 90))), None),
                [], [], 3, Enable(3), 3, true, false, 1)
  {
    DisabledSessionIs();
    CleanExchange(SESSION_CONFIG, DisabledSession(), Enable(3), 1.0);
  }

  const SET_FOUR := Set(4, 40, 50)

  lemma SessionIsReady()
    ensures var n := EnabledSession();
            && NetInv(SESSION_CONFIG, n) && Quiet(n) && n.outbox == [] && n.inbox == [] && n.issued == 3
            && Pose(n.fw) == (90, 90) && n.fw.enabled && n.fw.deadline == Some(2.0)
            && WouldMove(SESSION_CONFIG, n.fw, SET_FOUR, 1.5)
  {
    EnabledSessionIs();
  }

  lemma SessionCanHide()
    ensures CanHide(SESSION_CONFIG, EnabledSession(), SET_FOUR, 1.5, 2, None)
  {
    SessionIsReady();
    CouldMoveAlone(SESSION_CONFIG, EnabledSession(), SET_FOUR, 1.5);
    HidesExactlyWhen(SESSION_CONFIG, EnabledSession(), SET_FOUR, 1.5, 2, None);
  }

  /**
   In that session, SET 4 40 50 can be hidden if it may be written twice: it is applied at 1.5, its
   ACK lost, and refused at 2.5 when retried.
   */
  lemma ExpiryInASession()
    ensures NetInv(SESSION_CONFIG, EnabledSession()) && Quiet(EnabledSession()) && Pose(EnabledSession().fw) == (90, 90)
    ensures CanHide(SESSION_CONFIG, EnabledSession(), SET_FOUR, 1.5, 2, None)
    ensures var n := Outcome(SESSION_CONFIG, EnabledSession(), SET_FOUR, HidingRun(1.5, 2.5));
            && n.inbox == [Reply(4, Error(4, NotEnabled))]
            && Pose(n.fw) == (40, 50) && Hidden(EnabledSession(), n)
  {
    SessionIsReady();
    SessionCanHide();
    HidingRunHides(SESSION_CONFIG, EnabledSession(), SET_FOUR, 1.5);
    assert RefusalWaits(Outcome(SESSION_CONFIG, EnabledSession(), SET_FOUR, HidingRun(1.5, 2.5)), 0);
  }
}
