/** What the firmware guarantees over whole runs: watchdog, retransmissions, sequence numbers. */
module FirmwareRuns {
  import opened Common
  import opened Wire
  import opened Firmware

  datatype Event = Ticked(now: real) | Received(now: real, command: Command)

  function After(cfg: Config, m: Machine, event: Event): Machine {
    match event
    case Ticked(now) => Tick(m, now)
    case Received(now, command) => Handle(cfg, m, command, now).0
  }

  /** The state after the first `n` events. */
  function Run(cfg: Config, start: Machine, events: seq<Event>, n: nat): Machine
    requires n <= |events|
  {
    if n == 0 then start else After(cfg, Run(cfg, start, events, n - 1), events[n - 1])
  }

  function ReplyAt(cfg: Config, start: Machine, events: seq<Event>, i: nat): Response
    requires i < |events| && events[i].Received?
  {
    Handle(cfg, Run(cfg, start, events, i), events[i].command, events[i].now).1
  }

  function RouteAt(cfg: Config, start: Machine, events: seq<Event>, i: nat): Route
    requires i < |events| && events[i].Received?
  {
    RouteOf(Tick(Run(cfg, start, events, i), events[i].now), events[i].command)
  }

  predicate Ordered(events: seq<Event>) {
    forall i, j :: 0 <= i < j < |events| ==> events[i].now <= events[j].now
  }

  lemma {:induction false} RunKeepsInv(cfg: Config, start: Machine, events: seq<Event>, n: nat)
    requires ValidConfig(cfg) && Inv(cfg, start) && n <= |events|
    ensures Inv(cfg, Run(cfg, start, events, n))
  {
    if n > 0 {
      var m := Run(cfg, start, events, n - 1);
      RunKeepsInv(cfg, start, events, n - 1);
      match events[n - 1]
      case Ticked(now) => TickKeepsInv(cfg, m, now);
      case Received(now, command) => HandleKeepsInv(cfg, m, command, now);
    }
  }

  // ---- watchdog ----

  /** An accepted ENABLE, an accepted SET, or an exact duplicate of an accepted SET. */
  predicate Grants(cfg: Config, start: Machine, events: seq<Event>, i: nat)
    requires i < |events|
  {
    && events[i].Received?
    && ReplyAt(cfg, start, events, i).Ack?
    && match events[i].command
       case Set(_, _, _) => RouteAt(cfg, start, events, i).Fresh? || RouteAt(cfg, start, events, i).Repeated?
       case Enable(_) => RouteAt(cfg, start, events, i).Fresh?
       case _ => false
  }

  /** An accepted DISABLE. */
  predicate Revokes(cfg: Config, start: Machine, events: seq<Event>, i: nat)
    requires i < |events|
  {
    events[i].Received? && events[i].command.Disable? && RouteAt(cfg, start, events, i).Fresh?
  }

  /** When the outputs were last granted, unless they were revoked since. */
  function Lease(cfg: Config, start: Machine, events: seq<Event>, n: nat): Option<real>
    requires n <= |events|
  {
    if n == 0 then None
    else if Grants(cfg, start, events, n - 1) then Some(events[n - 1].now)
    else if Revokes(cfg, start, events, n - 1) then None
    else Lease(cfg, start, events, n - 1)
  }

  predicate Latest(cfg: Config, start: Machine, events: seq<Event>, n: nat, i: int)
    requires n <= |events|
  {
    && 0 <= i < n
    && Grants(cfg, start, events, i)
    && forall j: nat :: i < j < n ==> !Revokes(cfg, start, events, j)
  }

  /** The latest grant is this event's, or the one before unless this event revokes it. */
  lemma LatestNext(cfg: Config, start: Machine, events: seq<Event>, n: nat, i: int)
    requires n < |events|
    ensures Latest(cfg, start, events, n + 1, i) <==>
            || (i == n && Grants(cfg, start, events, n))
            || (Latest(cfg, start, events, n, i) && !Revokes(cfg, start, events, n))
  {
  }

  lemma {:induction false} LeaseIsLatestGrant(cfg: Config, start: Machine, events: seq<Event>, n: nat)
    requires n <= |events| && Ordered(events)
    ensures var lease := Lease(cfg, start, events, n);
            && (lease.Some? ==> exists i :: Latest(cfg, start, events, n, i) && events[i].now == lease.value)
            && (forall i :: Latest(cfg, start, events, n, i) ==> lease.Some? && events[i].now <= lease.value)
  {
    if n > 0 {
      LeaseIsLatestGrant(cfg, start, events, n - 1);
      var before, lease := Lease(cfg, start, events, n - 1), Lease(cfg, start, events, n);
      if lease.Some? {
        var i :| if lease == before && !Grants(cfg, start, events, n - 1)
                 then Latest(cfg, start, events, n - 1, i) && events[i].now == lease.value else i == n - 1;
        LatestNext(cfg, start, events, n - 1, i);
      }
      forall i | Latest(cfg, start, events, n, i)
        ensures lease.Some? && events[i].now <= lease.value
      {
        LatestNext(cfg, start, events, n - 1, i);
      }
    }
  }

  /** One command's effect on the outputs. */
  lemma OutputsAfterCommand(cfg: Config, before: Machine, command: Command, now: real)
    requires ValidConfig(cfg) && Inv(cfg, before)
    ensures var m := Tick(before, now);
            var route := RouteOf(m, command);
            var (after, response) := Handle(cfg, before, command, now);
            if response.Ack? && ((command.Set? && (route.Fresh? || route.Repeated?)) || (command.Enable? && route.Fresh?))
            then after.enabled && after.deadline == Some(now + cfg.timeout)
            else if command.Disable? && route.Fresh? then !after.enabled
            else after.enabled == m.enabled && after.deadline == m.deadline
  {
    TickKeepsInv(cfg, before, now);
    var m := Tick(before, now);
    if RouteOf(m, command).Fresh? {
      ExecuteAnswers(cfg, m, command, now);
    } else if RouteOf(m, command).Repeated? {
      RepeatKeepsInv(cfg, m, command, now);
    }
  }

  /** The outputs are on exactly while the lease has not been seen to run out. */
  lemma {:induction false} OutputsFollowLease(cfg: Config, events: seq<Event>, n: nat)
    requires ValidConfig(cfg) && n <= |events| && Ordered(events)
    ensures var m := Run(cfg, Initial(cfg), events, n);
            var lease := Lease(cfg, Initial(cfg), events, n);
            && Inv(cfg, m)
            && (m.enabled ==> lease.Some? && m.deadline == Some(lease.value + cfg.timeout))
            && (!m.enabled && lease.Some? ==> n > 0 && lease.value + cfg.timeout <= events[n - 1].now)
  {
    if n == 0 {
      InitialInv(cfg);
    } else {
      OutputsFollowLease(cfg, events, n - 1);
      var m, event := Run(cfg, Initial(cfg), events, n - 1), events[n - 1];
      if event.Received? {
        HandleKeepsInv(cfg, m, event.command, event.now);
        OutputsAfterCommand(cfg, m, event.command, event.now);
        assert ReplyAt(cfg, Initial(cfg), events, n - 1) == Handle(cfg, m, event.command, event.now).1;
      } else {
        TickKeepsInv(cfg, m, event.now);
      }
    }
  }

  /**
   After a tick at time t, the outputs are enabled if and only if an accepted ENABLE, an accepted
   SET or an exact duplicate of one lies less than the timeout before t with no DISABLE since.
   */
  lemma WatchdogOverRuns(cfg: Config, events: seq<Event>, t: real)
    requires ValidConfig(cfg) && Ordered(events)
    requires forall i :: 0 <= i < |events| ==> events[i].now <= t
    ensures Tick(Run(cfg, Initial(cfg), events, |events|), t).enabled <==>
            exists i :: Latest(cfg, Initial(cfg), events, |events|, i) && t < events[i].now + cfg.timeout
  {
    var n := |events|;
    LeaseIsLatestGrant(cfg, Initial(cfg), events, n);
    OutputsFollowLease(cfg, events, n);
    var lease := Lease(cfg, Initial(cfg), events, n);
    if lease.Some? {
      var i :| Latest(cfg, Initial(cfg), events, n, i) && events[i].now == lease.value;
      assert t < events[i].now + cfg.timeout <==> t < lease.value + cfg.timeout;
    }
  }

  // ---- retransmissions ----

  /** Every delivery in the run is the one command. */
  predicate Deliveries(events: seq<Event>, command: Command) {
    forall i :: 0 <= i < |events| && events[i].Received? ==> events[i].command == command
  }

  /** The event writes an angle pair to the outputs. */
  predicate WritesAt(cfg: Config, start: Machine, events: seq<Event>, i: nat)
    requires i < |events|
  {
    events[i].Received? && IsMotion(events[i].command)
      && RouteAt(cfg, start, events, i).Fresh? && ReplyAt(cfg, start, events, i).Ack?
  }

  function Writes(cfg: Config, start: Machine, events: seq<Event>, n: nat): nat
    requires n <= |events|
  {
    if n == 0 then 0
    else Writes(cfg, start, events, n - 1) + if WritesAt(cfg, start, events, n - 1) then 1 else 0
  }

  function Requested(cfg: Config, command: Command): (int, int) {
    match command
    case Set(_, pan, tilt) => (pan, tilt)
    case _ => (cfg.neutralPan, cfg.neutralTilt)
  }

  /** What a command's deliveries can have led to, seen from the state before the first of them. */
  predicate DeliveredInv(cfg: Config, start: Machine, command: Command, m: Machine, writes: nat, seen: bool) {
    && Inv(cfg, m)
    && m.last.Some?
    && (seen ==> m.last.value.command == command)
    && (!seen ==> m.last == start.last && m.rejected == start.rejected)
    && writes <= (if seen && m.last.value.response.Ack? then 1 else 0)
    && (if writes == 0 then (m.pan, m.tilt) == (start.pan, start.tilt)
        else (m.pan, m.tilt) == Requested(cfg, command) && IsMotion(command))
    && (seen && m.last.value.response.Ack? && IsMotion(command) ==> writes == 1)
  }

  lemma DeliveryStep(cfg: Config, start: Machine, command: Command, m: Machine, writes: nat, seen: bool, now: real)
    requires ValidConfig(cfg) && DeliveredInv(cfg, start, command, m, writes, seen)
    requires !command.Hello? && start.last.Some?
    requires command.sequence == NextSequence(start.last.value.command.sequence)
    ensures DeliveredInv(cfg, start, command, Tick(m, now), writes, seen)
    ensures var (after, response) := Handle(cfg, m, command, now);
            var wrote := IsMotion(command) && !seen && response.Ack?;
            && DeliveredInv(cfg, start, command, after, writes + (if wrote then 1 else 0), true)
            && (if seen then RouteOf(Tick(m, now), command).Repeated? else RouteOf(Tick(m, now), command).Fresh?)
            && (response.Error? ==> response.code == OutOfRange || response.code == NotEnabled)
  {
    TickKeepsInv(cfg, m, now);
    HandleKeepsInv(cfg, m, command, now);
    var ticked := Tick(m, now);
    assert RouteOf(ticked, command) == if seen then Repeated else Fresh;
    if seen {
      RepeatKeepsInv(cfg, ticked, command, now);
    } else {
      ExecuteAnswers(cfg, ticked, command, now);
    }
  }

  predicate Seen(events: seq<Event>, n: nat)
    requires n <= |events|
  {
    exists i :: 0 <= i < n && events[i].Received?
  }

  lemma {:induction false} DeliveriesSafe(cfg: Config, start: Machine, command: Command, events: seq<Event>, n: nat)
    requires ValidConfig(cfg) && Inv(cfg, start) && start.last.Some? && !command.Hello?
    requires command.sequence == NextSequence(start.last.value.command.sequence)
    requires Deliveries(events, command) && n <= |events|
    ensures DeliveredInv(cfg, start, command, Run(cfg, start, events, n), Writes(cfg, start, events, n), Seen(events, n))
    ensures forall i :: 0 <= i < n && events[i].Received? ==>
              ReplyAt(cfg, start, events, i).Error? ==>
                ReplyAt(cfg, start, events, i).code == OutOfRange || ReplyAt(cfg, start, events, i).code == NotEnabled
  {
    if n > 0 {
      DeliveriesSafe(cfg, start, command, events, n - 1);
      var m, writes, seen := Run(cfg, start, events, n - 1), Writes(cfg, start, events, n - 1), Seen(events, n - 1);
      DeliveryStep(cfg, start, command, m, writes, seen, events[n - 1].now);
      assert Seen(events, n) == (seen || events[n - 1].Received?);
    }
  }

  /**
   However often one command with the expected number is delivered, and whatever ticks fall in
   between, its pose is written at most once, the pose ends as the old or the requested one, and
   it is the requested one whenever some delivery of a motion was acknowledged.
   */
  lemma AtMostOnceMotion(cfg: Config, start: Machine, command: Command, events: seq<Event>)
    requires ValidConfig(cfg) && Inv(cfg, start) && start.last.Some? && !command.Hello?
    requires command.sequence == NextSequence(start.last.value.command.sequence)
    requires Deliveries(events, command)
    ensures var m := Run(cfg, start, events, |events|);
            && Writes(cfg, start, events, |events|) <= 1
            && (m.pan, m.tilt) == (if Writes(cfg, start, events, |events|) == 1 then Requested(cfg, command)
                                   else (start.pan, start.tilt))
            && (forall i :: 0 <= i < |events| && events[i].Received? && ReplyAt(cfg, start, events, i).Ack? ==>
                  IsMotion(command) ==> (m.pan, m.tilt) == Requested(cfg, command))
  {
    var n := |events|;
    DeliveriesSafe(cfg, start, command, events, n);
    forall i | 0 <= i < |events| && events[i].Received? && ReplyAt(cfg, start, events, i).Ack? && IsMotion(command)
      ensures Writes(cfg, start, events, n) == 1
    {
      AckMeansWritten(cfg, start, command, events, n, i);
    }
  }

  lemma {:induction false} AckMeansWritten(cfg: Config, start: Machine, command: Command, events: seq<Event>, n: nat, i: nat)
    requires ValidConfig(cfg) && Inv(cfg, start) && start.last.Some? && IsMotion(command)
    requires command.sequence == NextSequence(start.last.value.command.sequence)
    requires Deliveries(events, command) && i < n <= |events|
    requires events[i].Received? && ReplyAt(cfg, start, events, i).Ack?
    ensures Writes(cfg, start, events, n) == 1
  {
    DeliveriesSafe(cfg, start, command, events, n);
    if i < n - 1 {
      AckMeansWritten(cfg, start, command, events, n - 1, i);
    } else {
      var m, seen := Run(cfg, start, events, i), Seen(events, i);
      DeliveriesSafe(cfg, start, command, events, i);
      DeliveryStep(cfg, start, command, m, Writes(cfg, start, events, i), seen, events[i].now);
      if seen {
        RepeatKeepsInv(cfg, Tick(m, events[i].now), command, events[i].now);
      }
    }
  }

  // ---- sequence lockstep ----

  /** One command of a session with everything delivered of it, and the ticks in between. */
  datatype Burst = Burst(command: Command, events: seq<Event>)

  predicate GoodBurst(b: Burst) {
    !b.command.Hello? && Deliveries(b.events, b.command) && Seen(b.events, |b.events|)
  }

  /** The host numbers its commands consecutively, wrapping from 65535 to 1. */
  predicate Consecutive(previous: Sequence, bursts: seq<Burst>) {
    && (|bursts| > 0 ==> bursts[0].command.sequence == NextSequence(previous))
    && forall k :: 0 < k < |bursts| ==> bursts[k].command.sequence == NextSequence(bursts[k - 1].command.sequence)
  }

  function RunBursts(cfg: Config, start: Machine, bursts: seq<Burst>, k: nat): Machine
    requires k <= |bursts|
  {
    if k == 0 then start
    else Run(cfg, RunBursts(cfg, start, bursts, k - 1), bursts[k - 1].events, |bursts[k - 1].events|)
  }

  /**
   Any number of consecutive exchanges, through any number of wraparounds: no delivery is ever
   answered BAD_SEQUENCE or STALE_SEQUENCE, and the firmware always expects the host's next number.
   */
  lemma {:induction false} Lockstep(cfg: Config, start: Machine, bursts: seq<Burst>, k: nat)
    requires ValidConfig(cfg) && Inv(cfg, start) && start.last.Some?
    requires Consecutive(start.last.value.command.sequence, bursts) && k <= |bursts|
    requires forall j :: 0 <= j < |bursts| ==> GoodBurst(bursts[j])
    ensures var m := RunBursts(cfg, start, bursts, k);
            && Inv(cfg, m) && m.last.Some?
            && m.last.value.command.sequence ==
               (if k == 0 then start.last.value.command.sequence else bursts[k - 1].command.sequence)
    ensures forall j, i :: 0 <= j < k && 0 <= i < |bursts[j].events| && bursts[j].events[i].Received? ==>
              var reply := ReplyAt(cfg, RunBursts(cfg, start, bursts, j), bursts[j].events, i);
              reply.Error? ==> reply.code != BadSequence && reply.code != StaleSequence
  {
    if k > 0 {
      Lockstep(cfg, start, bursts, k - 1);
      var m, b := RunBursts(cfg, start, bursts, k - 1), bursts[k - 1];
      DeliveriesSafe(cfg, m, b.command, b.events, |b.events|);
    }
  }

  /** A cached rejected SET never captures a number that has become the expected one again. */
  lemma ExpectedNumberIsFresh(cfg: Config, m: Machine, command: Command, now: real)
    requires Inv(cfg, m) && m.last.Some? && !command.Hello?
    requires command.sequence == NextSequence(m.last.value.command.sequence)
    ensures Handle(cfg, m, command, now).0.last.Some? && Handle(cfg, m, command, now).0.last.value.command == command
    ensures Handle(cfg, m, command, now).1 == Execute(cfg, Tick(m, now), command, now).1
    ensures var cache := Handle(cfg, m, command, now).0.rejected;
            cache.Some? && cache.value.command.sequence == command.sequence ==> cache.value.command == command
  {
    TickKeepsInv(cfg, m, now);
    assert RouteOf(Tick(m, now), command).Fresh?;
  }
}
