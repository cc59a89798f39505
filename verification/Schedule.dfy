/** Deadlines of finite-media playback and of the control loop. */
module Schedule {

  /** A whole number of intervals. */
  function Times(n: int, interval: real): real {
    n as real * interval
  }

  lemma TimesNext(n: int, interval: real)
    ensures Times(n + 1, interval) == Times(n, interval) + interval
    ensures n == -1 ==> Times(n + 1, interval) == 0.0
  {
  }

  // ---- playback ----

  function Missed(interval: real, deadline: real, now: real): int
    requires interval > 0.0
  {
    ((now - deadline) / interval).Floor
  }

  function NextDeadline(interval: real, deadline: real, now: real): real
    requires interval > 0.0
  {
    deadline + Times(Missed(interval, deadline, now) + 1, interval)
  }

  /** The slot a moment lies in, counted from the start of playback. */
  function SlotOf(interval: real, start: real, now: real): int
    requires interval > 0.0
  {
    ((now - start) / interval).Floor
  }

  lemma FloorOfShifted(x: real, k: int)
    ensures (x - k as real).Floor == x.Floor - k
  {
  }

  /** Wherever the deadline was, the next one is the end of the slot the frame started in. */
  lemma NextIsEndOfSlot(interval: real, start: real, k: int, deadline: real, now: real)
    requires interval > 0.0 && deadline == start + Times(k, interval) && deadline <= now
    ensures NextDeadline(interval, deadline, now) == start + Times(SlotOf(interval, start, now) + 1, interval)
    ensures SlotOf(interval, start, now) >= k
    ensures now < NextDeadline(interval, deadline, now) <= now + interval
  {
    var slot := SlotOf(interval, start, now);
    QuotientShifts(now - start, k, interval);
    assert now - start - Times(k, interval) == now - deadline;
    FloorOfShifted((now - start) / interval, k);
    TimesDiffer(slot + 1, k, interval);
    QuotientTimes(now - start, interval);
    SlotHolds((now - start) / interval, interval);
    SlotIsReached(now - start, k, interval);
    TimesNext(slot, interval);
  }

  lemma QuotientShifts(a: real, k: int, interval: real)
    requires interval > 0.0
    ensures (a - Times(k, interval)) / interval == a / interval - k as real
  {
    var x := a / interval;
    assert (x - k as real) * interval == a - Times(k, interval);
  }

  lemma TimesDiffer(m: int, n: int, interval: real)
    ensures Times(m - n, interval) == Times(m, interval) - Times(n, interval)
  {
    assert (m - n) as real == m as real - n as real;
    Distributes(m as real, n as real, interval);
  }

  lemma Distributes(x: real, y: real, z: real)
    ensures (x - y) * z == x * z - y * z
  {
  }

  lemma SlotHolds(x: real, interval: real)
    requires interval > 0.0
    ensures Times(x.Floor, interval) <= x * interval < Times(x.Floor + 1, interval)
  {
    TimesOrder(x, x.Floor, interval);
    TimesOrder(x, x.Floor + 1, interval);
  }

  lemma TimesOrder(x: real, n: int, interval: real)
    requires interval > 0.0
    ensures n as real <= x ==> Times(n, interval) <= x * interval
    ensures x < n as real ==> x * interval < Times(n, interval)
  {
    if n as real <= x {
      ScaleOrder(n as real, x, interval);
    } else {
      ScaleOrder(x, n as real, interval);
    }
  }

  lemma QuotientTimes(a: real, interval: real)
    requires interval > 0.0
    ensures a / interval * interval == a
  {
  }

  lemma SlotIsReached(a: real, k: int, interval: real)
    requires interval > 0.0 && Times(k, interval) <= a
    ensures k <= (a / interval).Floor
  {
    var x := a / interval;
    assert x * interval == a;
    if x < k as real {
      ScaleOrder(x, k as real, interval);
    }
  }

  lemma ScaleOrder(a: real, b: real, interval: real)
    requires a <= b && interval > 0.0
    ensures a * interval <= b * interval && (a < b ==> a * interval < b * interval)
  {
  }

  /** Each frame starts no earlier than the deadline the frames before it left. */
  predicate Legal(interval: real, start: real, starts: seq<real>)
    requires interval > 0.0
  {
    forall i :: 0 <= i < |starts| ==> DeadlineAfter(interval, start, starts[..i]) <= starts[i]
  }

  function DeadlineAfter(interval: real, start: real, starts: seq<real>): real
    requires interval > 0.0
  {
    if starts == [] then start + interval
    else NextDeadline(interval, DeadlineAfter(interval, start, starts[..|starts| - 1]), starts[|starts| - 1])
  }

  /** How many intervals after the start the deadline lies. */
  function DeadlineSlot(interval: real, start: real, starts: seq<real>): int
    requires interval > 0.0
  {
    if starts == [] then 1 else SlotOf(interval, start, starts[|starts| - 1]) + 1
  }

  /**
   After any legal starts the deadline is a whole number of intervals after the start of playback:
   it never drifts. That number grows with every frame, so no two frames share a slot.
   */
  lemma {:induction false} DeadlinesStayOnGrid(interval: real, start: real, starts: seq<real>)
    requires interval > 0.0 && Legal(interval, start, starts)
    ensures DeadlineAfter(interval, start, starts) == start + Times(DeadlineSlot(interval, start, starts), interval)
    ensures starts != [] ==>
              var last := starts[|starts| - 1];
              && last < DeadlineAfter(interval, start, starts) <= last + interval
              && DeadlineSlot(interval, start, starts) > DeadlineSlot(interval, start, starts[..|starts| - 1])
  {
    if starts == [] {
      TimesNext(-1, interval);
      TimesNext(0, interval);
    } else {
      var front, last := starts[..|starts| - 1], starts[|starts| - 1];
      assert forall i :: 0 <= i < |front| ==> front[..i] == starts[..i];
      DeadlinesStayOnGrid(interval, start, front);
      NextIsEndOfSlot(interval, start, DeadlineSlot(interval, start, front), DeadlineAfter(interval, start, front), last);
      assert starts[..|starts| - 1] == front;
    }
  }

  lemma StartIsLegal(interval: real, start: real, starts: seq<real>, now: real)
    requires interval > 0.0 && Legal(interval, start, starts) && DeadlineAfter(interval, start, starts) <= now
    ensures Legal(interval, start, starts + [now])
    ensures DeadlineAfter(interval, start, starts + [now]) ==
            NextDeadline(interval, DeadlineAfter(interval, start, starts), now)
  {
    var extended := starts + [now];
    assert extended[..|starts|] == starts;
    assert forall i :: 0 <= i < |starts| ==> extended[..i] == starts[..i];
  }

  /** A legal start moves the deadline to the end of the slot it lies in. */
  lemma StartAdvances(interval: real, start: real, starts: seq<real>, now: real)
    requires interval > 0.0 && Legal(interval, start, starts) && DeadlineAfter(interval, start, starts) <= now
    ensures var next := NextDeadline(interval, DeadlineAfter(interval, start, starts), now);
            && Legal(interval, start, starts + [now]) && DeadlineAfter(interval, start, starts + [now]) == next
            && now < next <= now + interval
            && next == start + Times(SlotOf(interval, start, now) + 1, interval)
  {
    StartIsLegal(interval, start, starts, now);
    DeadlinesStayOnGrid(interval, start, starts + [now]);
  }

  lemma {:induction false} SlotsAreUsed(interval: real, start: real, starts: seq<real>)
    requires interval > 0.0 && Legal(interval, start, starts)
    ensures DeadlineSlot(interval, start, starts) >= |starts| + 1
  {
    if starts != [] {
      var front := starts[..|starts| - 1];
      assert forall i :: 0 <= i < |front| ==> front[..i] == starts[..i];
      SlotsAreUsed(interval, start, front);
      DeadlinesStayOnGrid(interval, start, starts);
    }
  }

  lemma SlotsKeepOrder(interval: real, start: real, a: real, b: real)
    requires interval > 0.0 && a <= b
    ensures SlotOf(interval, start, a) <= SlotOf(interval, start, b)
  {
    assert (b - start) / interval - (a - start) / interval == (b - a) / interval >= 0.0;
  }

  /** No burst: at most as many frames have started by a moment as intervals have elapsed. */
  lemma FramesWithinElapsedSlots(interval: real, start: real, starts: seq<real>, now: real)
    requires interval > 0.0 && Legal(interval, start, starts) && starts != [] && starts[|starts| - 1] <= now
    ensures |starts| <= SlotOf(interval, start, now)
  {
    SlotsAreUsed(interval, start, starts);
    SlotsKeepOrder(interval, start, starts[|starts| - 1], now);
  }

  datatype StartResult = Started | BeforeDeadline

  method SkipMissed(interval: real, deadline: real, now: real) returns (next: real)
    requires interval > 0.0
    ensures next == NextDeadline(interval, deadline, now)
  {
    var missed := ((now - deadline) / interval).Floor;
    next := deadline + Times(missed + 1, interval);
  }

  class MonotonicPlaybackSchedule {
    const interval: real
    ghost const start: real
    ghost var starts: seq<real>
    var nextDeadline: real

    ghost predicate Valid()
      reads this
    {
      interval > 0.0 && Legal(interval, start, starts) && nextDeadline == DeadlineAfter(interval, start, starts)
    }

    constructor (fps: real, started: real)
      requires fps > 0.0
      ensures Valid() && starts == [] && start == started && interval == 1.0 / fps
    {
      interval := 1.0 / fps;
      nextDeadline := started + 1.0 / fps;
      start := started;
      starts := [];
    }

    method WaitSeconds(now: real) returns (wait: real)
      ensures wait >= 0.0 && (wait == 0.0 <==> now >= nextDeadline) && (wait > 0.0 ==> now + wait == nextDeadline)
    {
      wait := if nextDeadline - now > 0.0 then nextDeadline - now else 0.0;
    }

    /** Advance to the first future slot, dropping every missed one. */
    method FrameStarted(now: real) returns (r: StartResult)
      requires Valid()
      modifies this
      ensures Valid()
      ensures r.BeforeDeadline? <==> now < old(nextDeadline)
      ensures r.BeforeDeadline? ==> unchanged(this)
      ensures r.Started? ==> starts == old(starts) + [now]
      ensures r.Started? ==>
                && now < nextDeadline <= now + interval
                && nextDeadline == start + Times(SlotOf(interval, start, now) + 1, interval)
    {
      if now < nextDeadline {
        return BeforeDeadline;
      }
      nextDeadline := SkipMissed(interval, nextDeadline, now);
      StartAdvances(interval, start, starts, now);
      starts := starts + [now];
      r := Started;
    }
  }

  // ---- control ----

  /** One turn of the control loop: the clock looked at, and the clock once its command, if it sends one, is done. */
  datatype Round = Round(now: real, ended: real)

  /** When the next command is due after those sent in these rounds. */
  function DueAfter(interval: real, first: real, rounds: seq<Round>, sent: seq<nat>): real
    requires sent != [] ==> sent[|sent| - 1] < |rounds|
  {
    if sent == [] then first else rounds[sent[|sent| - 1]].ended + interval
  }

  /** The rounds, among the first `n`, that send a command. */
  function Sent(interval: real, first: real, rounds: seq<Round>, n: nat): (sent: seq<nat>)
    requires n <= |rounds|
    ensures forall i :: 0 <= i < |sent| ==> sent[i] < n
  {
    if n == 0 then []
    else
      var before := Sent(interval, first, rounds, n - 1);
      if rounds[n - 1].now >= DueAfter(interval, first, rounds, before) then before + [n - 1] else before
  }

  /** Rounds `i` and `j` of those sent, in this order, and how long after the i-th command ended the j-th is sent. */
  lemma {:induction false} CommandsAreSpaced(interval: real, first: real, rounds: seq<Round>, n: nat, i: nat, j: nat)
    requires interval > 0.0 && n <= |rounds| && forall k :: 0 <= k < |rounds| ==> rounds[k].now <= rounds[k].ended
    requires i < j < |Sent(interval, first, rounds, n)|
    ensures var sent := Sent(interval, first, rounds, n);
            && sent[i] < sent[j]
            && rounds[sent[j]].now - rounds[sent[i]].ended >= Times(j - i, interval)
  {
    var sent, before := Sent(interval, first, rounds, n), Sent(interval, first, rounds, n - 1);
    if j < |before| {
      CommandsAreSpaced(interval, first, rounds, n - 1, i, j);
    } else {
      TimesNext(-1, interval);
      TimesNext(j - i - 1, interval);
      if i < j - 1 {
        CommandsAreSpaced(interval, first, rounds, n - 1, i, j - 1);
      }
    }
  }

  /**
   No command is early and none is left out: with `i` commands sent before it, a round sends the
   next one if and only if its clock has reached the first deadline or, later, an interval after the
   last of them ended.
   */
  lemma {:induction false} SentExactlyWhenDue(interval: real, first: real, rounds: seq<Round>, n: nat, k: nat, i: nat)
    requires k < n <= |rounds| && i <= |Sent(interval, first, rounds, n)|
    requires var sent := Sent(interval, first, rounds, n);
             (i > 0 ==> sent[i - 1] < k) && (i < |sent| ==> k <= sent[i])
    ensures var sent := Sent(interval, first, rounds, n);
            (i < |sent| && sent[i] == k) <==>
              rounds[k].now >= if i == 0 then first else rounds[sent[i - 1]].ended + interval
  {
    var sent, before := Sent(interval, first, rounds, n), Sent(interval, first, rounds, n - 1);
    if k < n - 1 {
      SentExactlyWhenDue(interval, first, rounds, n - 1, k, i);
    } else {
      assert i == |before|;
    }
  }

  class MonotonicControlSchedule {
    const interval: real
    var nextDeadline: real
    ghost const first: real
    ghost var completions: seq<real> // when each command was completed

    ghost predicate Valid()
      reads this
    {
      && interval > 0.0
      && nextDeadline == if completions == [] then first else completions[|completions| - 1] + interval
    }

    constructor (rate: real, firstDeadline: real)
      requires rate > 0.0
      ensures Valid() && interval == 1.0 / rate && first == firstDeadline && completions == []
    {
      interval := 1.0 / rate;
      nextDeadline := firstDeadline;
      first, completions := firstDeadline, [];
    }

    predicate IsDue(now: real)
      reads this
    {
      now >= nextDeadline
    }

    method CommandCompleted(completed: real)
      requires Valid()
      modifies `nextDeadline, `completions
      ensures Valid() && completions == old(completions) + [completed]
    {
      nextDeadline := completed + interval;
      completions := completions + [completed];
    }

    /** A wait never sleeps past the deadline, and none is left once a command is due. */
    method BoundedWait(now: real, maximum: real) returns (wait: real)
      requires maximum >= 0.0
      ensures 0.0 <= wait <= maximum
      ensures IsDue(now) ==> wait == 0.0
      ensures !IsDue(now) ==> now + wait <= nextDeadline && (wait == maximum || now + wait == nextDeadline)
    {
      wait := if nextDeadline - now < maximum then nextDeadline - now else maximum;
      wait := if wait > 0.0 then wait else 0.0;
    }
  }

  /** When each of these rounds ended. */
  function Ends(rounds: seq<Round>, sent: seq<nat>): (ends: seq<real>)
    requires forall i :: 0 <= i < |sent| ==> sent[i] < |rounds|
    ensures |ends| == |sent|
  {
    if sent == [] then [] else Ends(rounds, sent[..|sent| - 1]) + [rounds[sent[|sent| - 1]].ended]
  }

  lemma EndsNext(rounds: seq<Round>, sent: seq<nat>, k: nat)
    requires k < |rounds| && forall i :: 0 <= i < |sent| ==> sent[i] < |rounds|
    ensures Ends(rounds, sent + [k]) == Ends(rounds, sent) + [rounds[k].ended]
  {
    assert (sent + [k])[..|sent|] == sent;
  }

  /** The control loop of a new schedule: in each round, send a command if one is due, and report its completion. */
  method ControlLoop(schedule: MonotonicControlSchedule, rounds: seq<Round>) returns (sent: seq<nat>)
    requires schedule.Valid() && schedule.completions == []
    modifies schedule
    ensures sent == Sent(schedule.interval, schedule.first, rounds, |rounds|)
    ensures schedule.Valid() && schedule.completions == Ends(rounds, sent)
  {
    sent := [];
    for k := 0 to |rounds|
      invariant schedule.Valid() && sent == Sent(schedule.interval, schedule.first, rounds, k)
      invariant schedule.completions == Ends(rounds, sent)
    {
      if schedule.IsDue(rounds[k].now) {
        schedule.CommandCompleted(rounds[k].ended);
        EndsNext(rounds, sent, k);
        sent := sent + [k];
      }
    }
  }
}
