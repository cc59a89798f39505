/**
 The fixed-rate video recorder: processed frames on a wall-clock timeline, with the last frame held
 over slots in which none arrived. A timestamp that is not a finite number is None.
 */
module Recorder {
  import opened Common

  const EPSILON := 0.000000001

  datatype RecorderError = Released | NotFinite | MovedBackwards

  datatype Film<T> = Film(
    encoded: seq<T>,
    held: Option<T>,
    started: Option<real>,
    last: Option<real>,
    submitted: nat,
    duplicated: nat)

  datatype Submission<T> = Submission(frame: T, at: real)

  function Blank<T>(): Film<T> {
    Film([], None, None, None, 0, 0)
  }

  /** The slot a moment falls into; the first frame opens slot 0. */
  function Slot(fps: real, started: real, at: real): int {
    ((at - started) * fps + EPSILON).Floor
  }

  /** Which slot a moment falls into, given the start of the film. */
  type Timeline = (real, real) -> int

  function WallClock(fps: real): Timeline {
    (started: real, at: real) => Slot(fps, started, at)
  }

  ghost predicate Orderly(line: Timeline) {
    && (forall started :: line(started, started) == 0)
    && (forall started, a, b :: a <= b ==> line(started, a) <= line(started, b))
  }

  lemma WallClockIsOrderly(fps: real)
    requires fps > 0.0
    ensures Orderly(WallClock(fps))
  {
    forall started: real, a: real, b: real | a <= b
      ensures Slot(fps, started, a) <= Slot(fps, started, b) && Slot(fps, started, started) == 0
    {
      SlotsKeepOrder(fps, started, a, b);
    }
  }

  lemma SlotsKeepOrder(fps: real, started: real, a: real, b: real)
    requires fps > 0.0 && a <= b
    ensures Slot(fps, started, a) <= Slot(fps, started, b)
    ensures Slot(fps, started, started) == 0
  {
    assert (b - started) * fps - (a - started) * fps == (b - a) * fps >= 0.0;
  }

  function Copies<T>(frame: T, n: nat): (s: seq<T>)
    ensures |s| == n && forall i :: 0 <= i < n ==> s[i] == frame
  {
    if n == 0 then [] else Copies(frame, n - 1) + [frame]
  }

  function Write<T>(line: Timeline, f: Film<T>, frame: T, now: real): Film<T>
    requires f.started.Some? ==> f.held.Some?
  {
    if f.started.None? then
      f.(encoded := f.encoded + [frame], held := Some(frame), started := Some(now), last := Some(now),
         submitted := f.submitted + 1)
    else
      var missing := line(f.started.value, now) + 1 - |f.encoded|;
      var more := if missing > 0 then Copies(f.held.value, missing - 1) + [frame] else [];
      f.(encoded := f.encoded + more, held := Some(frame), last := Some(now), submitted := f.submitted + 1,
         duplicated := f.duplicated + if missing > 0 then missing - 1 else 0)
  }

  /** What is on film after the submissions. */
  function Recorded<T>(line: Timeline, subs: seq<Submission<T>>): (f: Film<T>)
    ensures f.started.Some? ==> f.held.Some?
  {
    if subs == [] then Blank()
    else Write(line, Recorded(line, subs[..|subs| - 1]), subs[|subs| - 1].frame, subs[|subs| - 1].at)
  }

  predicate InOrder<T>(subs: seq<Submission<T>>) {
    forall i, j :: 0 <= i <= j < |subs| ==> subs[i].at <= subs[j].at
  }

  function Slots<T>(line: Timeline, subs: seq<Submission<T>>): (slots: seq<int>)
    ensures |slots| == |subs|
    ensures forall i :: 0 <= i < |subs| ==> slots[i] == line(subs[0].at, subs[i].at)
  {
    seq(|subs|, i requires 0 <= i < |subs| => line(subs[0].at, subs[i].at))
  }

  predicate Rising(slots: seq<int>) {
    && (slots != [] ==> slots[0] == 0)
    && forall i, j :: 0 <= i <= j < |slots| ==> slots[i] <= slots[j]
  }

  lemma SlotsRise<T>(line: Timeline, subs: seq<Submission<T>>)
    requires Orderly(line) && InOrder(subs)
    ensures Rising(Slots(line, subs))
  {
  }

  lemma NextSlot<T>(line: Timeline, subs: seq<Submission<T>>, sub: Submission<T>)
    requires Orderly(line) && subs != [] && subs[|subs| - 1].at <= sub.at
    ensures Slots(line, subs + [sub]) == Slots(line, subs) + [line(subs[0].at, sub.at)]
    ensures Slots(line, subs)[|subs| - 1] <= line(subs[0].at, sub.at)
  {
  }

  // ---- sample and hold ----

  /** Submission `i` belongs in slot `k`: the first in it or, when there is none, the last before it. */
  predicate Shows(slots: seq<int>, k: int, i: int) {
    && 0 <= i < |slots|
    && (|| (slots[i] == k && forall j :: 0 <= j < i ==> slots[j] < k)
        || (slots[i] < k && forall j :: i < j < |slots| ==> slots[j] > k))
  }

  /** How many of the first `n` slots saw no submission. */
  function EmptySlots(slots: seq<int>, n: nat): nat {
    if n == 0 then 0 else EmptySlots(slots, n - 1) + if n - 1 in slots then 0 else 1
  }

  lemma ShowsStays(slots: seq<int>, next: int, k: int, i: int)
    requires Rising(slots) && slots != [] && Shows(slots, k, i)
    requires k <= slots[|slots| - 1] <= next
    ensures Shows(slots + [next], k, i)
  {
  }

  lemma {:induction false} EmptySlotsStay(slots: seq<int>, next: int, n: nat)
    requires next >= n || next in slots
    ensures EmptySlots(slots + [next], n) == EmptySlots(slots, n)
  {
    if n > 0 {
      EmptySlotsStay(slots, next, n - 1);
    }
  }

  lemma {:induction false} SkippedSlotsAreEmpty(slots: seq<int>, next: int, n: nat)
    requires Rising(slots) && slots != [] && slots[|slots| - 1] + 1 <= n <= next
    ensures EmptySlots(slots + [next], n) == EmptySlots(slots, slots[|slots| - 1] + 1) + n - (slots[|slots| - 1] + 1)
  {
    var top := slots[|slots| - 1];
    if n == top + 1 {
      EmptySlotsStay(slots, next, n);
    } else {
      SkippedSlotsAreEmpty(slots, next, n - 1);
      assert n - 1 !in slots + [next];
    }
  }

  /** What a film shows after the submissions, slot by slot. */
  ghost predicate Faithful<T>(f: Film<T>, subs: seq<Submission<T>>, slots: seq<int>) {
    && |slots| == |subs| > 0 && Rising(slots)
    && f.started == Some(subs[0].at) && f.last == Some(subs[|subs| - 1].at)
    && f.held == Some(subs[|subs| - 1].frame)
    && f.submitted == |subs|
    && |f.encoded| == slots[|slots| - 1] + 1
    && f.duplicated == EmptySlots(slots, |f.encoded|)
    && forall k :: 0 <= k < |f.encoded| ==> SlotShown(f.encoded, subs, slots, k)
  }

  ghost predicate SlotShown<T>(encoded: seq<T>, subs: seq<Submission<T>>, slots: seq<int>, k: int)
    requires |subs| == |slots| && 0 <= k < |encoded|
  {
    exists i :: Displays(encoded[k], subs, slots, k, i)
  }

  /** The frame in slot `k` is that of submission `i`, which belongs there. */
  ghost predicate Displays<T>(frame: T, subs: seq<Submission<T>>, slots: seq<int>, k: int, i: int)
    requires |subs| == |slots|
  {
    Shows(slots, k, i) && frame == subs[i].frame
  }

  lemma FirstWrite<T>(line: Timeline, sub: Submission<T>)
    requires Orderly(line)
    ensures Faithful(Write(line, Blank(), sub.frame, sub.at), [sub], Slots(line, [sub]))
  {
    SlotsRise(line, [sub]);
    var slots := Slots(line, [sub]);
    var after := Write(line, Blank(), sub.frame, sub.at);
    assert slots == [0] && after.encoded == [sub.frame];
    assert Displays(after.encoded[0], [sub], slots, 0, 0);
    assert EmptySlots(slots, 1) == EmptySlots(slots, 0);
  }

  lemma NextWrite<T>(line: Timeline, f: Film<T>, subs: seq<Submission<T>>, slots: seq<int>, sub: Submission<T>)
    requires Faithful(f, subs, slots) && line(subs[0].at, sub.at) >= slots[|slots| - 1]
    ensures Faithful(Write(line, f, sub.frame, sub.at), subs + [sub], slots + [line(subs[0].at, sub.at)])
  {
    var next, top := line(subs[0].at, sub.at), slots[|slots| - 1];
    var after := Write(line, f, sub.frame, sub.at);
    var all, marks := subs + [sub], slots + [next];
    assert Rising(marks);
    if next > top {
      SkippedSlotsAreEmpty(slots, next, next);
      assert next in marks;
    } else {
      EmptySlotsStay(slots, next, top + 1);
    }
    forall k | 0 <= k < |after.encoded|
      ensures SlotShown(after.encoded, all, marks, k)
    {
      if k <= top {
        assert after.encoded[k] == f.encoded[k] && SlotShown(f.encoded, subs, slots, k);
        var i :| Displays(f.encoded[k], subs, slots, k, i);
        ShowsStays(slots, next, k, i);
        assert Displays(after.encoded[k], all, marks, k, i);
      } else if k < next {
        assert Displays(after.encoded[k], all, marks, k, |subs| - 1);
      } else {
        assert Displays(after.encoded[k], all, marks, k, |subs|);
      }
    }
  }

  lemma NextIsFaithful<T>(line: Timeline, subs: seq<Submission<T>>, sub: Submission<T>)
    requires Orderly(line) && subs != [] && subs[|subs| - 1].at <= sub.at
    requires Faithful(Recorded(line, subs), subs, Slots(line, subs))
    ensures Faithful(Recorded(line, subs + [sub]), subs + [sub], Slots(line, subs + [sub]))
  {
    NextSlot(line, subs, sub);
    RecordedNext(line, subs, sub);
    NextWrite(line, Recorded(line, subs), subs, Slots(line, subs), sub);
  }

  lemma FirstIsFaithful<T>(line: Timeline, sub: Submission<T>)
    requires Orderly(line)
    ensures Faithful(Recorded(line, [sub]), [sub], Slots(line, [sub]))
  {
    FirstWrite(line, sub);
    assert [sub][..0] == [];
  }

  lemma {:induction false} PrefixIsFaithful<T>(line: Timeline, subs: seq<Submission<T>>, n: nat)
    requires Orderly(line) && 1 <= n <= |subs| && InOrder(subs)
    ensures Faithful(Recorded(line, subs[..n]), subs[..n], Slots(line, subs[..n]))
  {
    if n == 1 {
      FirstIsFaithful(line, subs[0]);
      assert subs[..1] == [subs[0]];
    } else {
      PrefixIsFaithful(line, subs, n - 1);
      NextIsFaithful(line, subs[..n - 1], subs[n - 1]);
      assert subs[..n] == subs[..n - 1] + [subs[n - 1]];
    }
  }

  /**
   After any submissions in order: the film has one frame for every slot up to the last submission's;
   each slot shows the first frame submitted in it or, when there is none, the latest submitted
   before it; and the duplicates are exactly the slots in which none was submitted.
   */
  lemma SampleAndHold<T>(line: Timeline, subs: seq<Submission<T>>)
    requires Orderly(line) && subs != [] && InOrder(subs)
    ensures Faithful(Recorded(line, subs), subs, Slots(line, subs))
  {
    PrefixIsFaithful(line, subs, |subs|);
    assert subs[..|subs|] == subs;
  }

  /** The same for the recorder's own timeline: its length is fixed by the wall clock alone. */
  lemma WallClockFilm<T>(fps: real, subs: seq<Submission<T>>)
    requires fps > 0.0 && subs != [] && InOrder(subs)
    ensures var f := Recorded(WallClock(fps), subs);
            && Faithful(f, subs, Slots(WallClock(fps), subs))
            && |f.encoded| == ((subs[|subs| - 1].at - subs[0].at) * fps + EPSILON).Floor + 1
  {
    WallClockIsOrderly(fps);
    SampleAndHold(WallClock(fps), subs);
  }

  lemma {:induction false} RecordedStarted<T>(line: Timeline, subs: seq<Submission<T>>)
    ensures Recorded(line, subs).started.Some? <==> subs != []
    ensures subs == [] ==> Recorded(line, subs).encoded == []
  {
    if subs != [] {
      RecordedStarted(line, subs[..|subs| - 1]);
    }
  }

  lemma RecordedNext<T>(line: Timeline, subs: seq<Submission<T>>, sub: Submission<T>)
    ensures Recorded(line, subs + [sub]) == Write(line, Recorded(line, subs), sub.frame, sub.at)
  {
    var all := subs + [sub];
    assert all[..|all| - 1] == subs && all[|all| - 1] == sub && all != [];
  }

  lemma InOrderNext<T>(subs: seq<Submission<T>>, sub: Submission<T>)
    requires InOrder(subs) && (subs != [] ==> subs[|subs| - 1].at <= sub.at)
    ensures InOrder(subs + [sub])
  {
  }

  // ---- the recorder object ----

  class WallClockVideoRecorder<T> {
    const fps: real
    const line: Timeline
    var output: seq<T> // what the writer was given
    var started: Option<real>
    var lastTimestamp: Option<real>
    var held: Option<T>
    var submittedFrames: nat
    var encodedFrames: nat
    var duplicatedFrames: nat
    var released: bool
    ghost var history: seq<Submission<T>>

    ghost function Abstract(): Film<T>
      reads this
    {
      Film(output, held, started, lastTimestamp, submittedFrames, duplicatedFrames)
    }

    ghost predicate Valid()
      reads this
    {
      && Orderly(line) && InOrder(history)
      && Abstract() == Recorded(line, history)
      && encodedFrames == |output|
      && (lastTimestamp.Some? <==> history != [])
      && (history != [] ==> lastTimestamp.value == history[|history| - 1].at)
    }

    constructor (fps: real)
      requires fps > 0.0
      ensures Valid() && history == [] && !released && this.fps == fps && line == WallClock(fps)
    {
      WallClockIsOrderly(fps);
      this.fps, line := fps, WallClock(fps);
      output, started, lastTimestamp, held := [], None, None, None;
      submittedFrames, encodedFrames, duplicatedFrames, released := 0, 0, 0, false;
      history := [];
    }

    method WriteHeld(count: nat)
      requires held.Some?
      modifies `output, `encodedFrames, `duplicatedFrames
      ensures output == old(output) + Copies(held.value, count)
      ensures encodedFrames == old(encodedFrames) + count && duplicatedFrames == old(duplicatedFrames) + count
    {
      assert output + [] == output;
      for i := 0 to count
        invariant output == old(output) + Copies(held.value, i)
        invariant encodedFrames == old(encodedFrames) + i && duplicatedFrames == old(duplicatedFrames) + i
      {
        output := output + [held.value];
        encodedFrames := encodedFrames + 1;
        duplicatedFrames := duplicatedFrames + 1;
      }
    }

    /** Fill the slots up to the moment: the held frame in the missed ones, the new one in its own. */
    method FillSlots(frame: T, now: real)
      requires encodedFrames == |output| && (started.Some? ==> held.Some?)
      requires started.None? ==> output == []
      modifies `output, `encodedFrames, `duplicatedFrames, `started
      ensures encodedFrames == |output|
      ensures Abstract().(held := Some(frame), last := Some(now), submitted := submittedFrames + 1) ==
              Write(line, old(Abstract()), frame, now)
    {
      if started.None? {
        output := output + [frame];
        started := Some(now);
        encodedFrames := 1;
      } else {
        var missing := line(started.value, now) + 1 - encodedFrames;
        if missing > 0 {
          WriteHeld(missing - 1);
          assert output + [frame] == old(output) + (Copies(held.value, missing - 1) + [frame]);
          output := output + [frame];
          encodedFrames := encodedFrames + 1;
        } else {
          assert output + [] == output;
        }
      }
    }

    method Submit(frame: T, now: real)
      requires Valid() && (lastTimestamp.Some? ==> lastTimestamp.value <= now)
      modifies `output, `started, `lastTimestamp, `held, `submittedFrames, `encodedFrames, `duplicatedFrames, `history
      ensures Valid() && history == old(history) + [Submission(frame, now)]
    {
      RecordedNext(line, history, Submission(frame, now));
      InOrderNext(history, Submission(frame, now));
      RecordedStarted(line, history);
      FillSlots(frame, now);
      held := Some(frame);
      lastTimestamp := Some(now);
      submittedFrames := submittedFrames + 1;
      assert Abstract() == Write(line, old(Abstract()), frame, now);
      history := history + [Submission(frame, now)];
    }

    method WriteFrame(frame: T, timestamp: Option<real>) returns (error: Option<RecorderError>)
      requires Valid()
      modifies this
      ensures Valid() && released == old(released)
      ensures error == if old(released) then Some(Released)
                       else if timestamp.None? then Some(NotFinite)
                       else if old(lastTimestamp).Some? && timestamp.value < old(lastTimestamp).value
                       then Some(MovedBackwards)
                       else None
      ensures error.Some? ==> history == old(history)
      ensures error.None? ==> history == old(history) + [Submission(frame, timestamp.value)]
    {
      if released {
        return Some(Released);
      }
      if timestamp.None? {
        return Some(NotFinite);
      }
      var now := timestamp.value;
      if lastTimestamp.Some? && now < lastTimestamp.value {
        return Some(MovedBackwards);
      }
      Submit(frame, now);
      error := None;
    }

    method Release()
      modifies `released
      ensures released
    {
      released := true;
    }
  }
}
