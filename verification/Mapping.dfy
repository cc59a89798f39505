/**
 The host's linear map between logical angles and the whole degrees sent to the servos, under the
 settings that configuration loading accepts.
 */
module Mapping {
  import opened Wire

  datatype Axis = Axis(
    direction: int,
    offset: real,
    logicalMin: real, logicalMax: real,
    physicalMin: Degree, physicalMax: Degree,
    initial: real,
    neutral: Degree)

  /** Rounding to the nearest whole number, ties away from zero. */
  function RoundHalfAway(value: real): int {
    if value >= 0.0 then (value + 0.5).Floor else -((0.5 - value).Floor)
  }

  function Mapped(axis: Axis, logical: real): real {
    axis.direction as real * logical + axis.offset
  }

  lemma MappedIs(axis: Axis, logical: real)
    requires axis.direction == 1 || axis.direction == -1
    ensures Mapped(axis, logical) == if axis.direction == 1 then logical + axis.offset else axis.offset - logical
  {
    if axis.direction == 1 {
      assert axis.direction as real * logical == logical;
    } else {
      assert axis.direction as real * logical == -logical;
    }
  }

  function Map(axis: Axis, logical: real): int {
    RoundHalfAway(Mapped(axis, logical))
  }

  function Unmap(axis: Axis, physical: int): real
    requires axis.direction != 0
  {
    (physical as real - axis.offset) / axis.direction as real
  }

  predicate InLogical(axis: Axis, logical: real) {
    axis.logicalMin <= logical <= axis.logicalMax
  }

  predicate InPhysical(axis: Axis, physical: int) {
    axis.physicalMin <= physical <= axis.physicalMax
  }

  function Abs(x: real): real {
    if x < 0.0 then -x else x
  }

  /** What loading the configuration checks of one axis. */
  predicate ValidAxis(axis: Axis) {
    && (axis.direction == 1 || axis.direction == -1)
    && axis.logicalMin < axis.logicalMax
    && axis.physicalMin < axis.physicalMax
    && InLogical(axis, axis.initial)
    && InPhysical(axis, axis.neutral)
    && axis.physicalMin as real <= Mapped(axis, axis.logicalMin) <= axis.physicalMax as real
    && axis.physicalMin as real <= Mapped(axis, axis.logicalMax) <= axis.physicalMax as real
    && Abs(Mapped(axis, axis.initial) - axis.neutral as real) <= 0.000000001
  }

  /** No whole number is nearer, and of two equally near the one further from zero is taken. */
  lemma RoundIsNearest(value: real, k: int)
    ensures Abs(value - RoundHalfAway(value) as real) <= Abs(value - k as real)
    ensures Abs(value - RoundHalfAway(value) as real) == Abs(value - k as real) ==>
              Abs(k as real) <= Abs(RoundHalfAway(value) as real)
  {
    var r := RoundHalfAway(value);
    if k < r {
      assert k as real <= r as real - 1.0;
    } else if k > r {
      assert k as real >= r as real + 1.0;
    }
  }

  lemma RoundKeepsOrder(a: real, b: real)
    requires a <= b
    ensures RoundHalfAway(a) <= RoundHalfAway(b)
  {
  }

  lemma RoundOfWhole(k: int)
    ensures RoundHalfAway(k as real) == k
  {
  }

  /** A status or acknowledgement can be shown as a logical angle and set again unchanged. */
  lemma MapUndoesUnmap(axis: Axis, physical: int)
    requires axis.direction == 1 || axis.direction == -1
    ensures Map(axis, Unmap(axis, physical)) == physical
  {
    assert Mapped(axis, Unmap(axis, physical)) == physical as real;
    RoundOfWhole(physical);
  }

  lemma MappedBetween(axis: Axis, logical: real)
    requires ValidAxis(axis) && InLogical(axis, logical)
    ensures axis.physicalMin as real <= Mapped(axis, logical) <= axis.physicalMax as real
  {
    MappedIs(axis, logical);
    MappedIs(axis, axis.logicalMin);
    MappedIs(axis, axis.logicalMax);
  }

  /** The physical-limit check before a SET never fails for a command within the logical limits. */
  lemma MapStaysPhysical(axis: Axis, logical: real)
    requires ValidAxis(axis) && InLogical(axis, logical)
    ensures InPhysical(axis, Map(axis, logical))
  {
    MappedBetween(axis, logical);
    RoundKeepsOrder(axis.physicalMin as real, Mapped(axis, logical));
    RoundKeepsOrder(Mapped(axis, logical), axis.physicalMax as real);
    RoundOfWhole(axis.physicalMin);
    RoundOfWhole(axis.physicalMax);
  }

  lemma InitialMapsToNeutral(axis: Axis)
    requires ValidAxis(axis)
    ensures Map(axis, axis.initial) == axis.neutral
  {
    var x := Mapped(axis, axis.initial);
    MappedBetween(axis, axis.initial);
    assert (x + 0.5).Floor == axis.neutral;
  }

  function Ceil(x: real): int {
    -((-x).Floor)
  }

  /** Two logical angles at most `step` apart are sent as degrees at most its ceiling apart. */
  lemma MapStep(axis: Axis, a: real, b: real, step: real)
    requires ValidAxis(axis) && InLogical(axis, a) && InLogical(axis, b)
    requires Abs(a - b) <= step
    ensures -Ceil(step) <= Map(axis, a) - Map(axis, b) <= Ceil(step)
  {
    MappedBetween(axis, a);
    MappedBetween(axis, b);
    MappedIs(axis, a);
    MappedIs(axis, b);
    RoundStep(Mapped(axis, a), Mapped(axis, b), step);
    RoundStep(Mapped(axis, b), Mapped(axis, a), step);
  }

  lemma RoundStep(x: real, y: real, step: real)
    requires 0.0 <= x && 0.0 <= y && x - y <= step
    ensures RoundHalfAway(x) - RoundHalfAway(y) <= Ceil(step)
  {
    assert step <= Ceil(step) as real;
    assert x + 0.5 < (y + 0.5).Floor as real + 1.0 + Ceil(step) as real;
  }

  // ---- showing a confirmed pose ----

  function MappedLow(axis: Axis): real {
    if axis.direction == 1 then Mapped(axis, axis.logicalMin) else Mapped(axis, axis.logicalMax)
  }

  function MappedHigh(axis: Axis): real {
    if axis.direction == 1 then Mapped(axis, axis.logicalMax) else Mapped(axis, axis.logicalMin)
  }

  lemma ShownInLogical(axis: Axis, physical: int)
    requires ValidAxis(axis)
    ensures InLogical(axis, Unmap(axis, physical)) <==> MappedLow(axis) <= physical as real <= MappedHigh(axis)
  {
    if axis.direction == 1 {
      assert Unmap(axis, physical) == physical as real - axis.offset;
    } else {
      assert Unmap(axis, physical) == axis.offset - physical as real;
    }
  }

  lemma ShownExactly(axis: Axis, logical: real)
    requires ValidAxis(axis)
    ensures InLogical(axis, Unmap(axis, Map(axis, logical))) <==>
            MappedLow(axis) <= RoundHalfAway(Mapped(axis, logical)) as real <= MappedHigh(axis)
  {
    ShownInLogical(axis, Map(axis, logical));
  }

  lemma LimitsBracket(axis: Axis, logical: real)
    requires ValidAxis(axis) && InLogical(axis, logical)
    ensures RoundHalfAway(MappedLow(axis)) <= RoundHalfAway(Mapped(axis, logical)) <= RoundHalfAway(MappedHigh(axis))
  {
    MappedInOrder(axis, logical);
    RoundKeepsOrder(MappedLow(axis), Mapped(axis, logical));
    RoundKeepsOrder(Mapped(axis, logical), MappedHigh(axis));
  }

  lemma MappedInOrder(axis: Axis, logical: real)
    requires ValidAxis(axis) && InLogical(axis, logical)
    ensures MappedLow(axis) <= Mapped(axis, logical) <= MappedHigh(axis)
  {
    MappedIs(axis, logical);
    MappedIs(axis, axis.logicalMin);
    MappedIs(axis, axis.logicalMax);
  }

  /** The accepted target's pose can be shown again as a logical angle. */
  predicate Showable(axis: Axis, logical: real)
    requires axis.direction != 0
  {
    InLogical(axis, Unmap(axis, Map(axis, logical)))
  }

  /**
   Rounding at the ends can leave the logical range: every SET the host accepts leads to a pose
   that a later STATUS or DISABLE accepts if and only if neither mapped limit is rounded outwards.
   */
  lemma SetPosesAreShowable(axis: Axis)
    requires ValidAxis(axis)
    ensures (forall logical :: InLogical(axis, logical) ==> Showable(axis, logical)) <==>
            (MappedLow(axis) <= RoundHalfAway(MappedLow(axis)) as real
             && RoundHalfAway(MappedHigh(axis)) as real <= MappedHigh(axis))
  {
    var inward := MappedLow(axis) <= RoundHalfAway(MappedLow(axis)) as real
                  && RoundHalfAway(MappedHigh(axis)) as real <= MappedHigh(axis);
    ShownExactly(axis, axis.logicalMin);
    ShownExactly(axis, axis.logicalMax);
    assert Showable(axis, axis.logicalMin) && Showable(axis, axis.logicalMax) ==> inward;
    if inward {
      forall logical | InLogical(axis, logical)
        ensures Showable(axis, logical)
      {
        LimitsBracket(axis, logical);
        ShownExactly(axis, logical);
      }
    }
  }

  /** A range from 10.4 to 90 degrees: the accepted target 10.4 is sent as 10 and cannot be shown. */
  lemma UnshowablePoseExample()
    ensures var axis := Axis(1, 0.0, 10.4, 90.0, 0, 180, 45.0, 45);
            && ValidAxis(axis) && InLogical(axis, 10.4) && Map(axis, 10.4) == 10
            && !InLogical(axis, Unmap(axis, Map(axis, 10.4)))
  {
    assert (10.9).Floor == 10;
  }
}
