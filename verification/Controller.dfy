/** The rate-limited proportional controller, and the whole degrees its commands are sent as. */
module Controller {
  import opened Common
  import opened Mapping
  import opened Wire

  datatype Tuning = Tuning(deadband: real, gain: real, maxStep: real, returnToNeutral: bool)

  predicate ValidTuning(t: Tuning) {
    t.deadband >= 0.0 && t.gain >= 0.0 && t.maxStep > 0.0
  }

  /** One axis of one decision: how far the target is off centre in the frame, or that it is lost. */
  datatype Sighting = Lost | Seen(error: real, extent: nat)

  function Clamp(value: real, minimum: real, maximum: real): real {
    var raised := if value > minimum then value else minimum;
    if raised < maximum then raised else maximum
  }

  function Correction(t: Tuning, error: real, extent: nat): real
    requires extent > 0
  {
    if Abs(error) <= t.deadband then 0.0
    else Clamp(error / (extent as real / 2.0) * t.gain, -t.maxStep, t.maxStep)
  }

  function Approach(t: Tuning, current: real, target: real): real {
    current + Clamp(target - current, -t.maxStep, t.maxStep)
  }

  predicate ValidSighting(s: Sighting) {
    s.Seen? ==> s.extent > 0
  }

  /** The next logical angle of one axis. */
  function Next(t: Tuning, axis: Axis, angle: real, s: Sighting): real
    requires ValidSighting(s)
  {
    var wanted :=
      match s
      case Seen(error, extent) => angle + Correction(t, error, extent)
      case Lost => if t.returnToNeutral then Approach(t, angle, axis.initial) else angle;
    Clamp(wanted, axis.logicalMin, axis.logicalMax)
  }

  function After(t: Tuning, axis: Axis, sightings: seq<Sighting>, n: nat): real
    requires n <= |sightings| && forall i :: 0 <= i < |sightings| ==> ValidSighting(sightings[i])
  {
    if n == 0 then axis.initial else Next(t, axis, After(t, axis, sightings, n - 1), sightings[n - 1])
  }

  // ---- one step ----

  /** A correction points from the centre towards the target, and vanishes exactly in the deadband or without gain. */
  lemma CorrectionDirection(t: Tuning, error: real, extent: nat)
    requires ValidTuning(t) && extent > 0
    ensures var step := Correction(t, error, extent);
            && -t.maxStep <= step <= t.maxStep
            && (step > 0.0 <==> error > t.deadband && t.gain > 0.0)
            && (step < 0.0 <==> error < -t.deadband && t.gain > 0.0)
  {
    var ratio := error / (extent as real / 2.0);
    assert ratio * (extent as real / 2.0) == error;
    if error > 0.0 {
      assert ratio > 0.0;
      ProductSign(ratio, t.gain);
    } else if error < 0.0 {
      assert -ratio > 0.0;
      ProductSign(-ratio, t.gain);
      assert (-ratio) * t.gain == -(ratio * t.gain);
    }
  }

  lemma ProductSign(x: real, y: real)
    requires x > 0.0 && y >= 0.0
    ensures x * y >= 0.0 && (x * y > 0.0 <==> y > 0.0)
  {
    if y == 0.0 {
      assert x * y == 0.0;
    }
  }

  lemma ClampNearby(value: real, from: real, minimum: real, maximum: real, step: real)
    requires minimum <= from <= maximum && Abs(value - from) <= step
    ensures minimum <= Clamp(value, minimum, maximum) <= maximum
    ensures Abs(Clamp(value, minimum, maximum) - from) <= step
  {
  }

  /** One step stays in the limits and moves by no more than the step limit. */
  lemma NextIsBounded(t: Tuning, axis: Axis, angle: real, s: Sighting)
    requires ValidTuning(t) && ValidAxis(axis) && InLogical(axis, angle) && ValidSighting(s)
    ensures InLogical(axis, Next(t, axis, angle, s)) && Abs(Next(t, axis, angle, s) - angle) <= t.maxStep
  {
    match s
    case Seen(error, extent) =>
      CorrectionDirection(t, error, extent);
      ClampNearby(angle + Correction(t, error, extent), angle, axis.logicalMin, axis.logicalMax, t.maxStep);
    case Lost =>
      ClampNearby(Approach(t, angle, axis.initial), angle, axis.logicalMin, axis.logicalMax, t.maxStep);
      ClampNearby(angle, angle, axis.logicalMin, axis.logicalMax, t.maxStep);
  }

  // ---- whole runs ----

  lemma {:induction false} StaysInLimits(t: Tuning, axis: Axis, sightings: seq<Sighting>, n: nat)
    requires ValidTuning(t) && ValidAxis(axis) && n <= |sightings|
    requires forall i :: 0 <= i < |sightings| ==> ValidSighting(sightings[i])
    ensures InLogical(axis, After(t, axis, sightings, n))
  {
    if n > 0 {
      StaysInLimits(t, axis, sightings, n - 1);
      NextIsBounded(t, axis, After(t, axis, sightings, n - 1), sightings[n - 1]);
    }
  }

  /**
   For every sequence of sightings and losses: every command lies within the logical limits, what
   is sent is a whole degree within the physical limits, and successive SETs, the first against the
   neutral position, differ by at most the step limit rounded up.
   */
  lemma MotionIsBounded(t: Tuning, axis: Axis, sightings: seq<Sighting>, n: nat)
    requires ValidTuning(t) && ValidAxis(axis) && 0 < n <= |sightings|
    requires forall i :: 0 <= i < |sightings| ==> ValidSighting(sightings[i])
    ensures InLogical(axis, After(t, axis, sightings, n))
    ensures InPhysical(axis, Map(axis, After(t, axis, sightings, n)))
    ensures var previous := if n == 1 then axis.neutral else Map(axis, After(t, axis, sightings, n - 1));
            -Ceil(t.maxStep) <= Map(axis, After(t, axis, sightings, n)) - previous <= Ceil(t.maxStep)
  {
    StaysInLimits(t, axis, sightings, n);
    StaysInLimits(t, axis, sightings, n - 1);
    var before, now := After(t, axis, sightings, n - 1), After(t, axis, sightings, n);
    NextIsBounded(t, axis, before, sightings[n - 1]);
    MapStaysPhysical(axis, now);
    MapStep(axis, now, before, t.maxStep);
    InitialMapsToNeutral(axis);
  }

  /** How far an angle is from neutral after `n` lost frames in a row. */
  function Remaining(distance: real, step: real, n: nat): real {
    if distance <= n as real * step then 0.0 else distance - n as real * step
  }

  function AfterLost(t: Tuning, axis: Axis, angle: real, n: nat): real {
    if n == 0 then angle else Next(t, axis, AfterLost(t, axis, angle, n - 1), Lost)
  }

  lemma LostStep(t: Tuning, axis: Axis, angle: real)
    requires ValidTuning(t) && t.returnToNeutral && ValidAxis(axis) && InLogical(axis, angle)
    ensures var next := Next(t, axis, angle, Lost);
            if angle >= axis.initial
            then next == axis.initial + Remaining(angle - axis.initial, t.maxStep, 1)
            else next == axis.initial - Remaining(axis.initial - angle, t.maxStep, 1)
  {
    assert 1 as real * t.maxStep == t.maxStep;
  }

  lemma RemainingStep(distance: real, step: real, n: nat)
    requires distance >= 0.0 && step > 0.0
    ensures Remaining(Remaining(distance, step, n), step, 1) == Remaining(distance, step, n + 1)
    ensures 0.0 <= Remaining(distance, step, n) <= distance
  {
    assert (n + 1) as real * step == n as real * step + step;
    assert n as real * step >= 0.0;
    assert 1 as real * step == step;
  }

  /** Losing the target moves straight to neutral, a full step a frame, and stays there. */
  lemma {:induction false} LostReturnsToNeutral(t: Tuning, axis: Axis, angle: real, n: nat)
    requires ValidTuning(t) && t.returnToNeutral && ValidAxis(axis) && InLogical(axis, angle)
    ensures AfterLost(t, axis, angle, n) ==
            if angle >= axis.initial then axis.initial + Remaining(angle - axis.initial, t.maxStep, n)
            else axis.initial - Remaining(axis.initial - angle, t.maxStep, n)
  {
    if n == 0 {
      assert 0 as real * t.maxStep == 0.0;
    } else {
      LostReturnsToNeutral(t, axis, angle, n - 1);
      RemainingStep(Abs(angle - axis.initial), t.maxStep, n - 1);
      LostStep(t, axis, AfterLost(t, axis, angle, n - 1));
    }
  }

  // ---- the controller object ----

  datatype Command = Command(pan: real, tilt: real, sequence: int)

  datatype BadFrame = BadFrame

  class ProportionalPTZController {
    const tuning: Tuning
    const panAxis: Axis
    const tiltAxis: Axis
    var pan: real
    var tilt: real

    ghost predicate Valid()
      reads this
    {
      && ValidTuning(tuning) && ValidAxis(panAxis) && ValidAxis(tiltAxis)
      && InLogical(panAxis, pan) && InLogical(tiltAxis, tilt)
    }

    constructor (tuning: Tuning, panAxis: Axis, tiltAxis: Axis)
      requires ValidTuning(tuning) && ValidAxis(panAxis) && ValidAxis(tiltAxis)
      ensures Valid() && this.tuning == tuning && this.panAxis == panAxis && this.tiltAxis == tiltAxis
      ensures pan == panAxis.initial && tilt == tiltAxis.initial
    {
      this.tuning, this.panAxis, this.tiltAxis := tuning, panAxis, tiltAxis;
      pan, tilt := panAxis.initial, tiltAxis.initial;
    }

    /** The command for a finite target centre, or for none. A frame without extent is refused for a visible target. */
    method CommandForTarget(width: int, height: int, sequence: int, center: Option<(real, real)>)
      returns (r: Result<Command, BadFrame>)
      requires Valid()
      modifies `pan, `tilt
      ensures Valid()
      ensures r.Err? <==> center.Some? && (width <= 0 || height <= 0)
      ensures r.Err? ==> unchanged(`pan, `tilt)
      ensures r.Ok? ==> r.value == Command(pan, tilt, sequence)
      ensures r.Ok? ==>
                var (panSighting, tiltSighting) :=
                  if center.None? then (Lost, Lost)
                  else (Seen(center.value.0 - width as real / 2.0, width),
                        Seen(center.value.1 - height as real / 2.0, height));
                && pan == Next(tuning, panAxis, old(pan), panSighting)
                && tilt == Next(tuning, tiltAxis, old(tilt), tiltSighting)
    {
      if center.None? {
        NextIsBounded(tuning, panAxis, pan, Lost);
        NextIsBounded(tuning, tiltAxis, tilt, Lost);
        if tuning.returnToNeutral {
          pan, tilt := Approach(tuning, pan, panAxis.initial), Approach(tuning, tilt, tiltAxis.initial);
        }
      } else {
        if width <= 0 || height <= 0 {
          return Err(BadFrame);
        }
        var errorX, errorY := center.value.0 - width as real / 2.0, center.value.1 - height as real / 2.0;
        NextIsBounded(tuning, panAxis, pan, Seen(errorX, width));
        NextIsBounded(tuning, tiltAxis, tilt, Seen(errorY, height));
        pan, tilt := pan + Correction(tuning, errorX, width), tilt + Correction(tuning, errorY, height);
      }
      pan := Clamp(pan, panAxis.logicalMin, panAxis.logicalMax);
      tilt := Clamp(tilt, tiltAxis.logicalMin, tiltAxis.logicalMax);
      r := Ok(Command(pan, tilt, sequence));
    }
  }
}
