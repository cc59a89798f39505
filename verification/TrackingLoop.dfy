/** From sightings to the servos: every command of the controller applied through the host's actuator. */
module TrackingLoop {
  import opened Actuator
  import opened Common
  import opened Controller
  import opened Link
  import opened Mapping

  datatype Observation = Observation(width: int, height: int, sequence: int, center: Option<(real, real)>)

  /** The controller's angles in whole degrees. */
  ghost function Wanted(controller: ProportionalPTZController): (int, int)
    reads controller
  {
    (Map(controller.panAxis, controller.pan), Map(controller.tiltAxis, controller.tilt))
  }

  /** Two poses no further apart on either axis than the step limit rounded up. */
  predicate WithinStep(tuning: Tuning, a: (int, int), b: (int, int)) {
    var limit := Ceil(tuning.maxStep);
    -limit <= b.0 - a.0 <= limit && -limit <= b.1 - a.1 <= limit
  }

  /** Between two confirmed commands in a row, the firmware's pose moves by no more than the step limit. */
  ghost predicate Smooth(tuning: Tuning, failures: seq<Option<Failure>>, poses: seq<(int, int)>)
    requires |failures| == |poses|
  {
    forall k :: 0 < k < |failures| && failures[k - 1].None? && failures[k].None? ==>
      WithinStep(tuning, poses[k - 1], poses[k])
  }

  lemma SmoothNext(tuning: Tuning, failures: seq<Option<Failure>>, poses: seq<(int, int)>,
                   failure: Option<Failure>, pose: (int, int))
    requires |failures| == |poses| && Smooth(tuning, failures, poses)
    requires failures != [] && failures[|failures| - 1].None? && failure.None? ==>
               WithinStep(tuning, poses[|poses| - 1], pose)
    ensures Smooth(tuning, failures + [failure], poses + [pose])
  {
  }

  /** One decision and, unless it is refused, its command. */
  method Follow(host: ArduinoSerialActuator, controller: ProportionalPTZController, seen: Observation)
    returns (commanded: bool, failure: Option<Failure>)
    requires host.Valid() && controller.Valid()
    requires controller.panAxis == host.pan && controller.tiltAxis == host.tilt
    modifies host, host.link, controller
    ensures host.Valid() && controller.Valid() && failure != Some(InvalidTarget)
    ensures old(host.Agrees()) && (host.retries == 0 || host.link.Swift()) ==> host.Agrees()
    ensures !commanded ==> failure.None? && unchanged(host) && unchanged(host.link) && unchanged(controller)
    ensures commanded && failure.None? ==> Pose(host.link.net.fw) == host.HostPose() == Wanted(controller)
    ensures WithinStep(controller.tuning, old(Wanted(controller)), Wanted(controller))
  {
    ghost var pan, tilt := controller.pan, controller.tilt;
    var command := controller.CommandForTarget(seen.width, seen.height, seen.sequence, seen.center);
    commanded, failure := command.Ok?, None;
    if command.Ok? {
      ghost var (x, y) :=
        if seen.center.Some? then (Some(seen.center.value.0), Some(seen.center.value.1)) else (None, None);
      StepOnWire(controller.tuning, controller.panAxis, pan, SightingOf(seen.width, x));
      StepOnWire(controller.tuning, controller.tiltAxis, tilt, SightingOf(seen.height, y));
      failure := host.Apply(command.value.pan, command.value.tilt);
    }
  }

  function SightingOf(extent: int, coordinate: Option<real>): Sighting {
    if coordinate.None? || extent <= 0 then Lost else Seen(coordinate.value - extent as real / 2.0, extent)
  }

  lemma StepOnWire(tuning: Tuning, axis: Axis, angle: real, s: Sighting)
    requires ValidTuning(tuning) && ValidAxis(axis) && InLogical(axis, angle) && ValidSighting(s)
    ensures var limit := Ceil(tuning.maxStep);
            -limit <= Map(axis, Next(tuning, axis, angle, s)) - Map(axis, angle) <= limit
  {
    NextIsBounded(tuning, axis, angle, s);
    MapStep(axis, Next(tuning, axis, angle, s), angle, tuning.maxStep);
  }

  /**
   For any targets and losses, over any link: no command is ever refused by the host for its angles,
   whenever one is confirmed the firmware holds exactly that command's angles in whole degrees, and
   between two confirmed in a row it moves no further on either axis than the step limit rounded up.
   */
  method Track(host: ArduinoSerialActuator, controller: ProportionalPTZController, observations: seq<Observation>)
    returns (failures: seq<Option<Failure>>, poses: seq<(int, int)>)
    requires host.Valid() && host.Agrees() && controller.Valid()
    requires controller.panAxis == host.pan && controller.tiltAxis == host.tilt
    modifies host, host.link, controller
    ensures host.Valid() && controller.Valid()
    ensures host.retries == 0 || host.link.Swift() ==> host.Agrees()
    ensures Some(InvalidTarget) !in failures
    ensures failures != [] && failures[|failures| - 1].None? ==>
              Pose(host.link.net.fw) == host.HostPose() == Wanted(controller)
    ensures |failures| == |poses| && Smooth(controller.tuning, failures, poses)
  {
    failures, poses := [], [];
    for k := 0 to |observations|
      invariant host.Valid() && controller.Valid()
      invariant host.retries == 0 || host.link.Swift() ==> host.Agrees()
      invariant Some(InvalidTarget) !in failures
      invariant |failures| == |poses| && Smooth(controller.tuning, failures, poses)
      invariant failures != [] && failures[|failures| - 1].None? ==>
                  Pose(host.link.net.fw) == host.HostPose() == Wanted(controller) == poses[|poses| - 1]
    {
      var commanded, failure := Follow(host, controller, observations[k]);
      if commanded {
        SmoothNext(controller.tuning, failures, poses, failure, Pose(host.link.net.fw));
        failures := failures + [failure];
        poses := poses + [Pose(host.link.net.fw)];
      }
    }
  }
}
