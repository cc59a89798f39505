/**
 The target selector. In tracked mode it confirms an identity over consecutive frames, locks it,
 and keeps it through short occlusions. A clock reading is None when it is not a finite number.
 */
module Selector {
  import opened Common
  import opened Ranking

  datatype Config = Config(
    classes: set<string>,
    tracked: bool, // "botsort" rather than "none"
    acquisition: real,
    support: real,
    minimumHits: nat,
    maximumAge: real)

  predicate ValidConfig(cfg: Config) {
    && cfg.classes != {}
    && 0.0 <= cfg.support <= 1.0 && 0.0 <= cfg.acquisition <= 1.0
    && (cfg.tracked ==> cfg.support <= cfg.acquisition)
    && cfg.minimumHits > 0
    && cfg.maximumAge > 0.0
  }

  datatype Target = Target(detection: Detection, frameSequence: int)

  datatype Phase = Nothing | Acquiring | Locked | Occluded

  datatype Status = Status(
    activeTracks: nat,
    lockedTrack: Option<nat>,
    phase: Phase,
    hits: nat,
    confidence: Option<real>,
    unsupportedAge: Option<real>)

  datatype State = State(
    pending: Option<nat>,
    hits: nat,
    locked: Option<nat>,
    lastSupported: Option<real>,
    lastObserved: Option<real>,
    lastSequence: Option<int>,
    cached: Option<Target>,
    status: Status)

  datatype ClockFailure = ClockFailure

  const IDLE := Status(0, None, Nothing, 0, None, None)
  const INITIAL := State(None, 0, None, None, None, None, None, IDLE)

  // ---- what a frame offers ----

  predicate IsCandidate(cfg: Config, d: Detection) {
    ValidDetection(d) && d.category in cfg.classes
  }

  predicate IsTracked(cfg: Config, d: Detection) {
    IsCandidate(cfg, d) && d.trackId.Some? && d.confidence >= cfg.support
  }

  predicate Supports(cfg: Config, d: Detection, track: nat) {
    IsTracked(cfg, d) && d.trackId == Some(track)
  }

  predicate Acquirable(cfg: Config, d: Detection) {
    IsTracked(cfg, d) && d.confidence >= cfg.acquisition
  }

  function Filter(detections: seq<Detection>, keep: Detection -> bool): (kept: seq<Detection>)
    ensures forall d :: d in kept <==> d in detections && keep(d)
  {
    if detections == [] then []
    else
      var front, last := detections[..|detections| - 1], detections[|detections| - 1];
      assert detections == front + [last];
      Filter(front, keep) + if keep(last) then [last] else []
  }

  function Candidate(cfg: Config): Detection -> bool {
    d => IsCandidate(cfg, d)
  }

  function Tracked(cfg: Config): Detection -> bool {
    d => IsTracked(cfg, d)
  }

  function SupportFor(cfg: Config, track: nat): Detection -> bool {
    d => Supports(cfg, d, track)
  }

  function GoodEnough(cfg: Config): Detection -> bool {
    d => Acquirable(cfg, d)
  }

  lemma {:induction false} FilterTwice(detections: seq<Detection>, first: Detection -> bool,
                                       second: Detection -> bool, both: Detection -> bool)
    requires forall d :: both(d) <==> first(d) && second(d)
    ensures Filter(Filter(detections, first), second) == Filter(detections, both)
  {
    if detections != [] {
      var front, last := detections[..|detections| - 1], detections[|detections| - 1];
      FilterTwice(front, first, second, both);
      var kept := Filter(front, first);
      if first(last) {
        assert (kept + [last])[..|kept|] == kept;
      } else {
        assert kept + [] == kept;
      }
    }
  }

  function Supporting(cfg: Config, frame: Frame, detections: seq<Detection>, track: nat): (best: Option<Detection>)
    ensures best.Some? ==> best.value in detections && Supports(cfg, best.value, track)
    ensures best.None? ==> forall d :: d in detections ==> !Supports(cfg, d, track)
  {
    Best(frame, Filter(detections, SupportFor(cfg, track)))
  }

  /** The detection that ranks first among those good enough to start a lock. */
  function FirstAcquirable(cfg: Config, frame: Frame, detections: seq<Detection>): (best: Option<Detection>)
    ensures best.Some? ==> best.value in detections && Acquirable(cfg, best.value)
    ensures best.None? ==> forall d :: d in detections ==> !Acquirable(cfg, d)
  {
    Best(frame, Filter(detections, GoodEnough(cfg)))
  }

  function Tracks(cfg: Config, detections: seq<Detection>): set<nat> {
    set d | d in detections && IsTracked(cfg, d) :: d.trackId.value
  }

  /** The identities carried by detections that passed the tracking filter. */
  function TrackIds(tracked: seq<Detection>): set<nat> {
    set d | d in tracked && d.trackId.Some? :: d.trackId.value
  }

  lemma TracksOf(cfg: Config, detections: seq<Detection>)
    ensures TrackIds(Filter(detections, Tracked(cfg))) == Tracks(cfg, detections)
  {
    var tracked := Filter(detections, Tracked(cfg));
    assert forall d :: d in tracked <==> d in detections && IsTracked(cfg, d);
  }

  // ---- one call ----

  function ReleaseLock(s: State): State {
    s.(pending := None, hits := 0, locked := None, lastSupported := None)
  }

  function Age(cfg: Config, s: State, now: real): real {
    if s.lastSupported.None? then cfg.maximumAge + 1.0 else NonNegative(now - s.lastSupported.value)
  }

  /** Asking again for the frame last processed. */
  function SelectRepeated(cfg: Config, s: State, clock: Option<real>): (State, Result<Option<Target>, ClockFailure>) {
    if s.locked.None? then (s, Ok(s.cached))
    else
      match clock
      case None => (ReleaseLock(s), Err(ClockFailure))
      case Some(now) =>
        if s.lastObserved.Some? && now < s.lastObserved.value then (INITIAL, Ok(None))
        else if Age(cfg, s, now) > cfg.maximumAge then
          (ReleaseLock(s).(cached := None, status := IDLE.(activeTracks := s.status.activeTracks)), Ok(None))
        else
          (s.(status := s.status.(lockedTrack := s.locked, hits := s.hits, unsupportedAge := Some(Age(cfg, s, now)))),
           Ok(s.cached))
  }

  function LockedOn(s: State, active: nat, track: nat, d: Detection, frame: Frame, now: real): (State, Option<Target>) {
    var target := Target(d, frame.sequence);
    (s.(locked := Some(track), lastSupported := Some(now), cached := Some(target),
        status := Status(active, Some(track), Locked, s.hits, Some(d.confidence), Some(0.0))),
     Some(target))
  }

  /** Looking for a new identity, with no lock held; `best` is the detection that nominates one. */
  function Acquire(cfg: Config, s: State, best: Option<Detection>, active: nat, frame: Frame, now: real):
    (State, Option<Target>)
    requires best.Some? ==> best.value.trackId.Some?
  {
    match best
    case None => (s.(pending := None, hits := 0, cached := None, status := IDLE.(activeTracks := active)), None)
    case Some(d) =>
      var hits := if d.trackId == s.pending then s.hits + 1 else 1;
      var counted := s.(pending := d.trackId, hits := hits);
      if hits < cfg.minimumHits then
        (counted.(cached := None, status := Status(active, None, Acquiring, hits, None, None)), None)
      else LockedOn(counted, active, d.trackId.value, d, frame, now)
  }

  /** A frame not seen before; `support` is the detection that supports the held lock. */
  function Weigh(cfg: Config, s: State, support: Option<Detection>, best: Option<Detection>,
                 active: nat, frame: Frame, now: real):
    (State, Option<Target>)
    requires best.Some? ==> best.value.trackId.Some?
  {
    var seen := s.(lastObserved := Some(now), lastSequence := Some(frame.sequence));
    if seen.locked.None? then Acquire(cfg, seen, best, active, frame, now)
    else
      match support
      case Some(d) => LockedOn(seen, active, seen.locked.value, d, frame, now)
      case None =>
        if Age(cfg, seen, now) <= cfg.maximumAge then
          (seen.(cached := None,
                 status := Status(active, seen.locked, Occluded, seen.hits, None, Some(Age(cfg, seen, now)))), None)
        else Acquire(cfg, ReleaseLock(seen), best, active, frame, now)
  }

  function SupportOf(cfg: Config, s: State, frame: Frame, detections: seq<Detection>): (best: Option<Detection>)
    ensures best.Some? ==> best.value in detections && s.locked.Some? && Supports(cfg, best.value, s.locked.value)
    ensures best.None? && s.locked.Some? ==> forall d :: d in detections ==> !Supports(cfg, d, s.locked.value)
  {
    if s.locked.None? then None else Supporting(cfg, frame, detections, s.locked.value)
  }

  function Observe(cfg: Config, s: State, frame: Frame, detections: seq<Detection>, now: real): (State, Option<Target>) {
    Weigh(cfg, s, SupportOf(cfg, s, frame, detections), FirstAcquirable(cfg, frame, detections),
          |Tracks(cfg, detections)|, frame, now)
  }

  /** The state a new frame is processed in: reset when the frame numbers or the clock ran backwards. */
  function Rewound(s: State, sequence: int): State {
    if s.lastSequence.Some? && sequence < s.lastSequence.value then INITIAL else s
  }

  function Resynchronized(s: State, now: real): State {
    if s.lastObserved.Some? && now < s.lastObserved.value then INITIAL else s
  }

  function SelectTracked(cfg: Config, s: State, frame: Frame, detections: seq<Detection>, clock: Option<real>):
    (State, Result<Option<Target>, ClockFailure>)
  {
    if s.lastSequence == Some(frame.sequence) then SelectRepeated(cfg, s, clock)
    else
      var base := Rewound(s, frame.sequence);
      match clock
      case None => (ReleaseLock(base), Err(ClockFailure))
      case Some(now) =>
        var (after, target) := Observe(cfg, Resynchronized(base, now), frame, detections, now);
        (after, Ok(target))
  }

  function SelectUntracked(cfg: Config, s: State, frame: Frame, detections: seq<Detection>): (State, Option<Target>) {
    match Best(frame, Filter(detections, Candidate(cfg)))
    case None => (s.(status := IDLE), None)
    case Some(d) => (s.(status := Status(0, None, Locked, 1, Some(d.confidence), None)), Some(Target(d, frame.sequence)))
  }

  // ---- what every state keeps ----

  /** Lock bookkeeping; kept by every call, also by one whose clock fails. */
  predicate Inv(cfg: Config, s: State) {
    && (s.pending.Some? <==> s.hits > 0)
    && (s.locked.None? ==> s.hits < cfg.minimumHits && s.lastSupported.None?)
    && (s.locked.Some? ==>
          && s.pending == s.locked && s.hits >= cfg.minimumHits
          && s.lastSupported.Some? && s.lastObserved.Some? && s.lastSequence.Some?
          && s.lastSupported.value <= s.lastObserved.value)
    && (s.status.phase.Locked? <==> s.cached.Some?)
    && (s.cached.Some? ==> s.lastSequence == Some(s.cached.value.frameSequence))
    && (s.cached.Some? && s.locked.Some? ==>
          s.lastSupported == s.lastObserved && s.cached.value.detection.trackId == s.locked)
  }

  /** A target kept for repeated frames although its lock is gone. */
  predicate Orphaned(s: State) {
    s.cached.Some? && s.locked.None?
  }

  lemma AcquireKeepsInv(cfg: Config, s: State, best: Option<Detection>, active: nat, frame: Frame, now: real)
    requires ValidConfig(cfg) && s.locked.None? && s.hits < cfg.minimumHits && s.lastSupported.None?
    requires (s.pending.Some? <==> s.hits > 0) && s.lastObserved == Some(now) && s.lastSequence == Some(frame.sequence)
    requires best.Some? ==> best.value.trackId.Some?
    ensures var after := Acquire(cfg, s, best, active, frame, now).0;
            Inv(cfg, after) && !Orphaned(after)
  {
  }

  lemma WeighKeepsInv(cfg: Config, s: State, support: Option<Detection>, best: Option<Detection>,
                      active: nat, frame: Frame, now: real)
    requires ValidConfig(cfg) && Inv(cfg, s) && (s.lastObserved.Some? ==> s.lastObserved.value <= now)
    requires best.Some? ==> best.value.trackId.Some?
    requires support.Some? ==> support.value.trackId == s.locked
    ensures var after := Weigh(cfg, s, support, best, active, frame, now).0;
            Inv(cfg, after) && !Orphaned(after)
  {
    var seen := s.(lastObserved := Some(now), lastSequence := Some(frame.sequence));
    if s.locked.None? {
      AcquireKeepsInv(cfg, seen, best, active, frame, now);
    } else if support.None? && Age(cfg, seen, now) > cfg.maximumAge {
      AcquireKeepsInv(cfg, ReleaseLock(seen), best, active, frame, now);
    }
  }

  /** Every tracked call keeps the invariant; a target outlives its lock exactly when a clock failure strikes one. */
  lemma SelectKeepsInv(cfg: Config, s: State, frame: Frame, detections: seq<Detection>, clock: Option<real>)
    requires ValidConfig(cfg) && Inv(cfg, s)
    ensures var after := SelectTracked(cfg, s, frame, detections, clock).0;
            && Inv(cfg, after)
            && (!Orphaned(s) ==>
                  (Orphaned(after) <==> clock.None? && s.cached.Some? && s.lastSequence.value <= frame.sequence))
  {
    if s.lastSequence != Some(frame.sequence) && clock.Some? {
      var now := clock.value;
      var base := Resynchronized(Rewound(s, frame.sequence), now);
      WeighKeepsInv(cfg, base, SupportOf(cfg, base, frame, detections), FirstAcquirable(cfg, frame, detections),
                    |Tracks(cfg, detections)|, frame, now);
    }
  }

  /** The consequence: until something else is processed, the old target is returned at any later time. */
  lemma OrphanIsReturnedForever(cfg: Config, s: State, frame: Frame, detections: seq<Detection>, clock: Option<real>)
    requires Inv(cfg, s) && Orphaned(s) && s.lastSequence == Some(frame.sequence)
    ensures SelectTracked(cfg, s, frame, detections, clock) == (s, Ok(s.cached))
  {
  }

  // ---- losing a lock ----

  /** The clock or the frame numbers gave the selector reason to start over. */
  predicate Interrupts(s: State, frame: Frame, clock: Option<real>) {
    var consulted := s.lastSequence != Some(frame.sequence) || s.locked.Some?;
    && consulted
    && (|| clock.None?
        || (s.lastSequence.Some? && frame.sequence < s.lastSequence.value)
        || (s.lastObserved.Some? && clock.value < s.lastObserved.value))
  }

  /** No detection supports the lock and it is older than the limit. */
  predicate Expires(cfg: Config, s: State, frame: Frame, detections: seq<Detection>, now: real)
    requires s.locked.Some?
  {
    && Age(cfg, s, now) > cfg.maximumAge
    && (s.lastSequence == Some(frame.sequence) || forall d :: d in detections ==> !Supports(cfg, d, s.locked.value))
  }

  /**
   A held lock is dropped by an interruption or by age, and by nothing else: in particular never
   because another identity ranks higher. When it is not dropped it stays on the same identity.
   */
  lemma LockDropsOnlyWhenDue(cfg: Config, s: State, frame: Frame, detections: seq<Detection>, clock: Option<real>)
    requires ValidConfig(cfg) && Inv(cfg, s) && s.locked.Some?
    ensures var after := SelectTracked(cfg, s, frame, detections, clock).0;
            if Interrupts(s, frame, clock) || Expires(cfg, s, frame, detections, clock.value)
            then after.locked.None? || cfg.minimumHits == 1
            else after.locked == s.locked
  {
    if s.lastSequence != Some(frame.sequence) && !Interrupts(s, frame, clock) {
      var best := SupportOf(cfg, s, frame, detections);
      assert best.Some? ==> best.value in detections && Supports(cfg, best.value, s.locked.value);
    }
  }

  // ---- the selector object ----

  class MarineTargetSelector {
    const cfg: Config
    var pendingTrack: Option<nat>
    var confirmationHits: nat
    var lockedTrack: Option<nat>
    var lastSupported: Option<real>
    var lastObserved: Option<real>
    var lastSequence: Option<int>
    var cached: Option<Target>
    var status: Status

    ghost function Abstract(): State
      reads this
    {
      State(pendingTrack, confirmationHits, lockedTrack, lastSupported, lastObserved, lastSequence, cached, status)
    }

    constructor (cfg: Config)
      requires ValidConfig(cfg)
      ensures this.cfg == cfg && Abstract() == INITIAL
    {
      this.cfg := cfg;
      pendingTrack, confirmationHits, lockedTrack, lastSupported := None, 0, None, None;
      lastObserved, lastSequence, cached, status := None, None, None, IDLE;
    }

    method Reset()
      modifies this
      ensures Abstract() == INITIAL
    {
      pendingTrack := None;
      confirmationHits := 0;
      lockedTrack := None;
      lastSupported := None;
      lastObserved := None;
      lastSequence := None;
      cached := None;
      status := IDLE;
    }

    method Release()
      modifies `pendingTrack, `confirmationHits, `lockedTrack, `lastSupported
      ensures Abstract() == ReleaseLock(old(Abstract()))
    {
      pendingTrack := None;
      confirmationHits := 0;
      lockedTrack := None;
      lastSupported := None;
    }

    /** A clock that does not answer with a finite number costs the lock. */
    method Timestamp(clock: Option<real>) returns (now: Result<real, ClockFailure>)
      modifies `pendingTrack, `confirmationHits, `lockedTrack, `lastSupported
      ensures clock.Some? ==> now == Ok(clock.value) && Abstract() == old(Abstract())
      ensures clock.None? ==> now == Err(ClockFailure) && Abstract() == ReleaseLock(old(Abstract()))
    {
      if clock.None? {
        Release();
        return Err(ClockFailure);
      }
      now := Ok(clock.value);
    }

    function UnsupportedAge(now: real): (age: real)
      reads this
      ensures age == Age(cfg, Abstract(), now)
    {
      if lastSupported.None? then cfg.maximumAge + 1.0 else NonNegative(now - lastSupported.value)
    }

    method SelectionForRepeatedFrame(clock: Option<real>) returns (r: Result<Option<Target>, ClockFailure>)
      modifies this
      ensures (Abstract(), r) == SelectRepeated(cfg, old(Abstract()), clock)
    {
      if lockedTrack.None? {
        return Ok(cached);
      }
      var now := Timestamp(clock);
      if now.Err? {
        return Err(ClockFailure);
      }
      if lastObserved.Some? && now.value < lastObserved.value {
        Reset();
        return Ok(None);
      }
      var age := UnsupportedAge(now.value);
      if age > cfg.maximumAge {
        var active := status.activeTracks;
        Release();
        cached := None;
        status := Status(active, None, Nothing, 0, None, None);
        return Ok(None);
      }
      status := Status(status.activeTracks, lockedTrack, status.phase, confirmationHits, status.confidence, Some(age));
      r := Ok(cached);
    }

    method TakeLock(track: nat, d: Detection, frame: Frame, active: nat, now: real) returns (target: Option<Target>)
      modifies `lockedTrack, `lastSupported, `cached, `status
      ensures (Abstract(), target) == LockedOn(old(Abstract()), active, track, d, frame, now)
    {
      lockedTrack := Some(track);
      lastSupported := Some(now);
      target := Some(Target(d, frame.sequence));
      cached := target;
      status := Status(active, lockedTrack, Locked, confirmationHits, Some(d.confidence), Some(0.0));
    }

    method Nominee(frame: Frame, detections: seq<Detection>, tracked: seq<Detection>) returns (best: Option<Detection>)
      requires tracked == Filter(detections, Tracked(cfg))
      ensures best == FirstAcquirable(cfg, frame, detections)
    {
      FilterTwice(detections, Tracked(cfg), GoodEnough(cfg), GoodEnough(cfg));
      best := RankedDetection(frame, Filter(tracked, GoodEnough(cfg)));
    }

    method AcquireTarget(frame: Frame, detections: seq<Detection>, tracked: seq<Detection>, now: real)
      returns (target: Option<Target>)
      requires tracked == Filter(detections, Tracked(cfg))
      modifies this
      ensures (Abstract(), target) == Acquire(cfg, old(Abstract()), FirstAcquirable(cfg, frame, detections),
                                              |Tracks(cfg, detections)|, frame, now)
    {
      TracksOf(cfg, detections);
      var active := |TrackIds(tracked)|;
      var selected := Nominee(frame, detections, tracked);
      if selected.None? {
        pendingTrack, confirmationHits, cached := None, 0, None;
        status := Status(active, None, Nothing, 0, None, None);
        return None;
      }
      if selected.value.trackId == pendingTrack {
        confirmationHits := confirmationHits + 1;
      } else {
        pendingTrack := selected.value.trackId;
        confirmationHits := 1;
      }
      if confirmationHits < cfg.minimumHits {
        cached := None;
        status := Status(active, None, Acquiring, confirmationHits, None, None);
        return None;
      }
      target := TakeLock(selected.value.trackId.value, selected.value, frame, active, now);
    }

    method ObserveFrame(frame: Frame, detections: seq<Detection>, now: real) returns (target: Option<Target>)
      modifies this
      ensures (Abstract(), target) == Observe(cfg, old(Abstract()), frame, detections, now)
    {
      lastObserved := Some(now);
      lastSequence := Some(frame.sequence);
      var tracked := Filter(Filter(detections, Candidate(cfg)), Tracked(cfg));
      FilterTwice(detections, Candidate(cfg), Tracked(cfg), Tracked(cfg));
      if lockedTrack.Some? {
        var track := lockedTrack.value;
        FilterTwice(detections, Tracked(cfg), SupportFor(cfg, track), SupportFor(cfg, track));
        TracksOf(cfg, detections);
        var active := |TrackIds(tracked)|;
        var selected := RankedDetection(frame, Filter(tracked, SupportFor(cfg, track)));
        if selected.Some? {
          target := TakeLock(track, selected.value, frame, active, now);
          return;
        }
        var age := UnsupportedAge(now);
        if age <= cfg.maximumAge {
          cached := None;
          status := Status(active, lockedTrack, Occluded, confirmationHits, None, Some(age));
          return None;
        }
        Release();
      }
      target := AcquireTarget(frame, detections, tracked, now);
    }

    method SelectAny(frame: Frame, detections: seq<Detection>) returns (target: Option<Target>)
      modifies `status
      ensures (Abstract(), target) == SelectUntracked(cfg, old(Abstract()), frame, detections)
    {
      var selected := RankedDetection(frame, Filter(detections, Candidate(cfg)));
      if selected.None? {
        status := Status(0, None, Nothing, 0, None, None);
        return None;
      }
      status := Status(0, None, Locked, 1, Some(selected.value.confidence), None);
      target := Some(Target(selected.value, frame.sequence));
    }

    method Select(frame: Frame, detections: seq<Detection>, clock: Option<real>)
      returns (r: Result<Option<Target>, ClockFailure>)
      modifies this
      ensures cfg.tracked ==> (Abstract(), r) == SelectTracked(cfg, old(Abstract()), frame, detections, clock)
      ensures !cfg.tracked ==>
                var (after, target) := SelectUntracked(cfg, old(Abstract()), frame, detections);
                Abstract() == after && r == Ok(target)
    {
      if !cfg.tracked {
        var target := SelectAny(frame, detections);
        return Ok(target);
      }
      if lastSequence == Some(frame.sequence) {
        r := SelectionForRepeatedFrame(clock);
        return;
      }
      if lastSequence.Some? && frame.sequence < lastSequence.value {
        Reset();
      }
      var now := Timestamp(clock);
      if now.Err? {
        return Err(ClockFailure);
      }
      if lastObserved.Some? && now.value < lastObserved.value {
        Reset();
      }
      var target := ObserveFrame(frame, detections, now.value);
      r := Ok(target);
    }
  }
}
