/** What the selector guarantees over whole runs: how a lock came about, and that no target is stale. */
module SelectorRuns {
  import opened Common
  import opened Ranking
  import opened Selector

  datatype Call =
    | Ask(frame: Frame, detections: seq<Detection>, clock: Option<real>)
    | Restart // reset()

  function After(cfg: Config, s: State, call: Call): State {
    match call
    case Restart => INITIAL
    case Ask(frame, detections, clock) => SelectTracked(cfg, s, frame, detections, clock).0
  }

  function Answer(cfg: Config, s: State, call: Call): Result<Option<Target>, ClockFailure>
    requires call.Ask?
  {
    SelectTracked(cfg, s, call.frame, call.detections, call.clock).1
  }

  predicate Steps(cfg: Config, s: State, call: Call, after: State) {
    after == After(cfg, s, call)
  }

  /** A run: the calls made on a new selector, and the state before each of them and at the end. */
  datatype Run = Run(calls: seq<Call>, states: seq<State>)

  predicate IsRun(cfg: Config, r: Run) {
    && |r.states| == |r.calls| + 1
    && r.states[0] == INITIAL
    && forall k {:trigger Steps(cfg, r.states[k], r.calls[k], r.states[k + 1])} ::
         0 <= k < |r.calls| ==> Steps(cfg, r.states[k], r.calls[k], r.states[k + 1])
  }

  /** The call processes a frame not processed before. */
  predicate Processes(s: State, call: Call) {
    call.Ask? && call.clock.Some? && s.lastSequence != Some(call.frame.sequence)
  }

  /** The identity ranks first among those good enough to start a lock. */
  predicate Nominates(cfg: Config, call: Call, track: nat) {
    && call.Ask?
    && var best := FirstAcquirable(cfg, call.frame, call.detections);
       best.Some? && best.value.trackId == Some(track)
  }

  predicate InterruptedBy(s: State, call: Call) {
    call.Restart? || Interrupts(s, call.frame, call.clock)
  }

  /** The clock fails in this call while a target is held. */
  predicate Strikes(s: State, call: Call) {
    && call.Ask? && call.clock.None? && s.cached.Some?
    && (s.lastSequence.None? || s.lastSequence.value <= call.frame.sequence)
  }

  // ---- one call ----

  lemma AfterKeepsInv(cfg: Config, s: State, call: Call)
    requires ValidConfig(cfg) && Inv(cfg, s)
    ensures Inv(cfg, After(cfg, s, call))
    ensures !Orphaned(s) ==> (Orphaned(After(cfg, s, call)) <==> Strikes(s, call))
  {
    if call.Ask? {
      SelectKeepsInv(cfg, s, call.frame, call.detections, call.clock);
    }
  }

  predicate Continues(s: State, call: Call, track: nat) {
    s.pending == Some(track) && s.locked.None? && !InterruptedBy(s, call)
  }

  /** What a call can do to the pending and the locked identity. */
  predicate Effect(cfg: Config, s: State, call: Call, after: State) {
    && Inv(cfg, after)
    && (after.locked.Some? && after.locked != s.locked ==> Processes(s, call))
    && (after.locked.None? && after.pending.Some? && !Processes(s, call) ==> after == s && !InterruptedBy(s, call))
    && (Processes(s, call) && after.pending.Some? && (after.locked.None? || after.locked != s.locked) ==>
          && Nominates(cfg, call, after.pending.value)
          && after.hits == if Continues(s, call, after.pending.value) then s.hits + 1 else 1)
  }

  lemma WeighNominates(cfg: Config, s: State, support: Option<Detection>, best: Option<Detection>,
                       active: nat, frame: Frame, now: real)
    requires Inv(cfg, s) && (best.Some? ==> best.value.trackId.Some?)
    ensures var after := Weigh(cfg, s, support, best, active, frame, now).0;
            && (after.pending.Some? && (after.locked.None? || after.locked != s.locked) ==>
                  && best.Some? && best.value.trackId == after.pending
                  && after.hits == if s.pending == after.pending && s.locked.None? then s.hits + 1 else 1)
  {
  }

  lemma AfterHasEffect(cfg: Config, s: State, call: Call)
    requires ValidConfig(cfg) && Inv(cfg, s)
    ensures Effect(cfg, s, call, After(cfg, s, call))
  {
    AfterKeepsInv(cfg, s, call);
    if Processes(s, call) {
      var now := call.clock.value;
      var base := Resynchronized(Rewound(s, call.frame.sequence), now);
      WeighNominates(cfg, base, SupportOf(cfg, base, call.frame, call.detections),
                     FirstAcquirable(cfg, call.frame, call.detections), |Tracks(cfg, call.detections)|, call.frame, now);
    }
  }

  lemma WeighCaches(cfg: Config, s: State, support: Option<Detection>, best: Option<Detection>,
                    active: nat, frame: Frame, now: real)
    requires best.Some? ==> best.value.trackId.Some?
    ensures var (after, target) := Weigh(cfg, s, support, best, active, frame, now);
            && target == after.cached
            && (target.Some? ==>
                  && target.value.frameSequence == frame.sequence
                  && Some(target.value.detection) in {support, best}
                  && after.lastSupported == Some(now))
  {
  }

  /** Processing a frame answers with one of its detections, and keeps it. */
  lemma ProcessingCaches(cfg: Config, s: State, call: Call)
    requires ValidConfig(cfg) && Inv(cfg, s) && Processes(s, call)
    ensures var after := After(cfg, s, call);
            && Answer(cfg, s, call) == Ok(after.cached)
            && !Orphaned(after)
            && (after.cached.Some? ==>
                  && after.cached.value.frameSequence == call.frame.sequence
                  && after.cached.value.detection in call.detections
                  && after.lastSupported == call.clock)
  {
    var now := call.clock.value;
    var base := Resynchronized(Rewound(s, call.frame.sequence), now);
    var support := SupportOf(cfg, base, call.frame, call.detections);
    var best := FirstAcquirable(cfg, call.frame, call.detections);
    WeighCaches(cfg, base, support, best, |Tracks(cfg, call.detections)|, call.frame, now);
    WeighKeepsInv(cfg, base, support, best, |Tracks(cfg, call.detections)|, call.frame, now);
  }

  /** A call that processes nothing leaves the kept target alone or drops it, and answers with nothing else. */
  lemma OtherwiseKept(cfg: Config, s: State, call: Call)
    requires ValidConfig(cfg) && Inv(cfg, s) && !Processes(s, call) && !Orphaned(s) && !Strikes(s, call)
    ensures var after := After(cfg, s, call);
            && !Orphaned(after)
            && (after.cached.Some? ==> after.cached == s.cached && after.lastSupported == s.lastSupported)
    ensures call.Ask? && Answer(cfg, s, call).Ok? && Answer(cfg, s, call).value.Some? ==>
              && Answer(cfg, s, call).value == s.cached && s.lastSequence == Some(call.frame.sequence) && call.clock.Some?
              && s.lastSupported.value <= call.clock.value <= s.lastSupported.value + cfg.maximumAge
  {
    AfterKeepsInv(cfg, s, call);
  }

  // ---- whole runs ----

  lemma StepAt(cfg: Config, r: Run, k: nat)
    requires IsRun(cfg, r) && k < |r.calls|
    ensures r.states[k + 1] == After(cfg, r.states[k], r.calls[k])
  {
    assert Steps(cfg, r.states[k], r.calls[k], r.states[k + 1]);
  }

  lemma {:induction false} RunKeepsInv(cfg: Config, r: Run, n: nat)
    requires ValidConfig(cfg) && IsRun(cfg, r) && n <= |r.calls|
    ensures Inv(cfg, r.states[n])
  {
    if n > 0 {
      RunKeepsInv(cfg, r, n - 1);
      AfterKeepsInv(cfg, r.states[n - 1], r.calls[n - 1]);
      StepAt(cfg, r, n - 1);
    }
  }

  lemma CallEffect(cfg: Config, r: Run, n: nat)
    requires ValidConfig(cfg) && IsRun(cfg, r) && n < |r.calls|
    ensures Effect(cfg, r.states[n], r.calls[n], r.states[n + 1])
  {
    RunKeepsInv(cfg, r, n);
    AfterHasEffect(cfg, r.states[n], r.calls[n]);
    StepAt(cfg, r, n);
  }

  /** How many of the calls from `from` up to `n` processed a frame. */
  function ProcessedCount(r: Run, from: nat, n: nat): nat
    requires from <= n <= |r.calls| < |r.states|
  {
    if n == from then 0 else ProcessedCount(r, from, n - 1) + if Processes(r.states[n - 1], r.calls[n - 1]) then 1 else 0
  }

  /** From `from` up to `n` no lock was held and every processed frame nominated the one identity, without interruption. */
  predicate Streak(cfg: Config, r: Run, from: nat, n: nat, track: nat)
    requires from < n <= |r.calls| < |r.states|
  {
    && Processes(r.states[from], r.calls[from])
    && (forall i :: from <= i < n && Processes(r.states[i], r.calls[i]) ==> Nominates(cfg, r.calls[i], track))
    && (forall i :: from < i < n ==> !InterruptedBy(r.states[i], r.calls[i]) && r.states[i].locked.None?)
  }

  /** A counted streak ends at `n`. */
  predicate Confirming(cfg: Config, r: Run, from: int, n: nat, track: nat, hits: nat)
    requires n <= |r.calls| < |r.states|
  {
    0 <= from < n && Streak(cfg, r, from, n, track) && ProcessedCount(r, from, n) == hits
  }

  /** The identity was locked at call `at`, at the end of a long enough streak, and has been locked ever since. */
  predicate LockedSince(cfg: Config, r: Run, from: int, at: int, n: nat, track: nat)
    requires n <= |r.calls| < |r.states|
  {
    && 0 <= from <= at < n
    && Streak(cfg, r, from, at + 1, track)
    && Processes(r.states[at], r.calls[at])
    && ProcessedCount(r, from, at + 1) >= cfg.minimumHits
    && forall i :: at < i <= n ==> r.states[i].locked == Some(track)
  }

  lemma StreakGrows(cfg: Config, r: Run, from: nat, n: nat, track: nat)
    requires from < n < |r.calls| < |r.states| && Streak(cfg, r, from, n, track)
    requires Processes(r.states[n], r.calls[n]) ==> Nominates(cfg, r.calls[n], track)
    requires !InterruptedBy(r.states[n], r.calls[n]) && r.states[n].locked.None?
    ensures Streak(cfg, r, from, n + 1, track)
    ensures ProcessedCount(r, from, n + 1) ==
            ProcessedCount(r, from, n) + if Processes(r.states[n], r.calls[n]) then 1 else 0
  {
  }

  lemma LockedLonger(cfg: Config, r: Run, from: int, at: int, n: nat, track: nat)
    requires n < |r.calls| < |r.states| && LockedSince(cfg, r, from, at, n, track)
    requires r.states[n + 1].locked == Some(track)
    ensures LockedSince(cfg, r, from, at, n + 1, track)
  {
  }

  /** A nomination with no lock held extends the pending streak or starts one. */
  lemma NominationCounts(cfg: Config, r: Run, n: nat, track: nat) returns (from: nat)
    requires n < |r.calls| < |r.states|
    requires Processes(r.states[n], r.calls[n]) && Nominates(cfg, r.calls[n], track)
    requires Continues(r.states[n], r.calls[n], track) ==> exists f :: Confirming(cfg, r, f, n, track, r.states[n].hits)
    ensures from <= n && Streak(cfg, r, from, n + 1, track)
    ensures ProcessedCount(r, from, n + 1) == if Continues(r.states[n], r.calls[n], track) then r.states[n].hits + 1 else 1
  {
    if Continues(r.states[n], r.calls[n], track) {
      var f :| Confirming(cfg, r, f, n, track, r.states[n].hits);
      from := f;
      StreakGrows(cfg, r, from, n, track);
    } else {
      from := n;
      assert ProcessedCount(r, n, n) == 0;
    }
  }

  /** Where the pending and the locked identity of a state come from. */
  ghost predicate Accounted(cfg: Config, r: Run, n: nat)
    requires n <= |r.calls| < |r.states|
  {
    var s := r.states[n];
    && (s.locked.None? && s.pending.Some? ==> exists f :: Confirming(cfg, r, f, n, s.pending.value, s.hits))
    && (s.locked.Some? ==> exists f, at :: LockedSince(cfg, r, f, at, n, s.locked.value))
  }

  lemma NominationAccounted(cfg: Config, r: Run, n: nat)
    requires n < |r.calls| < |r.states| && Accounted(cfg, r, n) && Processes(r.states[n], r.calls[n])
    requires var s, after := r.states[n], r.states[n + 1];
             && after.pending.Some? && (after.locked.None? || after.locked != s.locked)
             && Effect(cfg, s, r.calls[n], after)
    ensures Accounted(cfg, r, n + 1)
  {
    var after := r.states[n + 1];
    var f := NominationCounts(cfg, r, n, after.pending.value);
    if after.locked.None? {
      assert Confirming(cfg, r, f, n + 1, after.pending.value, after.hits);
    } else {
      assert LockedSince(cfg, r, f, n, n + 1, after.pending.value);
    }
  }

  lemma QuietCallAccounted(cfg: Config, r: Run, n: nat)
    requires n < |r.calls| < |r.states| && Accounted(cfg, r, n) && !Processes(r.states[n], r.calls[n])
    requires r.states[n + 1] == r.states[n] && !InterruptedBy(r.states[n], r.calls[n])
    requires r.states[n].locked.None? && r.states[n].pending.Some?
    ensures Accounted(cfg, r, n + 1)
  {
    var s := r.states[n];
    var f :| Confirming(cfg, r, f, n, s.pending.value, s.hits);
    StreakGrows(cfg, r, f, n, s.pending.value);
    assert Confirming(cfg, r, f, n + 1, s.pending.value, s.hits);
  }

  lemma HeldAccounted(cfg: Config, r: Run, n: nat)
    requires n < |r.calls| < |r.states| && Accounted(cfg, r, n)
    requires r.states[n + 1].locked.Some? && r.states[n + 1].locked == r.states[n].locked
    ensures Accounted(cfg, r, n + 1)
  {
    var track := r.states[n].locked.value;
    var f, at :| LockedSince(cfg, r, f, at, n, track);
    LockedLonger(cfg, r, f, at, n, track);
  }

  lemma CallAccounted(cfg: Config, r: Run, n: nat)
    requires n < |r.calls| < |r.states| && Accounted(cfg, r, n)
    requires Effect(cfg, r.states[n], r.calls[n], r.states[n + 1])
    ensures Accounted(cfg, r, n + 1)
  {
    var s, after := r.states[n], r.states[n + 1];
    if after.locked.Some? && after.locked == s.locked {
      HeldAccounted(cfg, r, n);
    } else if after.pending.Some? {
      if Processes(s, r.calls[n]) {
        NominationAccounted(cfg, r, n);
      } else {
        QuietCallAccounted(cfg, r, n);
      }
    }
  }

  lemma {:induction false} AlwaysAccounted(cfg: Config, r: Run, n: nat)
    requires ValidConfig(cfg) && IsRun(cfg, r) && n <= |r.calls|
    ensures Accounted(cfg, r, n)
  {
    if n > 0 {
      AlwaysAccounted(cfg, r, n - 1);
      CallEffect(cfg, r, n - 1);
      CallAccounted(cfg, r, n - 1);
    }
  }

  /**
   Whatever was asked, with whatever clock: a held lock was taken at the end of at least the
   configured number of consecutively processed frames that all nominated that identity, with no
   interruption and no lock in between, and has been held at every point since.
   */
  lemma LockHistory(cfg: Config, r: Run, n: nat)
    requires ValidConfig(cfg) && IsRun(cfg, r) && n <= |r.calls| && r.states[n].locked.Some?
    ensures exists f, at :: LockedSince(cfg, r, f, at, n, r.states[n].locked.value)
  {
    AlwaysAccounted(cfg, r, n);
  }

  // ---- no stale target ----

  /** The call ends an orphaned target: it processes a frame, starts over, or the frame numbers ran backwards. */
  predicate Clears(s: State, call: Call) {
    call.Restart? || Processes(s, call) || (s.lastSequence.Some? && call.frame.sequence < s.lastSequence.value)
  }

  /** An orphaned target stays until a call clears it. */
  lemma OrphanPersists(cfg: Config, s: State, call: Call)
    requires ValidConfig(cfg) && Inv(cfg, s) && Orphaned(s)
    ensures Orphaned(After(cfg, s, call)) <==> !Clears(s, call)
    ensures !Clears(s, call) ==> After(cfg, s, call).cached == s.cached && After(cfg, s, call).lastSequence == s.lastSequence
  {
    if Processes(s, call) {
      ProcessingCaches(cfg, s, call);
    }
  }

  /** A clock failure struck a held target at call `k`, and no call since cleared it. */
  predicate StruckAt(r: Run, k: int, n: nat)
    requires n <= |r.calls| < |r.states|
  {
    && 0 <= k < n && Strikes(r.states[k], r.calls[k])
    && forall i :: k < i < n ==> !Clears(r.states[i], r.calls[i])
  }

  ghost predicate Struck(r: Run, n: nat)
    requires n <= |r.calls| < |r.states|
  {
    exists k :: StruckAt(r, k, n)
  }

  lemma StruckNext(r: Run, n: nat)
    requires n < |r.calls| < |r.states|
    ensures Struck(r, n + 1) <==>
            Strikes(r.states[n], r.calls[n]) || (Struck(r, n) && !Clears(r.states[n], r.calls[n]))
  {
    if Strikes(r.states[n], r.calls[n]) {
      assert StruckAt(r, n, n + 1);
    } else if Struck(r, n) && !Clears(r.states[n], r.calls[n]) {
      var k :| StruckAt(r, k, n);
      assert StruckAt(r, k, n + 1);
    } else if Struck(r, n + 1) {
      var k :| StruckAt(r, k, n + 1);
      assert StruckAt(r, k, n);
    }
  }

  /** A target is orphaned exactly when a clock failure struck one and nothing has cleared it since. */
  lemma {:induction false} OrphanedWhenStruck(cfg: Config, r: Run, n: nat)
    requires ValidConfig(cfg) && IsRun(cfg, r) && n <= |r.calls|
    ensures Orphaned(r.states[n]) <==> Struck(r, n)
  {
    if n > 0 {
      var s, call := r.states[n - 1], r.calls[n - 1];
      OrphanedWhenStruck(cfg, r, n - 1);
      StruckNext(r, n - 1);
      RunKeepsInv(cfg, r, n - 1);
      StepAt(cfg, r, n - 1);
      AfterKeepsInv(cfg, s, call);
      if Orphaned(s) {
        OrphanPersists(cfg, s, call);
      }
    }
  }

  /** Call `k` was the last to process a frame, and the target is one of the detections it was given. */
  predicate ObservedAt(r: Run, k: int, n: nat, target: Target)
    requires n <= |r.calls| < |r.states|
  {
    && 0 <= k < n && Processes(r.states[k], r.calls[k])
    && r.calls[k].frame.sequence == target.frameSequence
    && target.detection in r.calls[k].detections
    && forall i :: k < i < n ==> !Processes(r.states[i], r.calls[i])
  }

  /** The kept target was observed at call `k`, when its lock was last supported. */
  predicate KeptFrom(r: Run, k: int, n: nat, target: Target, supported: Option<real>)
    requires n <= |r.calls| < |r.states|
  {
    ObservedAt(r, k, n, target) && r.calls[k].clock == supported
  }

  lemma {:induction false} CachedIsObserved(cfg: Config, r: Run, n: nat)
    requires ValidConfig(cfg) && IsRun(cfg, r) && n <= |r.calls| && !Orphaned(r.states[n])
    ensures var s := r.states[n];
            s.cached.Some? ==> exists k :: KeptFrom(r, k, n, s.cached.value, s.lastSupported)
  {
    if n > 0 {
      var s, call, after := r.states[n - 1], r.calls[n - 1], r.states[n];
      RunKeepsInv(cfg, r, n - 1);
      StepAt(cfg, r, n - 1);
      if Processes(s, call) {
        ProcessingCaches(cfg, s, call);
        assert after.cached.Some? ==> KeptFrom(r, n - 1, n, after.cached.value, after.lastSupported);
      } else if !Orphaned(s) {
        AfterKeepsInv(cfg, s, call);
        CachedIsObserved(cfg, r, n - 1);
        OtherwiseKept(cfg, s, call);
        if after.cached.Some? {
          var k :| KeptFrom(r, k, n - 1, s.cached.value, s.lastSupported);
          assert KeptFrom(r, k, n, after.cached.value, after.lastSupported);
        }
      }
    }
  }

  /** The call is answered with a target. */
  predicate Returns(cfg: Config, s: State, call: Call) {
    call.Ask? && Answer(cfg, s, call).Ok? && Answer(cfg, s, call).value.Some?
  }

  /** The target carries the asked frame's number, and is one of its detections: those just given, or those given
      when it was processed at call `k`, which processed last and lies no longer ago than the limit. */
  predicate Recent(cfg: Config, r: Run, k: int, n: nat, call: Call, target: Target)
    requires n <= |r.calls| < |r.states| && call.Ask?
  {
    && target.frameSequence == call.frame.sequence
    && if k == n then Processes(r.states[n], call) && target.detection in call.detections
       else
         && ObservedAt(r, k, n, target) && !Processes(r.states[n], call) && call.clock.Some?
         && r.calls[k].clock.value <= call.clock.value <= r.calls[k].clock.value + cfg.maximumAge
  }

  /** Whatever is asked next, with whatever clock: a returned target is recent. */
  ghost predicate NothingStale(cfg: Config, r: Run, n: nat)
    requires n <= |r.calls| < |r.states|
  {
    forall call :: Returns(cfg, r.states[n], call) ==>
      exists k :: Recent(cfg, r, k, n, call, Answer(cfg, r.states[n], call).value.value)
  }

  lemma AnswerIsRecent(cfg: Config, r: Run, n: nat, call: Call)
    requires ValidConfig(cfg) && IsRun(cfg, r) && n <= |r.calls| && !Orphaned(r.states[n])
    requires Returns(cfg, r.states[n], call)
    ensures exists k :: Recent(cfg, r, k, n, call, Answer(cfg, r.states[n], call).value.value)
  {
    var s := r.states[n];
    RunKeepsInv(cfg, r, n);
    CachedIsObserved(cfg, r, n);
    if Processes(s, call) {
      ProcessingCaches(cfg, s, call);
      assert Recent(cfg, r, n, n, call, Answer(cfg, s, call).value.value);
    } else {
      if Strikes(s, call) {
        StruckCallFails(cfg, s, call);
      }
      OtherwiseKept(cfg, s, call);
      var k :| KeptFrom(r, k, n, s.cached.value, s.lastSupported);
      assert Recent(cfg, r, k, n, call, s.cached.value);
    }
  }

  /** A clock failure while a target is held is reported, not answered. */
  lemma StruckCallFails(cfg: Config, s: State, call: Call)
    requires Inv(cfg, s) && Strikes(s, call) && !Orphaned(s)
    ensures Answer(cfg, s, call).Err?
  {
  }

  /** An orphaned target is answered for its frame even without a clock. */
  lemma OrphanIsStale(cfg: Config, r: Run, n: nat)
    requires ValidConfig(cfg) && IsRun(cfg, r) && n <= |r.calls| && Orphaned(r.states[n])
    ensures !NothingStale(cfg, r, n)
  {
    var s := r.states[n];
    RunKeepsInv(cfg, r, n);
    var again := Ask(Frame(s.lastSequence.value, 0, 0), [], None);
    OrphanIsReturnedForever(cfg, s, again.frame, again.detections, again.clock);
    assert Returns(cfg, s, again);
    assert forall k :: !Recent(cfg, r, k, n, again, Answer(cfg, s, again).value.value);
  }

  /**
   No stale and no predicted box reaches the controller, if and only if no clock failure has struck
   a held target since the last processed frame, restart or rewind: then, whatever is asked next,
   a returned target carries the asked frame's number, was among the detections given when that
   frame was last processed, and was observed no longer than the limit ago.
   */
  lemma NoStaleTarget(cfg: Config, r: Run, n: nat)
    requires ValidConfig(cfg) && IsRun(cfg, r) && n <= |r.calls|
    ensures NothingStale(cfg, r, n) <==> !Struck(r, n)
  {
    OrphanedWhenStruck(cfg, r, n);
    if Struck(r, n) {
      OrphanIsStale(cfg, r, n);
    } else {
      forall call | Returns(cfg, r.states[n], call)
        ensures exists k :: Recent(cfg, r, k, n, call, Answer(cfg, r.states[n], call).value.value)
      {
        AnswerIsRecent(cfg, r, n, call);
      }
    }
  }

  lemma {:induction false} StruckTargetStays(cfg: Config, r: Run, k: nat, n: nat)
    requires ValidConfig(cfg) && IsRun(cfg, r) && n <= |r.calls| && StruckAt(r, k, n)
    ensures Orphaned(r.states[n])
    ensures r.states[n].cached == r.states[k].cached && r.states[n].lastSequence == r.states[k].lastSequence
  {
    var s, call := r.states[n - 1], r.calls[n - 1];
    RunKeepsInv(cfg, r, n - 1);
    StepAt(cfg, r, n - 1);
    if k < n - 1 {
      assert StruckAt(r, k, n - 1);
      StruckTargetStays(cfg, r, k, n - 1);
      OrphanPersists(cfg, s, call);
    } else if Orphaned(s) {
      OrphanPersists(cfg, s, call);
    } else {
      AfterKeepsInv(cfg, s, call);
    }
  }

  /** Until a call clears it, the target struck at `k` is answered again for its frame, at any later time. */
  lemma ClockFailureLeavesStaleTarget(cfg: Config, r: Run, k: nat, n: nat, again: Call)
    requires ValidConfig(cfg) && IsRun(cfg, r) && n <= |r.calls| && StruckAt(r, k, n)
    requires again.Ask? && r.states[k].lastSequence == Some(again.frame.sequence)
    ensures r.states[k].cached.Some? && r.states[n].lastSequence == r.states[k].lastSequence
    ensures Answer(cfg, r.states[n], again) == Ok(r.states[k].cached) && After(cfg, r.states[n], again) == r.states[n]
  {
    RunKeepsInv(cfg, r, n);
    StruckTargetStays(cfg, r, k, n);
    OrphanIsReturnedForever(cfg, r.states[n], again.frame, again.detections, again.clock);
  }

  /** A frame with one good detection is processed at time zero and asked for again while the clock fails. */
  function StruckCalls(frame: Frame, d: Detection): seq<Call> {
    [Ask(frame, [d], Some(0.0)), Ask(frame, [d], None)]
  }

  function StruckRun(cfg: Config, frame: Frame, d: Detection): Run {
    var calls := StruckCalls(frame, d);
    var locked := After(cfg, INITIAL, calls[0]);
    Run(calls, [INITIAL, locked, After(cfg, locked, calls[1])])
  }

  lemma StruckRunIsStruck(cfg: Config, frame: Frame, d: Detection)
    requires ValidConfig(cfg) && cfg.minimumHits == 1 && Acquirable(cfg, d)
    ensures var r := StruckRun(cfg, frame, d);
            && IsRun(cfg, r) && StruckAt(r, 1, 2)
            && r.states[1].cached == Some(Target(d, frame.sequence)) && r.states[1].lastSequence == Some(frame.sequence)
  {
    var best := FirstAcquirable(cfg, frame, [d]);
    assert d in [d];
    assert best == Some(d);
  }

  /** It happens: whenever that frame is asked for then, with no detections at all, the old one is returned. */
  lemma StaleTargetExample(cfg: Config, frame: Frame, d: Detection, later: Option<real>)
    requires ValidConfig(cfg) && cfg.minimumHits == 1 && Acquirable(cfg, d)
    ensures var r := StruckRun(cfg, frame, d);
            IsRun(cfg, r) && Answer(cfg, r.states[2], Ask(frame, [], later)) == Ok(Some(Target(d, frame.sequence)))
  {
    StruckRunIsStruck(cfg, frame, d);
    ClockFailureLeavesStaleTarget(cfg, StruckRun(cfg, frame, d), 1, 2, Ask(frame, [], later));
  }
}
