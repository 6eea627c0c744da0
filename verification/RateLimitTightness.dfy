/** The bounds of the limiters are exact: for every window some run reaches them. */
module RateLimitTightness {
  import opened Wrappers
  import opened Sets
  import opened Settings
  import opened RateLimits
  import opened RateLimitTheorems

  lemma Snoc(l: Limits, steps: seq<Step>, s: State, step: Step, s': State)
    requires Window(l) != 0 && Exec(l, steps) == Some(s) && Apply(l, s, step) == Some(s')
    ensures Exec(l, steps + [step]) == Some(s')
  {
    assert (steps + [step])[..|steps|] == steps;
  }

  /** Time passes. */
  lemma Pass(l: Limits, steps: seq<Step>, s: State, ticks: nat) returns (steps': seq<Step>, s': State)
    requires Window(l) != 0 && Exec(l, steps) == Some(s)
    ensures Exec(l, steps') == Some(s') && s' == s.(now := s.now + ticks)
  {
    s' := s.(now := s.now + ticks);
    Snoc(l, steps, s, Tick(ticks), s');
    steps' := steps + [Tick(ticks)];
  }

  // ---- jobs that arrive -----------------------------------------------------------------

  /** The jobs `first` to `first + n - 1` read the clock at `at` and wait to increment. */
  ghost predicate Waiting(s: State, first: nat, n: nat, key: string, at: int) {
    forall c | first <= c < first + n :: c in s.jobs && s.jobs[c] == Job(0, key, at, AtIncr)
  }

  /** The jobs `first` to `first + n - 1` read the clock at `at`, incremented at `countedAt`, and passed. */
  ghost predicate AllPassed(s: State, first: nat, n: nat, key: string, at: int, countedAt: int) {
    forall c | first <= c < first + n ::
      && c in s.jobs && s.jobs[c].key == key && s.jobs[c].readAt == at
      && s.jobs[c].phase.Passed? && s.jobs[c].phase.countedAt == countedAt
  }

  /** Neither the clock nor any job but `first` to `first + n - 1` has changed. */
  ghost predicate OnlyJobs(s: State, s': State, first: nat, n: nat) {
    && s'.now == s.now
    && (forall d | d in s.jobs && !(first <= d < first + n) :: d in s'.jobs && s'.jobs[d] == s.jobs[d])
    && (forall d | d in s'.jobs :: d in s.jobs || first <= d < first + n)
  }

  /** Some new jobs arrive. */
  lemma {:induction false} Gather(l: Limits, steps: seq<Step>, s: State, first: nat, n: nat, key: string)
    returns (steps': seq<Step>, s': State)
    requires Window(l) != 0 && Exec(l, steps) == Some(s) && RouteOf(l.settings, false) == ViaRedis
    requires forall c | c in s.jobs :: c < first
    ensures Exec(l, steps') == Some(s') && Waiting(s', first, n, key, s.now)
    ensures OnlyJobs(s, s', first, n) && s'.increments == s.increments && s'.locals == s.locals
  {
    if n == 0 {
      steps', s' := steps, s;
    } else {
      var steps1, s1 := Gather(l, steps, s, first, n - 1, key);
      var c := first + n - 1;
      s' := DoArrive(l, s1, c, 0, key, false);
      Snoc(l, steps1, s1, Arrive(c, 0, key, false), s');
      steps' := steps1 + [Arrive(c, 0, key, false)];
    }
  }

  // ---- jobs that pass Redis -------------------------------------------------------------

  lemma DecidePasses(l: Limits, s: State, c: nat, n: nat, at: int)
    requires c in s.jobs && s.jobs[c].phase == AtDecide(n, at) && n <= Allowed(l)
    ensures DoDecide(l, s, c) == SetPhase(s, c, Passed(n, at))
  {}

  /** The INCR of a job within the grace of its clock read. */
  lemma IncrNow(l: Limits, s: State, c: nat)
    requires Sane(l) && CountersOk(l, s) && c in s.jobs && s.jobs[c].phase.AtIncr?
    requires s.now <= s.jobs[c].readAt + Grace(l)
    ensures var slot := SlotOf(l, s.jobs[c]);
            var n := |IncrementsOf(s, slot)| + 1;
            DoIncr(l, s, c, true, true)
            == Some(SetPhase(Incremented(s, slot, c), c, if n == 1 then AtExpire(n, s.now) else AtDecide(n, s.now)))
  {
    StillLive(l, s, s.jobs[c]);
  }

  /** A job that has incremented within the limit sets the expiry if it is first, and passes. */
  lemma Finish(l: Limits, steps: seq<Step>, s: State, c: nat) returns (steps': seq<Step>, s': State)
    requires Sane(l) && Exec(l, steps) == Some(s) && c in s.jobs
    requires s.jobs[c].phase.AtExpire? || s.jobs[c].phase.AtDecide?
    requires s.jobs[c].phase.ticket <= Allowed(l)
    ensures Exec(l, steps') == Some(s')
    ensures s'.now == s.now && s'.increments == s.increments && s'.locals == s.locals
    ensures s'.jobs == s.jobs[c := s.jobs[c].(phase := Passed(s.jobs[c].phase.ticket, s.jobs[c].phase.countedAt))]
  {
    steps', s' := steps, s;
    var n, at := s.jobs[c].phase.ticket, s.jobs[c].phase.countedAt;
    if s.jobs[c].phase.AtExpire? {
      s' := DoExpire(l, s, c, true, true).value;
      Snoc(l, steps, s, Expire(c, true, true), s');
      steps' := steps + [Expire(c, true, true)];
    }
    DecidePasses(l, s', c, n, at);
    Snoc(l, steps', s', Decide(c), SetPhase(s', c, Passed(n, at)));
    steps' := steps' + [Decide(c)];
    s' := SetPhase(s', c, Passed(n, at));
  }

  /** A waiting job of a slot with room left increments and passes. */
  lemma ReleaseOne(l: Limits, steps: seq<Step>, s: State, c: nat) returns (steps': seq<Step>, s': State)
    requires Sane(l) && Exec(l, steps) == Some(s) && c in s.jobs && s.jobs[c].phase.AtIncr?
    requires s.now <= s.jobs[c].readAt + Grace(l) && |IncrementsOf(s, SlotOf(l, s.jobs[c]))| < Allowed(l)
    ensures Exec(l, steps') == Some(s') && s'.now == s.now && s'.locals == s.locals
    ensures var slot := SlotOf(l, s.jobs[c]);
            var n := |IncrementsOf(s, slot)| + 1;
            && s'.jobs == s.jobs[c := s.jobs[c].(phase := Passed(n, s.now))]
            && s'.increments == s.increments[slot := IncrementsOf(s, slot) + [c]]
  {
    RunKeeps(l, steps);
    IncrNow(l, s, c);
    var s1 := DoIncr(l, s, c, true, true).value;
    Snoc(l, steps, s, Incr(c, true, true), s1);
    steps', s' := Finish(l, steps + [Incr(c, true, true)], s1, c);
  }

  /** Waiting jobs of one slot, up to the limit, increment and pass. */
  lemma {:induction false} Release(l: Limits, steps: seq<Step>, s: State, first: nat, n: nat, slot: Slot, at: int)
    returns (steps': seq<Step>, s': State)
    requires Sane(l) && Exec(l, steps) == Some(s) && Waiting(s, first, n, slot.key, at) && n <= Allowed(l)
    requires s.now <= at + Grace(l) && slot.bucket == at / Window(l) && IncrementsOf(s, slot) == []
    ensures Exec(l, steps') == Some(s') && AllPassed(s', first, n, slot.key, at, s.now)
    ensures OnlyJobs(s, s', first, n) && s'.locals == s.locals
    ensures |IncrementsOf(s', slot)| == n
    ensures forall other | other != slot :: IncrementsOf(s', other) == IncrementsOf(s, other)
  {
    if n == 0 {
      steps', s' := steps, s;
    } else {
      var steps1, s1 := Release(l, steps, s, first, n - 1, slot, at);
      steps', s' := ReleaseOne(l, steps1, s1, first + n - 1);
    }
  }

  /** A burst of new jobs up to the limit of a fresh slot. */
  lemma Burst(l: Limits, steps: seq<Step>, s: State, first: nat, slot: Slot)
    returns (steps': seq<Step>, s': State)
    requires Sane(l) && Exec(l, steps) == Some(s) && RouteOf(l.settings, false) == ViaRedis
    requires forall c | c in s.jobs :: c < first
    requires slot.bucket == s.now / Window(l) && IncrementsOf(s, slot) == []
    ensures Exec(l, steps') == Some(s') && AllPassed(s', first, Allowed(l), slot.key, s.now, s.now)
    ensures OnlyJobs(s, s', first, Allowed(l)) && s'.locals == s.locals
    ensures forall other | other != slot :: IncrementsOf(s', other) == IncrementsOf(s, other)
  {
    var steps1, s1 := Gather(l, steps, s, first, Allowed(l), slot.key);
    steps', s' := Release(l, steps1, s1, first, Allowed(l), slot, s.now);
  }

  // ---- jobs that Redis fails and memory admits --------------------------------------------

  /** The memory of process 0 admitted the jobs `first` to `first + n - 1` at `at`. */
  ghost predicate AllRemembered(s: State, first: nat, n: nat, key: string, at: int) {
    forall c | first <= c < first + n ::
      && c in s.jobs && s.jobs[c].process == 0 && s.jobs[c].key == key
      && s.jobs[c].phase.InMemory? && s.jobs[c].phase.admitted && s.jobs[c].phase.at == at
  }

  /** The memory of process 0 holds `n` admissions of the key, all at the present time. */
  ghost predicate FilledNow(s: State, key: string, n: nat) {
    var log := Memory.LogOf(LocalOf(s, 0).windows, key);
    |log| == n && forall i | 0 <= i < n :: log[i] == s.now
  }

  /** A job whose INCR fails, admitted by a memory with room left. */
  lemma RememberOne(l: Limits, steps: seq<Step>, s: State, c: nat, key: string, n: nat)
    returns (steps': seq<Step>, s': State)
    requires Sane(l) && Exec(l, steps) == Some(s) && c in s.jobs && s.jobs[c] == Job(0, key, s.now, AtIncr)
    requires !Production(l.settings) && FilledNow(s, key, n) && n < Allowed(l)
    ensures Exec(l, steps') == Some(s') && AllRemembered(s', c, 1, key, s.now)
    ensures OnlyJobs(s, s', c, 1) && FilledNow(s', key, n + 1)
  {
    s' := DoIncr(l, s, c, false, false).value;
    Snoc(l, steps, s, Incr(c, false, false), s');
    steps' := steps + [Incr(c, false, false)];
  }

  /** While Redis fails, the memory of a process fills up to the limit at one moment. */
  lemma {:induction false} Remember(l: Limits, steps: seq<Step>, s: State, first: nat, n: nat, key: string)
    returns (steps': seq<Step>, s': State)
    requires Sane(l) && Exec(l, steps) == Some(s) && Waiting(s, first, n, key, s.now) && n <= Allowed(l)
    requires !Production(l.settings) && FilledNow(s, key, 0)
    ensures Exec(l, steps') == Some(s') && AllRemembered(s', first, n, key, s.now)
    ensures OnlyJobs(s, s', first, n) && FilledNow(s', key, n)
  {
    if n == 0 {
      steps', s' := steps, s;
    } else {
      var steps1, s1 := Remember(l, steps, s, first, n - 1, key);
      steps', s' := RememberOne(l, steps1, s1, first + n - 1, key, n - 1);
    }
  }

  /** A burst of new jobs that Redis fails and an untouched memory admits. */
  lemma MemoryBurst(l: Limits, steps: seq<Step>, s: State, first: nat, key: string)
    returns (steps': seq<Step>, s': State)
    requires Sane(l) && Exec(l, steps) == Some(s) && RouteOf(l.settings, false) == ViaRedis
    requires !Production(l.settings) && s.locals == map[] && forall c | c in s.jobs :: c < first
    ensures Exec(l, steps') == Some(s') && AllRemembered(s', first, Allowed(l), key, s.now)
    ensures OnlyJobs(s, s', first, Allowed(l))
  {
    var steps1, s1 := Gather(l, steps, s, first, Allowed(l), key);
    steps', s' := Remember(l, steps1, s1, first, Allowed(l), key);
  }

  // ---- the bounds are reached --------------------------------------------------------------

  /** The last tick of one bucket and the first tick of the next, in a window that is not aligned. */
  lemma EdgeTimes(w: int, t: int)
    requires w >= 1 && !Aligned(w, t)
    ensures var edge := Product(t / w, w);
            && t - w < edge - 1 < edge <= t && edge >= 1
            && (edge - 1) / w == t / w - 1 && edge / w == t / w
  {
    var b := t / w;
    BucketTimes(t, w);
    assert t == b * w + t % w;
    if b <= 0 {
      Distribute(b + 1, 1, w);
    }
    assert (b - 1) * w == b * w - w;
    EdgeBucket(w, b - 1, w - 1);
    EdgeBucket(w, b, 0);
  }

  lemma EdgeBucket(w: int, b: int, r: int)
    requires 0 <= r < w
    ensures (b * w + r) / w == b
  {
    BucketTimes(b * w + r, w);
    var q := (b * w + r) / w;
    assert (b + 1) * w == b * w + w;
    if q < b {
      Distribute(q + 1, b, w);
    } else if q > b {
      Distribute(b + 1, q, w);
    }
  }

  /** One burst fills a bucket at its last tick, another the next bucket a tick later. */
  lemma EdgeBursts(l: Limits, key: string, t: int) returns (steps: seq<Step>, s: State)
    requires Sane(l) && RouteOf(l.settings, false) == ViaRedis && !Aligned(Window(l), t)
    ensures Exec(l, steps) == Some(s) && t - Window(l) < s.now - 1 < s.now <= t && s.locals == map[]
    ensures AllPassed(s, 0, Allowed(l), key, s.now - 1, s.now - 1)
    ensures AllPassed(s, Allowed(l), Allowed(l), key, s.now, s.now)
    ensures forall c | c in s.jobs :: c < 2 * Allowed(l)
  {
    var b := t / Window(l);
    var edge := Product(b, Window(l));
    EdgeTimes(Window(l), t);
    var steps0, s0 := Pass(l, [], START, edge - 1);
    var steps1, s1 := Burst(l, steps0, s0, 0, Slot(key, b - 1));
    var steps2, s2 := Pass(l, steps1, s1, 1);
    assert IncrementsOf(s2, Slot(key, b)) == IncrementsOf(s1, Slot(key, b)) == IncrementsOf(s0, Slot(key, b));
    steps, s := Burst(l, steps2, s2, Allowed(l), Slot(key, b));
  }

  lemma EdgesPassed(l: Limits, s: State, key: string, t: int, at: int)
    requires Sane(l) && t - Window(l) < at - 1 < at <= t
    requires AllPassed(s, 0, Allowed(l), key, at - 1, at - 1)
    requires AllPassed(s, Allowed(l), Allowed(l), key, at, at)
    ensures Below(2 * Allowed(l)) <= PassedDuring(l, s, key, t)
  {
    forall c | c in Below(2 * Allowed(l)) ensures c in PassedDuring(l, s, key, t) {
      if c < Allowed(l) {
        assert s.jobs[c].readAt == at - 1;
      } else {
        assert s.jobs[c].readAt == at;
      }
    }
  }

  function Below(n: nat): (s: set<nat>)
    ensures |s| == n && forall c: nat :: c in s <==> c < n
  {
    if n == 0 then {} else Below(n - 1) + {n - 1}
  }

  /** In every window that is not aligned, some run lets exactly twice `requests` jobs of a key through. */
  lemma TwiceIsReached(l: Limits, key: string, t: int) returns (steps: seq<Step>)
    requires Sane(l) && RouteOf(l.settings, false) == ViaRedis && !Aligned(Window(l), t)
    ensures Exec(l, steps).Some?
    ensures |PassedDuring(l, Exec(l, steps).value, key, t)| == 2 * Allowed(l)
  {
    var steps1, s := EdgeBursts(l, key, t);
    steps := steps1;
    EdgesPassed(l, s, key, t, s.now);
    SubsetSize(Below(2 * Allowed(l)), PassedDuring(l, s, key, t));
    RedisBound(l, steps, key, t);
  }

  /** Every run lets at most `requests` jobs of the key through in `(t - window, t]`. */
  ghost predicate KeepsLimit(l: Limits, key: string, t: int)
    requires Sane(l)
  {
    forall steps | Exec(l, steps).Some? :: |PassedDuring(l, Exec(l, steps).value, key, t)| <= Allowed(l)
  }

  /**
   * The Redis limiter keeps `requests` per window exactly for the windows that end with a bucket or reach
   * back to the start of the clock; in particular for all windows when a window is one tick.
   */
  lemma KeepsLimitWhenAligned(l: Limits, key: string, t: int)
    requires Sane(l)
    ensures KeepsLimit(l, key, t) <==> RouteOf(l.settings, false) != ViaRedis || Aligned(Window(l), t)
  {
    if RouteOf(l.settings, false) == ViaRedis && !Aligned(Window(l), t) {
      var steps := TwiceIsReached(l, key, t);
      assert Exec(l, steps).Some? && |PassedDuring(l, Exec(l, steps).value, key, t)| > Allowed(l);
    } else {
      forall steps | Exec(l, steps).Some?
        ensures |PassedDuring(l, Exec(l, steps).value, key, t)| <= Allowed(l)
      {
        KeepsLimitIn(l, steps, key, t);
      }
    }
  }

  /** Without the Redis backend no job passes Redis. */
  lemma NothingPasses(l: Limits, steps: seq<Step>)
    requires Sane(l) && Exec(l, steps).Some? && RouteOf(l.settings, false) != ViaRedis
    ensures forall c | c in Exec(l, steps).value.jobs :: !Exec(l, steps).value.jobs[c].phase.Passed?
  {
    RunKeeps(l, steps);
    var s := Exec(l, steps).value;
    forall c | c in s.jobs ensures !s.jobs[c].phase.Passed? {
      assert JobOk(l, s, c, s.jobs[c]);
    }
  }

  lemma KeepsLimitIn(l: Limits, steps: seq<Step>, key: string, t: int)
    requires Sane(l) && Exec(l, steps).Some?
    requires RouteOf(l.settings, false) != ViaRedis || Aligned(Window(l), t)
    ensures |PassedDuring(l, Exec(l, steps).value, key, t)| <= Allowed(l)
  {
    if Aligned(Window(l), t) {
      RedisBound(l, steps, key, t);
    } else {
      NothingPasses(l, steps);
      assert PassedDuring(l, Exec(l, steps).value, key, t) == {};
    }
  }

  /**
   * Outside production the memory of one process adds another `requests` while Redis fails: in every window
   * that is not aligned some run admits exactly three times `requests` jobs of a key through one process.
   */
  lemma ThriceIsReached(l: Limits, key: string, t: int) returns (steps: seq<Step>)
    requires Sane(l) && RouteOf(l.settings, false) == ViaRedis && !Aligned(Window(l), t)
    requires !Production(l.settings)
    ensures Exec(l, steps).Some?
    ensures var s := Exec(l, steps).value;
            |PassedDuring(l, s, key, t) + RememberedDuring(l, s, 0, key, t)| == 3 * Allowed(l)
  {
    var r := Allowed(l);
    var steps1, s1 := EdgeBursts(l, key, t);
    var steps2, s2 := MemoryBurst(l, steps1, s1, 2 * r, key);
    steps := steps2;
    EdgesPassed(l, s2, key, t, s1.now);
    BurstRemembered(l, s2, 2 * r, key, t, s1.now);
    var all := PassedDuring(l, s2, key, t) + RememberedDuring(l, s2, 0, key, t);
    SubsetSize(Below(3 * r), all);
    CombinedBound(l, steps, 0, key, t);
  }

  lemma BurstRemembered(l: Limits, s: State, first: nat, key: string, t: int, at: int)
    requires Sane(l) && AllRemembered(s, first, Allowed(l), key, at) && t - Window(l) < at <= t
    ensures forall c | first <= c < first + Allowed(l) :: c in RememberedDuring(l, s, 0, key, t)
  {}

  // ---- the combined limit -----------------------------------------------------------------------

  /** Every run admits at most `requests` jobs of the key through the process in `(t - window, t]`. */
  ghost predicate KeepsCombined(l: Limits, process: nat, key: string, t: int)
    requires Sane(l)
  {
    forall steps | Exec(l, steps).Some? :: |AdmittedDuring(l, Exec(l, steps).value, process, key, t)| <= Allowed(l)
  }

  /** What Redis and the memory of a process let through. */
  function AdmittedDuring(l: Limits, s: State, process: nat, key: string, t: int): set<nat> {
    PassedDuring(l, s, key, t) + RememberedDuring(l, s, process, key, t)
  }

  /** Outside production some run admits exactly twice `requests` jobs in a window that is aligned. */
  lemma TwiceWithMemory(l: Limits, key: string, t: int) returns (steps: seq<Step>)
    requires Sane(l) && RouteOf(l.settings, false) == ViaRedis && !Production(l.settings) && t >= 0
    ensures Exec(l, steps).Some?
    ensures var s := Exec(l, steps).value;
            && |AdmittedDuring(l, s, 0, key, t)| >= 2 * Allowed(l)
            && |CountedDuring(l, s, key, t) + RememberedDuring(l, s, 0, key, t)| >= 2 * Allowed(l)
            && (Aligned(Window(l), t) ==> |AdmittedDuring(l, s, 0, key, t)| == 2 * Allowed(l))
  {
    var r := Allowed(l);
    var steps0, s0 := Pass(l, [], START, t);
    var steps1, s1 := Burst(l, steps0, s0, 0, Slot(key, t / Window(l)));
    var steps2, s2 := MemoryBurst(l, steps1, s1, r, key);
    steps := steps2;
    BurstRemembered(l, s2, r, key, t, t);
    BurstPassed(l, s1, s2, key, t);
    SubsetSize(Below(2 * r), AdmittedDuring(l, s2, 0, key, t));
    SubsetSize(Below(2 * r), CountedDuring(l, s2, key, t) + RememberedDuring(l, s2, 0, key, t));
    CombinedBound(l, steps, 0, key, t);
  }

  lemma BurstPassed(l: Limits, s: State, s': State, key: string, t: int)
    requires Sane(l) && AllPassed(s, 0, Allowed(l), key, t, t) && OnlyJobs(s, s', Allowed(l), Allowed(l))
    ensures forall c | 0 <= c < Allowed(l) :: c in PassedDuring(l, s', key, t) && c in CountedDuring(l, s', key, t)
  {
    forall c | 0 <= c < Allowed(l) ensures c in PassedDuring(l, s', key, t) && c in CountedDuring(l, s', key, t) {
      assert c in s.jobs;
    }
  }

  /** With one limiter only, memory adds nothing to Redis or Redis nothing to memory. */
  lemma OneLimiter(l: Limits, steps: seq<Step>, process: nat, key: string, t: int)
    requires Sane(l) && Exec(l, steps).Some?
    ensures RouteOf(l.settings, false) != ViaRedis ==>
              AdmittedDuring(l, Exec(l, steps).value, process, key, t)
              == RememberedDuring(l, Exec(l, steps).value, process, key, t)
    ensures RouteOf(l.settings, false) == ViaRedis && Production(l.settings) ==>
              RememberedDuring(l, Exec(l, steps).value, process, key, t) == {}
  {
    if RouteOf(l.settings, false) != ViaRedis {
      NothingPasses(l, steps);
    } else if Production(l.settings) {
      RunKeeps(l, steps);
      var s := Exec(l, steps).value;
      forall c | c in s.jobs ensures !s.jobs[c].phase.InMemory? {
        assert JobOk(l, s, c, s.jobs[c]);
      }
    }
  }

  /** Nothing happens before the start of the clock. */
  lemma NothingBefore(l: Limits, steps: seq<Step>, process: nat, key: string, t: int)
    requires Sane(l) && Exec(l, steps).Some? && t < 0
    ensures PassedDuring(l, Exec(l, steps).value, key, t) == {}
    ensures RememberedDuring(l, Exec(l, steps).value, process, key, t) == {}
  {
    RunKeeps(l, steps);
    var s := Exec(l, steps).value;
    forall c | c in s.jobs ensures s.jobs[c].readAt >= 0 && (s.jobs[c].phase.InMemory? ==> s.jobs[c].phase.at >= 0) {
      assert JobOk(l, s, c, s.jobs[c]);
    }
  }

  lemma KeepsCombinedIn(l: Limits, steps: seq<Step>, process: nat, key: string, t: int)
    requires Sane(l) && Exec(l, steps).Some?
    requires RouteOf(l.settings, false) != ViaRedis || t < 0 || (Production(l.settings) && Aligned(Window(l), t))
    ensures |AdmittedDuring(l, Exec(l, steps).value, process, key, t)| <= Allowed(l)
  {
    OneLimiter(l, steps, process, key, t);
    if RouteOf(l.settings, false) != ViaRedis {
      CombinedBound(l, steps, process, key, t);
    } else if t < 0 {
      NothingBefore(l, steps, process, key, t);
    } else {
      RedisBound(l, steps, key, t);
      assert AdmittedDuring(l, Exec(l, steps).value, process, key, t)
          == PassedDuring(l, Exec(l, steps).value, key, t);
    }
  }

  /**
   * Redis and the memory of process 0 together keep `requests` per window exactly when Redis is not used, or
   * in production for the aligned windows: outside production a failing Redis lets both limits be used up at
   * one moment, in every window.
   */
  lemma KeepsCombinedWhen(l: Limits, key: string, t: int)
    requires Sane(l)
    ensures KeepsCombined(l, 0, key, t) <==>
            RouteOf(l.settings, false) != ViaRedis || t < 0 || (Production(l.settings) && Aligned(Window(l), t))
  {
    if RouteOf(l.settings, false) != ViaRedis || t < 0 || (Production(l.settings) && Aligned(Window(l), t)) {
      forall steps | Exec(l, steps).Some?
        ensures |AdmittedDuring(l, Exec(l, steps).value, 0, key, t)| <= Allowed(l)
      {
        KeepsCombinedIn(l, steps, 0, key, t);
      }
    } else {
      var steps := ExceedsCombined(l, key, t);
      assert Exec(l, steps).Some? && |AdmittedDuring(l, Exec(l, steps).value, 0, key, t)| > Allowed(l);
    }
  }

  lemma ExceedsCombined(l: Limits, key: string, t: int) returns (steps: seq<Step>)
    requires Sane(l) && RouteOf(l.settings, false) == ViaRedis && t >= 0
    requires !Production(l.settings) || !Aligned(Window(l), t)
    ensures Exec(l, steps).Some? && |AdmittedDuring(l, Exec(l, steps).value, 0, key, t)| > Allowed(l)
  {
    if Production(l.settings) {
      steps := TwiceIsReached(l, key, t);
      var s := Exec(l, steps).value;
      SubsetSize(PassedDuring(l, s, key, t), AdmittedDuring(l, s, 0, key, t));
    } else {
      steps := TwiceWithMemory(l, key, t);
    }
  }
}
