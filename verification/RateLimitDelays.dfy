/** Dated by INCR instead of clock read, the limiter's bound is exact too: delays let bursts of several buckets meet. */
module RateLimitDelays {
  import opened Wrappers
  import opened Sets
  import opened Settings
  import opened RateLimits
  import opened RateLimitTheorems
  import opened RateLimitTightness

  /** When the jobs of a bucket read the clock: the first at the end of the first bucket, all others at the start. */
  function ReadTime(w: int, j: nat): int {
    if j == 0 then w - 1 else Product(j, w)
  }

  lemma ReadTimes(w: int, j: nat)
    requires w >= 1
    ensures 0 <= ReadTime(w, j) <= ReadTime(w, j + 1) && ReadTime(w, j) / w == j
    ensures ReadTime(w, j) >= w - 1
  {
    assert (j + 1) * w == j * w + w;
    if j == 0 {
      EdgeBucket(w, 0, w - 1);
    } else {
      EdgeBucket(w, j, 0);
      Distribute(1, j, w);
    }
  }

  /** The jobs of one bucket have arrived and wait. */
  ghost predicate GroupWaits(l: Limits, s: State, key: string, j: nat)
    requires Sane(l)
  {
    Waiting(s, Product(j, Allowed(l)), Allowed(l), key, ReadTime(Window(l), j))
  }

  /** The jobs of one bucket have all passed at `at`. */
  ghost predicate GroupPassed(l: Limits, s: State, key: string, j: nat, at: int)
    requires Sane(l)
  {
    AllPassed(s, Product(j, Allowed(l)), Allowed(l), key, ReadTime(Window(l), j), at)
  }

  lemma GroupEnds(j: nat, k: nat, r: nat)
    requires j < k
    ensures 0 <= Product(j, r) <= Product(j, r) + r == Product(j + 1, r) <= Product(k, r)
  {
    assert (j + 1) * r == j * r + r;
    Distribute(j + 1, k, r);
  }

  /** The jobs of `k` buckets arrive, bucket after bucket. */
  lemma {:induction false} GatherGroups(l: Limits, key: string, k: nat) returns (steps: seq<Step>, s: State)
    requires Sane(l) && RouteOf(l.settings, false) == ViaRedis && k >= 1
    ensures Exec(l, steps) == Some(s) && s.now == ReadTime(Window(l), k - 1)
    ensures s.increments == map[] && s.locals == map[]
    ensures forall j: nat | j < k :: GroupWaits(l, s, key, j)
    ensures forall c | c in s.jobs :: c < Product(k, Allowed(l))
  {
    ReadTimes(Window(l), k - 1);
    GroupEnds(k - 1, k, Allowed(l));
    var steps0, s0 := [], START;
    if k > 1 {
      ReadTimes(Window(l), k - 2);
      steps0, s0 := GatherGroups(l, key, k - 1);
    }
    var steps1, s1 := Pass(l, steps0, s0, ReadTime(Window(l), k - 1) - s0.now);
    steps, s := Gather(l, steps1, s1, Product(k - 1, Allowed(l)), Allowed(l), key);
    forall j: nat | j < k ensures GroupWaits(l, s, key, j) {
      if j < k - 1 {
        assert GroupWaits(l, s0, key, j);
        GroupEnds(j, k - 1, Allowed(l));
      }
    }
  }

  /** The first `k` of `m` waiting buckets pass together. */
  lemma {:induction false} ReleaseGroups(l: Limits, steps: seq<Step>, s: State, key: string, k: nat, m: nat)
    returns (steps': seq<Step>, s': State)
    requires Sane(l) && Exec(l, steps) == Some(s) && k <= m && s.now <= Window(l) - 1 + Grace(l)
    requires s.increments == map[] && forall j: nat | j < m :: GroupWaits(l, s, key, j)
    ensures Exec(l, steps') == Some(s') && OnlyJobs(s, s', 0, Product(m, Allowed(l))) && s'.locals == s.locals
    ensures forall j: nat | j < k :: GroupPassed(l, s', key, j, s.now)
    ensures forall j: nat | k <= j < m :: GroupWaits(l, s', key, j)
    ensures forall j: nat | k <= j :: IncrementsOf(s', Slot(key, j)) == []
  {
    if k == 0 {
      steps', s' := steps, s;
    } else {
      var r := Allowed(l);
      var steps1, s1 := ReleaseGroups(l, steps, s, key, k - 1, m);
      ReadTimes(Window(l), k - 1);
      assert GroupWaits(l, s1, key, k - 1);
      steps', s' := Release(l, steps1, s1, Product(k - 1, r), r, Slot(key, k - 1), ReadTime(Window(l), k - 1));
      GroupEnds(k - 1, m, r);
      OthersKept(l, s1, s', key, k, m, s.now);
    }
  }

  /** What happens to the jobs of one bucket leaves those of the others alone. */
  lemma OthersKept(l: Limits, s: State, s': State, key: string, k: nat, m: nat, at: int)
    requires Sane(l) && 1 <= k <= m && OnlyJobs(s, s', Product(k - 1, Allowed(l)), Allowed(l))
    requires forall j: nat | j < k - 1 :: GroupPassed(l, s, key, j, at)
    requires forall j: nat | k - 1 <= j < m :: GroupWaits(l, s, key, j)
    ensures forall j: nat | j < k - 1 :: GroupPassed(l, s', key, j, at)
    ensures forall j: nat | k <= j < m :: GroupWaits(l, s', key, j)
  {
    GroupEnds(k - 1, k, Allowed(l));
    forall j: nat | j < k - 1 ensures GroupPassed(l, s', key, j, at) {
      assert GroupPassed(l, s, key, j, at);
      GroupEnds(j, k - 1, Allowed(l));
    }
    forall j: nat | k <= j < m ensures GroupWaits(l, s', key, j) {
      assert GroupWaits(l, s, key, j);
      Distribute(k, j, Allowed(l));
    }
  }

  lemma GroupOf(c: nat, m: nat, r: int) returns (j: nat)
    requires r >= 1 && c < Product(m, r)
    ensures j < m && Product(j, r) <= c < Product(j, r) + r
  {
    j := c / r;
    BucketTimes(c, r);
    GroupEnds(j, j + 1, r);
    if j >= m {
      Distribute(m, j, r);
    }
  }

  /** The jobs of many buckets are counted when each bucket is. */
  lemma GroupsCounted(l: Limits, s: State, key: string, m: nat, t: int)
    requires Sane(l)
    requires forall j: nat | j < m :: GroupPassed(l, s, key, j, t - Window(l) + 1) || GroupPassed(l, s, key, j, t)
    ensures Below(Product(m, Allowed(l))) <= CountedDuring(l, s, key, t)
  {
    var r := Allowed(l);
    forall c | c in Below(Product(m, r)) ensures c in CountedDuring(l, s, key, t) {
      var j := GroupOf(c, m, r);
      assert GroupPassed(l, s, key, j, t - Window(l) + 1) || GroupPassed(l, s, key, j, t);
    }
  }

  /** The jobs below `n` are as they were. */
  ghost predicate SameBelow(s: State, s': State, n: int) {
    forall c | c in s.jobs && c < n :: c in s'.jobs && s'.jobs[c] == s.jobs[c]
  }

  lemma GroupsStay(l: Limits, s: State, s': State, key: string, m: nat, at: int)
    requires Sane(l) && SameBelow(s, s', Product(m, Allowed(l)))
    ensures forall j: nat | j < m && GroupPassed(l, s, key, j, at) :: GroupPassed(l, s', key, j, at)
  {
    forall j: nat | j < m && GroupPassed(l, s, key, j, at) ensures GroupPassed(l, s', key, j, at) {
      GroupEnds(j, m, Allowed(l));
    }
  }

  /** The jobs of `m` buckets pass one tick after the last of them has arrived. */
  lemma DelayedGroups(l: Limits, key: string, m: nat) returns (steps: seq<Step>, s: State)
    requires Sane(l) && RouteOf(l.settings, false) == ViaRedis && m >= 1
    requires ReadTime(Window(l), m - 1) + 1 <= Window(l) - 1 + Grace(l)
    ensures Exec(l, steps) == Some(s) && s.locals == map[] && s.now == ReadTime(Window(l), m - 1) + 1
    ensures forall c | c in s.jobs :: c < Product(m, Allowed(l))
    ensures forall j: nat | j < m :: GroupPassed(l, s, key, j, s.now)
    ensures IncrementsOf(s, Slot(key, m)) == []
  {
    var steps1, s1 := GatherGroups(l, key, m);
    var steps2, s2 := Pass(l, steps1, s1, 1);
    forall j: nat | j < m ensures GroupWaits(l, s2, key, j) {
      assert GroupWaits(l, s1, key, j);
    }
    steps, s := ReleaseGroups(l, steps2, s2, key, m, m);
  }

  /**
   * The run behind the bound: jobs read the clock at the last tick of one bucket and at the first tick of each
   * following one, their INCRs are delayed to one tick, and a last burst comes at the end of the window.
   */
  lemma DelayedBursts(l: Limits, key: string) returns (steps: seq<Step>, s: State)
    requires Sane(l) && RouteOf(l.settings, false) == ViaRedis
    ensures Exec(l, steps) == Some(s) && s.locals == map[]
    ensures forall c | c in s.jobs :: c < Product(Delayed(l), Allowed(l))
    ensures forall j: nat | j < Delayed(l) ::
              GroupPassed(l, s, key, j, s.now - Window(l) + 1) || GroupPassed(l, s, key, j, s.now)
  {
    var w, r, m := Window(l), Allowed(l), Delayed(l) - 1;
    DelayFits(w, Grace(l));
    ReadTimes(w, m);
    GroupEnds(m, m + 1, r);
    var steps1, s1 := DelayedGroups(l, key, m);
    var steps2, s2 := Pass(l, steps1, s1, w - 1);
    steps, s := Burst(l, steps2, s2, Product(m, r), Slot(key, m));
    GroupsStay(l, s1, s, key, m, s1.now);
    assert GroupPassed(l, s, key, m, s.now);
  }

  /** The INCRs of all buckets but the last fit in one tick, one window before the last bucket's. */
  lemma DelayFits(w: int, g: int)
    requires w >= 1 && g >= 2
    ensures var m := 2 + (g - 2) / w;
            && ReadTime(w, m - 1) + 1 <= w - 1 + g && ReadTime(w, m - 1) + w == ReadTime(w, m)
  {
    var q := (g - 2) / w;
    BucketTimes(g - 2, w);
    assert (q + 1) * w == q * w + w && (q + 2) * w == q * w + 2 * w;
  }

  /**
   * Some run makes as many INCRs that pass within one window as `DelayedBound` allows, and outside production
   * the memory of a process can add another `requests` there.
   */
  lemma DelayedIsReached(l: Limits, key: string) returns (steps: seq<Step>, t: int)
    requires Sane(l) && RouteOf(l.settings, false) == ViaRedis
    ensures Exec(l, steps).Some?
    ensures var s := Exec(l, steps).value;
            && |CountedDuring(l, s, key, t)| == Product(Delayed(l), Allowed(l))
            && (!Production(l.settings) ==>
                  |CountedDuring(l, s, key, t) + RememberedDuring(l, s, 0, key, t)|
                  == Product(Delayed(l), Allowed(l)) + Allowed(l))
  {
    var all := Product(Delayed(l), Allowed(l));
    var steps1, s1 := DelayedBursts(l, key);
    t := s1.now;
    var s := s1;
    steps := steps1;
    if !Production(l.settings) {
      steps, s := MemoryBurst(l, steps1, s1, all, key);
      GroupsStay(l, s1, s, key, Delayed(l), t - Window(l) + 1);
      GroupsStay(l, s1, s, key, Delayed(l), t);
      BurstRemembered(l, s, all, key, t, t);
      GroupsCounted(l, s, key, Delayed(l), t);
      SubsetSize(Below(all + Allowed(l)), CountedDuring(l, s, key, t) + RememberedDuring(l, s, 0, key, t));
      CombinedBound(l, steps, 0, key, t);
    }
    GroupsCounted(l, s, key, Delayed(l), t);
    SubsetSize(Below(all), CountedDuring(l, s, key, t));
    DelayedBound(l, steps, key, t);
  }

  // ---- when the limit is kept ------------------------------------------------------------------

  /** Every run lets at most `requests` jobs of the key through whose INCR is in `(t - window, t]`. */
  ghost predicate KeepsLimitCounted(l: Limits, key: string, t: int)
    requires Sane(l)
  {
    forall steps | Exec(l, steps).Some? :: |CountedDuring(l, Exec(l, steps).value, key, t)| <= Allowed(l)
  }

  /** A burst that read the clock at the end of a bucket is counted together with one from the next bucket. */
  lemma TwoCounted(l: Limits, key: string, t: int) returns (steps: seq<Step>)
    requires Sane(l) && RouteOf(l.settings, false) == ViaRedis && t >= Window(l)
    ensures Exec(l, steps).Some? && |CountedDuring(l, Exec(l, steps).value, key, t)| >= 2 * Allowed(l)
  {
    var w, r, b := Window(l), Allowed(l), t / Window(l);
    StartOfBucket(w, t);
    var steps0, s0 := Pass(l, [], START, Product(b, w) - 1);
    var steps1, s1 := Gather(l, steps0, s0, 0, r, key);
    var steps2, s2 := Pass(l, steps1, s1, 1);
    var steps3, s3 := Release(l, steps2, s2, 0, r, Slot(key, b - 1), s0.now);
    assert IncrementsOf(s3, Slot(key, b)) == IncrementsOf(s2, Slot(key, b));
    var steps4, s4 := Burst(l, steps3, s3, r, Slot(key, b));
    steps := steps4;
    assert Below(2 * r) <= CountedDuring(l, s4, key, t);
    SubsetSize(Below(2 * r), CountedDuring(l, s4, key, t));
  }

  lemma StartOfBucket(w: int, t: int)
    requires 1 <= w <= t
    ensures var edge := Product(t / w, w); t - w < edge <= t && (edge - 1) / w == t / w - 1 && edge / w == t / w
    ensures t / w >= 1 && Product(t / w, w) >= 1
  {
    var b := t / w;
    BucketTimes(t, w);
    if b < 1 {
      Distribute(b + 1, 1, w);
    }
    assert (b - 1) * w == b * w - w;
    EdgeBucket(w, b - 1, w - 1);
    EdgeBucket(w, b, 0);
  }

  /**
   * Dated by INCR, the limiter keeps `requests` per window exactly for the windows that reach back to the
   * start of the clock: delays reach every bucket boundary.
   */
  lemma KeepsLimitCountedOnlyAtStart(l: Limits, key: string, t: int)
    requires Sane(l)
    ensures KeepsLimitCounted(l, key, t) <==> RouteOf(l.settings, false) != ViaRedis || t < Window(l)
  {
    if RouteOf(l.settings, false) == ViaRedis && t >= Window(l) {
      var steps := TwoCounted(l, key, t);
      assert Exec(l, steps).Some? && |CountedDuring(l, Exec(l, steps).value, key, t)| > Allowed(l);
    } else {
      forall steps | Exec(l, steps).Some?
        ensures |CountedDuring(l, Exec(l, steps).value, key, t)| <= Allowed(l)
      {
        if RouteOf(l.settings, false) == ViaRedis {
          DelayedBound(l, steps, key, t);
        } else {
          NothingCounted(l, steps, key, t);
        }
      }
    }
  }

  lemma NothingCounted(l: Limits, steps: seq<Step>, key: string, t: int)
    requires Sane(l) && Exec(l, steps).Some? && RouteOf(l.settings, false) != ViaRedis
    ensures CountedDuring(l, Exec(l, steps).value, key, t) == {}
  {
    NothingPasses(l, steps);
  }
}
