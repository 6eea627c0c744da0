/** What the limiters guarantee over every run of concurrent requests. */
module RateLimitTheorems {
  import opened Wrappers
  import opened Text
  import opened Sets
  import opened Settings
  import opened RateLimits

  // ---- keys ----------------------------------------------------------------------

  lemma IntTextNoColon(z: int)
    ensures forall i | 0 <= i < |IntText(z)| :: IntText(z)[i] != ':'
  {}

  /** The part of a text after its last colon is determined by the text. */
  lemma LastColon(a: string, b: string, c: string, d: string)
    requires a + ":" + b == c + ":" + d
    requires forall i | 0 <= i < |b| :: b[i] != ':'
    requires forall i | 0 <= i < |d| :: d[i] != ':'
    ensures a == c && b == d
  {
    var s := a + ":" + b;
    assert s[|a|] == ':' && s[|c|] == ':';
    assert forall i | |a| < i < |s| :: s[i] == b[i - |a| - 1] && s[i] != ':';
    assert forall i | |c| < i < |s| :: s[i] == d[i - |c| - 1] && s[i] != ':';
    assert a == s[..|a|] && c == s[..|c|];
    assert b == s[|a| + 1..] && d == s[|c| + 1..];
  }

  lemma IntTextInjective(y: int, z: int)
    requires IntText(y) == IntText(z)
    ensures y == z
  {
    if y >= 0 {
      ReadNatText(y);
    } else {
      ReadNatText(-y);
      assert IntText(y)[1..] == NatText(-y);
    }
    if z >= 0 {
      ReadNatText(z);
    } else {
      ReadNatText(-z);
      assert IntText(z)[1..] == NatText(-z);
    }
  }

  /** Different rate-limit keys or buckets never share a Redis key, whatever characters the keys contain. */
  lemma RedisKeyInjective(k: string, b: int, k': string, b': int)
    ensures RedisKey(k, b) == RedisKey(k', b') <==> k == k' && b == b'
  {
    if RedisKey(k, b) == RedisKey(k', b') {
      IntTextNoColon(b);
      IntTextNoColon(b');
      LastColon("rate-limit:" + k, IntText(b), "rate-limit:" + k', IntText(b'));
      assert ("rate-limit:" + k)[11..] == k && ("rate-limit:" + k')[11..] == k';
      IntTextInjective(b, b');
    }
  }

  /** Principals never share a limit with each other or with an address. */
  lemma RateLimitKeySeparates(a: string, b: Option<string>, host: Option<string>)
    ensures RateLimitKey(Some(a), host) == RateLimitKey(b, host) <==> b == Some(a)
  {
    if b.Some? {
      assert ("principal:" + a)[10..] == a && ("principal:" + b.value)[10..] == b.value;
    } else {
      assert RateLimitKey(Some(a), host)[0] == 'p' && RateLimitKey(b, host)[0] == 'i';
    }
  }

  /** Without principals, different addresses have different limits; requests without an address share one. */
  lemma AddressesSeparate(a: Option<string>, b: Option<string>)
    ensures RateLimitKey(None, a) == RateLimitKey(None, b) <==>
            (if a.Some? then a.value else "unknown") == (if b.Some? then b.value else "unknown")
  {
    var x, y := if a.Some? then a.value else "unknown", if b.Some? then b.value else "unknown";
    assert ("ip:" + x)[3..] == x && ("ip:" + y)[3..] == y;
  }

  // ---- the Redis counter --------------------------------------------------------------

  /**
   * The expiry of window + 5 seconds never resets a counter while one of its bucket's requests may still
   * arrive: an INCR within 5 seconds of its clock read returns one more than all INCRs of its bucket before it.
   */
  lemma NeverResets(l: Limits, steps: seq<Step>, c: nat)
    requires Sane(l) && Exec(l, steps).Some?
    requires var s := Exec(l, steps).value;
             c in s.jobs && s.jobs[c].phase.AtIncr? && s.now <= s.jobs[c].readAt + Grace(l)
    ensures var s := Exec(l, steps).value;
            var slot := SlotOf(l, s.jobs[c]);
            && NextCount(s, slot) == |IncrementsOf(s, slot)| + 1
            && (slot in s.increments ==> Live(s, slot))
  {
    RunKeeps(l, steps);
    StillLive(l, Exec(l, steps).value, Exec(l, steps).value.jobs[c]);
  }

  /** Exactly the first `requests` INCRs of a bucket pass the limit check. */
  lemma FirstPass(l: Limits, steps: seq<Step>, c: nat)
    requires Sane(l) && Exec(l, steps).Some?
    requires var s := Exec(l, steps).value;
             c in s.jobs && (s.jobs[c].phase.Passed? || s.jobs[c].phase.Limited?)
    ensures var s := Exec(l, steps).value;
            var n := s.jobs[c].phase.ticket;
            && 1 <= n <= |IncrementsOf(s, SlotOf(l, s.jobs[c]))|
            && IncrementsOf(s, SlotOf(l, s.jobs[c]))[n - 1] == c
            && (s.jobs[c].phase.Passed? <==> n <= l.settings.rateLimitRequests)
  {
    RunKeeps(l, steps);
    TicketHeld(l, Exec(l, steps).value, c);
  }

  lemma TicketHeld(l: Limits, s: State, c: nat)
    requires Window(l) != 0 && JobsOk(l, s) && c in s.jobs && (s.jobs[c].phase.Passed? || s.jobs[c].phase.Limited?)
    ensures Holds(l, s, c, s.jobs[c], s.jobs[c].phase.ticket, s.jobs[c].phase.countedAt)
    ensures s.jobs[c].phase.Passed? <==> s.jobs[c].phase.ticket <= Allowed(l)
  {
    assert JobOk(l, s, c, s.jobs[c]);
  }

  // ---- counting -----------------------------------------------------------------------------

  /** The elements of a sequence are at most its length in number. */
  lemma {:induction false} FewElements(q: seq<nat>)
    ensures |Elements(q)| <= |q|
  {
    if q == [] {
      assert Elements(q) == {};
    } else {
      var n := |q| - 1;
      FewElements(q[..n]);
      assert q == q[..n] + [q[n]];
      assert Elements(q) == Elements(q[..n]) + {q[n]};
    }
  }

  /** The jobs of a slot that Redis let through. */
  function PassedIn(l: Limits, s: State, slot: Slot): set<nat>
    requires Window(l) != 0
  {
    set c | c in s.jobs && s.jobs[c].phase.Passed? && SlotOf(l, s.jobs[c]) == slot
  }

  /** A bucket lets at most `requests` jobs through. */
  lemma BucketBound(l: Limits, s: State, slot: Slot)
    requires Sane(l) && JobsOk(l, s)
    ensures |PassedIn(l, s, slot)| <= Allowed(l)
  {
    var log := IncrementsOf(s, slot);
    var k := if |log| <= Allowed(l) then |log| else Allowed(l);
    var first := log[..k];
    forall c | c in PassedIn(l, s, slot) ensures c in first {
      assert JobOk(l, s, c, s.jobs[c]);
      assert first[s.jobs[c].phase.ticket - 1] == c;
    }
    FewElements(first);
    SubsetSize(PassedIn(l, s, slot), Elements(first));
  }

  /** The jobs of a key that Redis let through and that read the clock in `(t - window, t]`. */
  function PassedDuring(l: Limits, s: State, key: string, t: int): set<nat> {
    set c | c in s.jobs && s.jobs[c].phase.Passed? && s.jobs[c].key == key
            && t - Window(l) < s.jobs[c].readAt <= t
  }

  /** The jobs of a key that Redis let through and whose INCR it made in `(t - window, t]`. */
  function CountedDuring(l: Limits, s: State, key: string, t: int): set<nat> {
    set c | c in s.jobs && s.jobs[c].phase.Passed? && s.jobs[c].key == key
            && t - Window(l) < s.jobs[c].phase.countedAt <= t
  }

  /** The jobs of a key that Redis let through in the `n` buckets up to `b`. */
  function PassedSince(l: Limits, s: State, key: string, b: int, n: nat): set<nat>
    requires Window(l) != 0
  {
    set c | c in s.jobs && s.jobs[c].phase.Passed? && s.jobs[c].key == key
            && b - n < SlotOf(l, s.jobs[c]).bucket <= b
  }

  /** Any `n` consecutive buckets let at most `n` times `requests` jobs through. */
  lemma {:induction false} BucketsBound(l: Limits, s: State, key: string, b: int, n: nat)
    requires Sane(l) && JobsOk(l, s)
    ensures |PassedSince(l, s, key, b, n)| <= Product(n, Allowed(l))
  {
    if n == 0 {
      assert PassedSince(l, s, key, b, n) == {};
    } else {
      BucketsBound(l, s, key, b, n - 1);
      var slot := Slot(key, b - n + 1);
      BucketBound(l, s, slot);
      var later, first := PassedSince(l, s, key, b, n - 1), PassedIn(l, s, slot);
      SubsetSize(PassedSince(l, s, key, b, n), later + first);
      assert |later + first| <= |later| + |first|;
      assert Product(n, Allowed(l)) == Product(n - 1, Allowed(l)) + Allowed(l);
    }
  }

  lemma Distribute(a: int, b: int, w: int)
    requires a <= b && w >= 0
    ensures a * w <= b * w
  {}

  /** A time not before the start of a bucket, and not after a time in another, lies in a bucket between. */
  lemma BucketBetween(w: int, first: int, at: int, t: int)
    requires w >= 1 && first * w <= at <= t
    ensures first <= at / w <= t / w
  {
    BucketTimes(at, w);
    BucketTimes(t, w);
    if at / w < first {
      Distribute(at / w + 1, first, w);
    }
    if at / w > t / w {
      Distribute(t / w + 1, at / w, w);
    }
  }

  /** An interval of one window meets two buckets at most. */
  lemma TwoBuckets(w: int, t: int, at: int)
    requires w >= 1 && t - w < at <= t
    ensures t / w - 1 <= at / w <= t / w
  {
    BucketTimes(t, w);
    assert (t / w - 1) * w == t / w * w - w;
    BucketBetween(w, t / w - 1, at, t);
  }

  /** The window ends with its bucket, or reaches back to the start of the clock. */
  predicate Aligned(w: int, t: int)
    requires w >= 1
  {
    t < w || t % w == w - 1
  }

  /** Such a window meets one bucket only. */
  lemma OneBucket(w: int, t: int, at: int)
    requires w >= 1 && Aligned(w, t) && t - w < at <= t && at >= 0
    ensures at / w == t / w
  {
    BucketTimes(t, w);
    if t < w {
      BucketBetween(w, 0, at, t);
      if t / w >= 1 {
        Distribute(1, t / w, w);
      }
    } else {
      assert t == t / w * w + t % w;
      BucketBetween(w, t / w, at, t);
    }
  }

  lemma RedisBoundIn(l: Limits, s: State, key: string, t: int)
    requires Sane(l) && JobsOk(l, s)
    ensures |PassedDuring(l, s, key, t)| <= 2 * Allowed(l)
    ensures Aligned(Window(l), t) ==> |PassedDuring(l, s, key, t)| <= Allowed(l)
  {
    var b, n := t / Window(l), if Aligned(Window(l), t) then 1 else 2;
    forall c | c in PassedDuring(l, s, key, t) ensures c in PassedSince(l, s, key, b, n) {
      assert JobOk(l, s, c, s.jobs[c]);
      TwoBuckets(Window(l), t, s.jobs[c].readAt);
      if Aligned(Window(l), t) {
        OneBucket(Window(l), t, s.jobs[c].readAt);
      }
    }
    BucketsBound(l, s, key, b, n);
    SubsetSize(PassedDuring(l, s, key, t), PassedSince(l, s, key, b, n));
  }

  /**
   * Over all processes, at most twice `requests` jobs of a key that read the clock in `(t - window, t]` pass
   * Redis, and at most `requests` when the interval is a bucket or reaches back to the start of the clock.
   */
  lemma RedisBound(l: Limits, steps: seq<Step>, key: string, t: int)
    requires Sane(l) && Exec(l, steps).Some?
    ensures |PassedDuring(l, Exec(l, steps).value, key, t)| <= 2 * Allowed(l)
    ensures Aligned(Window(l), t) ==> |PassedDuring(l, Exec(l, steps).value, key, t)| <= Allowed(l)
  {
    RunKeeps(l, steps);
    RedisBoundIn(l, Exec(l, steps).value, key, t);
  }

  /** How many buckets can have INCRs made within one window: two, and one more per started window of delay. */
  function Delayed(l: Limits): nat
    requires Sane(l)
  {
    3 + (Grace(l) - 2) / Window(l)
  }

  lemma DelayedBuckets(w: int, g: int, t: int, at: int)
    requires w >= 1 && g >= 2 && t - w - g < at <= t
    ensures t / w - (3 + (g - 2) / w) < at / w <= t / w
  {
    var b, q := t / w, (g - 2) / w;
    BucketTimes(t, w);
    BucketTimes(g - 2, w);
    assert (q + 1) * w == q * w + w;
    assert (b - q - 2) * w == b * w - q * w - 2 * w;
    BucketBetween(w, b - q - 2, at, t);
  }

  lemma DelayedBoundIn(l: Limits, s: State, key: string, t: int)
    requires Sane(l) && JobsOk(l, s)
    ensures |CountedDuring(l, s, key, t)| <= Product(Delayed(l), Allowed(l))
    ensures t < Window(l) ==> |CountedDuring(l, s, key, t)| <= Allowed(l)
  {
    var b := t / Window(l);
    forall c | c in CountedDuring(l, s, key, t)
      ensures c in PassedSince(l, s, key, b, Delayed(l))
      ensures t < Window(l) ==> c in PassedSince(l, s, key, b, 1)
    {
      assert JobOk(l, s, c, s.jobs[c]);
      DelayedBuckets(Window(l), Grace(l), t, s.jobs[c].readAt);
      if t < Window(l) {
        OneBucket(Window(l), t, s.jobs[c].readAt);
      }
    }
    if t < Window(l) {
      BucketsBound(l, s, key, b, 1);
      SubsetSize(CountedDuring(l, s, key, t), PassedSince(l, s, key, b, 1));
    }
    BucketsBound(l, s, key, b, Delayed(l));
    SubsetSize(CountedDuring(l, s, key, t), PassedSince(l, s, key, b, Delayed(l)));
  }

  /** Dated by its INCR instead, which may come five seconds after the clock read, a window lets more through. */
  lemma DelayedBound(l: Limits, steps: seq<Step>, key: string, t: int)
    requires Sane(l) && Exec(l, steps).Some?
    ensures |CountedDuring(l, Exec(l, steps).value, key, t)| <= Product(Delayed(l), Allowed(l))
    ensures t < Window(l) ==> |CountedDuring(l, Exec(l, steps).value, key, t)| <= Allowed(l)
  {
    RunKeeps(l, steps);
    DelayedBoundIn(l, Exec(l, steps).value, key, t);
  }

  // ---- with the fallback -----------------------------------------------------------------------

  /** The owners of the calls of a key that a local limiter admitted in `(low, high]`. */
  function AdmittedOwners(calls: seq<Memory.Call>, ds: seq<bool>, owners: seq<nat>,
                          key: string, low: int, high: int): set<nat>
    requires |ds| == |calls| == |owners|
  {
    set i | 0 <= i < |calls| && ds[i] && calls[i].key == key && low < calls[i].at <= high :: owners[i]
  }

  lemma {:induction false} OwnersBound(calls: seq<Memory.Call>, ds: seq<bool>, owners: seq<nat>,
                                       key: string, low: int, high: int)
    requires |ds| == |calls| == |owners|
    ensures |AdmittedOwners(calls, ds, owners, key, low, high)|
         <= |Memory.Within(Memory.Admitted(calls, ds, key), low, high)|
  {
    if calls == [] {
      assert AdmittedOwners(calls, ds, owners, key, low, high) == {};
    } else {
      var n := |calls| - 1;
      var before := AdmittedOwners(calls[..n], ds[..n], owners[..n], key, low, high);
      OwnersBound(calls[..n], ds[..n], owners[..n], key, low, high);
      Memory.AdmittedLast(calls, ds, key);
      Memory.WithinAppend(Memory.Admitted(calls[..n], ds[..n], key), calls[n].at, low, high);
      OwnersLast(calls, ds, owners, key, low, high);
      var last := if ds[n] && calls[n].key == key && low < calls[n].at <= high then {owners[n]} else {};
      assert |before + last| <= |before| + |last|;
    }
  }

  lemma OwnersLast(calls: seq<Memory.Call>, ds: seq<bool>, owners: seq<nat>,
                   key: string, low: int, high: int)
    requires |ds| == |calls| == |owners| > 0
    ensures var n := |calls| - 1;
            AdmittedOwners(calls, ds, owners, key, low, high)
            == AdmittedOwners(calls[..n], ds[..n], owners[..n], key, low, high)
               + if ds[n] && calls[n].key == key && low < calls[n].at <= high then {owners[n]} else {}
  {
    var n := |calls| - 1;
    var all := AdmittedOwners(calls, ds, owners, key, low, high);
    var before := AdmittedOwners(calls[..n], ds[..n], owners[..n], key, low, high);
    forall x | x in before ensures x in all {
      var i :| 0 <= i < n && ds[..n][i] && calls[..n][i].key == key && low < calls[..n][i].at <= high
               && owners[..n][i] == x;
      assert ds[i] && calls[i].key == key && owners[i] == x;
    }
    forall x | x in all
      ensures x in before || (ds[n] && calls[n].key == key && low < calls[n].at <= high && x == owners[n])
    {
      var i :| 0 <= i < |calls| && ds[i] && calls[i].key == key && low < calls[i].at <= high && owners[i] == x;
      if i < n {
        assert ds[..n][i] && calls[..n][i].key == key && owners[..n][i] == x;
      }
    }
  }

  /** The jobs of a process that its memory limiter admitted in `(t - window, t]`. */
  function RememberedDuring(l: Limits, s: State, process: nat, key: string, t: int): set<nat> {
    set c | c in s.jobs && s.jobs[c].process == process && s.jobs[c].key == key
            && s.jobs[c].phase.InMemory? && s.jobs[c].phase.admitted
            && t - Window(l) < s.jobs[c].phase.at <= t
  }

  /** The local limiter of a process and its own decisions name every job it admitted. */
  lemma RememberedOwned(l: Limits, s: State, process: nat, key: string, t: int, c: nat)
    requires Sane(l) && JobsOk(l, s) && LocalsOk(l, s) && c in RememberedDuring(l, s, process, key, t)
    ensures var mine := LocalOf(s, process);
            && |mine.owners| == |mine.calls|
            && c in AdmittedOwners(mine.calls, Memory.Decisions(mine.calls, Window(l), Allowed(l)), mine.owners,
                                   key, t - Window(l), t)
  {
    assert JobOk(l, s, c, s.jobs[c]);
    var mine := LocalOf(s, process);
    var ds := Memory.Decisions(mine.calls, Window(l), Allowed(l));
    var i := s.jobs[c].phase.index;
    assert ds[i] && mine.calls[i].key == key && mine.owners[i] == c;
  }

  lemma {:induction false} OwnersWithin(calls: seq<Memory.Call>, ds: seq<bool>, owners: seq<nat>,
                                        key: string, low: int, high: int, most: int)
    requires |ds| == |calls| == |owners| && |Memory.Within(Memory.Admitted(calls, ds, key), low, high)| <= most
    ensures |AdmittedOwners(calls, ds, owners, key, low, high)| <= most
  {
    OwnersBound(calls, ds, owners, key, low, high);
  }

  /** `Memory.Sound` with the admitted log spelled out. */
  lemma {:induction false} AdmittedBound(calls: seq<Memory.Call>, key: string, window: int, requests: int, t: int)
    requires window >= 1 && requests >= 1 && Memory.Ordered(calls)
    ensures |Memory.Within(Memory.Admitted(calls, Memory.Decisions(calls, window, requests), key), t - window, t)|
         <= requests
  {
    Memory.Sound(calls, key, window, requests, t);
  }

  lemma {:induction false} OwnersSound(calls: seq<Memory.Call>, owners: seq<nat>, key: string,
                                       window: int, requests: int, t: int)
    requires window >= 1 && requests >= 1 && Memory.Ordered(calls) && |owners| == |calls|
    ensures |AdmittedOwners(calls, Memory.Decisions(calls, window, requests), owners, key, t - window, t)|
         <= requests
  {
    AdmittedBound(calls, key, window, requests, t);
    OwnersWithin(calls, Memory.Decisions(calls, window, requests), owners, key, t - window, t, requests);
  }

  lemma {:induction false} LocalBound(l: Limits, now: int, mine: Local, key: string, t: int)
    requires Sane(l) && LocalOk(l, now, mine)
    ensures |AdmittedOwners(mine.calls, Memory.Decisions(mine.calls, Window(l), Allowed(l)), mine.owners,
                            key, t - Window(l), t)| <= Allowed(l)
  {
    OwnersSound(mine.calls, mine.owners, key, Window(l), Allowed(l), t);
  }

  lemma LocalOkOf(l: Limits, s: State, process: nat)
    requires LocalsOk(l, s)
    ensures LocalOk(l, s.now, LocalOf(s, process))
  {}

  lemma MemoryBoundIn(l: Limits, s: State, process: nat, key: string, t: int)
    requires Sane(l) && JobsOk(l, s) && LocalsOk(l, s)
    ensures |RememberedDuring(l, s, process, key, t)| <= Allowed(l)
  {
    var mine := LocalOf(s, process);
    LocalOkOf(l, s, process);
    LocalBound(l, s.now, mine, key, t);
    var owners := AdmittedOwners(mine.calls, Memory.Decisions(mine.calls, Window(l), Allowed(l)), mine.owners,
                                 key, t - Window(l), t);
    forall c | c in RememberedDuring(l, s, process, key, t) ensures c in owners {
      RememberedOwned(l, s, process, key, t, c);
    }
    SubsetSize(RememberedDuring(l, s, process, key, t), owners);
  }

  lemma UnionBound(a: set<nat>, b: set<nat>, m: int, n: int)
    requires |a| <= m && |b| <= n
    ensures |a + b| <= m + n
  {
    assert |a + b| <= |a| + |b|;
  }

  /**
   * Any mix of Redis successes and failures - a lost reply to an applied INCR, a failed EXPIRE - admits at
   * most three times `requests` jobs of a key through one process in any `(t - window, t]`: twice over
   * Redis (once in an aligned window), which all processes share, and once from the memory of the process.
   * Dating the Redis share by INCR instead of clock read, memory again adds `requests` to its bound.
   */
  lemma CombinedBound(l: Limits, steps: seq<Step>, process: nat, key: string, t: int)
    requires Sane(l) && Exec(l, steps).Some?
    ensures var s := Exec(l, steps).value;
            var remembered := RememberedDuring(l, s, process, key, t);
            && |remembered| <= Allowed(l)
            && |PassedDuring(l, s, key, t) + remembered| <= 3 * Allowed(l)
            && (Aligned(Window(l), t) ==> |PassedDuring(l, s, key, t) + remembered| <= 2 * Allowed(l))
            && |CountedDuring(l, s, key, t) + remembered| <= Product(Delayed(l), Allowed(l)) + Allowed(l)
  {
    RunKeeps(l, steps);
    var s := Exec(l, steps).value;
    RedisBoundIn(l, s, key, t);
    DelayedBoundIn(l, s, key, t);
    MemoryBoundIn(l, s, process, key, t);
    var remembered := RememberedDuring(l, s, process, key, t);
    UnionBound(PassedDuring(l, s, key, t), remembered, 2 * Allowed(l), Allowed(l));
    if Aligned(Window(l), t) {
      UnionBound(PassedDuring(l, s, key, t), remembered, Allowed(l), Allowed(l));
    }
    UnionBound(CountedDuring(l, s, key, t), remembered, Product(Delayed(l), Allowed(l)), Allowed(l));
  }

  /**
   * With validated production settings no run ever touches a memory window: a Redis error refuses the
   * request, so everything admitted under the limit was admitted by Redis.
   */
  lemma ProductionUsesRedisOnly(l: Limits, steps: seq<Step>, c: nat)
    requires Sane(l) && Exec(l, steps).Some?
    requires Production(l.settings) && Validate(l.settings) == None
    requires c in Exec(l, steps).value.jobs
    ensures Exec(l, steps).value.locals == map[]
    ensures !Exec(l, steps).value.jobs[c].phase.InMemory?
  {
    RunKeeps(l, steps);
    var s := Exec(l, steps).value;
    assert RouteOf(l.settings, false) != ViaMemory;
    assert JobOk(l, s, c, s.jobs[c]);
  }
}
