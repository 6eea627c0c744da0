/**
 * The Redis fixed-window limiter as a concurrent protocol, its fallback to the in-process limiter, and
 * the dispatch between them. Any number of processes handle requests against one Redis on one clock.
 */
module RateLimits {
  import opened Wrappers
  import opened Text
  import opened Settings
  import Memory = MemoryLimiter

  // ---- configuration --------------------------------------------------------------

  datatype Route = Skip | ViaRedis | ViaMemory

  /** `_enforce_rate_limit`: which limiter a request meets. */
  function RouteOf(s: Settings, publicPath: bool): Route {
    if !s.rateLimitEnabled || publicPath then Skip
    else if s.rateLimitBackend == "gateway" then Skip
    else if s.rateLimitBackend == "redis" then ViaRedis
    else ViaMemory
  }

  /** Settings together with the resolution of the clock, in ticks per second. */
  datatype Limits = Limits(settings: Settings, ticksPerSecond: int)

  predicate Sane(l: Limits) {
    Ranged(l.settings) && l.ticksPerSecond >= 1
  }

  function Allowed(l: Limits): int {
    l.settings.rateLimitRequests
  }

  /** The window in ticks. */
  function Window(l: Limits): (w: int)
    ensures Sane(l) ==> w >= 1
  {
    Product(l.settings.rateLimitWindowSeconds, l.ticksPerSecond)
  }

  function Product(a: int, b: int): (p: int)
    ensures a >= 1 && b >= 1 ==> p >= 1
  {
    a * b
  }

  /** The five seconds the expiry adds to the window, in ticks. */
  function Grace(l: Limits): int {
    5 * l.ticksPerSecond
  }

  // ---- keys ---------------------------------------------------------------------------

  /** `_rate_limit_key`: by principal when there is one, by address otherwise. */
  function RateLimitKey(subject: Option<string>, host: Option<string>): string {
    if subject.Some? then "principal:" + subject.value
    else "ip:" + (if host.Some? then host.value else "unknown")
  }

  /** The Redis key of a rate-limit key and a time bucket. */
  function RedisKey(key: string, bucket: int): string {
    "rate-limit:" + key + ":" + IntText(bucket)
  }

  /** A key and a bucket; `RedisKeyInjective` lets the model use the pair for the text. */
  datatype Slot = Slot(key: string, bucket: int)

  // ---- state ------------------------------------------------------------------------------

  /** A Redis counter: its value and when it expires, if an expiry was set. */
  datatype Counter = Counter(count: nat, expiresAt: Option<int>)

  /** Where a request stands; `ticket` is the count that its INCR returned, `countedAt` when Redis made it. */
  datatype Phase =
    | AtIncr
    | AtExpire(ticket: nat, countedAt: int)
    | AtDecide(ticket: nat, countedAt: int)
    | Passed(ticket: nat, countedAt: int)
    | Limited(ticket: nat, countedAt: int)
    | Unavailable
    | InMemory(at: int, index: nat, admitted: bool)
    | Skipped

  datatype Job = Job(process: nat, key: string, readAt: int, phase: Phase)

  /** The memory limiter of one process: its windows, and which job made each of its calls. */
  datatype Local = Local(windows: Memory.Windows, calls: seq<Memory.Call>, owners: seq<nat>)

  datatype State = State(
    now: int,
    store: map<Slot, Counter>,
    jobs: map<nat, Job>,
    locals: map<nat, Local>,
    increments: map<Slot, seq<nat>>)

  const START: State := State(0, map[], map[], map[], map[])

  /** The jobs that incremented a counter, in order. */
  function IncrementsOf(s: State, slot: Slot): seq<nat> {
    if slot in s.increments then s.increments[slot] else []
  }

  function LocalOf(s: State, process: nat): Local {
    if process in s.locals then s.locals[process] else Local(map[], [], [])
  }

  function SlotOf(l: Limits, job: Job): Slot
    requires Window(l) != 0
  {
    Slot(job.key, job.readAt / Window(l))
  }

  predicate Live(s: State, slot: Slot) {
    slot in s.store && (s.store[slot].expiresAt.None? || s.now < s.store[slot].expiresAt.value)
  }

  datatype Step =
    | Tick(ticks: nat)
    | Arrive(job: nat, process: nat, key: string, publicPath: bool)
    | Incr(job: nat, ok: bool, applied: bool)
    | Expire(job: nat, ok: bool, applied: bool)
    | Decide(job: nat)
    | Crash(job: nat)

  function SetPhase(s: State, c: nat, phase: Phase): State
    requires c in s.jobs
  {
    s.(jobs := s.jobs[c := s.jobs[c].(phase := phase)])
  }

  /** One call of the memory limiter of the job's process. */
  function UseMemory(l: Limits, s: State, c: nat): State
    requires c in s.jobs
  {
    var job := s.jobs[c];
    var mine := LocalOf(s, job.process);
    var (w, admitted) := Memory.Decide(mine.windows, job.key, s.now, Window(l), Allowed(l));
    SetPhase(s, c, InMemory(s.now, |mine.calls|, admitted))
      .(locals := s.locals[job.process := Local(w, mine.calls + [Memory.Call(job.key, s.now)], mine.owners + [c])])
  }

  /** What a RedisError leads to. */
  function Fallback(l: Limits, s: State, c: nat): State
    requires c in s.jobs
  {
    if Production(l.settings) then SetPhase(s, c, Unavailable) else UseMemory(l, s, c)
  }

  /** The count an INCR returns. */
  function NextCount(s: State, slot: Slot): nat {
    if Live(s, slot) then s.store[slot].count + 1 else 1
  }

  /** An INCR that reached the server: a missing or expired counter starts again without an expiry. */
  function Incremented(s: State, slot: Slot, c: nat): State {
    var expiry := if Live(s, slot) then s.store[slot].expiresAt else None;
    s.(store := s.store[slot := Counter(NextCount(s, slot), expiry)],
       increments := s.increments[slot := IncrementsOf(s, slot) + [c]])
  }

  /** An EXPIRE that reached the server. */
  function Expired(l: Limits, s: State, slot: Slot): State {
    if Live(s, slot)
    then s.(store := s.store[slot := s.store[slot].(expiresAt := Some(s.now + Window(l) + Grace(l)))])
    else s
  }

  function DoArrive(l: Limits, s: State, c: nat, process: nat, key: string, publicPath: bool): State {
    var s' := s.(jobs := s.jobs[c := Job(process, key, s.now, AtIncr)]);
    match RouteOf(l.settings, publicPath)
    case Skip => SetPhase(s', c, Skipped)
    case ViaRedis => s'
    case ViaMemory => UseMemory(l, s', c)
  }

  /** INCR; the environment's assumption is that it reaches the server within the grace after the clock was read. */
  function DoIncr(l: Limits, s: State, c: nat, ok: bool, applied: bool): Option<State>
    requires Window(l) != 0 && c in s.jobs
  {
    var slot := SlotOf(l, s.jobs[c]);
    if (ok && !applied) || (applied && s.now > s.jobs[c].readAt + Grace(l)) then None
    else
      var s' := if applied then Incremented(s, slot, c) else s;
      if !ok then Some(Fallback(l, s', c))
      else
        var n := NextCount(s, slot);
        Some(SetPhase(s', c, if n == 1 then AtExpire(n, s.now) else AtDecide(n, s.now)))
  }

  function DoExpire(l: Limits, s: State, c: nat, ok: bool, applied: bool): Option<State>
    requires Window(l) != 0 && c in s.jobs && s.jobs[c].phase.AtExpire?
  {
    if ok && !applied then None
    else
      var s' := if applied then Expired(l, s, SlotOf(l, s.jobs[c])) else s;
      var phase := s.jobs[c].phase;
      Some(if ok then SetPhase(s', c, AtDecide(phase.ticket, phase.countedAt)) else Fallback(l, s', c))
  }

  function DoDecide(l: Limits, s: State, c: nat): State
    requires c in s.jobs && s.jobs[c].phase.AtDecide?
  {
    var AtDecide(n, at) := s.jobs[c].phase;
    SetPhase(s, c, if n > Allowed(l) then Limited(n, at) else Passed(n, at))
  }

  /** The state after a step, or None when the step cannot be taken. */
  function Apply(l: Limits, s: State, step: Step): Option<State>
    requires Window(l) != 0
  {
    match step
    case Tick(ticks) => Some(s.(now := s.now + ticks))
    case Arrive(c, process, key, publicPath) =>
      if c in s.jobs then None else Some(DoArrive(l, s, c, process, key, publicPath))
    case Incr(c, ok, applied) =>
      if c in s.jobs && s.jobs[c].phase.AtIncr? then DoIncr(l, s, c, ok, applied) else None
    case Expire(c, ok, applied) =>
      if c in s.jobs && s.jobs[c].phase.AtExpire? then DoExpire(l, s, c, ok, applied) else None
    case Decide(c) =>
      if c in s.jobs && s.jobs[c].phase.AtDecide? then Some(DoDecide(l, s, c)) else None
    case Crash(c) =>
      if c in s.jobs && (s.jobs[c].phase.AtIncr? || s.jobs[c].phase.AtExpire? || s.jobs[c].phase.AtDecide?)
      then Some(SetPhase(s, c, Unavailable)) else None
  }

  function Exec(l: Limits, steps: seq<Step>): Option<State>
    requires Window(l) != 0
  {
    if steps == [] then Some(START)
    else
      match Exec(l, steps[..|steps| - 1])
      case None => None
      case Some(s) => Apply(l, s, steps[|steps| - 1])
  }

  // ---- the invariant ------------------------------------------------------------------------

  /** The first tick at which no request of the bucket can still reach its counter. */
  function Closing(l: Limits, bucket: int): int {
    (bucket + 1) * Window(l) + Grace(l)
  }

  /** A counter has counted every INCR of its bucket, and does not expire while one can still arrive. */
  ghost predicate CounterOk(l: Limits, s: State, slot: Slot) {
    && slot in s.store
    && s.store[slot].count == |IncrementsOf(s, slot)|
    && (s.store[slot].expiresAt.Some? ==> s.store[slot].expiresAt.value >= Closing(l, slot.bucket))
  }

  ghost predicate CountersOk(l: Limits, s: State) {
    && (forall slot | slot in s.increments :: CounterOk(l, s, slot))
    && (forall slot | slot in s.store :: slot in s.increments)
  }

  /** The job made the `ticket`-th INCR of its slot, at `at`. */
  ghost predicate Holds(l: Limits, s: State, c: nat, job: Job, ticket: nat, at: int)
    requires Window(l) != 0
  {
    && RouteOf(l.settings, false) == ViaRedis
    && job.readAt <= at <= job.readAt + Grace(l) && at <= s.now
    && 1 <= ticket <= |IncrementsOf(s, SlotOf(l, job))| && IncrementsOf(s, SlotOf(l, job))[ticket - 1] == c
  }

  /** The job made the call of its local limiter that its phase names. */
  ghost predicate Owns(l: Limits, mine: Local, c: nat, key: string, at: int, i: nat, admitted: bool) {
    && i < |mine.calls| == |mine.owners| && mine.owners[i] == c
    && mine.calls[i] == Memory.Call(key, at)
    && Memory.Decisions(mine.calls, Window(l), Allowed(l))[i] == admitted
  }

  ghost predicate JobOk(l: Limits, s: State, c: nat, job: Job)
    requires Window(l) != 0
  {
    && 0 <= job.readAt <= s.now
    && match job.phase
       case AtIncr => RouteOf(l.settings, false) == ViaRedis
       case AtExpire(n, at) => Holds(l, s, c, job, n, at)
       case AtDecide(n, at) => Holds(l, s, c, job, n, at)
       case Passed(n, at) => Holds(l, s, c, job, n, at) && n <= Allowed(l)
       case Limited(n, at) => Holds(l, s, c, job, n, at) && n > Allowed(l)
       case InMemory(at, i, admitted) =>
         && !(Production(l.settings) && RouteOf(l.settings, false) != ViaMemory)
         && job.readAt <= at <= s.now
         && Owns(l, LocalOf(s, job.process), c, job.key, at, i, admitted)
       case _ => true
  }

  ghost predicate JobsOk(l: Limits, s: State)
    requires Window(l) != 0
  {
    forall c | c in s.jobs :: JobOk(l, s, c, s.jobs[c])
  }

  ghost predicate LocalOk(l: Limits, now: int, mine: Local) {
    && |mine.owners| == |mine.calls|
    && mine.windows == Memory.Run(mine.calls, Window(l), Allowed(l)).0
    && Memory.Ordered(mine.calls)
    && forall i | 0 <= i < |mine.calls| :: mine.calls[i].at <= now
  }

  ghost predicate LocalsOk(l: Limits, s: State) {
    && (forall p | p in s.locals :: LocalOk(l, s.now, s.locals[p]))
    && (Production(l.settings) && RouteOf(l.settings, false) != ViaMemory ==> s.locals == map[])
  }

  ghost predicate Inv(l: Limits, s: State)
    requires Window(l) != 0
  {
    s.now >= 0 && CountersOk(l, s) && JobsOk(l, s) && LocalsOk(l, s)
  }

  // ---- steps keep the invariant ------------------------------------------------------------------

  lemma BucketTimes(readAt: int, w: int)
    requires w >= 1
    ensures readAt / w * w <= readAt < (readAt / w + 1) * w
  {
    assert readAt == readAt / w * w + readAt % w;
    assert (readAt / w + 1) * w == readAt / w * w + w;
  }

  /** While a job may still increment, the counter of its slot has not expired. */
  lemma StillLive(l: Limits, s: State, job: Job)
    requires Sane(l) && CountersOk(l, s) && s.now <= job.readAt + Grace(l)
    ensures SlotOf(l, job) in s.increments ==> Live(s, SlotOf(l, job))
    ensures NextCount(s, SlotOf(l, job)) == |IncrementsOf(s, SlotOf(l, job))| + 1
  {
    BucketTimes(job.readAt, Window(l));
    var slot := SlotOf(l, job);
    if slot in s.increments {
      assert CounterOk(l, s, slot);
    }
  }

  lemma IncrementCounters(l: Limits, s: State, job: Job, c: nat)
    requires Sane(l) && CountersOk(l, s) && s.now <= job.readAt + Grace(l)
    ensures CountersOk(l, Incremented(s, SlotOf(l, job), c))
  {
    var slot := SlotOf(l, job);
    var s' := Incremented(s, slot, c);
    StillLive(l, s, job);
    forall k | k in s'.increments ensures CounterOk(l, s', k) {
      if k != slot {
        assert CounterOk(l, s, k);
      } else if slot in s.increments {
        assert CounterOk(l, s, slot);
      }
    }
  }

  lemma IncrementJobs(l: Limits, s: State, slot: Slot, c: nat)
    requires Window(l) != 0 && JobsOk(l, s)
    ensures JobsOk(l, Incremented(s, slot, c))
  {
    var s' := Incremented(s, slot, c);
    forall d | d in s'.jobs ensures JobOk(l, s', d, s'.jobs[d]) {
      assert JobOk(l, s, d, s.jobs[d]);
    }
  }

  lemma ExpireCounters(l: Limits, s: State, job: Job)
    requires Sane(l) && CountersOk(l, s) && job.readAt <= s.now
    ensures CountersOk(l, Expired(l, s, SlotOf(l, job)))
  {
    BucketTimes(job.readAt, Window(l));
    var slot := SlotOf(l, job);
    var s' := Expired(l, s, slot);
    assert (slot.bucket + 1) * Window(l) == slot.bucket * Window(l) + Window(l);
    forall k | k in s'.increments ensures CounterOk(l, s', k) {
      assert CounterOk(l, s, k);
    }
  }

  lemma PhaseKeeps(l: Limits, s: State, c: nat, phase: Phase)
    requires Window(l) != 0 && Inv(l, s) && c in s.jobs
    requires JobOk(l, s, c, s.jobs[c].(phase := phase))
    ensures Inv(l, SetPhase(s, c, phase))
  {
    var s' := SetPhase(s, c, phase);
    forall d | d in s'.jobs ensures JobOk(l, s', d, s'.jobs[d]) {
      assert JobOk(l, s, d, s'.jobs[d]);
    }
  }

  /** A further call leaves the earlier calls, owners and decisions of a local limiter as they were. */
  lemma LocalStep(l: Limits, now: int, mine: Local, key: string, c: nat)
    requires Sane(l) && LocalOk(l, now, mine)
    ensures var (w, admitted) := Memory.Decide(mine.windows, key, now, Window(l), Allowed(l));
            var mine' := Local(w, mine.calls + [Memory.Call(key, now)], mine.owners + [c]);
            && LocalOk(l, now, mine')
            && Memory.Decisions(mine'.calls, Window(l), Allowed(l))
               == Memory.Decisions(mine.calls, Window(l), Allowed(l)) + [admitted]
  {
    Memory.RunStep(mine.calls, Memory.Call(key, now), Window(l), Allowed(l));
  }

  lemma OwnsStill(l: Limits, now: int, mine: Local, key: string, c: nat, mine': Local)
    requires Sane(l) && LocalOk(l, now, mine)
    requires mine' == Local(Memory.Decide(mine.windows, key, now, Window(l), Allowed(l)).0,
                            mine.calls + [Memory.Call(key, now)], mine.owners + [c])
    ensures forall d, key', at, i, admitted :: Owns(l, mine, d, key', at, i, admitted) ==>
              Owns(l, mine', d, key', at, i, admitted)
    ensures Owns(l, mine', c, key, now, |mine.calls|,
                 Memory.Decide(mine.windows, key, now, Window(l), Allowed(l)).1)
  {
    LocalStep(l, now, mine, key, c);
  }

  /** Another job of the same or another process keeps its place in its local limiter. */
  lemma MemoryKeepsJob(l: Limits, s: State, c: nat, d: nat)
    requires Sane(l) && LocalsOk(l, s) && c in s.jobs && d in s.jobs && d != c
    requires JobOk(l, s, d, s.jobs[d])
    ensures JobOk(l, UseMemory(l, s, c), d, s.jobs[d])
  {
    var p := s.jobs[c].process;
    if s.jobs[d].phase.InMemory? && s.jobs[d].process == p {
      OwnsStill(l, s.now, LocalOf(s, p), s.jobs[c].key, c, LocalOf(UseMemory(l, s, c), p));
    }
  }

  lemma MemoryLocals(l: Limits, s: State, c: nat)
    requires Sane(l) && LocalsOk(l, s) && c in s.jobs
    requires !(Production(l.settings) && RouteOf(l.settings, false) != ViaMemory)
    ensures LocalsOk(l, UseMemory(l, s, c))
  {
    LocalStep(l, s.now, LocalOf(s, s.jobs[c].process), s.jobs[c].key, c);
  }

  lemma MemoryOwnJob(l: Limits, s: State, c: nat)
    requires Sane(l) && LocalsOk(l, s) && c in s.jobs && 0 <= s.jobs[c].readAt <= s.now
    requires !(Production(l.settings) && RouteOf(l.settings, false) != ViaMemory)
    ensures JobOk(l, UseMemory(l, s, c), c, UseMemory(l, s, c).jobs[c])
  {
    var p := s.jobs[c].process;
    OwnsStill(l, s.now, LocalOf(s, p), s.jobs[c].key, c, LocalOf(UseMemory(l, s, c), p));
  }

  lemma MemoryCounters(l: Limits, s: State, c: nat)
    requires CountersOk(l, s) && c in s.jobs
    ensures CountersOk(l, UseMemory(l, s, c))
  {
    var s' := UseMemory(l, s, c);
    forall slot | slot in s'.increments ensures CounterOk(l, s', slot) {
      assert CounterOk(l, s, slot);
    }
  }

  lemma MemoryJobs(l: Limits, s: State, c: nat)
    requires Sane(l) && JobsOk(l, s) && LocalsOk(l, s) && c in s.jobs
    requires !(Production(l.settings) && RouteOf(l.settings, false) != ViaMemory)
    ensures JobsOk(l, UseMemory(l, s, c))
  {
    assert JobOk(l, s, c, s.jobs[c]);
    MemoryOwnJob(l, s, c);
    var jobs := UseMemory(l, s, c).jobs;
    forall d | d in jobs ensures JobOk(l, UseMemory(l, s, c), d, jobs[d]) {
      if d != c {
        assert JobOk(l, s, d, s.jobs[d]);
        MemoryKeepsJob(l, s, c, d);
      }
    }
  }

  lemma MemoryKeeps(l: Limits, s: State, c: nat)
    requires Sane(l) && Inv(l, s) && c in s.jobs
    requires !(Production(l.settings) && RouteOf(l.settings, false) != ViaMemory)
    ensures Inv(l, UseMemory(l, s, c))
  {
    MemoryCounters(l, s, c);
    MemoryLocals(l, s, c);
    MemoryJobs(l, s, c);
  }

  lemma FallbackKeeps(l: Limits, s: State, c: nat)
    requires Sane(l) && Inv(l, s) && c in s.jobs
    ensures Inv(l, Fallback(l, s, c))
  {
    assert JobOk(l, s, c, s.jobs[c]);
    if Production(l.settings) {
      PhaseKeeps(l, s, c, Unavailable);
    } else {
      MemoryKeeps(l, s, c);
    }
  }

  /** A job that has arrived and is not to be limited. */
  lemma ArrivedKeeps(l: Limits, s: State, c: nat, job: Job)
    requires Window(l) != 0 && Inv(l, s) && c !in s.jobs && JobOk(l, s, c, job)
    ensures Inv(l, s.(jobs := s.jobs[c := job]))
  {
    var s' := s.(jobs := s.jobs[c := job]);
    forall d | d in s'.jobs ensures JobOk(l, s', d, s'.jobs[d]) {
      if d != c {
        assert JobOk(l, s, d, s.jobs[d]);
      }
    }
  }

  /** The phase a job is in does not matter to the memory limiter. */
  lemma MemoryForgetsPhase(l: Limits, s: State, c: nat, phase: Phase)
    requires c in s.jobs
    ensures UseMemory(l, s, c) == UseMemory(l, SetPhase(s, c, phase), c)
  {
    var t := SetPhase(s, c, phase);
    assert UseMemory(l, s, c).jobs == UseMemory(l, t, c).jobs;
  }

  lemma ArriveKeeps(l: Limits, s: State, c: nat, process: nat, key: string, publicPath: bool)
    requires Sane(l) && Inv(l, s) && c !in s.jobs
    ensures Inv(l, DoArrive(l, s, c, process, key, publicPath))
  {
    var job := Job(process, key, s.now, AtIncr);
    var s' := s.(jobs := s.jobs[c := job]);
    if RouteOf(l.settings, publicPath) == ViaRedis {
      ArrivedKeeps(l, s, c, job);
    } else {
      var skipped := job.(phase := Skipped);
      ArrivedKeeps(l, s, c, skipped);
      assert SetPhase(s', c, Skipped) == s.(jobs := s.jobs[c := skipped]);
      if RouteOf(l.settings, publicPath) == ViaMemory {
        MemoryForgetsPhase(l, s', c, Skipped);
        MemoryKeeps(l, SetPhase(s', c, Skipped), c);
      }
    }
  }

  lemma IncrementKeeps(l: Limits, s: State, c: nat)
    requires Sane(l) && Inv(l, s) && c in s.jobs && s.now <= s.jobs[c].readAt + Grace(l)
    ensures Inv(l, Incremented(s, SlotOf(l, s.jobs[c]), c))
  {
    IncrementCounters(l, s, s.jobs[c], c);
    IncrementJobs(l, s, SlotOf(l, s.jobs[c]), c);
  }

  lemma IncrKeeps(l: Limits, s: State, c: nat, ok: bool, applied: bool)
    requires Sane(l) && Inv(l, s) && c in s.jobs && s.jobs[c].phase.AtIncr?
    ensures DoIncr(l, s, c, ok, applied).Some? ==> Inv(l, DoIncr(l, s, c, ok, applied).value)
  {
    if DoIncr(l, s, c, ok, applied).Some? {
      var slot := SlotOf(l, s.jobs[c]);
      var s' := if applied then Incremented(s, slot, c) else s;
      if applied {
        IncrementKeeps(l, s, c);
      }
      if !ok {
        FallbackKeeps(l, s', c);
      } else {
        var n := NextCount(s, slot);
        StillLive(l, s, s.jobs[c]);
        assert JobOk(l, s', c, s'.jobs[c]);
        PhaseKeeps(l, s', c, if n == 1 then AtExpire(n, s.now) else AtDecide(n, s.now));
      }
    }
  }

  lemma ExpiredKeeps(l: Limits, s: State, c: nat)
    requires Sane(l) && Inv(l, s) && c in s.jobs
    ensures Inv(l, Expired(l, s, SlotOf(l, s.jobs[c])))
  {
    assert JobOk(l, s, c, s.jobs[c]);
    ExpireCounters(l, s, s.jobs[c]);
    var s' := Expired(l, s, SlotOf(l, s.jobs[c]));
    forall d | d in s'.jobs ensures JobOk(l, s', d, s'.jobs[d]) {
      assert JobOk(l, s, d, s.jobs[d]);
    }
  }

  lemma ExpireKeeps(l: Limits, s: State, c: nat, ok: bool, applied: bool)
    requires Sane(l) && Inv(l, s) && c in s.jobs && s.jobs[c].phase.AtExpire?
    ensures DoExpire(l, s, c, ok, applied).Some? ==> Inv(l, DoExpire(l, s, c, ok, applied).value)
  {
    var s' := if applied then Expired(l, s, SlotOf(l, s.jobs[c])) else s;
    if applied {
      ExpiredKeeps(l, s, c);
    }
    assert JobOk(l, s', c, s'.jobs[c]);
    if ok {
      var phase := s.jobs[c].phase;
      PhaseKeeps(l, s', c, AtDecide(phase.ticket, phase.countedAt));
    } else {
      FallbackKeeps(l, s', c);
    }
  }

  lemma TickKeeps(l: Limits, s: State, ticks: nat)
    requires Window(l) != 0 && Inv(l, s)
    ensures Inv(l, s.(now := s.now + ticks))
  {
    var s' := s.(now := s.now + ticks);
    forall slot | slot in s'.increments ensures CounterOk(l, s', slot) {
      assert CounterOk(l, s, slot);
    }
    forall d | d in s'.jobs ensures JobOk(l, s', d, s'.jobs[d]) {
      assert JobOk(l, s, d, s.jobs[d]);
    }
  }

  /** Every step keeps the invariant. */
  lemma StepKeeps(l: Limits, s: State, step: Step)
    requires Sane(l) && Inv(l, s) && Apply(l, s, step).Some?
    ensures Inv(l, Apply(l, s, step).value)
  {
    match step
    case Tick(ticks) => TickKeeps(l, s, ticks);
    case Arrive(c, process, key, publicPath) => ArriveKeeps(l, s, c, process, key, publicPath);
    case Incr(c, ok, applied) => IncrKeeps(l, s, c, ok, applied);
    case Expire(c, ok, applied) => ExpireKeeps(l, s, c, ok, applied);
    case Decide(c) =>
      assert JobOk(l, s, c, s.jobs[c]);
      var AtDecide(n, at) := s.jobs[c].phase;
      PhaseKeeps(l, s, c, if n > Allowed(l) then Limited(n, at) else Passed(n, at));
    case Crash(c) =>
      assert JobOk(l, s, c, s.jobs[c]);
      PhaseKeeps(l, s, c, Unavailable);
  }

  lemma {:induction false} RunKeeps(l: Limits, steps: seq<Step>)
    requires Sane(l) && Exec(l, steps).Some?
    ensures Inv(l, Exec(l, steps).value)
  {
    if steps != [] {
      RunKeeps(l, steps[..|steps| - 1]);
      StepKeeps(l, Exec(l, steps[..|steps| - 1]).value, steps[|steps| - 1]);
    }
  }
}
