/** Which requests are limited at all, where Redis errors lead, and when counters go away. */
module RateLimitDuty {
  import opened Wrappers
  import opened Settings
  import opened RateLimits

  // ---- every request meets the limiter it should ------------------------------------------------

  /** Requests that are not to be limited: limiting is off or left to the gateway, or the path is public. */
  predicate Exempt(s: Settings, publicPath: bool) {
    !s.rateLimitEnabled || s.rateLimitBackend == "gateway" || publicPath
  }

  /** The job arrived with this step, and is skipped or handled as its request and the settings say. */
  ghost predicate HandledSince(l: Limits, step: Step, c: nat, job: Job) {
    && step.Arrive? && step.job == c && step.process == job.process && step.key == job.key
    && (job.phase.Skipped? <==> Exempt(l.settings, step.publicPath))
    && (l.settings.rateLimitBackend != "redis" && !job.phase.Skipped? ==> job.phase.InMemory?)
    && (l.settings.rateLimitBackend == "redis" && l.settings.appEnv == "production" ==> !job.phase.InMemory?)
  }

  /** The job arrived with the `i`-th step, when it read the clock. */
  ghost predicate HandledAt(l: Limits, steps: seq<Step>, i: nat, c: nat, job: Job)
    requires Window(l) != 0 && i < |steps|
  {
    && HandledSince(l, steps[i], c, job)
    && Exec(l, steps[..i]).Some? && Exec(l, steps[..i]).value.now == job.readAt
  }

  ghost predicate Handled(l: Limits, steps: seq<Step>, c: nat, job: Job)
    requires Window(l) != 0
  {
    exists i :: 0 <= i < |steps| && HandledAt(l, steps, i, c, job)
  }

  lemma StillHandled(l: Limits, steps: seq<Step>, step: Step, c: nat, job: Job, job': Job)
    requires Window(l) != 0 && Handled(l, steps, c, job)
    requires job' == job || (job' == job.(phase := job'.phase) && Moves(l, job.phase, job'.phase))
    ensures Handled(l, steps + [step], c, job')
  {
    var i :| 0 <= i < |steps| && HandledAt(l, steps, i, c, job);
    assert (steps + [step])[i] == steps[i] && (steps + [step])[..i] == steps[..i];
    assert HandledAt(l, steps + [step], i, c, job');
  }

  /** A job under way to Redis moves on, to memory in case of an error outside production only. */
  predicate Moves(l: Limits, phase: Phase, phase': Phase) {
    && (phase.AtIncr? || phase.AtExpire? || phase.AtDecide?) && !phase'.Skipped?
    && (phase'.InMemory? ==> l.settings.appEnv != "production")
    && l.settings.rateLimitBackend == "redis"
  }

  lemma NowHandled(l: Limits, steps: seq<Step>, s: State, step: Step, job: Job)
    requires Window(l) != 0 && Exec(l, steps) == Some(s) && step.Arrive? && job.readAt == s.now
    requires HandledSince(l, step, step.job, job)
    ensures Handled(l, steps + [step], step.job, job)
  {
    assert (steps + [step])[..|steps|] == steps && (steps + [step])[|steps|] == step;
    assert HandledAt(l, steps + [step], |steps|, step.job, job);
  }

  /** The job that a step is about, if any. */
  predicate About(step: Step, c: nat) {
    match step
    case Tick(_) => false
    case Arrive(d, _, _, _) => d == c
    case Incr(d, _, _) => d == c
    case Expire(d, _, _) => d == c
    case Decide(d) => d == c
    case Crash(d) => d == c
  }

  /** A step changes no job but its own, and that one only in its phase. */
  ghost predicate Unmoved(s: State, s': State, c: nat) {
    && (c in s'.jobs <==> c in s.jobs)
    && (c in s.jobs ==> s'.jobs[c] == s.jobs[c])
  }

  lemma FallbackUnmoved(l: Limits, s: State, d: nat, c: nat)
    requires d in s.jobs && c != d
    ensures Unmoved(s, Fallback(l, s, d), c)
  {}

  lemma ArriveUnmoved(l: Limits, s: State, d: nat, process: nat, key: string, publicPath: bool, c: nat)
    requires c != d
    ensures Unmoved(s, DoArrive(l, s, d, process, key, publicPath), c)
  {}

  lemma IncrUnmoved(l: Limits, s: State, d: nat, ok: bool, applied: bool, c: nat)
    requires Window(l) != 0 && d in s.jobs && c != d && DoIncr(l, s, d, ok, applied).Some?
    ensures Unmoved(s, DoIncr(l, s, d, ok, applied).value, c)
  {
    if !ok {
      FallbackUnmoved(l, if applied then Incremented(s, SlotOf(l, s.jobs[d]), d) else s, d, c);
    }
  }

  lemma ExpireUnmoved(l: Limits, s: State, d: nat, ok: bool, applied: bool, c: nat)
    requires Window(l) != 0 && d in s.jobs && s.jobs[d].phase.AtExpire? && c != d
    requires DoExpire(l, s, d, ok, applied).Some?
    ensures Unmoved(s, DoExpire(l, s, d, ok, applied).value, c)
  {
    if !ok {
      FallbackUnmoved(l, if applied then Expired(l, s, SlotOf(l, s.jobs[d])) else s, d, c);
    }
  }

  lemma OtherJob(l: Limits, s: State, step: Step, s': State, c: nat)
    requires Window(l) != 0 && Apply(l, s, step) == Some(s') && !About(step, c)
    ensures Unmoved(s, s', c)
  {
    match step
    case Arrive(d, process, key, publicPath) => ArriveUnmoved(l, s, d, process, key, publicPath, c);
    case Incr(d, ok, applied) => IncrUnmoved(l, s, d, ok, applied, c);
    case Expire(d, ok, applied) => ExpireUnmoved(l, s, d, ok, applied, c);
    case _ =>
  }

  lemma Arrives(l: Limits, s: State, step: Step, s': State)
    requires Window(l) != 0 && Apply(l, s, step) == Some(s') && step.Arrive?
    ensures step.job in s'.jobs && s'.jobs[step.job].readAt == s.now
    ensures HandledSince(l, step, step.job, s'.jobs[step.job])
  {}

  /** Only the Redis backend sends jobs to Redis. */
  ghost predicate Directed(l: Limits, s: State) {
    forall c | c in s.jobs && (s.jobs[c].phase.AtIncr? || s.jobs[c].phase.AtExpire? || s.jobs[c].phase.AtDecide?) ::
      l.settings.rateLimitBackend == "redis"
  }

  lemma OwnJob(l: Limits, s: State, step: Step, s': State, c: nat)
    requires Window(l) != 0 && Apply(l, s, step) == Some(s') && About(step, c) && !step.Arrive? && Directed(l, s)
    ensures c in s.jobs && c in s'.jobs
    ensures s'.jobs[c] == s.jobs[c].(phase := s'.jobs[c].phase) && Moves(l, s.jobs[c].phase, s'.jobs[c].phase)
  {}

  ghost predicate AllHandled(l: Limits, steps: seq<Step>, s: State)
    requires Window(l) != 0
  {
    forall c | c in s.jobs :: Handled(l, steps, c, s.jobs[c])
  }

  lemma HandledStep(l: Limits, steps: seq<Step>, s: State, step: Step, s': State)
    requires Window(l) != 0 && Exec(l, steps) == Some(s) && Apply(l, s, step) == Some(s')
    requires Directed(l, s) && AllHandled(l, steps, s)
    ensures AllHandled(l, steps + [step], s')
  {
    forall c | c in s'.jobs ensures Handled(l, steps + [step], c, s'.jobs[c]) {
      if !About(step, c) {
        OtherJob(l, s, step, s', c);
        StillHandled(l, steps, step, c, s.jobs[c], s'.jobs[c]);
      } else if step.Arrive? {
        Arrives(l, s, step, s');
        NowHandled(l, steps, s, step, s'.jobs[c]);
      } else {
        OwnJob(l, s, step, s', c);
        StillHandled(l, steps, step, c, s.jobs[c], s'.jobs[c]);
      }
    }
  }

  lemma RunDirected(l: Limits, steps: seq<Step>, s: State)
    requires Sane(l) && Exec(l, steps) == Some(s)
    ensures Directed(l, s)
  {
    RunKeeps(l, steps);
    forall c | c in s.jobs && (s.jobs[c].phase.AtIncr? || s.jobs[c].phase.AtExpire? || s.jobs[c].phase.AtDecide?)
      ensures l.settings.rateLimitBackend == "redis"
    {
      assert JobOk(l, s, c, s.jobs[c]);
    }
  }

  lemma {:induction false} RunHandled(l: Limits, steps: seq<Step>, s: State)
    requires Sane(l) && Exec(l, steps) == Some(s)
    ensures AllHandled(l, steps, s)
  {
    if steps != [] {
      var n := |steps| - 1;
      var before := Exec(l, steps[..n]).value;
      RunHandled(l, steps[..n], before);
      RunDirected(l, steps[..n], before);
      HandledStep(l, steps[..n], before, steps[n], s);
      assert steps[..n] + [steps[n]] == steps;
    }
  }

  /**
   * Every job was handled as its request and the settings demand: it is skipped exactly when limiting is off
   * or left to the gateway or its path is public; a backend other than Redis decides it in memory; and with
   * Redis in production it never falls back to memory.
   */
  lemma EveryRequestHandled(l: Limits, steps: seq<Step>, c: nat) returns (i: nat)
    requires Sane(l) && Exec(l, steps).Some? && c in Exec(l, steps).value.jobs
    ensures i < |steps| && HandledAt(l, steps, i, c, Exec(l, steps).value.jobs[c])
  {
    var s := Exec(l, steps).value;
    RunHandled(l, steps, s);
    assert Handled(l, steps, c, s.jobs[c]);
    i :| 0 <= i < |steps| && HandledAt(l, steps, i, c, s.jobs[c]);
  }

  // ---- Redis errors --------------------------------------------------------------------------------

  /** A Redis error, whether or not the command was applied. */
  predicate RedisError(step: Step) {
    (step.Incr? || step.Expire?) && !step.ok
  }

  /** After a Redis error a job is refused in production, and decided in memory at once otherwise. */
  lemma ErrorsRefuseOrFallBack(l: Limits, s: State, step: Step, s': State)
    requires Sane(l) && Apply(l, s, step) == Some(s') && RedisError(step)
    ensures step.job in s'.jobs
    ensures if l.settings.appEnv == "production" then s'.jobs[step.job].phase == Unavailable
            else s'.jobs[step.job].phase.InMemory? && s'.jobs[step.job].phase.at == s.now
  {}

  /** Redis may fail at any command, before or - while the INCR can still reach it - after applying it. */
  lemma RedisMayFail(l: Limits, s: State, c: nat, applied: bool)
    requires Sane(l) && c in s.jobs
    ensures s.jobs[c].phase.AtIncr? && (applied ==> s.now <= s.jobs[c].readAt + 5 * l.ticksPerSecond) ==>
              Apply(l, s, Incr(c, false, applied)).Some?
    ensures s.jobs[c].phase.AtExpire? ==> Apply(l, s, Expire(c, false, applied)).Some?
  {}

  /** And it may answer; the job then sets the expiry if it counted first, and is decided by its count. */
  lemma RedisMayAnswer(l: Limits, s: State, c: nat)
    requires Sane(l) && c in s.jobs
    ensures s.jobs[c].phase.AtIncr? && s.now <= s.jobs[c].readAt + 5 * l.ticksPerSecond ==>
              var r := Apply(l, s, Incr(c, true, true));
              r.Some? && (r.value.jobs[c].phase.AtExpire? || r.value.jobs[c].phase.AtDecide?)
              && (r.value.jobs[c].phase.AtExpire? <==> r.value.jobs[c].phase.ticket == 1)
    ensures s.jobs[c].phase.AtExpire? ==>
              var r := Apply(l, s, Expire(c, true, true)); r.Some? && r.value.jobs[c].phase.AtDecide?
    ensures s.jobs[c].phase.AtDecide? ==>
              var r := Apply(l, s, Decide(c));
              && r.Some?
              && r.value.jobs[c].phase
                 == if s.jobs[c].phase.ticket > l.settings.rateLimitRequests
                    then Limited(s.jobs[c].phase.ticket, s.jobs[c].phase.countedAt)
                    else Passed(s.jobs[c].phase.ticket, s.jobs[c].phase.countedAt)
  {}

  /** Time may pass, requests may arrive and requests under way may vanish at any moment. */
  lemma AnythingMayHappen(l: Limits, s: State, c: nat, process: nat, key: string, publicPath: bool, ticks: nat)
    requires Window(l) != 0
    ensures Apply(l, s, Tick(ticks)) == Some(s.(now := s.now + ticks))
    ensures c !in s.jobs ==> Apply(l, s, Arrive(c, process, key, publicPath)).Some?
    ensures c in s.jobs && (s.jobs[c].phase.AtIncr? || s.jobs[c].phase.AtExpire? || s.jobs[c].phase.AtDecide?) ==>
              Apply(l, s, Crash(c)) == Some(SetPhase(s, c, Unavailable))
  {}

  // ---- expiry ----------------------------------------------------------------------------------------

  /** An EXPIRE that is applied lets the counter live for the window and five seconds, and no longer. */
  lemma ExpireSets(l: Limits, s: State, c: nat, ok: bool, s': State, later: nat)
    requires Sane(l) && c in s.jobs && s.jobs[c].phase.AtExpire? && Live(s, SlotOf(l, s.jobs[c]))
    requires Apply(l, s, Expire(c, ok, true)) == Some(s')
    ensures Live(s'.(now := s.now + later), SlotOf(l, s.jobs[c])) <==>
            later < (l.settings.rateLimitWindowSeconds + 5) * l.ticksPerSecond
  {
    assert (l.settings.rateLimitWindowSeconds + 5) * l.ticksPerSecond == Window(l) + Grace(l);
  }

  /** The counter a job increments is that of the window in which it read the clock. */
  lemma BucketOfClock(l: Limits, job: Job)
    requires Sane(l)
    ensures var w := l.settings.rateLimitWindowSeconds * l.ticksPerSecond;
            SlotOf(l, job).key == job.key && SlotOf(l, job).bucket * w <= job.readAt < (SlotOf(l, job).bucket + 1) * w
  {
    BucketTimes(job.readAt, Window(l));
  }

  /** Nothing but an EXPIRE changes when a live counter expires. */
  lemma OnlyExpireExpires(l: Limits, s: State, step: Step, s': State, slot: Slot)
    requires Sane(l) && Apply(l, s, step) == Some(s') && !step.Expire? && Live(s, slot)
    ensures slot in s'.store && s'.store[slot].expiresAt == s.store[slot].expiresAt
  {}
}
