/** Waiting for the uncommitted writes of others never deadlocks, and no call needs an abort to end. */
module OrderProgress {
  import opened Wrappers
  import opened Requests
  import opened OrderStore
  import opened OrderProtocol
  import opened OrderInvariant

  // ---- waiting --------------------------------------------------------------------------

  /** The primary key of the order that a call inserts. */
  function OrderPkOf(call: Call): OrderPk {
    OrderPk(call.request.userId, call.orderId)
  }

  /** The INSERT that `c` is at waits for an uncommitted row of `d` with the same primary key. */
  predicate WaitsFor(s: State, c: nat, d: nat) {
    && c in s.txs && d in s.txs && c != d
    && match s.txs[c].stage
       case InsertingKey =>
         && Keyed(s.txs[c].call) && s.txs[d].keyWrite.Some? && Keyed(s.txs[d].call)
         && SlotOf(s.txs[d].call) == SlotOf(s.txs[c].call)
       case InsertingOrder =>
         s.txs[d].orderWrite.Some? && PkOf(s.txs[d].orderWrite.value) == OrderPkOf(s.txs[c].call)
       case _ => false
  }

  /**
   * The steps that lead a transaction to its end, at most: its own, and those of the transactions that its
   * key INSERT and its order INSERT can wait for.
   */
  function Effort(stage: Stage): nat {
    match stage
    case Selecting => 12
    case InsertingKey => 11
    case InsertingOrder => 5
    case Recovering => 2
    case UpdatingKey(_) => 2
    case Committing(_) => 1
    case Finished(_) => 0
  }

  /** Whoever holds an uncommitted order is past waiting, and whoever holds a key waits for such a one at most. */
  ghost predicate HoldsLate(tx: Tx) {
    && (tx.orderWrite.Some? ==> 0 < Effort(tx.stage) <= 2)
    && (tx.keyWrite.Some? ==> 0 < Effort(tx.stage) <= 5)
  }

  /** Pending writes are for different primary keys, and those who hold them are late in their transactions. */
  ghost predicate Orderly(s: State) {
    Exclusive(s.txs) && forall c | c in s.txs :: HoldsLate(s.txs[c])
  }

  lemma HolderIsLate(env: Env, db: Db, tx: Tx)
    requires TxOk(env, db, tx)
    ensures HoldsLate(tx)
  {}

  lemma RunOrderly(env: Env, steps: seq<Step>, s: State)
    requires Exec(env, steps) == Some(s)
    ensures Orderly(s)
  {
    RunKeeps(env, steps);
    forall c | c in s.txs ensures HoldsLate(s.txs[c]) {
      HolderIsLate(env, s.db, s.txs[c]);
    }
  }

  lemma Descends(s: State, c: nat, d: nat)
    requires Orderly(s) && WaitsFor(s, c, d)
    ensures s.txs[c].stage.InsertingKey? ==> Effort(s.txs[d].stage) <= 5
    ensures s.txs[c].stage.InsertingOrder? ==> Effort(s.txs[d].stage) <= 2
    ensures 0 < Effort(s.txs[d].stage) < Effort(s.txs[c].stage)
  {
    assert HoldsLate(s.txs[d]);
  }

  /** Waiting goes to less effort, so it never runs in a circle. */
  lemma WaitingDescends(env: Env, steps: seq<Step>, c: nat, d: nat)
    requires Exec(env, steps).Some? && WaitsFor(Exec(env, steps).value, c, d)
    ensures Effort(Exec(env, steps).value.txs[d].stage) < Effort(Exec(env, steps).value.txs[c].stage)
  {
    RunOrderly(env, steps, Exec(env, steps).value);
    Descends(Exec(env, steps).value, c, d);
  }

  /** A transaction waits for one other at most. */
  lemma WaitsForOne(s: State, c: nat, d: nat, e: nat)
    requires Exclusive(s.txs) && WaitsFor(s, c, d) && WaitsFor(s, c, e)
    ensures d == e
  {
    assert d != e ==> Apart(s.txs[d], s.txs[e]);
  }

  // ---- one statement -----------------------------------------------------------------------

  /** The statement of `c` was executed and brought it nearer to its end. */
  ghost predicate Advanced(s: State, s': State, c: nat) {
    && OneTouched(s, s', c) && Effort(s'.txs[c].stage) < Effort(s.txs[c].stage)
    && (s.txs[c].stage.InsertingKey? ==> Effort(s'.txs[c].stage) <= 5)
    && (s.txs[c].stage.InsertingOrder? ==> Effort(s'.txs[c].stage) <= 2)
  }

  /** What the next statement of a transaction relies on. */
  ghost predicate Ready(env: Env, s: State, c: nat)
    requires c in s.txs
  {
    var tx := s.txs[c];
    && (tx.stage.Selecting? || tx.stage.InsertingKey? || tx.stage.Recovering? || tx.stage.UpdatingKey? ==>
          Keyed(tx.call))
    && (tx.stage.Recovering? ==> SlotOf(tx.call) in s.db.keys)
    && (tx.stage.UpdatingKey? ==> tx.keyWrite.Some?)
    && (Keyed(tx.call) && SlotOf(tx.call) in s.db.keys ==> s.db.keys[SlotOf(tx.call)].response.Some?)
  }

  lemma TxReady(env: Env, db: Db, tx: Tx)
    requires TxOk(env, db, tx)
    ensures tx.stage.Selecting? || tx.stage.InsertingKey? || tx.stage.Recovering? || tx.stage.UpdatingKey? ==>
              Keyed(tx.call)
    ensures tx.stage.Recovering? ==> SlotOf(tx.call) in db.keys
    ensures tx.stage.UpdatingKey? ==> tx.keyWrite.Some?
  {}

  lemma RunReady(env: Env, steps: seq<Step>, s: State, c: nat)
    requires Exec(env, steps) == Some(s) && c in s.txs
    ensures Ready(env, s, c)
  {
    RunKeeps(env, steps);
    TxReady(env, s.db, s.txs[c]);
    if Keyed(s.txs[c].call) && SlotOf(s.txs[c].call) in s.db.keys {
      KeyHasResponse(env, s, SlotOf(s.txs[c].call));
    }
  }

  lemma FoundAdvances(env: Env, s: State, c: nat)
    requires c in s.txs && Keyed(s.txs[c].call) && SlotOf(s.txs[c].call) in s.db.keys
    requires s.db.keys[SlotOf(s.txs[c].call)].response.Some?
    requires s.txs[c].stage.Selecting? || s.txs[c].stage.Recovering?
    ensures Advanced(s, DoSelect(env, s, c), c) && Advanced(s, DoRecover(env, s, c), c)
  {
    ReadsResponse(env, s.db.keys[SlotOf(s.txs[c].call)], HashOf(env, s.txs[c].call));
    SelectLeads(env, s, c, Read(env, s.db.keys[SlotOf(s.txs[c].call)], HashOf(env, s.txs[c].call)));
    SelectTouches(env, s, c);
  }

  /** The step was taken and brought `c` nearer to its end, or it waits for `d`. */
  ghost predicate Tried(env: Env, s: State, c: nat, step: Step, d: nat) {
    && Own(c, step)
    && match Apply(env, s, step)
       case Some(s') => Advanced(s, s', c)
       case None => WaitsFor(s, c, d)
  }

  lemma SelectAdvances(env: Env, s: State, c: nat)
    requires c in s.txs && s.txs[c].stage.Selecting? && Ready(env, s, c)
    ensures Tried(env, s, c, Select(c), c)
  {
    if SlotOf(s.txs[c].call) in s.db.keys {
      FoundAdvances(env, s, c);
    }
  }

  lemma RecoverAdvances(env: Env, s: State, c: nat)
    requires c in s.txs && s.txs[c].stage.Recovering? && Ready(env, s, c)
    ensures Tried(env, s, c, Recover(c), c)
  {
    FoundAdvances(env, s, c);
  }

  lemma KeyRival(env: Env, s: State, c: nat) returns (d: nat)
    requires c in s.txs && s.txs[c].stage.InsertingKey? && Keyed(s.txs[c].call) && DoInsertKey(env, s, c) == None
    ensures WaitsFor(s, c, d)
  {
    d :| d in s.txs && d != c && s.txs[d].keyWrite.Some? && Keyed(s.txs[d].call)
         && SlotOf(s.txs[d].call) == SlotOf(s.txs[c].call);
  }

  lemma InsertKeyEffort(env: Env, s: State, c: nat)
    requires c in s.txs && Keyed(s.txs[c].call) && DoInsertKey(env, s, c).Some?
    ensures c in DoInsertKey(env, s, c).value.txs && Effort(DoInsertKey(env, s, c).value.txs[c].stage) <= 5
  {}

  lemma InsertKeyMoves(env: Env, s: State, c: nat)
    requires c in s.txs && s.txs[c].stage.InsertingKey? && Keyed(s.txs[c].call) && DoInsertKey(env, s, c).Some?
    ensures Advanced(s, DoInsertKey(env, s, c).value, c)
  {
    InsertKeyTouches(env, s, c);
    InsertKeyEffort(env, s, c);
  }

  lemma InsertKeyAdvances(env: Env, s: State, c: nat) returns (d: nat)
    requires c in s.txs && s.txs[c].stage.InsertingKey? && Ready(env, s, c)
    ensures Tried(env, s, c, InsertKey(c), d)
  {
    d := c;
    if DoInsertKey(env, s, c) == None {
      d := KeyRival(env, s, c);
    } else {
      InsertKeyMoves(env, s, c);
    }
  }

  lemma OrderRival(env: Env, s: State, c: nat) returns (d: nat)
    requires c in s.txs && s.txs[c].stage.InsertingOrder? && DoInsertOrder(env, s, c) == None
    ensures WaitsFor(s, c, d)
  {
    var pk := PkOf(RowOf(s.txs[c].call, s.txs[c].startedAt).value);
    d :| d in s.txs && d != c && s.txs[d].orderWrite.Some? && PkOf(s.txs[d].orderWrite.value) == pk;
  }

  /** The order INSERT is behind this transaction. */
  predicate PastInsert(tx: Tx) {
    tx.stage.UpdatingKey? || tx.stage.Committing? || tx.stage.Finished?
  }

  lemma InsertedIsPast(env: Env, tx: Tx, row: Order)
    ensures PastInsert(Inserted(env, tx, row)) && PastInsert(End(tx, Failed))
  {}

  lemma InsertOrderIsPast(env: Env, s: State, c: nat)
    requires c in s.txs && DoInsertOrder(env, s, c).Some?
    ensures var s' := DoInsertOrder(env, s, c).value; c in s'.txs && PastInsert(s'.txs[c])
  {
    var row := InsertOrderCases(env, s, c);
    if row.Some? {
      InsertedIsPast(env, s.txs[c], row.value);
    }
  }

  lemma InsertOrderMoves(env: Env, s: State, c: nat)
    requires c in s.txs && s.txs[c].stage.InsertingOrder? && DoInsertOrder(env, s, c).Some?
    ensures Advanced(s, DoInsertOrder(env, s, c).value, c)
  {
    InsertOrderTouches(env, s, c);
    InsertOrderIsPast(env, s, c);
    PastAdvances(s, DoInsertOrder(env, s, c).value, c);
  }

  lemma PastAdvances(s: State, s': State, c: nat)
    requires OneTouched(s, s', c) && s.txs[c].stage.InsertingOrder? && PastInsert(s'.txs[c])
    ensures Advanced(s, s', c)
  {}

  lemma InsertOrderAdvances(env: Env, s: State, c: nat) returns (d: nat)
    requires c in s.txs && s.txs[c].stage.InsertingOrder?
    ensures Tried(env, s, c, InsertOrder(c), d)
  {
    d := c;
    if DoInsertOrder(env, s, c) == None {
      d := OrderRival(env, s, c);
    } else {
      InsertOrderMoves(env, s, c);
    }
  }

  lemma UpdateKeyAdvances(env: Env, s: State, c: nat)
    requires c in s.txs && s.txs[c].stage.UpdatingKey? && Ready(env, s, c)
    ensures Tried(env, s, c, UpdateKey(c), c)
  {
    UpdatedEffort(env, s, c);
    UpdateKeyTouches(env, s, c);
  }

  lemma UpdatedEffort(env: Env, s: State, c: nat)
    requires c in s.txs && s.txs[c].stage.UpdatingKey? && Keyed(s.txs[c].call) && s.txs[c].keyWrite.Some?
    ensures DoUpdateKey(env, s, c).Some? && DoUpdateKey(env, s, c).value.txs[c].stage.Committing?
  {}

  lemma CommitAdvances(env: Env, s: State, c: nat)
    requires c in s.txs && s.txs[c].stage.Committing?
    ensures Tried(env, s, c, Commit(c, true), c)
  {
    EndTouches(s, c, s.txs[c].stage.result, true);
  }

  /** A statement or a commit of `c`. */
  predicate Own(c: nat, step: Step) {
    step.client == c && !step.Begin? && !step.Abort?
  }

  /** The next statement of an open transaction is executed unless it waits for another transaction. */
  lemma Statement(env: Env, s: State, c: nat) returns (step: Step, d: nat)
    requires c in s.txs && !s.txs[c].stage.Finished? && Ready(env, s, c)
    ensures Tried(env, s, c, step, d)
  {
    d := c;
    match s.txs[c].stage {
      case Selecting =>
        step := Select(c);
        SelectAdvances(env, s, c);
      case InsertingKey =>
        step := InsertKey(c);
        d := InsertKeyAdvances(env, s, c);
      case Recovering =>
        step := Recover(c);
        RecoverAdvances(env, s, c);
      case InsertingOrder =>
        step := InsertOrder(c);
        d := InsertOrderAdvances(env, s, c);
      case UpdatingKey(_) =>
        step := UpdateKey(c);
        UpdateKeyAdvances(env, s, c);
      case Committing(_) =>
        step := Commit(c, true);
        CommitAdvances(env, s, c);
    }
  }

  // ---- several statements -----------------------------------------------------------------------

  /** Statements and commits only, each of `c` or of a transaction that holds an uncommitted write in `s`. */
  ghost predicate ByHolders(s: State, c: nat, steps: seq<Step>) {
    forall i | 0 <= i < |steps| :: Own(c, steps[i]) || ByHolder(s, steps[i])
  }

  ghost predicate ByHolder(s: State, step: Step) {
    && step.client in s.txs && Own(step.client, step)
    && (s.txs[step.client].keyWrite.Some? || s.txs[step.client].orderWrite.Some?)
  }

  /** `c` has ended, and every other transaction is as it was, or had less effort to make and has ended. */
  ghost predicate Ended(s: State, s': State, c: nat) {
    && c in s.txs && s'.txs.Keys == s.txs.Keys && s'.txs[c].stage.Finished?
    && forall x | x in s.txs && x != c :: s'.txs[x] == s.txs[x] || Overtook(s, s', x, c)
  }

  ghost predicate Overtook(s: State, s': State, x: nat, c: nat)
    requires c in s.txs && x in s.txs && x in s'.txs
  {
    s'.txs[x].stage.Finished? && Effort(s.txs[x].stage) < Effort(s.txs[c].stage)
  }

  lemma AfterStep(s: State, s1: State, s': State, c: nat, step: Step, rest: seq<Step>)
    requires Advanced(s, s1, c) && Own(c, step) && Ended(s1, s', c) && ByHolders(s1, c, rest)
    ensures Ended(s, s', c) && ByHolders(s, c, [step] + rest)
  {
    forall i | 0 <= i < |[step] + rest|
      ensures Own(c, ([step] + rest)[i]) || ByHolder(s, ([step] + rest)[i])
    {
      if i > 0 {
        assert Own(c, rest[i - 1]) || ByHolder(s1, rest[i - 1]);
      }
    }
    forall x | x in s.txs && x != c && s'.txs[x] != s.txs[x] ensures Overtook(s, s', x, c) {
      assert s1.txs[x] == s.txs[x] && Overtook(s1, s', x, c);
    }
  }

  lemma StepsJoin(steps: seq<Step>, first: seq<Step>, rest: seq<Step>)
    ensures (steps + first) + rest == steps + (first + rest)
  {}

  lemma LastStep(s: State, s1: State, c: nat, step: Step)
    requires Advanced(s, s1, c) && Own(c, step) && s1.txs[c].stage.Finished?
    ensures Ended(s, s1, c) && ByHolders(s, c, [step]) && 1 <= Effort(s.txs[c].stage)
  {}

  lemma AfterWait(s: State, s1: State, s': State, c: nat, d: nat, first: seq<Step>, more: seq<Step>)
    requires Orderly(s) && Orderly(s1) && WaitsFor(s, c, d) && Ended(s, s1, d) && Ended(s1, s', c)
    requires ByHolders(s, d, first) && ByHolders(s1, c, more)
    ensures Ended(s, s', c) && ByHolders(s, c, first + more)
  {
    Descends(s, c, d);
    forall i | 0 <= i < |first + more| ensures Own(c, (first + more)[i]) || ByHolder(s, (first + more)[i]) {
      if i < |first| {
        assert Own(d, first[i]) || ByHolder(s, first[i]);
      } else {
        var step := more[i - |first|];
        assert Own(c, step) || ByHolder(s1, step);
        if !Own(c, step) {
          assert HoldsLate(s1.txs[step.client]);
        }
      }
    }
    forall x | x in s.txs && x != c && s'.txs[x] != s.txs[x] ensures Overtook(s, s', x, c) {
      assert x != d ==> s1.txs[x] == s.txs[x] || Overtook(s, s1, x, d);
      assert s'.txs[x] == s1.txs[x] || Overtook(s1, s', x, c);
    }
  }

  /** Once the one it waited for has ended, a transaction waits for no other. */
  lemma Unblocked(s: State, s1: State, c: nat, d: nat)
    requires Orderly(s) && Orderly(s1) && WaitsFor(s, c, d) && Ended(s, s1, d)
    ensures s1.txs[c] == s.txs[c] && forall e :: !WaitsFor(s1, c, e)
  {
    Descends(s, c, d);
    assert s1.txs[c] == s.txs[c] || Overtook(s, s1, c, d);
    forall e ensures !WaitsFor(s1, c, e) {
      if WaitsFor(s1, c, e) {
        WaitsForOne(s, c, d, e);
        assert false;
      }
    }
  }

  // ---- runs with their states --------------------------------------------------------------------

  /** The steps of a run and the states it goes through. */
  datatype Trace = Trace(steps: seq<Step>, states: seq<State>)

  ghost predicate Follows(env: Env, s: State, step: Step, s': State) {
    Apply(env, s, step) == Some(s')
  }

  /** The trace is a run that reaches `s`. */
  ghost predicate Reaches(env: Env, t: Trace, s: State) {
    && |t.states| == |t.steps| + 1 && t.states[0] == START && t.states[|t.steps|] == s
    && forall i | 0 <= i < |t.steps| :: Follows(env, t.states[i], t.steps[i], t.states[i + 1])
  }

  lemma {:induction false} TraceOf(env: Env, steps: seq<Step>, s: State) returns (t: Trace)
    requires Exec(env, steps) == Some(s)
    ensures Reaches(env, t, s) && t.steps == steps
  {
    if steps == [] {
      t := Trace([], [START]);
    } else {
      var n := |steps| - 1;
      var before := TraceOf(env, steps[..n], Exec(env, steps[..n]).value);
      t := Longer(env, before, Exec(env, steps[..n]).value, steps[n], s);
    }
  }

  lemma Longer(env: Env, t: Trace, s: State, step: Step, s': State) returns (t': Trace)
    requires Reaches(env, t, s) && Follows(env, s, step, s')
    ensures Reaches(env, t', s') && t'.steps == t.steps + [step]
  {
    t' := Trace(t.steps + [step], t.states + [s']);
    forall i | 0 <= i < |t'.steps| ensures Follows(env, t'.states[i], t'.steps[i], t'.states[i + 1]) {
      if i < |t.steps| {
        assert Follows(env, t.states[i], t.steps[i], t.states[i + 1]);
      }
    }
  }

  lemma {:induction false} TraceRuns(env: Env, t: Trace, s: State)
    requires Reaches(env, t, s)
    ensures Exec(env, t.steps) == Some(s)
    decreases |t.steps|
  {
    if t.steps != [] {
      var n := |t.steps| - 1;
      var before := Trace(t.steps[..n], t.states[..n + 1]);
      assert Follows(env, t.states[n], t.steps[n], t.states[n + 1]);
      forall i | 0 <= i < n ensures Follows(env, before.states[i], before.steps[i], before.states[i + 1]) {
        assert Follows(env, t.states[i], t.steps[i], t.states[i + 1]);
      }
      TraceRuns(env, before, t.states[n]);
    }
  }

  lemma TraceOrderly(env: Env, t: Trace, s: State)
    requires Reaches(env, t, s)
    ensures Orderly(s)
  {
    TraceRuns(env, t, s);
    RunOrderly(env, t.steps, s);
  }

  // ---- to the end ------------------------------------------------------------------------------

  /** The next statement of an open transaction extends the run, unless it waits. */
  lemma RunStatement(env: Env, t: Trace, s: State, c: nat)
    returns (step: Step, t': Trace, r: Option<State>, d: nat)
    requires Reaches(env, t, s) && c in s.txs && !s.txs[c].stage.Finished?
    ensures Own(c, step)
    ensures match r
            case Some(s') => Advanced(s, s', c) && Reaches(env, t', s') && t'.steps == t.steps + [step]
            case None => WaitsFor(s, c, d)
  {
    TraceRuns(env, t, s);
    RunReady(env, t.steps, s, c);
    step, d := Statement(env, s, c);
    r := Apply(env, s, step);
    t' := t;
    if r.Some? {
      t' := Longer(env, t, s, step, r.value);
    }
  }

  /** An open transaction ends after some steps that start and abort nothing. */
  lemma {:induction false} Finishes(env: Env, t: Trace, s: State, c: nat)
    returns (more: seq<Step>, t': Trace, s': State)
    requires Reaches(env, t, s) && c in s.txs && !s.txs[c].stage.Finished?
    ensures Reaches(env, t', s') && t'.steps == t.steps + more
    ensures Ended(s, s', c) && |more| <= Effort(s.txs[c].stage) && ByHolders(s, c, more)
    decreases Effort(s.txs[c].stage), 1
  {
    var step, t1, r, d := RunStatement(env, t, s, c);
    if r.Some? {
      more, t', s' := Advance(env, t, s, c, step, t1, r.value);
    } else {
      TraceOrderly(env, t, s);
      Descends(s, c, d);
      var first, t2, s2 := Finishes(env, t, s, d);
      TraceOrderly(env, t2, s2);
      Unblocked(s, s2, c, d);
      var step3, t3, r3, e := RunStatement(env, t2, s2, c);
      var rest;
      rest, t', s' := Advance(env, t2, s2, c, step3, t3, r3.value);
      AfterWait(s, s2, s', c, d, first, rest);
      more := first + rest;
      StepsJoin(t.steps, first, rest);
    }
  }

  /** The way to the end after the next statement is executed. */
  lemma {:induction false} Advance(env: Env, t: Trace, s: State, c: nat, step: Step, t1: Trace, s1: State)
    returns (more: seq<Step>, t': Trace, s': State)
    requires c in s.txs && Own(c, step) && Advanced(s, s1, c)
    requires Reaches(env, t1, s1) && t1.steps == t.steps + [step]
    ensures Reaches(env, t', s') && t'.steps == t.steps + more
    ensures Ended(s, s', c) && |more| <= Effort(s.txs[c].stage) && ByHolders(s, c, more)
    ensures s.txs[c].stage.InsertingKey? ==> |more| <= 6
    ensures s.txs[c].stage.InsertingOrder? ==> |more| <= 3
    decreases Effort(s.txs[c].stage), 0
  {
    if s1.txs[c].stage.Finished? {
      more, t', s' := [step], t1, s1;
      LastStep(s, s1, c, step);
    } else {
      var rest;
      rest, t', s' := Finishes(env, t1, s1, c);
      more := [step] + rest;
      StepsJoin(t.steps, [step], rest);
      AfterStep(s, s1, s', c, step, rest);
    }
  }

  /**
   * Waiting never deadlocks: from every reachable state an open transaction is led to its end by at most
   * twelve steps, none of which starts or aborts a transaction and each of which is its own or that of a
   * transaction holding an uncommitted row. Every other transaction stays as it is or ends too.
   */
  lemma NoDeadlock(env: Env, steps: seq<Step>, c: nat) returns (more: seq<Step>)
    requires Exec(env, steps).Some?
    requires var s := Exec(env, steps).value; c in s.txs && !s.txs[c].stage.Finished?
    ensures |more| <= 12 && ByHolders(Exec(env, steps).value, c, more)
    ensures Exec(env, steps + more).Some?
    ensures var s, s' := Exec(env, steps).value, Exec(env, steps + more).value;
            s'.txs.Keys == s.txs.Keys && s'.txs[c].stage.Finished?
            && forall x | x in s.txs && x != c :: s'.txs[x] == s.txs[x] || s'.txs[x].stage.Finished?
  {
    var s';
    more, s' := FinishesRun(env, steps, Exec(env, steps).value, c);
    EffortBound(Exec(env, steps).value.txs[c].stage);
  }

  lemma EffortBound(stage: Stage)
    ensures Effort(stage) <= 12
  {}

  lemma FinishesRun(env: Env, steps: seq<Step>, s: State, c: nat) returns (more: seq<Step>, s': State)
    requires Exec(env, steps) == Some(s) && c in s.txs && !s.txs[c].stage.Finished?
    ensures Exec(env, steps + more) == Some(s') && Ended(s, s', c)
    ensures |more| <= Effort(s.txs[c].stage) && ByHolders(s, c, more)
  {
    var t := TraceOf(env, steps, s);
    var t';
    more, t', s' := Finishes(env, t, s, c);
    TraceRuns(env, t', s');
  }
}
