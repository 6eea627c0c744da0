/** What holds of every run of concurrent `create_order` transactions. */
module OrderTheorems {
  import opened Wrappers
  import opened Json
  import opened Amount
  import opened Requests
  import opened OrderStore
  import opened OrderProtocol
  import opened OrderInvariant

  // ---- exactly once ----------------------------------------------------------------

  /** The orders ever created under a key. */
  function OrdersUnder(h: seq<Event>, k: KeyPk): set<OrderPk> {
    set i | 0 <= i < |h| && CreatedUnder(h[i], k) :: PkOf(h[i].outcome.order)
  }

  /**
   * In every run at most one order is ever created per (principal, key): exactly one once the key row
   * is committed, none before, and that order is in the orders table.
   */
  lemma ExactlyOnce(env: Env, steps: seq<Step>, k: KeyPk)
    requires Exec(env, steps).Some?
    ensures var s := Exec(env, steps).value;
            && |OrdersUnder(s.history, k)| == (if k in s.db.keys then 1 else 0)
            && OrdersUnder(s.history, k) <= s.db.orders.Keys
            && forall i, j | 0 <= i < j < |s.history| :: NoRepeat(s.history[i], s.history[j])
  {
    RunKeeps(env, steps);
    var s := Exec(env, steps).value;
    UnderCommitted(env, s.db, s.history, k);
    UnderCount(env, s.db, s.history, k);
  }

  lemma UnderCommitted(env: Env, db: Db, h: seq<Event>, k: KeyPk)
    requires HistoryOk(env, db, h)
    ensures OrdersUnder(h, k) <= db.orders.Keys
  {
    forall pk | pk in OrdersUnder(h, k) ensures pk in db.orders {
      var i :| 0 <= i < |h| && CreatedUnder(h[i], k) && PkOf(h[i].outcome.order) == pk;
      assert EventOk(env, db, h[i]);
    }
  }

  lemma OneUnder(h: seq<Event>, k: KeyPk, i: nat, j: nat)
    requires CreatedOnce(h) && i < |h| && j < |h| && CreatedUnder(h[i], k) && CreatedUnder(h[j], k)
    ensures i == j
  {}

  lemma UnderSingle(h: seq<Event>, k: KeyPk, i: nat)
    requires CreatedOnce(h) && i < |h| && CreatedUnder(h[i], k)
    ensures OrdersUnder(h, k) == {PkOf(h[i].outcome.order)}
  {
    forall j | 0 <= j < |h| && CreatedUnder(h[j], k) ensures j == i {
      OneUnder(h, k, i, j);
    }
  }

  lemma UnderNone(env: Env, db: Db, h: seq<Event>, k: KeyPk)
    requires EventsOk(env, db, h) && k !in db.keys
    ensures OrdersUnder(h, k) == {}
  {
    forall j | 0 <= j < |h| ensures !CreatedUnder(h[j], k) {
      assert EventOk(env, db, h[j]);
    }
  }

  lemma BackedKey(db: Db, h: seq<Event>, k: KeyPk) returns (i: nat)
    requires KeysBacked(db, h) && k in db.keys
    ensures i < |h| && CreatedUnder(h[i], k)
  {
    i :| 0 <= i < |h| && CreatedUnder(h[i], k);
  }

  lemma UnderCount(env: Env, db: Db, h: seq<Event>, k: KeyPk)
    requires EventsOk(env, db, h) && KeysBacked(db, h) && CreatedOnce(h)
    ensures |OrdersUnder(h, k)| == (if k in db.keys then 1 else 0)
  {
    if k in db.keys {
      var i := BackedKey(db, h, k);
      UnderSingle(h, k, i);
      assert |{PkOf(h[i].outcome.order)}| == 1;
    } else {
      UnderNone(env, db, h, k);
      assert |OrdersUnder(h, k)| == 0;
    }
  }

  // ---- the answered-key invariant -----------------------------------------------------

  /**
   * Every committed key row carries a response, written in the transaction that made its order, under the
   * hash of that order's request. So a SELECT of an existing key never falls through to the order INSERT.
   */
  lemma KeyRowsAnswered(env: Env, steps: seq<Step>, k: KeyPk) returns (i: nat)
    requires Exec(env, steps).Some? && k in Exec(env, steps).value.db.keys
    ensures var s := Exec(env, steps).value;
            && i < |s.history| && CreatedUnder(s.history[i], k)
            && (var o := s.history[i].outcome.order;
                && s.db.keys[k] == KeyRow(HashOf(env, s.history[i].call), Some(ToJsonb(RowJson(env, o))))
                && PkOf(o) in s.db.orders && s.db.orders[PkOf(o)] == o
                && RowOf(s.history[i].call, o.createdAt) == Some(o))
            && forall hash :: !Read(env, s.db.keys[k], hash).Unanswered?
  {
    RunKeeps(env, steps);
    var s := Exec(env, steps).value;
    i := CommittedKeyAnswers(env, s, k);
    AnsweredRow(env, s.db.keys[k]);
  }

  /** A row with a response is never found unanswered. */
  lemma AnsweredRow(env: Env, row: KeyRow)
    requires row.response.Some?
    ensures forall hash :: !Read(env, row, hash).Unanswered?
  {}

  // ---- refinement of the atomic map ------------------------------------------------------

  lemma KeyWriteAnswers(env: Env, db: Db, tx: Tx)
    ensures AnswersOf(env, Applied(db, tx))
         == if tx.keyWrite.Some? && Keyed(tx.call)
            then AnswersOf(env, db)[SlotOf(tx.call) := EntryOf(env, tx.keyWrite.value)] else AnswersOf(env, db)
  {}

  lemma AnswersAfterCreation(env: Env, s: State, c: nat)
    requires TxsOk(env, s.db, s.txs) && c in s.txs
    requires s.txs[c].stage.Committing? && s.txs[c].stage.result.Created?
    ensures AtomicCall(env, AnswersOf(env, s.db), s.txs[c].call, s.txs[c].stage.result,
                       AnswersOf(env, Applied(s.db, s.txs[c])))
  {
    CommitReady(env, s, c);
    var o := s.txs[c].stage.result.order;
    AnsweredEntry(env, s.txs[c].call, o);
    KeyWriteAnswers(env, s.db, s.txs[c]);
  }

  /** Either nothing visible happened, or the client made one decision, as the atomic operation makes it. */
  ghost predicate Refines(env: Env, s: State, s': State, c: nat) {
    || (s'.history == s.history && s'.db == s.db)
    || (&& |s'.history| == |s.history| + 1 && s'.history[..|s.history|] == s.history
        && (var e := s'.history[|s.history|];
            e.client == c && AtomicCall(env, AnswersOf(env, s.db), e.call, e.outcome, AnswersOf(env, s'.db))))
  }

  lemma RecordRefines(env: Env, s: State, c: nat, outcome: Outcome, delivered: bool, db': Db)
    requires c in s.txs && AtomicCall(env, AnswersOf(env, s.db), s.txs[c].call, outcome, AnswersOf(env, db'))
    ensures Refines(env, s, Record(s, c, outcome, delivered).(db := db'), c)
  {}

  lemma MismatchRefines(env: Env, s: State, c: nat)
    requires c in s.txs && Keyed(s.txs[c].call) && SlotOf(s.txs[c].call) in s.db.keys
    requires s.db.keys[SlotOf(s.txs[c].call)].hash != HashOf(env, s.txs[c].call)
    ensures Refines(env, s, Record(s, c, Conflict, true), c)
  {
    RecordRefines(env, s, c, Conflict, true, s.db);
  }

  lemma QuietRefines(env: Env, s: State, c: nat, tx: Tx)
    ensures Refines(env, s, Put(s, c, tx), c)
  {}

  /** An existing key row leads to a conflict, to a replay still to be committed, or to nothing visible. */
  lemma FoundRefines(env: Env, s: State, c: nat)
    requires c in s.txs && Keyed(s.txs[c].call) && SlotOf(s.txs[c].call) in s.db.keys
    ensures Refines(env, s, DoSelect(env, s, c), c) && Refines(env, s, DoRecover(env, s, c), c)
  {
    match Read(env, s.db.keys[SlotOf(s.txs[c].call)], HashOf(env, s.txs[c].call))
    case Mismatch => MismatchRefines(env, s, c);
    case Answered(v) => QuietRefines(env, s, c, s.txs[c].(stage := Committing(Replayed(v))));
    case Undecodable => QuietRefines(env, s, c, End(s.txs[c], Failed));
    case Unanswered =>
      QuietRefines(env, s, c, s.txs[c].(stage := InsertingOrder));
      QuietRefines(env, s, c, End(s.txs[c], Failed));
  }

  lemma SelectRefines(env: Env, s: State, c: nat)
    requires c in s.txs && Keyed(s.txs[c].call)
    ensures Refines(env, s, DoSelect(env, s, c), c) && Refines(env, s, DoRecover(env, s, c), c)
  {
    if SlotOf(s.txs[c].call) in s.db.keys {
      FoundRefines(env, s, c);
    } else {
      QuietRefines(env, s, c, s.txs[c].(stage := InsertingKey));
      QuietRefines(env, s, c, End(s.txs[c], Failed));
    }
  }

  lemma CommitRefines(env: Env, s: State, c: nat, delivered: bool)
    requires TxsOk(env, s.db, s.txs) && c in s.txs && s.txs[c].stage.Committing?
    ensures Refines(env, s, DoCommit(s, c, delivered), c)
  {
    var tx := s.txs[c];
    assert TxOk(env, s.db, tx);
    if tx.stage.result.Created? {
      AnswersAfterCreation(env, s, c);
    }
    RecordRefines(env, s, c, tx.stage.result, delivered, Applied(s.db, tx));
  }

  /**
   * A step either leaves the tables and the history alone, or appends one decision of the step's own
   * client, and then the key answers change exactly as the atomic operation says.
   */
  lemma StepRefines(env: Env, s: State, step: Step)
    requires TxsOk(env, s.db, s.txs) && Apply(env, s, step).Some?
    ensures Refines(env, s, Apply(env, s, step).value, step.client)
  {
    match step
    case Select(c) => SelectRefines(env, s, c);
    case Recover(c) => SelectRefines(env, s, c);
    case Commit(c, delivered) => CommitRefines(env, s, c, delivered);
    case _ =>
  }

  /** The answers before and after each decision of a history. */
  ghost predicate AtomicHistory(env: Env, h: seq<Event>, states: seq<Answers>) {
    && |states| == |h| + 1 && states[0] == map[]
    && forall i | 0 <= i < |h| :: AtomicCall(env, states[i], h[i].call, h[i].outcome, states[i + 1])
  }

  /**
   * Refinement: the decisions of any run, in the order they were made, are a sequential run of the atomic
   * map that ends in exactly the committed key table; each decision is that of one finished call, and each
   * call that ended with an answer or a conflict made its decision there.
   */
  lemma RunRefines(env: Env, steps: seq<Step>) returns (states: seq<Answers>)
    requires Exec(env, steps).Some?
    ensures AtomicHistory(env, Exec(env, steps).value.history, states)
    ensures states[|states| - 1] == AnswersOf(env, Exec(env, steps).value.db)
    ensures var s := Exec(env, steps).value; ClientsOnce(s.txs, s.history) && AllDecided(s.txs, s.history)
  {
    states := RunRefinesTo(env, steps, Exec(env, steps).value);
    RunKeeps(env, steps);
  }

  lemma {:induction false} RunRefinesTo(env: Env, steps: seq<Step>, s: State) returns (states: seq<Answers>)
    requires Exec(env, steps) == Some(s)
    ensures AtomicHistory(env, s.history, states) && states[|states| - 1] == AnswersOf(env, s.db)
  {
    if steps == [] {
      states := [map[]];
    } else {
      var before, step := steps[..|steps| - 1], steps[|steps| - 1];
      var s0 := Exec(env, before).value;
      states := RunRefinesTo(env, before, s0);
      StepRefinesIn(env, before, s0, step, s);
      states := RefineNext(env, s0, s, step.client, states);
    }
  }

  lemma StepRefinesIn(env: Env, before: seq<Step>, s0: State, step: Step, s: State)
    requires Exec(env, before) == Some(s0) && Apply(env, s0, step) == Some(s)
    ensures Refines(env, s0, s, step.client)
  {
    RunTxsOk(env, before);
    StepRefines(env, s0, step);
  }

  lemma RunTxsOk(env: Env, steps: seq<Step>)
    requires Exec(env, steps).Some?
    ensures TxsOk(env, Exec(env, steps).value.db, Exec(env, steps).value.txs)
  {
    RunKeeps(env, steps);
  }

  lemma RefineNext(env: Env, s: State, s': State, c: nat, states: seq<Answers>) returns (states': seq<Answers>)
    requires AtomicHistory(env, s.history, states) && states[|states| - 1] == AnswersOf(env, s.db)
    requires Refines(env, s, s', c)
    ensures AtomicHistory(env, s'.history, states') && states'[|states'| - 1] == AnswersOf(env, s'.db)
  {
    if s'.history == s.history {
      states' := states;
    } else {
      ExtendHistory(env, s, s', c, states);
      states' := states + [AnswersOf(env, s'.db)];
    }
  }

  lemma ExtendHistory(env: Env, s: State, s': State, c: nat, states: seq<Answers>)
    requires AtomicHistory(env, s.history, states) && states[|states| - 1] == AnswersOf(env, s.db)
    requires Refines(env, s, s', c) && s'.history != s.history
    ensures AtomicHistory(env, s'.history, states + [AnswersOf(env, s'.db)])
  {
    var states' := states + [AnswersOf(env, s'.db)];
    forall i | 0 <= i < |s'.history|
      ensures AtomicCall(env, states'[i], s'.history[i].call, s'.history[i].outcome, states'[i + 1])
    {
      if i < |s.history| {
        assert s'.history[i] == s'.history[..|s.history|][i] == s.history[i];
      }
    }
  }

  lemma FinishedRests(env: Env, s: State, step: Step)
    requires step.client in s.txs && s.txs[step.client].stage.Finished?
    ensures Apply(env, s, step) == None
  {}

  /** A finished transaction takes no further step and makes no further decision. */
  lemma FinishedStays(env: Env, s: State, step: Step, d: nat)
    requires Apply(env, s, step).Some? && d in s.txs && s.txs[d].stage.Finished?
    ensures step.client != d
    ensures d in Apply(env, s, step).value.txs && Apply(env, s, step).value.txs[d] == s.txs[d]
  {
    if step.client == d {
      FinishedRests(env, s, step);
    } else if !step.Begin? {
      StepTouchesOne(env, s, step);
    }
  }

  lemma {:induction false} FinishedForGood(env: Env, steps: seq<Step>, m: nat, d: nat)
    requires m <= |steps| && Exec(env, steps).Some?
    ensures Exec(env, steps[..m]).Some?
    ensures var s := Exec(env, steps[..m]).value;
            d in s.txs && s.txs[d].stage.Finished? ==>
              d in Exec(env, steps).value.txs && Exec(env, steps).value.txs[d] == s.txs[d]
  {
    if m == |steps| {
      assert steps[..m] == steps;
    } else {
      var before := steps[..|steps| - 1];
      FinishedForGood(env, before, m, d);
      assert before[..m] == steps[..m];
      var s := Exec(env, before).value;
      if d in s.txs && s.txs[d].stage.Finished? {
        FinishedStays(env, s, steps[|steps| - 1], d);
      }
    }
  }

  /**
   * The decisions respect real time: those made by some point of a run stay in front, and every later one
   * belongs to a call that had not ended by then.
   */
  lemma {:induction false} RealTimeOrder(env: Env, steps: seq<Step>, m: nat)
    requires m <= |steps| && Exec(env, steps).Some?
    ensures Exec(env, steps[..m]).Some?
    ensures Exec(env, steps[..m]).value.history <= Exec(env, steps).value.history
    ensures var s, s' := Exec(env, steps[..m]).value, Exec(env, steps).value;
            forall i | |s.history| <= i < |s'.history| ::
              s'.history[i].client in s.txs ==> !s.txs[s'.history[i].client].stage.Finished?
  {
    if m == |steps| {
      assert steps[..m] == steps;
    } else {
      var before, step := steps[..|steps| - 1], steps[|steps| - 1];
      RealTimeOrder(env, before, m);
      assert before[..m] == steps[..m];
      StepRefinesIn(env, before, Exec(env, before).value, step, Exec(env, steps).value);
      FinishedForGood(env, before, m, step.client);
      LaterDecision(env, Exec(env, steps[..m]).value, Exec(env, before).value, step, Exec(env, steps).value);
    }
  }

  /** An event that some client appends leaves the earlier events in place. */
  lemma AppendedBy(env: Env, t: State, u: State, c: nat)
    requires Refines(env, t, u, c)
    ensures t.history <= u.history
    ensures forall i | |t.history| <= i < |u.history| :: u.history[i].client == c
    ensures forall i | 0 <= i < |t.history| :: u.history[i] == t.history[i]
  {
    if u.history != t.history {
      assert u.history[..|t.history|] == t.history;
      assert forall i | 0 <= i < |t.history| :: u.history[i] == u.history[..|t.history|][i];
    }
  }

  lemma LaterDecision(env: Env, s: State, t: State, step: Step, u: State)
    requires Refines(env, t, u, step.client) && Apply(env, t, step) == Some(u)
    requires s.history <= t.history
    requires forall i | |s.history| <= i < |t.history| ::
               t.history[i].client in s.txs ==> !s.txs[t.history[i].client].stage.Finished?
    requires step.client in s.txs && s.txs[step.client].stage.Finished? ==>
               step.client in t.txs && t.txs[step.client] == s.txs[step.client]
    ensures s.history <= u.history
    ensures forall i | |s.history| <= i < |u.history| ::
              u.history[i].client in s.txs ==> !s.txs[u.history[i].client].stage.Finished?
  {
    AppendedBy(env, t, u, step.client);
    if step.client in s.txs && s.txs[step.client].stage.Finished? {
      FinishedRests(env, t, step);
    }
  }

  // ---- a response answers its own request ---------------------------------------------------

  /** The response of a successful decision. */
  function ResponseOf(outcome: Outcome): Option<Value> {
    match outcome
    case Created(_, v) => Some(v)
    case Replayed(v) => Some(v)
    case _ => None
  }

  /** The order is what the request asks for: user, stored amount, status and payload. */
  ghost predicate Fulfils(o: Order, r: Request) {
    && o.userId == r.userId && o.cents == StoredCents(r.amount) && o.status == r.status
    && Valid(o.payload) && Same(PayloadOrEmpty(r.payload), o.payload)
  }

  lemma RowFulfils(call: Call, o: Order)
    requires RowMadeBy(call, o)
    ensures Fulfils(o, call.request) && o.id == call.orderId
  {
    RowPayload(call, o.createdAt);
  }

  /** Requests that hash equally store the same amount. */
  lemma SameRequestSameCents(a: Request, b: Request)
    requires SameRequest(a, b)
    ensures StoredCents(a.amount) == StoredCents(b.amount)
  {
    TextDecidesAmount(a.amount, b.amount);
  }

  lemma FormOfPayload(a: Request, b: Request)
    requires SameRequest(a, b)
    ensures SortKeys(PayloadOrEmpty(a.payload)) == SortKeys(PayloadOrEmpty(b.payload))
  {
    CanonicalRequestValid(a);
    CanonicalRequestValid(b);
    SameGivesOneForm(PayloadOrEmpty(a.payload), PayloadOrEmpty(b.payload));
  }

  /** The row of a request fulfils every same request. */
  lemma RowFulfilsSame(call: Call, o: Order, r: Request)
    requires RowMadeBy(call, o) && SameRequest(r, call.request)
    ensures Fulfils(o, r)
  {
    RowPayload(call, o.createdAt);
    SameRequestSameCents(r, call.request);
    FormOfPayload(r, call.request);
    CanonicalRequestValid(r);
    SortKeysValid(PayloadOrEmpty(r.payload));
  }

  /** The creation behind a successful keyed decision: made under the same key by the same request. */
  lemma CreatedFor(env: Env, s: State, j: nat) returns (i: nat)
    requires CollisionFree(env) && Inv(env, s)
    requires j < |s.history| && Keyed(s.history[j].call) && ResponseOf(s.history[j].outcome).Some?
    ensures i < |s.history| && CreatedUnder(s.history[i], SlotOf(s.history[j].call))
    ensures SameRequest(s.history[j].call.request, s.history[i].call.request)
    ensures var o := s.history[i].outcome.order;
            && RowMadeBy(s.history[i].call, o) && s.history[i].outcome.response == RowJson(env, o)
            && PkOf(o) in s.db.orders && s.db.orders[PkOf(o)] == o
    ensures Gives(env, s.history[j].outcome, RowJson(env, s.history[i].outcome.order))
  {
    i := BackedBy(env, s, j);
    HashDecidesRequest(env, s.history[j].call.request, s.history[i].call.request);
  }

  lemma BackedBy(env: Env, s: State, j: nat) returns (i: nat)
    requires Inv(env, s)
    requires j < |s.history| && Keyed(s.history[j].call) && ResponseOf(s.history[j].outcome).Some?
    ensures i < |s.history| && CreatedUnder(s.history[i], SlotOf(s.history[j].call))
    ensures HashOf(env, s.history[j].call) == HashOf(env, s.history[i].call)
    ensures var o := s.history[i].outcome.order;
            && RowMadeBy(s.history[i].call, o) && s.history[i].outcome.response == RowJson(env, o)
            && PkOf(o) in s.db.orders && s.db.orders[PkOf(o)] == o
    ensures Gives(env, s.history[j].outcome, RowJson(env, s.history[i].outcome.order))
  {
    var e := s.history[j];
    assert EventOk(env, s.db, e);
    if e.outcome.Created? {
      i := j;
    } else {
      i := CommittedKeyAnswers(env, s, SlotOf(e.call));
      assert EventOk(env, s.db, s.history[i]);
      ReplayBacked(env, s.db, e.call, e.outcome.response, s.history[i].call, s.history[i].outcome.order);
    }
  }

  /** A replay is what the driver makes of the row's response, and was asked for with the row's hash. */
  lemma ReplayBacked(env: Env, db: Db, call: Call, v: Value, creator: Call, o: Order)
    requires ReplayOk(env, db, call, v) && db.keys[SlotOf(call)] == AnswerRow(env, creator, o)
    ensures HashOf(env, call) == HashOf(env, creator) && Decode(env, ToJsonb(RowJson(env, o))) == Some(v)
  {
    ReadsResponse(env, db.keys[SlotOf(call)], HashOf(env, call));
  }

  /** A first response, or what the driver makes of its stored text. */
  ghost predicate Gives(env: Env, outcome: Outcome, first: Value) {
    match outcome
    case Created(_, v) => v == first
    case Replayed(v) => Decode(env, ToJsonb(first)) == Some(v)
    case _ => false
  }

  /** With an honest driver, a response is the row of its order up to member order. */
  lemma GivesRow(env: Env, outcome: Outcome, o: Order)
    requires Honest(env) && Valid(o.payload) && o.payload.Obj? && Gives(env, outcome, RowJson(env, o))
    ensures ResponseOf(outcome).Some? && IsRow(env, ResponseOf(outcome).value, o)
  {
    StoredResponse(env, o);
  }

  ghost predicate IsRow(env: Env, v: Value, o: Order) {
    Valid(v) && Same(RowJson(env, o), v)
  }

  lemma MadeRow(call: Call, o: Order)
    requires RowMadeBy(call, o)
    ensures Valid(o.payload) && o.payload.Obj?
  {
    RowPayload(call, o.createdAt);
  }

  lemma AnswersOwnRequestIn(env: Env, s: State, j: nat) returns (o: Order)
    requires CollisionFree(env) && Inv(env, s)
    requires j < |s.history| && ResponseOf(s.history[j].outcome).Some?
    ensures PkOf(o) in s.db.orders && s.db.orders[PkOf(o)] == o
    ensures Fulfils(o, s.history[j].call.request)
    ensures Gives(env, s.history[j].outcome, RowJson(env, o))
    ensures Honest(env) ==> IsRow(env, ResponseOf(s.history[j].outcome).value, o)
    ensures s.history[j].outcome.Created? ==> s.history[j].outcome.order == o
  {
    var e := s.history[j];
    assert EventOk(env, s.db, e);
    if e.outcome.Created? {
      o := e.outcome.order;
      RowFulfils(e.call, o);
      MadeRow(e.call, o);
    } else {
      var i := CreatedFor(env, s, j);
      o := s.history[i].outcome.order;
      RowFulfilsSame(s.history[i].call, o, e.call.request);
      MadeRow(s.history[i].call, o);
    }
    if Honest(env) {
      GivesRow(env, e.outcome, o);
    }
  }

  /**
   * Whatever a call returns comes from a committed order that fulfils the call's own request: it is the row
   * of that order or what the driver makes of the row's stored text, and so, with an honest driver, that row.
   */
  lemma AnswersOwnRequest(env: Env, steps: seq<Step>, j: nat) returns (o: Order)
    requires CollisionFree(env) && Exec(env, steps).Some?
    requires var h := Exec(env, steps).value.history; j < |h| && ResponseOf(h[j].outcome).Some?
    ensures var s := Exec(env, steps).value;
            && PkOf(o) in s.db.orders && s.db.orders[PkOf(o)] == o
            && Fulfils(o, s.history[j].call.request)
            && Gives(env, s.history[j].outcome, RowJson(env, o))
            && (Honest(env) ==> IsRow(env, ResponseOf(s.history[j].outcome).value, o))
  {
    RunKeeps(env, steps);
    o := AnswersOwnRequestIn(env, Exec(env, steps).value, j);
  }

  /**
   * Agreement: two successful calls under one key, on whichever path, were made with the same request and
   * answered from one committed order; with an honest driver both responses are the row of that order.
   */
  lemma Agreement(env: Env, steps: seq<Step>, j: nat, k: nat) returns (o: Order)
    requires CollisionFree(env) && Exec(env, steps).Some?
    requires var h := Exec(env, steps).value.history;
             && j < |h| && k < |h| && Keyed(h[j].call) && Keyed(h[k].call)
             && SlotOf(h[j].call) == SlotOf(h[k].call)
             && ResponseOf(h[j].outcome).Some? && ResponseOf(h[k].outcome).Some?
    ensures var s := Exec(env, steps).value;
            && PkOf(o) in s.db.orders && s.db.orders[PkOf(o)] == o
            && SameRequest(s.history[j].call.request, s.history[k].call.request)
            && Gives(env, s.history[j].outcome, RowJson(env, o))
            && Gives(env, s.history[k].outcome, RowJson(env, o))
    ensures Honest(env) ==>
              var h := Exec(env, steps).value.history;
              var v, w := ResponseOf(h[j].outcome).value, ResponseOf(h[k].outcome).value;
              IsRow(env, v, o) && IsRow(env, w, o) && Same(v, w)
  {
    RunKeeps(env, steps);
    var s := Exec(env, steps).value;
    var a := CreatedFor(env, s, j);
    var b := CreatedFor(env, s, k);
    OneUnder(s.history, SlotOf(s.history[j].call), a, b);
    o := s.history[a].outcome.order;
    OneRequest(env, s.history[j].call.request, s.history[a].call.request, s.history[k].call.request);
    if Honest(env) {
      MadeRow(s.history[a].call, o);
      GivesRow(env, s.history[j].outcome, o);
      GivesRow(env, s.history[k].outcome, o);
      RowsAgree(env, ResponseOf(s.history[j].outcome).value, ResponseOf(s.history[k].outcome).value, o);
    }
  }

  lemma OneRequest(env: Env, a: Request, b: Request, c: Request)
    requires CollisionFree(env) && SameRequest(a, b) && SameRequest(c, b)
    ensures SameRequest(a, c)
  {
    HashDecidesRequest(env, a, b);
    HashDecidesRequest(env, c, b);
    HashDecidesRequest(env, a, c);
  }

  lemma RowsAgree(env: Env, v: Value, w: Value, o: Order)
    requires Honest(env) && Valid(o.payload) && o.payload.Obj? && IsRow(env, v, o) && IsRow(env, w, o)
    ensures Same(v, w)
  {
    StoredResponse(env, o);
    FormsDecideSameness(RowJson(env, o), v);
    FormsDecideSameness(RowJson(env, o), w);
    FormsDecideSameness(v, w);
  }

  /** A key reused with a different request is a conflict, and only then: no success is the same request. */
  lemma ConflictMeansDifferent(env: Env, steps: seq<Step>, j: nat, k: nat)
    requires CollisionFree(env) && Exec(env, steps).Some?
    requires var h := Exec(env, steps).value.history;
             && j < |h| && k < |h| && h[j].outcome == Conflict && Keyed(h[j].call) && Keyed(h[k].call)
             && SlotOf(h[j].call) == SlotOf(h[k].call)
    ensures var h := Exec(env, steps).value.history;
            ResponseOf(h[k].outcome).Some? <==> !(h[k].outcome == Conflict)
    ensures var h := Exec(env, steps).value.history;
            ResponseOf(h[k].outcome).Some? ==> !SameRequest(h[j].call.request, h[k].call.request)
  {
    RunKeeps(env, steps);
    var s := Exec(env, steps).value;
    assert EventOk(env, s.db, s.history[j]);
    assert EventOk(env, s.db, s.history[k]);
    HashDecidesRequest(env, s.history[j].call.request, s.history[k].call.request);
    if ResponseOf(s.history[k].outcome).Some? {
      var i := CreatedFor(env, s, k);
      HashDecidesRequest(env, s.history[k].call.request, s.history[i].call.request);
      assert EventOk(env, s.db, s.history[i]);
    }
  }

  // ---- retries ----------------------------------------------------------------------------------

  /** What a SELECT with some hash finds under a key whose order an event created. */
  function FoundOf(env: Env, e: Event, hash: string): (found: Found)
    requires e.outcome.Created?
    ensures !found.Unanswered?
  {
    if hash != HashOf(env, e.call) then Mismatch
    else
      match Decode(env, ToJsonb(e.outcome.response))
      case Some(v) => Answered(v)
      case None => Undecodable
  }

  /** A committed key row is found as its creation left it. */
  lemma RowFound(env: Env, s: State, k: KeyPk, hash: string) returns (i: nat)
    requires Inv(env, s) && k in s.db.keys
    ensures i < |s.history| && CreatedUnder(s.history[i], k)
    ensures s.db.keys[k] == AnswerRow(env, s.history[i].call, s.history[i].outcome.order)
    ensures Read(env, s.db.keys[k], hash) == FoundOf(env, s.history[i], hash)
  {
    i := CommittedKeyAnswers(env, s, k);
    assert EventOk(env, s.db, s.history[i]);
    ReadsResponse(env, s.db.keys[k], hash);
  }

  /** Both SELECTs of a key that an event created. */
  lemma FoundLeads(env: Env, s: State, i: nat, c: nat) returns (found: Found)
    requires Inv(env, s) && c in s.txs && Keyed(s.txs[c].call)
    requires i < |s.history| && CreatedUnder(s.history[i], SlotOf(s.txs[c].call))
    ensures found == FoundOf(env, s.history[i], HashOf(env, s.txs[c].call))
    ensures DoSelect(env, s, c) == Leads(s, c, found) == DoRecover(env, s, c)
  {
    found := RowFoundAt(env, s, i, SlotOf(s.txs[c].call), HashOf(env, s.txs[c].call));
    SelectLeads(env, s, c, found);
  }

  lemma RowFoundAt(env: Env, s: State, i: nat, k: KeyPk, hash: string) returns (found: Found)
    requires Inv(env, s) && i < |s.history| && CreatedUnder(s.history[i], k)
    ensures found == FoundOf(env, s.history[i], hash)
    ensures k in s.db.keys && Read(env, s.db.keys[k], hash) == found
  {
    assert EventOk(env, s.db, s.history[i]);
    var a := RowFound(env, s, k, hash);
    OneUnder(s.history, k, a, i);
    found := FoundOf(env, s.history[i], hash);
  }

  /**
   * How a retry ends: another request is a conflict; the same request is replayed exactly when the driver
   * makes a dict of the stored response, and otherwise fails with the tables and the history unchanged.
   */
  ghost predicate Retried(env: Env, s: State, c: nat, e: Event, s': State)
    requires c in s.txs && e.outcome.Created?
  {
    var replay := Decode(env, ToJsonb(e.outcome.response));
    s' == if !SameRequest(s.txs[c].call.request, e.call.request) then Record(s, c, Conflict, true)
          else if replay.Some? then Put(s, c, s.txs[c].(stage := Committing(Replayed(replay.value))))
          else Fail(s, c)
  }

  /**
   * Once an order is created under a key - whether or not its response was delivered - both the first SELECT
   * and the recovery SELECT of any call under the key end as `Retried` says. In particular the recovery
   * SELECT never re-raises the unique violation.
   */
  lemma RetryReplays(env: Env, steps: seq<Step>, i: nat, c: nat)
    requires CollisionFree(env) && Exec(env, steps).Some?
    requires var s := Exec(env, steps).value;
             && i < |s.history| && c in s.txs && Keyed(s.txs[c].call)
             && CreatedUnder(s.history[i], SlotOf(s.txs[c].call))
             && (s.txs[c].stage.Selecting? || s.txs[c].stage.Recovering?)
    ensures var s := Exec(env, steps).value;
            DoSelect(env, s, c) == DoRecover(env, s, c) && Retried(env, s, c, s.history[i], DoSelect(env, s, c))
  {
    RunKeeps(env, steps);
    var s := Exec(env, steps).value;
    var found := FoundLeads(env, s, i, c);
    LeadsRetried(env, s, c, s.history[i]);
  }

  lemma LeadsRetried(env: Env, s: State, c: nat, e: Event)
    requires CollisionFree(env) && c in s.txs && e.outcome.Created?
    ensures Retried(env, s, c, e, Leads(s, c, FoundOf(env, e, HashOf(env, s.txs[c].call))))
  {
    HashDecidesRequest(env, s.txs[c].call.request, e.call.request);
  }

  /** A retry of the request that created the order under its key, at one of its SELECTs. */
  ghost predicate Retrying(s: State, i: nat, c: nat) {
    && i < |s.history| && c in s.txs && Keyed(s.txs[c].call)
    && CreatedUnder(s.history[i], SlotOf(s.txs[c].call))
    && (s.txs[c].stage.Selecting? || s.txs[c].stage.Recovering?)
    && SameRequest(s.txs[c].call.request, s.history[i].call.request)
  }

  /** With a decoding driver every retry is replayed, and the replay is the first response up to member order. */
  lemma DecodingReplays(env: Env, steps: seq<Step>, i: nat, c: nat) returns (v: Value)
    requires CollisionFree(env) && Decoding(env) && Exec(env, steps).Some? && Retrying(Exec(env, steps).value, i, c)
    ensures var s := Exec(env, steps).value;
            && Valid(v) && Same(s.history[i].outcome.response, v)
            && DoSelect(env, s, c) == DoRecover(env, s, c) == Put(s, c, s.txs[c].(stage := Committing(Replayed(v))))
  {
    RetryReplays(env, steps, i, c);
    v := DecodesFirst(env, steps, i);
  }

  lemma DecodesFirst(env: Env, steps: seq<Step>, i: nat) returns (v: Value)
    requires Decoding(env) && Exec(env, steps).Some?
    requires var h := Exec(env, steps).value.history; i < |h| && h[i].outcome.Created?
    ensures var first := Exec(env, steps).value.history[i].outcome.response;
            Decode(env, ToJsonb(first)) == Some(v) && Valid(v) && Same(first, v)
  {
    RunKeeps(env, steps);
    var s := Exec(env, steps).value;
    assert EventOk(env, s.db, s.history[i]);
    MadeRow(s.history[i].call, s.history[i].outcome.order);
    DecodingIsHonest(env);
    StoredResponse(env, s.history[i].outcome.order);
    v := Decode(env, ToJsonb(s.history[i].outcome.response)).value;
  }

  /** With a driver that hands over text, as the code configures it, every retry fails. */
  lemma UndecodedRetryFails(env: Env, steps: seq<Step>, i: nat, c: nat)
    requires CollisionFree(env) && Undecoded(env) && Exec(env, steps).Some? && Retrying(Exec(env, steps).value, i, c)
    ensures var s := Exec(env, steps).value; DoSelect(env, s, c) == DoRecover(env, s, c) == Fail(s, c)
  {
    RetryReplays(env, steps, i, c);
    UndecodedText(env, ToJsonb(Exec(env, steps).value.history[i].outcome.response));
  }

  /** So with such a driver no run ever replays a response. */
  lemma UndecodedNeverReplays(env: Env, steps: seq<Step>, i: nat)
    requires Undecoded(env) && Exec(env, steps).Some? && i < |Exec(env, steps).value.history|
    ensures !Exec(env, steps).value.history[i].outcome.Replayed?
  {
    RunKeeps(env, steps);
    if Exec(env, steps).value.history[i].outcome.Replayed? {
      var text := ReplayDecodes(env, Exec(env, steps).value, i);
      UndecodedText(env, text);
    }
  }

  /** A replay comes from a text of which the driver makes a dict. */
  lemma ReplayDecodes(env: Env, s: State, i: nat) returns (text: string)
    requires Inv(env, s) && i < |s.history| && s.history[i].outcome.Replayed?
    ensures text != "" && Decode(env, text).Some?
  {
    assert EventOk(env, s.db, s.history[i]);
    var a := BackedBy(env, s, i);
    text := ToJsonb(RowJson(env, s.history[a].outcome.order));
  }

  lemma RecoveringKey(env: Env, s: State, c: nat)
    requires TxsOk(env, s.db, s.txs) && c in s.txs && s.txs[c].stage.Recovering?
    ensures Keyed(s.txs[c].call) && SlotOf(s.txs[c].call) in s.db.keys
  {
    assert TxOk(env, s.db, s.txs[c]);
  }

  /** The event created the order under the key of the call, and its row is there. */
  ghost predicate WonBy(env: Env, db: Db, call: Call, e: Event) {
    && Keyed(call) && CreatedUnder(e, SlotOf(call)) && SlotOf(call) in db.keys
    && db.keys[SlotOf(call)] == AnswerRow(env, e.call, e.outcome.order)
  }

  /**
   * A transaction that hit the unique violation always finds the winner's committed row, and the recovery
   * SELECT, when it is answered, ends as what that row holds leads to, never in the bare raise.
   */
  lemma LoserFindsWinner(env: Env, steps: seq<Step>, c: nat) returns (i: nat)
    requires Exec(env, steps).Some?
    requires var s := Exec(env, steps).value; c in s.txs && s.txs[c].stage.Recovering?
    ensures var s := Exec(env, steps).value;
            && i < |s.history| && WonBy(env, s.db, s.txs[c].call, s.history[i])
            && DoRecover(env, s, c) == Leads(s, c, FoundOf(env, s.history[i], HashOf(env, s.txs[c].call)))
  {
    RunKeeps(env, steps);
    var s := Exec(env, steps).value;
    RecoveringKey(env, s, c);
    i := RowFound(env, s, SlotOf(s.txs[c].call), HashOf(env, s.txs[c].call));
    var found := FoundLeads(env, s, i, c);
  }

  // ---- conservation --------------------------------------------------------------------------------

  /** Committed orders are the committed unkeyed creations plus the committed keys. */
  lemma OrdersConserved(env: Env, steps: seq<Step>)
    requires Exec(env, steps).Some?
    ensures var s := Exec(env, steps).value; |s.db.orders| == UnkeyedCreations(s.history) + |s.db.keys|
  {
    RunKeeps(env, steps);
  }

  /** The tables gain the order and, when the call is keyed, its answered key, both new; nothing else changes. */
  ghost predicate Adds(env: Env, db: Db, call: Call, o: Order, db': Db) {
    && PkOf(o) !in db.orders && db'.orders == db.orders[PkOf(o) := o]
    && if Keyed(call) then SlotOf(call) !in db.keys && db'.keys == db.keys[SlotOf(call) := AnswerRow(env, call, o)]
       else db'.keys == db.keys
  }

  lemma CommitWrites(env: Env, s: State, c: nat)
    requires TxsOk(env, s.db, s.txs) && c in s.txs && s.txs[c].stage.Committing?
    ensures var db' := Applied(s.db, s.txs[c]);
            if s.txs[c].stage.result.Created? then Adds(env, s.db, s.txs[c].call, s.txs[c].stage.result.order, db')
            else db' == s.db
  {
    assert TxOk(env, s.db, s.txs[c]);
  }

  lemma OthersWriteNothing(env: Env, s: State, step: Step)
    requires !step.Commit? && Apply(env, s, step).Some?
    ensures Apply(env, s, step).value.db == s.db
  {}

  /** Only the commit of a newly created order changes a table, and then it adds exactly that order and its key. */
  lemma OnlyCreationsWrite(env: Env, steps: seq<Step>, step: Step)
    requires Exec(env, steps).Some? && Apply(env, Exec(env, steps).value, step).Some?
    ensures var s := Exec(env, steps).value;
            var db' := Apply(env, s, step).value.db;
            if step.Commit? && s.txs[step.client].stage.result.Created? then
              Adds(env, s.db, s.txs[step.client].call, s.txs[step.client].stage.result.order, db')
            else db' == s.db
  {
    RunTxsOk(env, steps);
    var s := Exec(env, steps).value;
    if step.Commit? {
      CommitWrites(env, s, step.client);
    } else {
      OthersWriteNothing(env, s, step);
    }
  }
}
