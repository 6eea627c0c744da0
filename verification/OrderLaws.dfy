/** The laws of order creation in terms of what callers send and tables hold: principals, keys, columns, times. */
module OrderLaws {
  import opened Wrappers
  import opened Json
  import opened Amount
  import opened Requests
  import opened OrderStore
  import opened OrderProtocol
  import opened OrderInvariant
  import opened OrderTheorems

  // ---- one order per principal and key ----------------------------------------------------

  /** The call was made by the principal with this nonempty key. */
  predicate Carries(call: Call, principal: string, key: string) {
    key != "" && call.principal == principal && call.key == Some(key)
  }

  /** Two calls of one principal with one nonempty key never both create an order. */
  lemma OneOrderPerKey(env: Env, steps: seq<Step>, i: nat, j: nat, principal: string, key: string)
    requires Exec(env, steps).Some?
    requires var h := Exec(env, steps).value.history;
             && i < |h| && j < |h| && h[i].outcome.Created? && h[j].outcome.Created?
             && Carries(h[i].call, principal, key) && Carries(h[j].call, principal, key)
    ensures i == j
  {
    RunKeeps(env, steps);
    OneUnder(Exec(env, steps).value.history, KeyPk(principal, key), i, j);
  }

  /** An answer other than a new order: it was made from a key row. */
  predicate FromKey(e: Event) {
    e.outcome.Replayed? || e.outcome.Conflict?
  }

  /** The creation that an event answers from: by the same principal under the same nonempty key. */
  predicate AnsweredBy(e: Event, creation: Event) {
    && creation.outcome.Created?
    && e.call.key.Some? && Carries(e.call, creation.call.principal, e.call.key.value)
    && creation.call.key == e.call.key
  }

  lemma KeyCreator(env: Env, s: State, e: Event) returns (i: nat)
    requires Inv(env, s) && EventOk(env, s.db, e) && FromKey(e)
    ensures i < |s.history| && AnsweredBy(e, s.history[i])
  {
    i := CommittedKeyAnswers(env, s, SlotOf(e.call));
  }

  lemma OneLonger(h: seq<Event>, h': seq<Event>) returns (e: Event)
    requires h <= h' && |h'| == |h| + 1
    ensures h' == h + [e] && e == h'[|h|]
  {
    e := h'[|h|];
  }

  lemma StepAppends(env: Env, s: State, step: Step, s': State) returns (e: Event)
    requires TxsOk(env, s.db, s.txs) && Apply(env, s, step) == Some(s') && s'.history != s.history
    ensures s'.history == s.history + [e] && e == s'.history[|s.history|]
  {
    StepRefines(env, s, step);
    AppendedBy(env, s, s', step.client);
    e := OneLonger(s.history, s'.history);
  }

  /** A step that records a decision from a key row leaves the tables as they were. */
  lemma NewEvent(env: Env, s: State, step: Step, s': State) returns (e: Event)
    requires Inv(env, s) && Apply(env, s, step) == Some(s') && s'.history != s.history
    ensures s'.history == s.history + [e]
    ensures FromKey(e) ==> EventOk(env, s.db, e)
  {
    e := StepAppends(env, s, step, s');
    StepKeeps(env, s, step);
    assert EventOk(env, s'.db, s'.history[|s.history|]);
    SameTables(env, s, step, s');
  }

  lemma SameTables(env: Env, s: State, step: Step, s': State)
    requires TxsOk(env, s.db, s.txs) && Apply(env, s, step) == Some(s') && |s'.history| == |s.history| + 1
    ensures FromKey(s'.history[|s.history|]) ==> s'.db == s.db
  {
    if step.Commit? {
      CommitWrites(env, s, step.client);
    } else {
      OthersWriteNothing(env, s, step);
    }
  }

  ghost predicate Earlier(h: seq<Event>, j: nat)
    requires j < |h|
  {
    exists i :: 0 <= i < j && AnsweredBy(h[j], h[i])
  }

  ghost predicate AllEarlier(h: seq<Event>) {
    forall j | 0 <= j < |h| && FromKey(h[j]) :: Earlier(h, j)
  }

  lemma OneMoreEarlier(h: seq<Event>, e: Event, i: nat)
    requires AllEarlier(h) && (FromKey(e) ==> i < |h| && AnsweredBy(e, h[i]))
    ensures AllEarlier(h + [e])
  {
    var h' := h + [e];
    forall j | 0 <= j < |h'| && FromKey(h'[j]) ensures Earlier(h', j) {
      if j < |h| {
        assert Earlier(h, j);
        var k :| 0 <= k < j && AnsweredBy(h[j], h[k]);
        assert AnsweredBy(h'[j], h'[k]);
      } else {
        assert AnsweredBy(h'[j], h'[i]);
      }
    }
  }

  lemma EventEarlier(env: Env, s: State, e: Event)
    requires Inv(env, s) && AllEarlier(s.history) && (FromKey(e) ==> EventOk(env, s.db, e))
    ensures AllEarlier(s.history + [e])
  {
    var i := 0;
    if FromKey(e) {
      i := KeyCreator(env, s, e);
    }
    OneMoreEarlier(s.history, e, i);
  }

  lemma {:induction false} RunEarlier(env: Env, steps: seq<Step>, s: State)
    requires Exec(env, steps) == Some(s)
    ensures AllEarlier(s.history)
  {
    if steps != [] {
      var n := |steps| - 1;
      var before := Exec(env, steps[..n]).value;
      RunEarlier(env, steps[..n], before);
      RunKeeps(env, steps[..n]);
      if s.history != before.history {
        var e := NewEvent(env, before, steps[n], s);
        EventEarlier(env, before, e);
      }
    }
  }

  /** Every replay and every conflict answers from an earlier creation by the same principal under the same key. */
  lemma AnswersEarlierCreation(env: Env, steps: seq<Step>, j: nat) returns (i: nat)
    requires Exec(env, steps).Some?
    requires var h := Exec(env, steps).value.history; j < |h| && FromKey(h[j])
    ensures var h := Exec(env, steps).value.history; i < j && AnsweredBy(h[j], h[i])
  {
    var h := Exec(env, steps).value.history;
    RunEarlier(env, steps, Exec(env, steps).value);
    assert Earlier(h, j);
    i :| 0 <= i < j && AnsweredBy(h[j], h[i]);
  }

  // ---- what the tables hold ------------------------------------------------------------------

  /** A row stands under its own user and id, meets the constraints of the table, and was not updated since. */
  predicate RowInPlace(pk: OrderPk, o: Order) {
    o.userId == pk.userId && o.id == pk.id && MeetsSchema(o) && o.createdAt == o.updatedAt
  }

  lemma MadeInPlace(call: Call, o: Order)
    requires RowMadeBy(call, o)
    ensures RowInPlace(OrderPk(call.request.userId, call.orderId), o)
  {
    RowMeetsSchema(call, o.createdAt);
  }

  /** In every reachable state every order stands in its place, as some committed call asked for it. */
  lemma OrdersInPlace(env: Env, steps: seq<Step>, pk: OrderPk) returns (i: nat)
    requires Exec(env, steps).Some? && pk in Exec(env, steps).value.db.orders
    ensures var s := Exec(env, steps).value;
            && RowInPlace(pk, s.db.orders[pk])
            && i < |s.history| && s.history[i].outcome.Created?
            && s.history[i].outcome.order == s.db.orders[pk] && Fulfils(s.db.orders[pk], s.history[i].call.request)
  {
    RunKeeps(env, steps);
    i := StoredAs(env, Exec(env, steps).value, pk);
  }

  lemma StoredAs(env: Env, s: State, pk: OrderPk) returns (i: nat)
    requires HistoryOk(env, s.db, s.history) && pk in s.db.orders
    ensures RowInPlace(pk, s.db.orders[pk])
    ensures i < |s.history| && s.history[i].outcome.Created? && s.history[i].outcome.order == s.db.orders[pk]
    ensures Fulfils(s.db.orders[pk], s.history[i].call.request)
  {
    i :| 0 <= i < |s.history| && CreatedAs(s.history[i], pk);
    assert EventOk(env, s.db, s.history[i]);
    MadeInPlace(s.history[i].call, s.history[i].outcome.order);
    RowFulfils(s.history[i].call, s.history[i].outcome.order);
  }

  /** In every reachable state every key row stands under the principal and key of the call that made it. */
  lemma KeysInPlace(env: Env, steps: seq<Step>, k: KeyPk) returns (i: nat)
    requires Exec(env, steps).Some? && k in Exec(env, steps).value.db.keys
    ensures var s := Exec(env, steps).value;
            && 16 <= |k.key| <= 256
            && i < |s.history| && s.history[i].outcome.Created? && Carries(s.history[i].call, k.principal, k.key)
  {
    RunKeeps(env, steps);
    var s := Exec(env, steps).value;
    i := CommittedKeyAnswers(env, s, k);
    assert EventOk(env, s.db, s.history[i]);
  }

  // ---- times ------------------------------------------------------------------------------------

  /** A created order bears the time at which its transaction began, as `now()` does, in both columns. */
  lemma CreatedWhenBegun(env: Env, steps: seq<Step>, i: nat)
    requires Exec(env, steps).Some?
    requires var h := Exec(env, steps).value.history; i < |h| && h[i].outcome.Created?
    ensures var s := Exec(env, steps).value;
            var e := s.history[i];
            && e.client in s.txs && s.txs[e.client].call == e.call
            && e.outcome.order.createdAt == s.txs[e.client].startedAt
            && e.outcome.order.updatedAt == s.txs[e.client].startedAt
  {
    RunKeeps(env, steps);
    BornWhenBegun(env, Exec(env, steps).value, i);
  }

  lemma BornWhenBegun(env: Env, s: State, i: nat)
    requires TxsOk(env, s.db, s.txs) && ClientsOnce(s.txs, s.history) && EventsOk(env, s.db, s.history)
    requires i < |s.history| && s.history[i].outcome.Created?
    ensures var e := s.history[i];
            && e.client in s.txs && s.txs[e.client].call == e.call
            && e.outcome.order.createdAt == s.txs[e.client].startedAt
            && e.outcome.order.updatedAt == s.txs[e.client].startedAt
  {
    var e := s.history[i];
    assert EventOk(env, s.db, e) && TxOk(env, s.db, s.txs[e.client]);
    RowMeetsSchema(e.call, e.outcome.order.createdAt);
  }

  // ---- amounts ----------------------------------------------------------------------------------

  /** A text that a reader of fixed-point numbers reads as the amount, with two places. */
  ghost predicate ShowsAmount(v: Option<Value>, amount: Decimal) {
    && v.Some? && v.value.Str? && ParseFixed(v.value.s).Some?
    && ParseFixed(v.value.s).value.scale == 2
    && FixedValue(ParseFixed(v.value.s).value) == DecimalValue(amount)
  }

  /** Whatever answers a request of at most two places, first or replayed, shows the amount that was asked for. */
  lemma AmountShown(env: Env, steps: seq<Step>, j: nat)
    requires CollisionFree(env) && Honest(env) && Exec(env, steps).Some?
    requires var h := Exec(env, steps).value.history;
             j < |h| && ResponseOf(h[j].outcome).Some? && Scale(h[j].call.request.amount) <= 2
    ensures var e := Exec(env, steps).value.history[j];
            ShowsAmount(Field(ResponseOf(e.outcome).value, "amount"), e.call.request.amount)
  {
    var o := AnswersOwnRequest(env, steps, j);
    var e := Exec(env, steps).value.history[j];
    ResponseTells(env, o, ResponseOf(e.outcome).value);
    StoredExactly(e.call.request.amount);
    CentsShown(o.cents);
  }

  // ---- what the environment may do -----------------------------------------------------------------

  /** A client that is not there yet may begin at any time, with any call. */
  lemma AnyoneMayBegin(env: Env, s: State, c: nat, call: Call, at: nat)
    requires c !in s.txs
    ensures var r := Apply(env, s, Begin(c, call, at));
            && r.Some? && r.value.db == s.db && r.value.history == s.history
            && r.value.txs.Keys == s.txs.Keys + {c} && (forall d | d in s.txs :: r.value.txs[d] == s.txs[d])
            && r.value.txs[c].call == call && r.value.txs[c].startedAt == at && !r.value.txs[c].stage.Finished?
  {}

  /** An open transaction may abort at any statement; that undoes everything it wrote and tells the history nothing. */
  lemma AnyMayAbort(env: Env, s: State, c: nat)
    requires c in s.txs && !s.txs[c].stage.Finished?
    ensures var r := Apply(env, s, Abort(c));
            && r.Some? && r.value.db == s.db && r.value.history == s.history
            && OneTouched(s, r.value, c) && r.value.txs[c].stage == Finished(Failed)
            && r.value.txs[c].keyWrite == None && r.value.txs[c].orderWrite == None
  {}

  /** A transaction that has all it needs may commit, and its response may then arrive or be lost. */
  lemma AnyResponseMayBeLost(env: Env, s: State, c: nat, delivered: bool)
    requires c in s.txs && s.txs[c].stage.Committing?
    ensures var r := Apply(env, s, Commit(c, delivered));
            && r.Some? && r.value.txs[c].stage == Finished(s.txs[c].stage.result)
            && r.value.history == s.history + [Event(c, s.txs[c].call, s.txs[c].stage.result, delivered)]
  {}

  // ---- when a call fails -------------------------------------------------------------------------------

  /** The reasons for which a statement fails its transaction. */
  datatype Refusal = KeyLength | NoRow | IdTaken | NoDict

  ghost predicate Refused(env: Env, db: Db, call: Call, at: nat, why: Refusal) {
    match why
    case KeyLength => call.key.Some? && (|call.key.value| < 16 || |call.key.value| > 256)
    case NoRow => RowOf(call, at) == None
    case IdTaken => OrderPk(call.request.userId, call.orderId) in db.orders
    case NoDict =>
      && call.key.Some? && KeyPk(call.principal, call.key.value) in db.keys
      && (var row := db.keys[KeyPk(call.principal, call.key.value)];
          row.hash == HashOf(env, call) && row.response.Some? && Decode(env, row.response.value) == None)
  }

  /** The statement failed the transaction, for that reason, and left tables and history as they were. */
  ghost predicate FailedFor(env: Env, s: State, s': State, c: nat, why: Refusal) {
    c in s.txs && Refused(env, s.db, s.txs[c].call, s.txs[c].startedAt, why) && s'.db == s.db && s'.history == s.history
  }

  ghost predicate Fails(s: State, c: nat) {
    c in s.txs && s.txs[c].stage == Finished(Failed)
  }

  lemma SelectRefused(env: Env, s: State, c: nat)
    requires c in s.txs && Keyed(s.txs[c].call) && s.txs[c].stage.Selecting?
    requires SlotOf(s.txs[c].call) in s.db.keys ==> s.db.keys[SlotOf(s.txs[c].call)].response.Some?
    ensures Fails(DoSelect(env, s, c), c) ==> FailedFor(env, s, DoSelect(env, s, c), c, NoDict)
  {
    if SlotOf(s.txs[c].call) in s.db.keys {
      FoundRefused(env, s, c);
    }
  }

  lemma FoundRefused(env: Env, s: State, c: nat)
    requires c in s.txs && Keyed(s.txs[c].call) && SlotOf(s.txs[c].call) in s.db.keys
    requires s.db.keys[SlotOf(s.txs[c].call)].response.Some?
    ensures DoSelect(env, s, c) == DoRecover(env, s, c)
    ensures Fails(DoSelect(env, s, c), c) ==> FailedFor(env, s, DoSelect(env, s, c), c, NoDict)
  {
    var row := s.db.keys[SlotOf(s.txs[c].call)];
    ReadsResponse(env, row, HashOf(env, s.txs[c].call));
    SelectLeads(env, s, c, Read(env, row, HashOf(env, s.txs[c].call)));
  }

  lemma InsertKeyRefused(env: Env, s: State, c: nat)
    requires c in s.txs && Keyed(s.txs[c].call) && DoInsertKey(env, s, c).Some?
    ensures var s' := DoInsertKey(env, s, c).value; Fails(s', c) ==> FailedFor(env, s, s', c, KeyLength)
  {}

  lemma InsertOrderRefused(env: Env, s: State, c: nat) returns (why: Refusal)
    requires c in s.txs && DoInsertOrder(env, s, c).Some?
    ensures var s' := DoInsertOrder(env, s, c).value; Fails(s', c) ==> FailedFor(env, s, s', c, why)
  {
    match RowOf(s.txs[c].call, s.txs[c].startedAt)
    case None => why := NoRow;
    case Some(row) =>
      why := IdTaken;
      RowMeetsSchema(s.txs[c].call, s.txs[c].startedAt);
  }

  lemma RowsHaveResponses(env: Env, s: State, c: nat)
    requires Inv(env, s) && c in s.txs && Keyed(s.txs[c].call) && SlotOf(s.txs[c].call) in s.db.keys
    ensures s.db.keys[SlotOf(s.txs[c].call)].response.Some?
  {
    KeyHasResponse(env, s, SlotOf(s.txs[c].call));
  }

  lemma SelectRefusedIn(env: Env, s: State, c: nat)
    requires Inv(env, s) && c in s.txs && Keyed(s.txs[c].call) && s.txs[c].stage.Selecting?
    ensures Fails(DoSelect(env, s, c), c) ==> FailedFor(env, s, DoSelect(env, s, c), c, NoDict)
  {
    if SlotOf(s.txs[c].call) in s.db.keys {
      RowsHaveResponses(env, s, c);
    }
    SelectRefused(env, s, c);
  }

  lemma CommitNotFailed(env: Env, s: State, c: nat, delivered: bool)
    requires TxsOk(env, s.db, s.txs) && c in s.txs && s.txs[c].stage.Committing?
    ensures !Fails(DoCommit(s, c, delivered), c)
  {
    assert TxOk(env, s.db, s.txs[c]);
  }

  lemma RecoverRefused(env: Env, s: State, c: nat)
    requires Inv(env, s) && c in s.txs && s.txs[c].stage.Recovering?
    ensures Keyed(s.txs[c].call)
    ensures Fails(DoRecover(env, s, c), c) ==> FailedFor(env, s, DoRecover(env, s, c), c, NoDict)
  {
    RecoveringKey(env, s, c);
    RowsHaveResponses(env, s, c);
    FoundRefused(env, s, c);
  }

  /**
   * Of all steps only an abort fails a transaction without a reason in its own call and the committed tables:
   * a key of a wrong length, a row that the table refuses, an id taken, or a stored response that is no dict.
   */
  lemma OnlyRefusedFail(env: Env, steps: seq<Step>, step: Step) returns (why: Refusal)
    requires Exec(env, steps).Some? && Apply(env, Exec(env, steps).value, step).Some?
    requires !step.Begin? && !step.Abort? && Fails(Apply(env, Exec(env, steps).value, step).value, step.client)
    ensures FailedFor(env, Exec(env, steps).value, Apply(env, Exec(env, steps).value, step).value, step.client, why)
  {
    RunKeeps(env, steps);
    why := StepRefused(env, Exec(env, steps).value, step, Apply(env, Exec(env, steps).value, step).value);
  }

  lemma StepRefused(env: Env, s: State, step: Step, s': State) returns (why: Refusal)
    requires Inv(env, s) && Apply(env, s, step) == Some(s')
    requires !step.Begin? && !step.Abort? && Fails(s', step.client)
    ensures FailedFor(env, s, s', step.client, why)
  {
    if step.Select? || step.Recover? {
      why := NoDict;
      ReadRefused(env, s, step, s');
    } else {
      why := WriteRefused(env, s, step, s');
    }
  }

  lemma ReadRefused(env: Env, s: State, step: Step, s': State)
    requires Inv(env, s) && Apply(env, s, step) == Some(s') && Fails(s', step.client)
    requires step.Select? || step.Recover?
    ensures FailedFor(env, s, s', step.client, NoDict)
  {
    if step.Select? {
      SelectRefusedIn(env, s, step.client);
    } else {
      RecoverRefused(env, s, step.client);
    }
  }

  lemma WriteRefused(env: Env, s: State, step: Step, s': State) returns (why: Refusal)
    requires TxsOk(env, s.db, s.txs) && Apply(env, s, step) == Some(s') && Fails(s', step.client)
    requires step.InsertKey? || step.InsertOrder? || step.UpdateKey? || step.Commit?
    ensures FailedFor(env, s, s', step.client, why)
  {
    var c := step.client;
    why := KeyLength;
    match step {
      case InsertKey(_) => InsertKeyRefused(env, s, c);
      case InsertOrder(_) => why := InsertOrderRefused(env, s, c);
      case UpdateKey(_) =>
      case Commit(_, delivered) => CommitNotFailed(env, s, c, delivered);
    }
  }
}
