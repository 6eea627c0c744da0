/** What every step of the order protocol keeps. */
module OrderInvariant {
  import opened Wrappers
  import opened Json
  import opened Requests
  import opened OrderStore
  import opened OrderProtocol

  // ---- the invariant ------------------------------------------------------------

  /** The order is the row of the call, made when its transaction ran. */
  ghost predicate RowMadeBy(call: Call, o: Order) {
    RowOf(call, o.createdAt) == Some(o)
  }

  ghost predicate ReplayOk(env: Env, db: Db, call: Call, response: Value) {
    Keyed(call) && SlotOf(call) in db.keys && Read(env, db.keys[SlotOf(call)], HashOf(env, call)) == Answered(response)
  }

  /** A recorded decision is backed by the committed tables. */
  ghost predicate EventOk(env: Env, db: Db, e: Event) {
    match e.outcome
    case Created(o, response) =>
      && RowMadeBy(e.call, o) && response == RowJson(env, o)
      && PkOf(o) in db.orders && db.orders[PkOf(o)] == o
      && (Keyed(e.call) ==>
            && SlotOf(e.call) in db.keys && db.keys[SlotOf(e.call)] == AnswerRow(env, e.call, o)
            && KeyAllowed(SlotOf(e.call).key))
    case Replayed(response) => ReplayOk(env, db, e.call, response)
    case Conflict =>
      Keyed(e.call) && SlotOf(e.call) in db.keys && db.keys[SlotOf(e.call)].hash != HashOf(env, e.call)
    case Failed => false
  }

  predicate CreatedUnder(e: Event, k: KeyPk) {
    e.outcome.Created? && Keyed(e.call) && SlotOf(e.call) == k
  }

  predicate CreatedAs(e: Event, pk: OrderPk) {
    e.outcome.Created? && PkOf(e.outcome.order) == pk
  }

  ghost predicate KeysBacked(db: Db, h: seq<Event>) {
    forall k | k in db.keys :: exists i :: 0 <= i < |h| && CreatedUnder(h[i], k)
  }

  ghost predicate OrdersBacked(db: Db, h: seq<Event>) {
    forall pk | pk in db.orders :: exists i :: 0 <= i < |h| && CreatedAs(h[i], pk)
  }

  /** Two events do not create an order with one primary key, nor an order under one key. */
  predicate NoRepeat(e: Event, f: Event) {
    e.outcome.Created? && f.outcome.Created? ==>
      && PkOf(e.outcome.order) != PkOf(f.outcome.order)
      && (Keyed(e.call) && Keyed(f.call) ==> SlotOf(e.call) != SlotOf(f.call))
  }

  ghost predicate CreatedOnce(h: seq<Event>) {
    forall i, j | 0 <= i < j < |h| :: NoRepeat(h[i], h[j])
  }

  ghost predicate ClientsOnce(txs: map<nat, Tx>, h: seq<Event>) {
    && (forall i | 0 <= i < |h| ::
          h[i].client in txs && txs[h[i].client].call == h[i].call
          && txs[h[i].client].stage == Finished(h[i].outcome))
    && (forall i, j | 0 <= i < j < |h| :: h[i].client != h[j].client)
  }

  /** A call that ended in a decision has it in the history. */
  ghost predicate Decided(h: seq<Event>, c: nat, tx: Tx) {
    tx.stage.Finished? && tx.stage.outcome != Failed ==>
      exists i :: 0 <= i < |h| && h[i].client == c && h[i].call == tx.call && h[i].outcome == tx.stage.outcome
  }

  ghost predicate AllDecided(txs: map<nat, Tx>, h: seq<Event>) {
    forall c | c in txs :: Decided(h, c, txs[c])
  }

  /** What a transaction has written is not committed by anyone yet. */
  ghost predicate PendingFresh(db: Db, tx: Tx) {
    && (tx.keyWrite.Some? ==> Keyed(tx.call) && SlotOf(tx.call) !in db.keys && KeyAllowed(SlotOf(tx.call).key))
    && (tx.orderWrite.Some? ==> PkOf(tx.orderWrite.value) !in db.orders)
  }

  /** A transaction's stage, its pending writes and the committed tables fit together. */
  ghost predicate StageOk(env: Env, db: Db, tx: Tx) {
    match tx.stage
    case Selecting => Keyed(tx.call) && tx.keyWrite == None && tx.orderWrite == None
    case InsertingKey => Keyed(tx.call) && tx.keyWrite == None && tx.orderWrite == None
    case Recovering =>
      Keyed(tx.call) && tx.keyWrite == None && tx.orderWrite == None && SlotOf(tx.call) in db.keys
    case InsertingOrder =>
      && tx.orderWrite == None
      && tx.keyWrite == (if Keyed(tx.call) then Some(KeyRow(HashOf(env, tx.call), None)) else None)
    case UpdatingKey(o) =>
      && Keyed(tx.call) && tx.orderWrite == Some(o) && RowMadeBy(tx.call, o) && o.createdAt == tx.startedAt
      && tx.keyWrite == Some(KeyRow(HashOf(env, tx.call), None))
    case Committing(result) =>
      (match result
       case Created(o, response) =>
         && tx.orderWrite == Some(o) && RowMadeBy(tx.call, o) && response == RowJson(env, o)
         && o.createdAt == tx.startedAt
         && tx.keyWrite == (if Keyed(tx.call) then Some(AnswerRow(env, tx.call, o)) else None)
       case Replayed(response) =>
         tx.keyWrite == None && tx.orderWrite == None && ReplayOk(env, db, tx.call, response)
       case _ => false)
    case Finished(outcome) =>
      && tx.keyWrite == None && tx.orderWrite == None
      && (outcome.Created? ==> outcome.order.createdAt == tx.startedAt)
  }

  ghost predicate TxOk(env: Env, db: Db, tx: Tx) {
    PendingFresh(db, tx) && StageOk(env, db, tx)
  }

  /** Two transactions have no pending write of the same primary key. */
  ghost predicate Apart(tx: Tx, other: Tx) {
    && (tx.keyWrite.Some? && other.keyWrite.Some? && Keyed(tx.call) && Keyed(other.call) ==>
          SlotOf(tx.call) != SlotOf(other.call))
    && (tx.orderWrite.Some? && other.orderWrite.Some? ==>
          PkOf(tx.orderWrite.value) != PkOf(other.orderWrite.value))
  }

  /** Pending writes of different transactions are for different primary keys. */
  ghost predicate Exclusive(txs: map<nat, Tx>) {
    forall c, d | c in txs && d in txs && c != d :: Apart(txs[c], txs[d])
  }

  /** Committed calls without a key that created an order. */
  function UnkeyedCreations(h: seq<Event>): nat {
    if h == [] then 0
    else UnkeyedCreations(h[..|h| - 1])
         + if h[|h| - 1].outcome.Created? && !Keyed(h[|h| - 1].call) then 1 else 0
  }

  ghost predicate Conserved(s: State) {
    |s.db.orders| == UnkeyedCreations(s.history) + |s.db.keys|
  }

  ghost predicate EventsOk(env: Env, db: Db, h: seq<Event>) {
    forall i | 0 <= i < |h| :: EventOk(env, db, h[i])
  }

  ghost predicate HistoryOk(env: Env, db: Db, h: seq<Event>) {
    EventsOk(env, db, h) && KeysBacked(db, h) && OrdersBacked(db, h) && CreatedOnce(h)
  }

  ghost predicate TxsOk(env: Env, db: Db, txs: map<nat, Tx>) {
    forall c | c in txs :: TxOk(env, db, txs[c])
  }

  ghost predicate Inv(env: Env, s: State) {
    && HistoryOk(env, s.db, s.history)
    && ClientsOnce(s.txs, s.history)
    && AllDecided(s.txs, s.history)
    && TxsOk(env, s.db, s.txs)
    && Exclusive(s.txs)
    && Conserved(s)
  }

  // ---- steps that touch neither table nor history -----------------------------------

  lemma PutClients(txs: map<nat, Tx>, h: seq<Event>, c: nat, tx: Tx)
    requires ClientsOnce(txs, h)
    requires c in txs ==> !txs[c].stage.Finished?
    ensures ClientsOnce(txs[c := tx], h)
  {}

  lemma PutDecided(txs: map<nat, Tx>, h: seq<Event>, c: nat, tx: Tx)
    requires AllDecided(txs, h) && Decided(h, c, tx)
    ensures AllDecided(txs[c := tx], h)
  {}

  lemma PutExclusive(txs: map<nat, Tx>, c: nat, tx: Tx)
    requires Exclusive(txs)
    requires forall d | d in txs && d != c :: Apart(tx, txs[d])
    ensures Exclusive(txs[c := tx])
  {
    var txs' := txs[c := tx];
    forall a, b | a in txs' && b in txs' && a != b ensures Apart(txs'[a], txs'[b]) {
      if a == c {
        assert Apart(tx, txs[b]);
      } else if b == c {
        assert Apart(tx, txs[a]);
      } else {
        assert Apart(txs[a], txs[b]);
      }
    }
  }

  lemma PutTxs(env: Env, db: Db, txs: map<nat, Tx>, c: nat, tx: Tx)
    requires TxsOk(env, db, txs) && TxOk(env, db, tx)
    ensures TxsOk(env, db, txs[c := tx])
  {}

  /** Replacing one unfinished transaction by a consistent one keeps the invariant. */
  lemma PutKeeps(env: Env, s: State, c: nat, tx: Tx)
    requires Inv(env, s)
    requires c in s.txs ==> !s.txs[c].stage.Finished?
    requires TxOk(env, s.db, tx) && Decided(s.history, c, tx)
    requires forall d | d in s.txs && d != c :: Apart(tx, s.txs[d])
    ensures Inv(env, Put(s, c, tx))
  {
    PutClients(s.txs, s.history, c, tx);
    PutDecided(s.txs, s.history, c, tx);
    PutExclusive(s.txs, c, tx);
    PutTxs(env, s.db, s.txs, c, tx);
  }

  /** A transaction that moves on without new writes. */
  lemma MoveKeeps(env: Env, s: State, c: nat, tx: Tx)
    requires Inv(env, s) && c in s.txs && !s.txs[c].stage.Finished?
    requires tx.call == s.txs[c].call && TxOk(env, s.db, tx) && Decided(s.history, c, tx)
    requires tx.keyWrite.Some? ==> s.txs[c].keyWrite.Some?
    requires tx.orderWrite.Some? ==> tx.orderWrite == s.txs[c].orderWrite
    ensures Inv(env, Put(s, c, tx))
  {
    forall d | d in s.txs && d != c ensures Apart(tx, s.txs[d]) {
      assert Apart(s.txs[c], s.txs[d]);
    }
    PutKeeps(env, s, c, tx);
  }

  lemma FailKeeps(env: Env, s: State, c: nat)
    requires Inv(env, s) && c in s.txs && !s.txs[c].stage.Finished?
    ensures Inv(env, Fail(s, c))
  {
    MoveKeeps(env, s, c, End(s.txs[c], Failed));
  }

  lemma BeginKeeps(env: Env, s: State, c: nat, call: Call, at: nat)
    requires Inv(env, s) && c !in s.txs
    ensures Inv(env, Put(s, c, Tx(call, at, if Keyed(call) then Selecting else InsertingOrder, None, None)))
  {
    PutKeeps(env, s, c, Tx(call, at, if Keyed(call) then Selecting else InsertingOrder, None, None));
  }

  // ---- reading the key row ---------------------------------------------------------------

  /** A committed key row always carries the response of an order created under it: it is never found unanswered. */
  lemma CommittedKeyAnswers(env: Env, s: State, k: KeyPk) returns (i: nat)
    requires Inv(env, s) && k in s.db.keys
    ensures i < |s.history| && CreatedUnder(s.history[i], k)
    ensures s.db.keys[k] == AnswerRow(env, s.history[i].call, s.history[i].outcome.order)
    ensures var o := s.history[i].outcome.order;
            && RowMadeBy(s.history[i].call, o) && PkOf(o) in s.db.orders && s.db.orders[PkOf(o)] == o
            && s.db.keys[k].response == Some(ToJsonb(RowJson(env, o)))
  {
    i :| 0 <= i < |s.history| && CreatedUnder(s.history[i], k);
    assert EventOk(env, s.db, s.history[i]);
  }

  /** Recording a conflict. */
  lemma ConflictKeeps(env: Env, s: State, c: nat)
    requires Inv(env, s) && c in s.txs && !s.txs[c].stage.Finished? && Keyed(s.txs[c].call)
    requires SlotOf(s.txs[c].call) in s.db.keys
    requires s.db.keys[SlotOf(s.txs[c].call)].hash != HashOf(env, s.txs[c].call)
    ensures Inv(env, Record(s, c, Conflict, true))
  {
    var e := Event(c, s.txs[c].call, Conflict, true);
    AppendKeeps(env, s, c, e);
  }

  // ---- recording an event ----------------------------------------------------------------------

  /** The committed tables only grow, and rows do not change. */
  ghost predicate Grows(db: Db, db': Db) {
    && (forall k | k in db.keys :: k in db'.keys && db'.keys[k] == db.keys[k])
    && (forall pk | pk in db.orders :: pk in db'.orders && db'.orders[pk] == db.orders[pk])
  }

  lemma GrowthKeepsEvents(env: Env, db: Db, db': Db, e: Event)
    requires Grows(db, db') && EventOk(env, db, e)
    ensures EventOk(env, db', e)
  {}

  lemma BackedAfter(db: Db, db': Db, h: seq<Event>, e: Event)
    requires KeysBacked(db, h) && OrdersBacked(db, h)
    requires forall k | k in db'.keys :: k in db.keys || CreatedUnder(e, k)
    requires forall pk | pk in db'.orders :: pk in db.orders || CreatedAs(e, pk)
    ensures KeysBacked(db', h + [e]) && OrdersBacked(db', h + [e])
  {
    var h' := h + [e];
    forall k | k in db'.keys ensures exists i :: 0 <= i < |h'| && CreatedUnder(h'[i], k) {
      if k in db.keys {
        var i :| 0 <= i < |h| && CreatedUnder(h[i], k);
        assert h'[i] == h[i];
      } else {
        assert h'[|h|] == e;
      }
    }
    forall pk | pk in db'.orders ensures exists i :: 0 <= i < |h'| && CreatedAs(h'[i], pk) {
      if pk in db.orders {
        var i :| 0 <= i < |h| && CreatedAs(h[i], pk);
        assert h'[i] == h[i];
      } else {
        assert h'[|h|] == e;
      }
    }
  }

  lemma AppendEvents(env: Env, db: Db, db': Db, h: seq<Event>, e: Event)
    requires EventsOk(env, db, h) && Grows(db, db') && EventOk(env, db', e)
    ensures EventsOk(env, db', h + [e])
  {
    forall i | 0 <= i < |h + [e]| ensures EventOk(env, db', (h + [e])[i]) {
      if i < |h| {
        GrowthKeepsEvents(env, db, db', h[i]);
      }
    }
  }

  lemma NewIsNoRepeat(env: Env, db: Db, f: Event, e: Event)
    requires EventOk(env, db, f)
    requires forall k | CreatedUnder(e, k) :: k !in db.keys
    requires forall pk | CreatedAs(e, pk) :: pk !in db.orders
    ensures NoRepeat(f, e)
  {
    if f.outcome.Created? && e.outcome.Created? {
      assert CreatedAs(e, PkOf(e.outcome.order));
      assert Keyed(e.call) ==> CreatedUnder(e, SlotOf(e.call));
    }
  }

  lemma AppendOnce(env: Env, db: Db, h: seq<Event>, e: Event)
    requires EventsOk(env, db, h) && CreatedOnce(h)
    requires forall k | CreatedUnder(e, k) :: k !in db.keys
    requires forall pk | CreatedAs(e, pk) :: pk !in db.orders
    ensures CreatedOnce(h + [e])
  {
    forall i | 0 <= i < |h| ensures NoRepeat(h[i], e) {
      NewIsNoRepeat(env, db, h[i], e);
    }
  }

  lemma AppendClients(txs: map<nat, Tx>, h: seq<Event>, e: Event)
    requires ClientsOnce(txs, h)
    requires e.client in txs && !txs[e.client].stage.Finished? && txs[e.client].call == e.call
    ensures ClientsOnce(txs[e.client := End(txs[e.client], e.outcome)], h + [e])
  {
    forall i | 0 <= i < |h| ensures h[i].client != e.client {
      assert txs[h[i].client].stage.Finished?;
    }
  }

  lemma AppendDecided(txs: map<nat, Tx>, h: seq<Event>, e: Event)
    requires AllDecided(txs, h) && e.client in txs && txs[e.client].call == e.call
    ensures AllDecided(txs[e.client := End(txs[e.client], e.outcome)], h + [e])
  {
    var txs' := txs[e.client := End(txs[e.client], e.outcome)];
    forall c | c in txs' ensures Decided(h + [e], c, txs'[c]) {
      if c == e.client {
        assert (h + [e])[|h|] == e;
      } else {
        assert Decided(h, c, txs[c]);
        assert forall i | 0 <= i < |h| :: (h + [e])[i] == h[i];
      }
    }
  }

  /** An event may be appended when it and the tables it leaves are consistent with what is committed. */
  lemma AppendHistory(env: Env, db: Db, db': Db, h: seq<Event>, e: Event)
    requires HistoryOk(env, db, h) && Grows(db, db') && EventOk(env, db', e)
    requires forall k | k in db'.keys :: k in db.keys || CreatedUnder(e, k)
    requires forall pk | pk in db'.orders :: pk in db.orders || CreatedAs(e, pk)
    requires forall k | CreatedUnder(e, k) :: k !in db.keys
    requires forall pk | CreatedAs(e, pk) :: pk !in db.orders
    ensures HistoryOk(env, db', h + [e])
  {
    AppendEvents(env, db, db', h, e);
    BackedAfter(db, db', h, e);
    AppendOnce(env, db, h, e);
  }

  lemma EndKeepsTxs(env: Env, s: State, c: nat, outcome: Outcome)
    requires TxsOk(env, s.db, s.txs) && Exclusive(s.txs) && c in s.txs
    requires outcome.Created? ==> outcome.order.createdAt == s.txs[c].startedAt
    ensures var txs' := s.txs[c := End(s.txs[c], outcome)]; TxsOk(env, s.db, txs') && Exclusive(txs')
  {
    PutTxs(env, s.db, s.txs, c, End(s.txs[c], outcome));
    PutExclusive(s.txs, c, End(s.txs[c], outcome));
  }

  lemma AppendKeeps(env: Env, s: State, c: nat, e: Event)
    requires Inv(env, s) && c in s.txs && !s.txs[c].stage.Finished?
    requires e.client == c && e.call == s.txs[c].call && !e.outcome.Created?
    requires EventOk(env, s.db, e)
    ensures Inv(env, State(s.db, s.txs[c := End(s.txs[c], e.outcome)], s.history + [e]))
  {
    AppendHistory(env, s.db, s.db, s.history, e);
    AppendClients(s.txs, s.history, e);
    AppendDecided(s.txs, s.history, e);
    EndKeepsTxs(env, s, c, e.outcome);
    assert (s.history + [e])[..|s.history|] == s.history;
  }

  // ---- commit of a created order ------------------------------------------------------------------

  lemma CommitGrows(db: Db, tx: Tx)
    requires PendingFresh(db, tx)
    ensures Grows(db, Applied(db, tx))
  {}

  lemma GrowthKeepsStage(env: Env, db: Db, db': Db, tx: Tx)
    requires Grows(db, db') && StageOk(env, db, tx)
    ensures StageOk(env, db', tx)
  {}

  lemma CommitKeepsPending(db: Db, tx: Tx, other: Tx)
    requires PendingFresh(db, tx) && PendingFresh(db, other) && Apart(tx, other)
    ensures PendingFresh(Applied(db, tx), other)
  {}

  lemma CommitKeepsRival(env: Env, db: Db, tx: Tx, other: Tx)
    requires TxOk(env, db, tx) && TxOk(env, db, other) && Apart(tx, other)
    ensures TxOk(env, Applied(db, tx), other)
  {
    CommitGrows(db, tx);
    GrowthKeepsStage(env, db, Applied(db, tx), other);
    CommitKeepsPending(db, tx, other);
  }

  lemma AppliedSizes(db: Db, tx: Tx)
    requires tx.orderWrite.Some? && PkOf(tx.orderWrite.value) !in db.orders
    requires tx.keyWrite.Some? <==> Keyed(tx.call)
    requires Keyed(tx.call) ==> SlotOf(tx.call) !in db.keys
    ensures |Applied(db, tx).orders| == |db.orders| + 1
    ensures |Applied(db, tx).keys| == |db.keys| + if Keyed(tx.call) then 1 else 0
  {
    var db' := Applied(db, tx);
    assert db'.orders.Keys == db.orders.Keys + {PkOf(tx.orderWrite.value)};
    assert |db'.orders| == |db'.orders.Keys| && |db.orders| == |db.orders.Keys|;
    if Keyed(tx.call) {
      assert db'.keys.Keys == db.keys.Keys + {SlotOf(tx.call)};
      assert |db'.keys| == |db'.keys.Keys| && |db.keys| == |db.keys.Keys|;
    }
  }

  /** What the invariant says of a transaction about to commit a new order. */
  lemma CommitReady(env: Env, s: State, c: nat)
    requires TxsOk(env, s.db, s.txs) && c in s.txs
    requires s.txs[c].stage.Committing? && s.txs[c].stage.result.Created?
    ensures var tx := s.txs[c];
            var o := tx.stage.result.order;
            && tx.orderWrite == Some(o) && PkOf(o) !in s.db.orders
            && RowMadeBy(tx.call, o) && tx.stage.result.response == RowJson(env, o) && o.createdAt == tx.startedAt
            && (if Keyed(tx.call)
                then && tx.keyWrite == Some(AnswerRow(env, tx.call, o))
                     && SlotOf(tx.call) !in s.db.keys && KeyAllowed(SlotOf(tx.call).key)
                else tx.keyWrite == None)
  {
    assert TxOk(env, s.db, s.txs[c]);
  }

  lemma CommittedEvent(env: Env, db: Db, tx: Tx, e: Event)
    requires tx.stage.Committing? && tx.stage.result.Created?
    requires tx.orderWrite == Some(tx.stage.result.order)
    requires RowMadeBy(tx.call, tx.stage.result.order)
    requires tx.stage.result.response == RowJson(env, tx.stage.result.order)
    requires Keyed(tx.call) ==>
               tx.keyWrite == Some(AnswerRow(env, tx.call, tx.stage.result.order)) && KeyAllowed(SlotOf(tx.call).key)
    requires e.call == tx.call && e.outcome == tx.stage.result
    ensures EventOk(env, Applied(db, tx), e)
  {}

  lemma CommitHistory(env: Env, s: State, c: nat, e: Event)
    requires Inv(env, s) && c in s.txs
    requires s.txs[c].stage.Committing? && s.txs[c].stage.result.Created?
    requires e.call == s.txs[c].call && e.outcome == s.txs[c].stage.result
    ensures HistoryOk(env, Applied(s.db, s.txs[c]), s.history + [e])
  {
    CommitReady(env, s, c);
    assert TxOk(env, s.db, s.txs[c]);
    CommitGrows(s.db, s.txs[c]);
    CommittedEvent(env, s.db, s.txs[c], e);
    AppendHistory(env, s.db, Applied(s.db, s.txs[c]), s.history, e);
  }

  lemma CommitTxs(env: Env, s: State, c: nat, outcome: Outcome)
    requires TxsOk(env, s.db, s.txs) && Exclusive(s.txs) && c in s.txs
    requires outcome.Created? ==> outcome.order.createdAt == s.txs[c].startedAt
    ensures TxsOk(env, Applied(s.db, s.txs[c]), s.txs[c := End(s.txs[c], outcome)])
  {
    var txs' := s.txs[c := End(s.txs[c], outcome)];
    forall d | d in txs' ensures TxOk(env, Applied(s.db, s.txs[c]), txs'[d]) {
      if d != c {
        assert Apart(s.txs[c], s.txs[d]);
        CommitKeepsRival(env, s.db, s.txs[c], s.txs[d]);
      }
    }
  }

  lemma {:induction false} CountAppended(h: seq<Event>, e: Event)
    ensures UnkeyedCreations(h + [e])
         == UnkeyedCreations(h) + if e.outcome.Created? && !Keyed(e.call) then 1 else 0
  {
    assert (h + [e])[..|h|] == h;
  }

  lemma CommitConserves(env: Env, s: State, c: nat, e: Event)
    requires TxsOk(env, s.db, s.txs) && Conserved(s) && c in s.txs
    requires s.txs[c].stage.Committing? && s.txs[c].stage.result.Created?
    requires e.call == s.txs[c].call && e.outcome == s.txs[c].stage.result
    ensures var db' := Applied(s.db, s.txs[c]); |db'.orders| == UnkeyedCreations(s.history + [e]) + |db'.keys|
  {
    CommitReady(env, s, c);
    AppliedSizes(s.db, s.txs[c]);
    CountAppended(s.history, e);
  }

  lemma CommitCreatedKeeps(env: Env, s: State, c: nat, delivered: bool)
    requires Inv(env, s) && c in s.txs
    requires s.txs[c].stage.Committing? && s.txs[c].stage.result.Created?
    ensures Inv(env, DoCommit(s, c, delivered))
  {
    var e := Event(c, s.txs[c].call, s.txs[c].stage.result, delivered);
    CommitReady(env, s, c);
    CommitHistory(env, s, c, e);
    AppendClients(s.txs, s.history, e);
    AppendDecided(s.txs, s.history, e);
    CommitTxs(env, s, c, e.outcome);
    EndKeepsTxs(env, s, c, e.outcome);
    CommitConserves(env, s, c, e);
  }

  // ---- every step ---------------------------------------------------------------------------------

  /** An existing key is answered or refused, by either SELECT, or its response cannot be made a dict. */
  lemma FoundKeeps(env: Env, s: State, c: nat)
    requires Inv(env, s) && c in s.txs && Keyed(s.txs[c].call) && SlotOf(s.txs[c].call) in s.db.keys
    requires s.txs[c].stage.Selecting? || s.txs[c].stage.Recovering?
    ensures Inv(env, DoSelect(env, s, c)) && DoSelect(env, s, c) == DoRecover(env, s, c)
  {
    NeverUnanswered(env, s, SlotOf(s.txs[c].call), HashOf(env, s.txs[c].call));
    var found := Read(env, s.db.keys[SlotOf(s.txs[c].call)], HashOf(env, s.txs[c].call));
    SelectLeads(env, s, c, found);
    LeadsKeeps(env, s, c, found);
  }

  /** What a SELECT does with what it found, unless the row has no response. */
  function Leads(s: State, c: nat, found: Found): State
    requires c in s.txs
  {
    match found
    case Mismatch => Record(s, c, Conflict, true)
    case Answered(v) => Put(s, c, s.txs[c].(stage := Committing(Replayed(v))))
    case _ => Fail(s, c)
  }

  lemma SelectLeads(env: Env, s: State, c: nat, found: Found)
    requires c in s.txs && Keyed(s.txs[c].call) && SlotOf(s.txs[c].call) in s.db.keys && !found.Unanswered?
    requires found == Read(env, s.db.keys[SlotOf(s.txs[c].call)], HashOf(env, s.txs[c].call))
    ensures DoSelect(env, s, c) == Leads(s, c, found) == DoRecover(env, s, c)
    ensures found.Mismatch? ==> s.db.keys[SlotOf(s.txs[c].call)].hash != HashOf(env, s.txs[c].call)
  {}

  lemma LeadsKeeps(env: Env, s: State, c: nat, found: Found)
    requires Inv(env, s) && c in s.txs && Keyed(s.txs[c].call) && SlotOf(s.txs[c].call) in s.db.keys
    requires s.txs[c].stage.Selecting? || s.txs[c].stage.Recovering?
    requires found.Mismatch? ==> s.db.keys[SlotOf(s.txs[c].call)].hash != HashOf(env, s.txs[c].call)
    requires found.Answered? ==> ReplayOk(env, s.db, s.txs[c].call, found.response)
    ensures Inv(env, Leads(s, c, found))
  {
    match found
    case Mismatch => ConflictKeeps(env, s, c);
    case Answered(v) => ReplayingKeeps(env, s, c, v);
    case _ => FailKeeps(env, s, c);
  }

  lemma NeverUnanswered(env: Env, s: State, k: KeyPk, hash: string)
    requires Inv(env, s) && k in s.db.keys
    ensures !Read(env, s.db.keys[k], hash).Unanswered?
  {
    KeyHasResponse(env, s, k);
    ReadsResponse(env, s.db.keys[k], hash);
  }

  lemma KeyHasResponse(env: Env, s: State, k: KeyPk)
    requires Inv(env, s) && k in s.db.keys
    ensures s.db.keys[k].response.Some?
  {
    var i := CommittedKeyAnswers(env, s, k);
  }

  lemma ReplayingKeeps(env: Env, s: State, c: nat, v: Value)
    requires Inv(env, s) && c in s.txs && ReplayOk(env, s.db, s.txs[c].call, v)
    requires s.txs[c].stage.Selecting? || s.txs[c].stage.Recovering?
    ensures Inv(env, Put(s, c, s.txs[c].(stage := Committing(Replayed(v)))))
  {
    assert TxOk(env, s.db, s.txs[c]);
    MoveKeeps(env, s, c, s.txs[c].(stage := Committing(Replayed(v))));
  }

  lemma SelectKeeps(env: Env, s: State, c: nat)
    requires Inv(env, s) && c in s.txs && s.txs[c].stage.Selecting? && Keyed(s.txs[c].call)
    ensures Inv(env, DoSelect(env, s, c))
  {
    if SlotOf(s.txs[c].call) in s.db.keys {
      FoundKeeps(env, s, c);
    } else {
      assert TxOk(env, s.db, s.txs[c]);
      MoveKeeps(env, s, c, s.txs[c].(stage := InsertingKey));
    }
  }

  lemma InsertKeyKeeps(env: Env, s: State, c: nat)
    requires Inv(env, s) && c in s.txs && s.txs[c].stage.InsertingKey? && Keyed(s.txs[c].call)
    ensures DoInsertKey(env, s, c).Some? ==> Inv(env, DoInsertKey(env, s, c).value)
  {
    var tx := s.txs[c];
    var slot := SlotOf(tx.call);
    assert TxOk(env, s.db, tx);
    if !KeyAllowed(slot.key) {
      FailKeeps(env, s, c);
    } else if slot in s.db.keys {
      MoveKeeps(env, s, c, tx.(stage := Recovering));
    } else if !RivalKey(s, c, slot) {
      PutKeeps(env, s, c, tx.(stage := InsertingOrder, keyWrite := Some(KeyRow(HashOf(env, tx.call), None))));
    }
  }

  lemma RecoverKeeps(env: Env, s: State, c: nat)
    requires Inv(env, s) && c in s.txs && s.txs[c].stage.Recovering? && Keyed(s.txs[c].call)
    ensures Inv(env, DoRecover(env, s, c))
  {
    assert TxOk(env, s.db, s.txs[c]);
    FoundKeeps(env, s, c);
  }

  lemma InsertedOk(env: Env, db: Db, tx: Tx, row: Order)
    requires TxOk(env, db, tx) && tx.stage.InsertingOrder?
    requires RowMadeBy(tx.call, row) && row.createdAt == tx.startedAt && PkOf(row) !in db.orders
    ensures TxOk(env, db, Inserted(env, tx, row))
  {}

  lemma InsertedKeeps(env: Env, s: State, c: nat, row: Order)
    requires Inv(env, s) && c in s.txs && s.txs[c].stage.InsertingOrder?
    requires RowMadeBy(s.txs[c].call, row) && row.createdAt == s.txs[c].startedAt
    requires PkOf(row) !in s.db.orders && !RivalOrder(s, c, PkOf(row))
    ensures Inv(env, Put(s, c, Inserted(env, s.txs[c], row)))
  {
    InsertedOk(env, s.db, s.txs[c], row);
    InsertedApart(env, s, c, row);
    PutKeeps(env, s, c, Inserted(env, s.txs[c], row));
  }

  lemma InsertedApart(env: Env, s: State, c: nat, row: Order)
    requires Exclusive(s.txs) && c in s.txs && !RivalOrder(s, c, PkOf(row))
    ensures forall d | d in s.txs && d != c :: Apart(Inserted(env, s.txs[c], row), s.txs[d])
  {
    forall d | d in s.txs && d != c ensures Apart(Inserted(env, s.txs[c], row), s.txs[d]) {
      assert Apart(s.txs[c], s.txs[d]);
    }
  }

  /** The ways an order INSERT ends: it waits, it is refused, or it writes the row of the call. */
  lemma InsertOrderCases(env: Env, s: State, c: nat) returns (row: Option<Order>)
    requires c in s.txs
    ensures row == None ==> DoInsertOrder(env, s, c) == None || DoInsertOrder(env, s, c) == Some(Fail(s, c))
    ensures row.Some? ==>
              && RowMadeBy(s.txs[c].call, row.value) && row.value.createdAt == s.txs[c].startedAt
              && PkOf(row.value) !in s.db.orders
              && !RivalOrder(s, c, PkOf(row.value))
              && DoInsertOrder(env, s, c) == Some(Put(s, c, Inserted(env, s.txs[c], row.value)))
  {
    row := RowOf(s.txs[c].call, s.txs[c].startedAt);
    if row.Some? && (PkOf(row.value) in s.db.orders || RivalOrder(s, c, PkOf(row.value))) {
      row := None;
    }
  }

  lemma InsertOrderKeeps(env: Env, s: State, c: nat)
    requires Inv(env, s) && c in s.txs && s.txs[c].stage.InsertingOrder?
    ensures DoInsertOrder(env, s, c).Some? ==> Inv(env, DoInsertOrder(env, s, c).value)
  {
    var row := InsertOrderCases(env, s, c);
    if row.Some? {
      InsertedKeeps(env, s, c, row.value);
    } else {
      FailKeeps(env, s, c);
    }
  }

  function Answering(env: Env, tx: Tx, row: Order): Tx {
    tx.(stage := Committing(Created(row, RowJson(env, row))), keyWrite := Some(AnswerRow(env, tx.call, row)))
  }

  lemma AnsweringOk(env: Env, db: Db, tx: Tx, row: Order)
    requires TxOk(env, db, tx) && tx.stage == UpdatingKey(row)
    ensures TxOk(env, db, Answering(env, tx, row)) && tx.keyWrite.Some?
    ensures tx.keyWrite.value.(response := Some(ToJsonb(RowJson(env, row)))) == AnswerRow(env, tx.call, row)
  {}

  lemma UpdateKeyKeeps(env: Env, s: State, c: nat)
    requires Inv(env, s) && c in s.txs && s.txs[c].stage.UpdatingKey? && Keyed(s.txs[c].call)
    ensures DoUpdateKey(env, s, c).Some? && Inv(env, DoUpdateKey(env, s, c).value)
  {
    var tx := s.txs[c];
    AnsweringOk(env, s.db, tx, tx.stage.row);
    MoveKeeps(env, s, c, Answering(env, tx, tx.stage.row));
  }

  lemma CommitReplayKeeps(env: Env, s: State, c: nat, delivered: bool)
    requires Inv(env, s) && c in s.txs
    requires s.txs[c].stage.Committing? && !s.txs[c].stage.result.Created?
    ensures Inv(env, DoCommit(s, c, delivered))
  {
    ReplayReady(env, s.db, s.txs[c]);
    AppendKeeps(env, s, c, Event(c, s.txs[c].call, s.txs[c].stage.result, delivered));
  }

  lemma ReplayReady(env: Env, db: Db, tx: Tx)
    requires TxOk(env, db, tx) && tx.stage.Committing? && !tx.stage.result.Created?
    ensures tx.stage.result.Replayed? && ReplayOk(env, db, tx.call, tx.stage.result.response)
    ensures Applied(db, tx) == db
  {}

  lemma CommitKeeps(env: Env, s: State, c: nat, delivered: bool)
    requires Inv(env, s) && c in s.txs && s.txs[c].stage.Committing?
    ensures Inv(env, DoCommit(s, c, delivered))
  {
    if s.txs[c].stage.result.Created? {
      CommitCreatedKeeps(env, s, c, delivered);
    } else {
      CommitReplayKeeps(env, s, c, delivered);
    }
  }

  /** Every step keeps the invariant. */
  lemma StepKeeps(env: Env, s: State, step: Step)
    requires Inv(env, s) && Apply(env, s, step).Some?
    ensures Inv(env, Apply(env, s, step).value)
  {
    var c := step.client;
    match step
    case Begin(_, call, at) => BeginKeeps(env, s, c, call, at);
    case Select(_) => SelectKeeps(env, s, c);
    case InsertKey(_) => InsertKeyKeeps(env, s, c);
    case Recover(_) => RecoverKeeps(env, s, c);
    case InsertOrder(_) => InsertOrderKeeps(env, s, c);
    case UpdateKey(_) => UpdateKeyKeeps(env, s, c);
    case Commit(_, delivered) => CommitKeeps(env, s, c, delivered);
    case Abort(_) => FailKeeps(env, s, c);
  }

  /** The invariant holds in every state that any run reaches. */
  lemma {:induction false} RunKeeps(env: Env, steps: seq<Step>)
    requires Exec(env, steps).Some?
    ensures Inv(env, Exec(env, steps).value)
  {
    if steps != [] {
      RunKeeps(env, steps[..|steps| - 1]);
      StepKeeps(env, Exec(env, steps[..|steps| - 1]).value, steps[|steps| - 1]);
    }
  }

  // ---- a step touches its own transaction only ------------------------------------------

  /** Only the client's transaction may differ, and its call is the same. */
  ghost predicate OneTouched(s: State, s': State, c: nat) {
    && c in s.txs && c in s'.txs && s'.txs[c].call == s.txs[c].call && s'.txs[c].startedAt == s.txs[c].startedAt
    && s'.txs.Keys == s.txs.Keys
    && forall d | d in s.txs && d != c :: s'.txs[d] == s.txs[d]
  }

  lemma PutTouches(s: State, c: nat, tx: Tx)
    requires c in s.txs && tx.call == s.txs[c].call && tx.startedAt == s.txs[c].startedAt
    ensures OneTouched(s, Put(s, c, tx), c)
  {}

  lemma EndTouches(s: State, c: nat, outcome: Outcome, delivered: bool)
    requires c in s.txs
    ensures OneTouched(s, Fail(s, c), c) && OneTouched(s, Record(s, c, outcome, delivered), c)
  {}

  lemma FoundTouches(env: Env, s: State, c: nat)
    requires c in s.txs && Keyed(s.txs[c].call) && SlotOf(s.txs[c].call) in s.db.keys
    ensures OneTouched(s, DoSelect(env, s, c), c) && OneTouched(s, DoRecover(env, s, c), c)
  {
    match Read(env, s.db.keys[SlotOf(s.txs[c].call)], HashOf(env, s.txs[c].call))
    case Mismatch => EndTouches(s, c, Conflict, true);
    case Answered(v) => PutTouches(s, c, s.txs[c].(stage := Committing(Replayed(v))));
    case Undecodable => EndTouches(s, c, Failed, true);
    case Unanswered => EndTouches(s, c, Failed, true);
  }

  lemma SelectTouches(env: Env, s: State, c: nat)
    requires c in s.txs && Keyed(s.txs[c].call)
    ensures OneTouched(s, DoSelect(env, s, c), c)
  {
    if SlotOf(s.txs[c].call) in s.db.keys {
      FoundTouches(env, s, c);
    }
  }

  lemma RecoverTouches(env: Env, s: State, c: nat)
    requires c in s.txs && Keyed(s.txs[c].call)
    ensures OneTouched(s, DoRecover(env, s, c), c)
  {
    if SlotOf(s.txs[c].call) in s.db.keys {
      FoundTouches(env, s, c);
    }
  }

  lemma InsertKeyTouches(env: Env, s: State, c: nat)
    requires c in s.txs && Keyed(s.txs[c].call) && DoInsertKey(env, s, c).Some?
    ensures OneTouched(s, DoInsertKey(env, s, c).value, c)
  {
    EndTouches(s, c, Failed, true);
  }

  lemma InsertOrderTouches(env: Env, s: State, c: nat)
    requires c in s.txs && DoInsertOrder(env, s, c).Some?
    ensures OneTouched(s, DoInsertOrder(env, s, c).value, c)
  {
    var row := InsertOrderCases(env, s, c);
    if row.Some? {
      PutTouches(s, c, Inserted(env, s.txs[c], row.value));
    } else {
      EndTouches(s, c, Failed, true);
    }
  }

  lemma UpdateKeyTouches(env: Env, s: State, c: nat)
    requires c in s.txs && Keyed(s.txs[c].call) && s.txs[c].stage.UpdatingKey? && DoUpdateKey(env, s, c).Some?
    ensures OneTouched(s, DoUpdateKey(env, s, c).value, c)
  {}

  /** A step of an open transaction changes no other, adds none, and keeps what was asked for. */
  lemma StepTouchesOne(env: Env, s: State, step: Step)
    requires !step.Begin? && Apply(env, s, step).Some?
    ensures OneTouched(s, Apply(env, s, step).value, step.client)
  {
    match step
    case Select(c) => SelectTouches(env, s, c);
    case InsertKey(c) => InsertKeyTouches(env, s, c);
    case Recover(c) => RecoverTouches(env, s, c);
    case InsertOrder(c) => InsertOrderTouches(env, s, c);
    case UpdateKey(c) => UpdateKeyTouches(env, s, c);
    case Commit(c, delivered) => EndTouches(s, c, s.txs[c].stage.result, delivered);
    case Abort(c) => EndTouches(s, c, Failed, true);
  }
}
