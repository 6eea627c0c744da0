/** `create_order` as the method it is, run by one client at a time, and its place in the concurrent protocol. */
module OrderRepository {
  import opened Wrappers
  import opened Json
  import opened Requests
  import opened OrderStore
  import opened OrderProtocol

  /** The tables and the outcome an undisturbed call leaves. */
  function Alone(env: Env, db: Db, call: Call, at: nat): (Db, Outcome) {
    if Keyed(call) && SlotOf(call) in db.keys && !Read(env, db.keys[SlotOf(call)], HashOf(env, call)).Unanswered? then
      (db, OutcomeOf(Read(env, db.keys[SlotOf(call)], HashOf(env, call))))
    else if Keyed(call) && SlotOf(call) !in db.keys && !KeyAllowed(call.key.value) then (db, Failed)
    else FromInsert(env, db, call, at)
  }

  /** How a call ends that found its key row with a response. */
  function OutcomeOf(found: Found): Outcome {
    match found
    case Answered(v) => Replayed(v)
    case Mismatch => Conflict
    case _ => Failed
  }

  /** What the order INSERT and everything after it leave. */
  function FromInsert(env: Env, db: Db, call: Call, at: nat): (Db, Outcome) {
    match RowOf(call, at)
    case None => (db, Failed)
    case Some(o) =>
      if PkOf(o) in db.orders then (db, Failed)
      else (Db(if Keyed(call) then db.keys[SlotOf(call) := AnswerRow(env, call, o)] else db.keys,
               db.orders[PkOf(o) := o]),
            Created(o, RowJson(env, o)))
  }

  /** The tables of a transaction that has its key, if it has one, in place: new and empty, or found unanswered. */
  predicate KeyInPlace(env: Env, db: Db, call: Call, tables: Db) {
    && tables.orders == db.orders
    && if Keyed(call) && SlotOf(call) !in db.keys
       then tables.keys == db.keys[SlotOf(call) := KeyRow(HashOf(env, call), None)]
       else tables.keys == db.keys
  }

  /** The tables after the order is inserted and the key row, if any, updated. */
  predicate OrderInPlace(env: Env, tables: Db, call: Call, o: Order, tables': Db) {
    && tables'.orders == tables.orders[PkOf(o) := o]
    && tables'.keys == if Keyed(call) && SlotOf(call) in tables.keys
                       then tables.keys[SlotOf(call) := AnswerRow(env, call, o)] else tables.keys
  }

  lemma WrittenTables(env: Env, db: Db, call: Call, tables: Db, o: Order, written: Db)
    requires KeyInPlace(env, db, call, tables) && OrderInPlace(env, tables, call, o, written)
    ensures written == Db(if Keyed(call) then db.keys[SlotOf(call) := AnswerRow(env, call, o)] else db.keys,
                          db.orders[PkOf(o) := o])
  {
    if Keyed(call) && SlotOf(call) !in db.keys {
      OverwriteKey(db.keys, SlotOf(call), KeyRow(HashOf(env, call), None), AnswerRow(env, call, o));
    }
  }

  lemma OverwriteKey(keys: map<KeyPk, KeyRow>, k: KeyPk, first: KeyRow, second: KeyRow)
    ensures keys[k := first][k := second] == keys[k := second]
  {}

  /** A call that finds no answer under its key does what the order INSERT does. */
  lemma AloneInserts(env: Env, db: Db, call: Call, at: nat)
    requires Keyed(call) ==>
               if SlotOf(call) in db.keys then Read(env, db.keys[SlotOf(call)], HashOf(env, call)).Unanswered?
               else KeyAllowed(call.key.value)
    ensures Alone(env, db, call, at) == FromInsert(env, db, call, at)
  {}

  lemma InsertLeaves(env: Env, db: Db, call: Call, at: nat, tables: Db, written: Db, outcome: Outcome)
    requires KeyInPlace(env, db, call, tables)
    requires outcome == Failed <==> RowOf(call, at) == None || PkOf(RowOf(call, at).value) in tables.orders
    requires outcome != Failed ==>
               var o := RowOf(call, at).value;
               outcome == Created(o, RowJson(env, o)) && OrderInPlace(env, tables, call, o, written)
    ensures FromInsert(env, db, call, at) == (if outcome.Created? then written else db, outcome)
  {
    if outcome.Created? {
      WrittenTables(env, db, call, tables, outcome.order, written);
    }
  }

  class Repository {
    var db: Db
    const env: Env

    constructor (env: Env)
      ensures db == EMPTY && this.env == env
    {
      db := EMPTY;
      this.env := env;
    }

    /** One transaction: `tables` is what it sees, its own writes included, until it commits or rolls back. */
    method CreateOrder(call: Call, at: nat) returns (outcome: Outcome)
      modifies this
      ensures (db, outcome) == Alone(env, old(db), call, at)
    {
      var tables := db;
      var hash := HashOf(env, call);
      if Keyed(call) {
        var slot := SlotOf(call);
        if slot in tables.keys {
          match Read(env, tables.keys[slot], hash) {
            case Mismatch => return Conflict;
            case Answered(v) => return Replayed(v);
            case Undecodable => return Failed;
            case Unanswered =>
          }
        } else {
          if !KeyAllowed(slot.key) {
            return Failed;
          }
          tables := tables.(keys := tables.keys[slot := KeyRow(hash, None)]);
        }
      }
      var written: Db;
      written, outcome := WriteOrder(tables, call, at);
      AloneInserts(env, db, call, at);
      InsertLeaves(env, db, call, at, tables, written, outcome);
      if outcome.Created? {
        db := written;
      }
    }

    /** The order INSERT and the UPDATE of the key row, on the tables the transaction sees. */
    method WriteOrder(tables: Db, call: Call, at: nat) returns (tables': Db, outcome: Outcome)
      requires Keyed(call) && SlotOf(call) in tables.keys ==> tables.keys[SlotOf(call)].hash == HashOf(env, call)
      ensures outcome == Failed <==> RowOf(call, at) == None || PkOf(RowOf(call, at).value) in tables.orders
      ensures outcome == Failed ==> tables' == tables
      ensures outcome != Failed ==>
                var o := RowOf(call, at).value;
                outcome == Created(o, RowJson(env, o)) && OrderInPlace(env, tables, call, o, tables')
    {
      var row := RowOf(call, at);
      if row == None || PkOf(row.value) in tables.orders {
        return tables, Failed;
      }
      tables' := tables.(orders := tables.orders[PkOf(row.value) := row.value]);
      var result := RowJson(env, row.value);
      if Keyed(call) && SlotOf(call) in tables.keys {
        var slot := SlotOf(call);
        tables' := tables'.(keys := tables.keys[slot := tables.keys[slot].(response := Some(ToJsonb(result)))]);
      }
      outcome := Created(row.value, result);
    }
  }

  // ---- what an undisturbed call means -------------------------------------------------

  /** Every key row carries a response; true of every table the protocol reaches. */
  ghost predicate AllAnswered(db: Db) {
    forall k | k in db.keys :: db.keys[k].response.Some?
  }

  /** A new answer is the atomic creation. */
  lemma InsertIsAtomic(env: Env, db: Db, call: Call, at: nat)
    requires AllAnswered(db) && (Keyed(call) ==> SlotOf(call) !in db.keys)
    requires RowOf(call, at).Some? && PkOf(RowOf(call, at).value) !in db.orders
    ensures var (db', outcome) := FromInsert(env, db, call, at);
            AllAnswered(db') && AtomicCall(env, AnswersOf(env, db), call, outcome, AnswersOf(env, db'))
  {
    var o := RowOf(call, at).value;
    AnsweredEntry(env, call, o);
    NewAnswer(env, db, call, o, FromInsert(env, db, call, at).0);
  }

  lemma NewAnswer(env: Env, db: Db, call: Call, o: Order, db': Db)
    requires AllAnswered(db) && (Keyed(call) ==> SlotOf(call) !in db.keys)
    requires db'.keys == if Keyed(call) then db.keys[SlotOf(call) := AnswerRow(env, call, o)] else db.keys
    requires EntryOf(env, AnswerRow(env, call, o)) == Entry(HashOf(env, call), Decode(env, ToJsonb(RowJson(env, o))))
    ensures AllAnswered(db')
    ensures AtomicCall(env, AnswersOf(env, db), call, Created(o, RowJson(env, o)), AnswersOf(env, db'))
  {
    if Keyed(call) {
      KeyAdded(env, db, db', SlotOf(call), AnswerRow(env, call, o));
    } else {
      assert AnswersOf(env, db') == AnswersOf(env, db);
    }
  }

  lemma KeyAdded(env: Env, db: Db, db': Db, k: KeyPk, row: KeyRow)
    requires AllAnswered(db) && db'.keys == db.keys[k := row] && row.response.Some?
    ensures AllAnswered(db') && AnswersOf(env, db') == AnswersOf(env, db)[k := EntryOf(env, row)]
  {}

  /** An existing answer is the atomic replay or conflict, unless its response cannot be made a dict. */
  lemma FoundIsAtomic(env: Env, db: Db, call: Call, at: nat)
    requires AllAnswered(db) && Keyed(call) && SlotOf(call) in db.keys
    ensures var (db', outcome) := Alone(env, db, call, at);
            && db' == db
            && (outcome == Failed <==> Read(env, db.keys[SlotOf(call)], HashOf(env, call)).Undecodable?)
            && (outcome == Failed || AtomicCall(env, AnswersOf(env, db), call, outcome, AnswersOf(env, db)))
  {
    ReadsResponse(env, db.keys[SlotOf(call)], HashOf(env, call));
    FoundIsEntry(env, db, call);
  }

  lemma FoundIsEntry(env: Env, db: Db, call: Call)
    requires AllAnswered(db) && Keyed(call) && SlotOf(call) in db.keys
    ensures var outcome := OutcomeOf(Read(env, db.keys[SlotOf(call)], HashOf(env, call)));
            outcome == Failed || AtomicCall(env, AnswersOf(env, db), call, outcome, AnswersOf(env, db))
  {
    ReadsResponse(env, db.keys[SlotOf(call)], HashOf(env, call));
    assert AnswersOf(env, db)[SlotOf(call)] == EntryOf(env, db.keys[SlotOf(call)]);
  }

  /**
   * An undisturbed call either fails and changes nothing, or is the atomic operation on the key answers;
   * either way every key stays answered. It fails exactly when the response found under its key cannot be made
   * a dict or, without one, the key, the row or the order id is refused.
   */
  lemma AloneIsAtomic(env: Env, db: Db, call: Call, at: nat)
    requires AllAnswered(db)
    ensures var (db', outcome) := Alone(env, db, call, at);
            && AllAnswered(db')
            && (outcome == Failed ==> db' == db)
            && (outcome == Failed || AtomicCall(env, AnswersOf(env, db), call, outcome, AnswersOf(env, db')))
            && (outcome == Failed <==>
                  if Keyed(call) && SlotOf(call) in db.keys
                  then Read(env, db.keys[SlotOf(call)], HashOf(env, call)).Undecodable?
                  else (Keyed(call) && !KeyAllowed(call.key.value)) || RowOf(call, at) == None
                       || PkOf(RowOf(call, at).value) in db.orders)
  {
    if Keyed(call) && SlotOf(call) in db.keys {
      FoundIsAtomic(env, db, call, at);
    } else if RowOf(call, at).Some? && PkOf(RowOf(call, at).value) !in db.orders {
      InsertIsAtomic(env, db, call, at);
    }
  }

  /** What an undisturbed call leaves, by principal and key: one with a nonempty key. */
  lemma AloneByKey(env: Env, db: Db, call: Call, at: nat, key: string)
    requires call.key == Some(key) && key != ""
    ensures var k := KeyPk(call.principal, key);
            k in db.keys && db.keys[k].response.Some? ==>
              Alone(env, db, call, at)
              == (db, if db.keys[k].hash != HashOf(env, call) then Conflict
                      else if Decode(env, db.keys[k].response.value) == None then Failed
                      else Replayed(Decode(env, db.keys[k].response.value).value))
    ensures var k := KeyPk(call.principal, key);
            var (db', outcome) := Alone(env, db, call, at);
            k !in db.keys ==>
              if outcome == Failed then db' == db
              else && outcome.Created?
                   && db'.keys == db.keys[k := KeyRow(HashOf(env, call), Some(ToJsonb(outcome.response)))]
                   && db'.orders == db.orders[OrderPk(call.request.userId, call.orderId) := outcome.order]
  {
    var k := KeyPk(call.principal, key);
    if k in db.keys && db.keys[k].response.Some? {
      ReadsResponse(env, db.keys[k], HashOf(env, call));
    }
  }

  /** And one without a key, or with an empty one: every such call that is not refused makes an order. */
  lemma AloneWithoutKey(env: Env, db: Db, call: Call, at: nat)
    requires call.key == None || call.key == Some("")
    ensures var (db', outcome) := Alone(env, db, call, at);
            && db'.keys == db.keys
            && if outcome == Failed then db' == db
               else && outcome.Created?
                    && db'.orders == db.orders[OrderPk(call.request.userId, call.orderId) := outcome.order]
  {}

  // ---- the method is a run of the protocol ------------------------------------------------

  /** No transaction has uncommitted writes. */
  predicate Quiet(s: State) {
    forall d | d in s.txs :: s.txs[d].keyWrite == None && s.txs[d].orderWrite == None
  }

  /** Every step is the client's. */
  predicate By(c: nat, steps: seq<Step>) {
    forall i | 0 <= i < |steps| :: steps[i].client == c
  }

  /** The state has the tables and the finished transaction that an outcome leaves. */
  ghost predicate EndsWith(r: Option<State>, c: nat, db: Db, outcome: Outcome) {
    r.Some? && r.value.db == db && c in r.value.txs && r.value.txs[c].stage == Finished(outcome)
  }

  lemma CommitRun(env: Env, s: State, c: nat) returns (steps: seq<Step>)
    requires c in s.txs && s.txs[c].stage.Committing?
    ensures By(c, steps)
    ensures EndsWith(ExecFrom(env, s, steps), c, Applied(s.db, s.txs[c]), s.txs[c].stage.result)
  {
    steps := [Commit(c, true)];
    Then(env, s, steps[0], DoCommit(s, c, true), []);
    assert steps == [steps[0]] + [];
  }

  /** No other transaction has uncommitted writes. */
  predicate NoRivals(s: State, c: nat) {
    forall d | d in s.txs && d != c :: s.txs[d].keyWrite == None && s.txs[d].orderWrite == None
  }

  /** The update of a transaction without rivals answers its key row. */
  lemma UpdateAlone(env: Env, s: State, c: nat)
    requires c in s.txs && NoRivals(s, c) && Keyed(s.txs[c].call) && s.txs[c].stage.UpdatingKey?
    requires s.txs[c].keyWrite.Some? || SlotOf(s.txs[c].call) in s.db.keys
    requires (if s.txs[c].keyWrite.Some? then s.txs[c].keyWrite.value else s.db.keys[SlotOf(s.txs[c].call)]).hash
          == HashOf(env, s.txs[c].call)
    ensures var tx := s.txs[c];
            var o := tx.stage.row;
            DoUpdateKey(env, s, c)
            == Some(Put(s, c, tx.(stage := Committing(Created(o, RowJson(env, o))),
                                  keyWrite := Some(AnswerRow(env, tx.call, o)))))
  {}

  lemma UpdateRun(env: Env, s: State, c: nat) returns (steps: seq<Step>)
    requires c in s.txs && NoRivals(s, c) && Keyed(s.txs[c].call) && s.txs[c].stage.UpdatingKey?
    requires s.txs[c].keyWrite.Some? || SlotOf(s.txs[c].call) in s.db.keys
    requires (if s.txs[c].keyWrite.Some? then s.txs[c].keyWrite.value else s.db.keys[SlotOf(s.txs[c].call)]).hash
          == HashOf(env, s.txs[c].call)
    ensures By(c, steps)
    ensures var o := s.txs[c].stage.row;
            EndsWith(ExecFrom(env, s, steps), c,
                     Applied(s.db, s.txs[c].(keyWrite := Some(AnswerRow(env, s.txs[c].call, o)))),
                     Created(o, RowJson(env, o)))
  {
    UpdateAlone(env, s, c);
    var s' := DoUpdateKey(env, s, c).value;
    steps := CommitRun(env, s', c);
    steps := UpdateThen(env, s, c, s', steps);
    AppliedWrites(s.db, s'.txs[c], s.txs[c].(keyWrite := Some(AnswerRow(env, s.txs[c].call, s.txs[c].stage.row))));
  }

  lemma UpdateThen(env: Env, s: State, c: nat, s': State, rest: seq<Step>) returns (steps: seq<Step>)
    requires By(c, rest)
    requires c in s.txs && s.txs[c].stage.UpdatingKey? && Keyed(s.txs[c].call)
    requires DoUpdateKey(env, s, c) == Some(s')
    ensures By(c, steps)
    ensures ExecFrom(env, s, steps) == ExecFrom(env, s', rest)
  {
    Then(env, s, UpdateKey(c), s', rest);
    steps := [UpdateKey(c)] + rest;
  }

  /** What a commit applies are the writes and the call, nothing else of the transaction. */
  lemma AppliedWrites(db: Db, tx: Tx, other: Tx)
    requires tx.call == other.call && tx.keyWrite == other.keyWrite && tx.orderWrite == other.orderWrite
    ensures Applied(db, tx) == Applied(db, other)
  {}

  lemma InsertThen(env: Env, s: State, c: nat, s': State, rest: seq<Step>) returns (steps: seq<Step>)
    requires By(c, rest)
    requires c in s.txs && s.txs[c].stage.InsertingOrder? && DoInsertOrder(env, s, c) == Some(s')
    ensures By(c, steps)
    ensures ExecFrom(env, s, steps) == ExecFrom(env, s', rest)
  {
    Then(env, s, InsertOrder(c), s', rest);
    steps := [InsertOrder(c)] + rest;
  }

  lemma InsertRun(env: Env, s: State, c: nat) returns (steps: seq<Step>)
    requires c in s.txs && NoRivals(s, c) && s.txs[c].stage.InsertingOrder? && s.txs[c].orderWrite == None
    requires var tx := s.txs[c];
             if Keyed(tx.call) then
               || tx.keyWrite == Some(KeyRow(HashOf(env, tx.call), None))
               || (tx.keyWrite == None && SlotOf(tx.call) in s.db.keys
                   && s.db.keys[SlotOf(tx.call)].hash == HashOf(env, tx.call))
             else tx.keyWrite == None
    ensures By(c, steps)
    ensures var (db', outcome) := FromInsert(env, s.db, s.txs[c].call, s.txs[c].startedAt);
            EndsWith(ExecFrom(env, s, steps), c, db', outcome)
  {
    var tx := s.txs[c];
    var s' := DoInsertOrder(env, s, c).value;
    if s'.txs[c].stage.Finished? {
      steps := [];
    } else if Keyed(tx.call) {
      steps := UpdateRun(env, s', c);
    } else {
      steps := CommitRun(env, s', c);
    }
    steps := InsertThen(env, s, c, s', steps);
  }

  lemma KeyRun(env: Env, s: State, c: nat) returns (steps: seq<Step>)
    requires c in s.txs && NoRivals(s, c) && Keyed(s.txs[c].call)
    requires s.txs[c].stage.Selecting? && s.txs[c].keyWrite == None && s.txs[c].orderWrite == None
    requires SlotOf(s.txs[c].call) !in s.db.keys
    ensures By(c, steps)
    ensures var (db', outcome) := Alone(env, s.db, s.txs[c].call, s.txs[c].startedAt);
            EndsWith(ExecFrom(env, s, steps), c, db', outcome)
  {
    var s1 := DoSelect(env, s, c);
    steps := KeyInsertRun(env, s1, c);
    steps := SelectThen(env, s, c, steps);
  }

  lemma KeyInsertRun(env: Env, s: State, c: nat) returns (steps: seq<Step>)
    requires c in s.txs && NoRivals(s, c) && Keyed(s.txs[c].call)
    requires s.txs[c].stage.InsertingKey? && s.txs[c].keyWrite == None && s.txs[c].orderWrite == None
    requires SlotOf(s.txs[c].call) !in s.db.keys
    ensures By(c, steps)
    ensures var (db', outcome) := Alone(env, s.db, s.txs[c].call, s.txs[c].startedAt);
            EndsWith(ExecFrom(env, s, steps), c, db', outcome)
  {
    var s1 := DoInsertKey(env, s, c).value;
    if s1.txs[c].stage.Finished? {
      steps := [];
    } else {
      AloneInserts(env, s.db, s.txs[c].call, s.txs[c].startedAt);
      steps := InsertRun(env, s1, c);
    }
    Then(env, s, InsertKey(c), s1, steps);
    steps := [InsertKey(c)] + steps;
  }

  lemma SelectThen(env: Env, s: State, c: nat, rest: seq<Step>) returns (steps: seq<Step>)
    requires By(c, rest)
    requires c in s.txs && s.txs[c].stage.Selecting? && Keyed(s.txs[c].call)
    ensures By(c, steps)
    ensures ExecFrom(env, s, steps) == ExecFrom(env, DoSelect(env, s, c), rest)
  {
    Then(env, s, Select(c), DoSelect(env, s, c), rest);
    steps := [Select(c)] + rest;
  }

  /** A key row that answers ends the call after its first SELECT. */
  lemma AnsweredRun(env: Env, s: State, c: nat) returns (steps: seq<Step>)
    requires c in s.txs && Keyed(s.txs[c].call)
    requires s.txs[c].stage.Selecting? && s.txs[c].keyWrite == None && s.txs[c].orderWrite == None
    requires SlotOf(s.txs[c].call) in s.db.keys
    requires !Read(env, s.db.keys[SlotOf(s.txs[c].call)], HashOf(env, s.txs[c].call)).Unanswered?
    ensures By(c, steps)
    ensures var (db', outcome) := Alone(env, s.db, s.txs[c].call, s.txs[c].startedAt);
            EndsWith(ExecFrom(env, s, steps), c, db', outcome)
  {
    var s1 := DoSelect(env, s, c);
    steps := [];
    if s1.txs[c].stage.Committing? {
      steps := CommitRun(env, s1, c);
    }
    steps := SelectThen(env, s, c, steps);
  }

  /** A key row without a response lets the call fall through to the order INSERT. */
  lemma UnansweredRun(env: Env, s: State, c: nat) returns (steps: seq<Step>)
    requires c in s.txs && NoRivals(s, c) && Keyed(s.txs[c].call)
    requires s.txs[c].stage.Selecting? && s.txs[c].keyWrite == None && s.txs[c].orderWrite == None
    requires SlotOf(s.txs[c].call) in s.db.keys
    requires Read(env, s.db.keys[SlotOf(s.txs[c].call)], HashOf(env, s.txs[c].call)).Unanswered?
    ensures By(c, steps)
    ensures var (db', outcome) := Alone(env, s.db, s.txs[c].call, s.txs[c].startedAt);
            EndsWith(ExecFrom(env, s, steps), c, db', outcome)
  {
    var s1 := DoSelect(env, s, c);
    steps := InsertRun(env, s1, c);
    steps := SelectThen(env, s, c, steps);
  }

  /**
   * From any state in which no transaction has uncommitted writes, some steps of one new client alone lead
   * to the very tables and outcome of the method.
   */
  lemma AloneIsARun(env: Env, s: State, c: nat, call: Call, at: nat) returns (steps: seq<Step>)
    requires Quiet(s) && c !in s.txs
    ensures By(c, steps)
    ensures var (db', outcome) := Alone(env, s.db, call, at);
            EndsWith(ExecFrom(env, s, steps), c, db', outcome)
  {
    var s1 := Apply(env, s, Begin(c, call, at)).value;
    if !Keyed(call) {
      steps := InsertRun(env, s1, c);
    } else if SlotOf(call) !in s.db.keys {
      steps := KeyRun(env, s1, c);
    } else if Read(env, s.db.keys[SlotOf(call)], HashOf(env, call)).Unanswered? {
      steps := UnansweredRun(env, s1, c);
    } else {
      steps := AnsweredRun(env, s1, c);
    }
    Then(env, s, Begin(c, call, at), s1, steps);
    steps := [Begin(c, call, at)] + steps;
  }
}
