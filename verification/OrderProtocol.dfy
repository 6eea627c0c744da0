/**
 * `OrderRepository.create_order` as a step relation: any number of clients run the transaction,
 * statement by statement, against the shared tables.
 *
 * Reads are READ COMMITTED. An INSERT of a primary key that a rival has inserted but not committed
 * waits: the step is not enabled until the rival finishes. Commit is atomic, and any transaction may
 * abort at any statement, in particular after a unique violation.
 */
module OrderProtocol {
  import opened Wrappers
  import opened Json
  import opened Requests
  import opened OrderStore

  /** Where a transaction stands: the statement it runs next, or how it ended. */
  datatype Stage =
    | Selecting
    | InsertingKey
    | Recovering
    | InsertingOrder
    | UpdatingKey(row: Order)
    | Committing(result: Outcome)
    | Finished(outcome: Outcome)

  /** A transaction with its own uncommitted writes. */
  datatype Tx = Tx(call: Call, startedAt: nat, stage: Stage, keyWrite: Option<KeyRow>, orderWrite: Option<Order>)

  /** A call that reached a decision; `delivered` is false when the response was lost on the way back. */
  datatype Event = Event(client: nat, call: Call, outcome: Outcome, delivered: bool)

  datatype State = State(db: Db, txs: map<nat, Tx>, history: seq<Event>)

  const START: State := State(EMPTY, map[], [])

  datatype Step =
    | Begin(client: nat, call: Call, at: nat)
    | Select(client: nat)
    | InsertKey(client: nat)
    | Recover(client: nat)
    | InsertOrder(client: nat)
    | UpdateKey(client: nat)
    | Commit(client: nat, delivered: bool)
    | Abort(client: nat)

  // ---- helpers on states ------------------------------------------------------

  /** Another transaction has written the key of `slot` and not committed. */
  predicate RivalKey(s: State, c: nat, slot: KeyPk) {
    exists d | d in s.txs :: d != c && s.txs[d].keyWrite.Some? && Keyed(s.txs[d].call) && SlotOf(s.txs[d].call) == slot
  }

  /** Another transaction has inserted an order with this primary key and not committed. */
  predicate RivalOrder(s: State, c: nat, pk: OrderPk) {
    exists d | d in s.txs :: d != c && s.txs[d].orderWrite.Some? && PkOf(s.txs[d].orderWrite.value) == pk
  }

  function Put(s: State, c: nat, tx: Tx): State {
    s.(txs := s.txs[c := tx])
  }

  /** The end of a transaction that leaves no writes behind. */
  function End(tx: Tx, outcome: Outcome): Tx {
    tx.(stage := Finished(outcome), keyWrite := None, orderWrite := None)
  }

  function Fail(s: State, c: nat): State
    requires c in s.txs
  {
    Put(s, c, End(s.txs[c], Failed))
  }

  function Record(s: State, c: nat, outcome: Outcome, delivered: bool): State
    requires c in s.txs
  {
    Put(s, c, End(s.txs[c], outcome))
      .(history := s.history + [Event(c, s.txs[c].call, outcome, delivered)])
  }

  /** The committed tables after a transaction's writes are applied. */
  function Applied(db: Db, tx: Tx): Db {
    Db(if tx.keyWrite.Some? && Keyed(tx.call) then db.keys[SlotOf(tx.call) := tx.keyWrite.value] else db.keys,
       if tx.orderWrite.Some? then db.orders[PkOf(tx.orderWrite.value) := tx.orderWrite.value] else db.orders)
  }

  // ---- the statements -----------------------------------------------------------

  /** The first SELECT, for a call with a key. */
  function DoSelect(env: Env, s: State, c: nat): State
    requires c in s.txs && Keyed(s.txs[c].call)
  {
    var tx := s.txs[c];
    var slot := SlotOf(tx.call);
    if slot !in s.db.keys then Put(s, c, tx.(stage := InsertingKey))
    else
      match Read(env, s.db.keys[slot], HashOf(env, tx.call))
      case Mismatch => Record(s, c, Conflict, true)
      case Answered(v) => Put(s, c, tx.(stage := Committing(Replayed(v))))
      case Undecodable => Fail(s, c)
      case Unanswered => Put(s, c, tx.(stage := InsertingOrder))
  }

  /** The INSERT of the key: refused by the CHECK, a unique violation, a wait, or a write. */
  function DoInsertKey(env: Env, s: State, c: nat): Option<State>
    requires c in s.txs && Keyed(s.txs[c].call)
  {
    var tx := s.txs[c];
    var slot := SlotOf(tx.call);
    if !KeyAllowed(slot.key) then Some(Fail(s, c))
    else if slot in s.db.keys then Some(Put(s, c, tx.(stage := Recovering)))
    else if RivalKey(s, c, slot) then None
    else Some(Put(s, c, tx.(stage := InsertingOrder, keyWrite := Some(KeyRow(HashOf(env, tx.call), None)))))
  }

  /** The SELECT after a unique violation, when the database still answers it. */
  function DoRecover(env: Env, s: State, c: nat): State
    requires c in s.txs && Keyed(s.txs[c].call)
  {
    var tx := s.txs[c];
    var slot := SlotOf(tx.call);
    if slot !in s.db.keys then Fail(s, c)
    else
      match Read(env, s.db.keys[slot], HashOf(env, tx.call))
      case Mismatch => Record(s, c, Conflict, true)
      case Answered(v) => Put(s, c, tx.(stage := Committing(Replayed(v))))
      case Undecodable => Fail(s, c)
      case Unanswered => Fail(s, c)
  }

  /** The INSERT of the order: refused by a CHECK or by an id already taken, a wait, or a write. */
  function DoInsertOrder(env: Env, s: State, c: nat): Option<State>
    requires c in s.txs
  {
    var tx := s.txs[c];
    match RowOf(tx.call, tx.startedAt)
    case None => Some(Fail(s, c))
    case Some(row) =>
      if PkOf(row) in s.db.orders then Some(Fail(s, c))
      else if RivalOrder(s, c, PkOf(row)) then None
      else Some(Put(s, c, Inserted(env, tx, row)))
  }

  /** A transaction whose order is written: the key comes next, if there is one. */
  function Inserted(env: Env, tx: Tx, row: Order): Tx {
    tx.(stage := if Keyed(tx.call) then UpdatingKey(row) else Committing(Created(row, RowJson(env, row))),
        orderWrite := Some(row))
  }

  /** The UPDATE of the key row the transaction sees; no row, no change. */
  function DoUpdateKey(env: Env, s: State, c: nat): Option<State>
    requires c in s.txs && Keyed(s.txs[c].call) && s.txs[c].stage.UpdatingKey?
  {
    var tx := s.txs[c];
    var slot := SlotOf(tx.call);
    var json := RowJson(env, tx.stage.row);
    var done := tx.(stage := Committing(Created(tx.stage.row, json)));
    var text := Some(ToJsonb(json));
    if tx.keyWrite.Some? then Some(Put(s, c, done.(keyWrite := Some(tx.keyWrite.value.(response := text)))))
    else if slot !in s.db.keys then Some(Put(s, c, done))
    else if RivalKey(s, c, slot) then None
    else Some(Put(s, c, done.(keyWrite := Some(s.db.keys[slot].(response := text)))))
  }

  function DoCommit(s: State, c: nat, delivered: bool): State
    requires c in s.txs && s.txs[c].stage.Committing?
  {
    Record(s, c, s.txs[c].stage.result, delivered).(db := Applied(s.db, s.txs[c]))
  }

  /** The state after a step, or None when the step cannot be taken. */
  function Apply(env: Env, s: State, step: Step): Option<State> {
    var c := step.client;
    if step.Begin? then
      if c in s.txs then None
      else Some(Put(s, c, Tx(step.call, step.at, if Keyed(step.call) then Selecting else InsertingOrder, None, None)))
    else if c !in s.txs then None
    else
      var tx := s.txs[c];
      match step
      case Select(_) => if tx.stage.Selecting? && Keyed(tx.call) then Some(DoSelect(env, s, c)) else None
      case InsertKey(_) => if tx.stage.InsertingKey? && Keyed(tx.call) then DoInsertKey(env, s, c) else None
      case Recover(_) => if tx.stage.Recovering? && Keyed(tx.call) then Some(DoRecover(env, s, c)) else None
      case InsertOrder(_) => if tx.stage.InsertingOrder? then DoInsertOrder(env, s, c) else None
      case UpdateKey(_) => if tx.stage.UpdatingKey? && Keyed(tx.call) then DoUpdateKey(env, s, c) else None
      case Commit(_, delivered) => if tx.stage.Committing? then Some(DoCommit(s, c, delivered)) else None
      case Abort(_) => if tx.stage.Finished? then None else Some(Fail(s, c))
  }

  /** The state that steps lead to, or None when some step could not be taken. */
  function ExecFrom(env: Env, s: State, steps: seq<Step>): Option<State> {
    if steps == [] then Some(s)
    else
      match ExecFrom(env, s, steps[..|steps| - 1])
      case None => None
      case Some(s') => Apply(env, s', steps[|steps| - 1])
  }

  /** A run: steps from empty tables. */
  function Exec(env: Env, steps: seq<Step>): Option<State> {
    ExecFrom(env, START, steps)
  }

  /** The first step of a run may be taken off as well as the last. */
  lemma {:induction false} Then(env: Env, s: State, step: Step, s': State, rest: seq<Step>)
    requires Apply(env, s, step) == Some(s')
    ensures ExecFrom(env, s, [step] + rest) == ExecFrom(env, s', rest)
  {
    var steps := [step] + rest;
    if rest == [] {
      assert steps[..0] == [];
    } else {
      Then(env, s, step, s', rest[..|rest| - 1]);
      assert steps[..|steps| - 1] == [step] + rest[..|rest| - 1];
    }
  }
}
