/** The two tables, the rows `create_order` writes, and the atomic meaning of a keyed call. */
module OrderStore {
  import opened Wrappers
  import opened Json
  import opened JsonParser
  import opened Amount
  import opened Requests
  import opened Uuid7

  // ---- tables -----------------------------------------------------------------

  datatype Order = Order(id: nat, userId: int, cents: int, status: string, payload: Value,
                         createdAt: nat, updatedAt: nat)

  /** PRIMARY KEY (user_id, id). */
  datatype OrderPk = OrderPk(userId: int, id: nat)

  function PkOf(o: Order): OrderPk {
    OrderPk(o.userId, o.id)
  }

  /** PRIMARY KEY (principal, idempotency_key). */
  datatype KeyPk = KeyPk(principal: string, key: string)

  /** A row of `idempotency_keys`; the response column holds JSON text or NULL. */
  datatype KeyRow = KeyRow(hash: string, response: Option<string>)

  datatype Db = Db(keys: map<KeyPk, KeyRow>, orders: map<OrderPk, Order>)

  const EMPTY: Db := Db(map[], map[])

  // ---- calls --------------------------------------------------------------------

  /** One call of `create_order`; the order id is what `new_uuidv7` returned. */
  datatype Call = Call(request: Request, principal: string, key: Option<string>, orderId: nat)

  /** `if idempotency_key:` - an empty key is no key. */
  predicate Keyed(call: Call) {
    call.key.Some? && call.key.value != ""
  }

  function SlotOf(call: Call): KeyPk
    requires Keyed(call)
  {
    KeyPk(call.principal, call.key.value)
  }

  function HashOf(env: Env, call: Call): string {
    RequestHash(env, call.request)
  }

  /** CHECK (length(idempotency_key) BETWEEN 16 AND 256). */
  predicate KeyAllowed(key: string) {
    16 <= |key| <= 256
  }

  /** The CHECK constraints and column ranges of `orders`. */
  predicate RowAllowed(o: Order) {
    && 0 < o.userId < 0x8000_0000_0000_0000
    && 0 <= o.cents <= 1_000_000_00
    && (o.status == "pending" || o.status == "paid" || o.status == "cancelled")
    && o.payload.Obj?
  }

  /** The row an INSERT makes at time `at`: the payload goes through its JSON text, the amount through the column. */
  function RowOf(call: Call, at: nat): Option<Order> {
    match Parse(ToJsonb(PayloadOrEmpty(call.request.payload)))
    case None => None
    case Some(payload) =>
      var o := Order(call.orderId, call.request.userId, StoredCents(call.request.amount), call.request.status,
                     payload, at, at);
      if RowAllowed(o) then Some(o) else None
  }

  /** The inserted row as the dict that `create_order` returns and stores. */
  function RowJson(env: Env, o: Order): Value {
    Obj([Member("id", Str(UuidText(o.id))),
         Member("user_id", Int(o.userId)),
         Member("amount", Str(CentsText(o.cents))),
         Member("status", Str(o.status)),
         Member("payload", env.column(ToJsonb(o.payload))),
         Member("created_at", Str(env.isoTime(o.createdAt))),
         Member("updated_at", Str(env.isoTime(o.updatedAt)))])
  }

  /** The key row a created order leaves behind. */
  function AnswerRow(env: Env, call: Call, o: Order): KeyRow {
    KeyRow(HashOf(env, call), Some(ToJsonb(RowJson(env, o))))
  }

  datatype Outcome =
    | Created(order: Order, response: Value)
    | Replayed(response: Value)
    | Conflict
    | Failed

  /** What an existing key row tells a call with the given hash. */
  datatype Found = Mismatch | Answered(response: Value) | Undecodable | Unanswered

  function Read(env: Env, row: KeyRow, hash: string): Found {
    if row.hash != hash then Mismatch
    else
      match row.response
      case None => Unanswered
      case Some(text) =>
        match Decode(env, text)
        case None => Undecodable
        case Some(v) => Answered(v)
  }

  /** `dict(existing["response"])`, or None when it raises. */
  function Decode(env: Env, text: string): Option<Value> {
    AsDict(env.column(text))
  }

  /** Python's `dict` of a value: a copy of a dict, an error for a text, number, boolean or None. */
  function AsDict(v: Value): Option<Value> {
    if v.Obj? then Some(v) else None
  }

  // ---- drivers --------------------------------------------------------------------

  /** A stored object comes back as a valid value; what `dict` makes of it, if anything, is the same object. */
  ghost predicate Honest(env: Env) {
    forall v {:trigger HonestAt(env, v)} | Valid(v) && v.Obj? :: HonestAt(env, v)
  }

  ghost predicate HonestAt(env: Env, v: Value) {
    && Valid(env.column(ToJsonb(v)))
    && (Decode(env, ToJsonb(v)).Some? ==> Same(v, Decode(env, ToJsonb(v)).value))
  }

  /** A stored object comes back as that object, in whatever member order: a jsonb codec is registered. */
  ghost predicate Decoding(env: Env) {
    forall v {:trigger DecodingAt(env, v)} | Valid(v) && v.Obj? :: DecodingAt(env, v)
  }

  ghost predicate DecodingAt(env: Env, v: Value) {
    Valid(env.column(ToJsonb(v))) && Same(v, env.column(ToJsonb(v)))
  }

  /** A stored text comes back as some text, as asyncpg does without a codec. */
  ghost predicate Undecoded(env: Env) {
    forall text | text != "" :: env.column(text).Str? && env.column(text).s != ""
  }

  lemma DecodedDict(env: Env, v: Value)
    requires v.Obj? && DecodingAt(env, v)
    ensures HonestAt(env, v) && Decode(env, ToJsonb(v)) == Some(env.column(ToJsonb(v)))
  {}

  lemma DecodingIsHonest(env: Env)
    requires Decoding(env)
    ensures Honest(env)
  {
    forall v | Valid(v) && v.Obj? ensures HonestAt(env, v) {
      assert DecodingAt(env, v);
      DecodedDict(env, v);
    }
  }

  lemma UndecodedIsHonest(env: Env)
    requires Undecoded(env)
    ensures Honest(env)
  {
    forall v | Valid(v) && v.Obj? ensures HonestAt(env, v) {
      UndecodedText(env, ToJsonb(v));
    }
  }

  lemma UndecodedText(env: Env, text: string)
    requires Undecoded(env) && text != ""
    ensures env.column(text).Str? && Decode(env, text) == None
  {}

  /** A driver that parses the text is a decoding one. */
  lemma ParsingDecodes(env: Env)
    requires forall text | Parse(text).Some? :: env.column(text) == Parse(text).value
    ensures Decoding(env)
  {
    forall v | Valid(v) && v.Obj? ensures DecodingAt(env, v) {
      RoundTrip(v);
    }
  }

  // ---- the atomic map -------------------------------------------------------------

  /** An answered key: the hash of its request and what the stored response is replayed as, if it can be. */
  datatype Entry = Entry(hash: string, replay: Option<Value>)

  type Answers = map<KeyPk, Entry>

  function EntryOf(env: Env, row: KeyRow): Entry {
    Entry(row.hash, match row.response case None => None case Some(text) => Decode(env, text))
  }

  /** The key table seen as a map of answers. */
  function AnswersOf(env: Env, db: Db): Answers {
    map k | k in db.keys :: EntryOf(env, db.keys[k])
  }

  /**
   * The atomic operation a keyed call stands for: absent - create and store; same hash - return what is
   * stored; other hash - conflict, nothing changed. A call without a key only creates.
   */
  ghost predicate AtomicCall(env: Env, a: Answers, call: Call, outcome: Outcome, a': Answers) {
    if !Keyed(call) then
      outcome.Created? && a' == a
    else if SlotOf(call) !in a then
      && outcome.Created?
      && a' == a[SlotOf(call) := Entry(HashOf(env, call), Decode(env, ToJsonb(outcome.response)))]
    else if a[SlotOf(call)].hash == HashOf(env, call) then
      a[SlotOf(call)].replay.Some? && outcome == Replayed(a[SlotOf(call)].replay.value) && a' == a
    else
      outcome == Conflict && a' == a
  }

  /**
   * The operation by principal and key. A call with a nonempty key makes an order if the key has no entry,
   * is answered from an entry with the hash of its request, and conflicts with any other entry; only the
   * first of these changes the map, and only at that key. A call without one makes an order and changes nothing.
   */
  lemma AtomicByKey(env: Env, a: Answers, call: Call, outcome: Outcome, a': Answers, key: string)
    requires AtomicCall(env, a, call, outcome, a')
    ensures call.key == Some(key) && key != "" ==>
              var k := KeyPk(call.principal, key);
              if k !in a then
                && outcome.Created? && a'.Keys == a.Keys + {k} && (forall other | other in a :: a'[other] == a[other])
                && a'[k] == Entry(RequestHash(env, call.request), Decode(env, ToJsonb(outcome.response)))
              else
                && a' == a && outcome != Failed
                && outcome == (if a[k].hash != RequestHash(env, call.request) then Conflict
                               else if a[k].replay.Some? then Replayed(a[k].replay.value) else Failed)
    ensures call.key == None || call.key == Some("") ==> outcome.Created? && a' == a
  {}

  // ---- rows and responses ----------------------------------------------------------

  /** The payload of a request always survives its JSON text, so the row is refused for its columns only. */
  lemma RowPayload(call: Call, at: nat)
    ensures Parse(ToJsonb(PayloadOrEmpty(call.request.payload)))
         == Some(SortKeys(PayloadOrEmpty(call.request.payload)))
    ensures RowOf(call, at).Some? ==>
              Valid(RowOf(call, at).value.payload)
              && Same(PayloadOrEmpty(call.request.payload), RowOf(call, at).value.payload)
  {
    CanonicalRequestValid(call.request);
    RoundTrip(PayloadOrEmpty(call.request.payload));
  }

  /** The columns of a row have different names. */
  lemma RowNames(env: Env, o: Order)
    ensures DistinctNames(RowJson(env, o).members)
  {
    assert |"id"| == 2 && |"user_id"| == 7 && |"amount"| == 6 && |"status"| == 6 && |"payload"| == 7
           && |"created_at"| == 10 && |"updated_at"| == 10;
    assert "user_id"[1] == 's' && "payload"[1] == 'a';
    assert "amount"[0] == 'a' && "status"[0] == 's';
    assert "created_at"[0] == 'c' && "updated_at"[0] == 'u';
  }

  // ---- which requests get a row --------------------------------------------------

  /** What the request model of the writer service lets through. */
  predicate Validated(r: Request, maxAmount: real) {
    && r.userId > 0
    && 0.0 <= DecimalValue(r.amount) <= maxAmount && Scale(r.amount) <= 2
    && (r.status == "pending" || r.status == "paid" || r.status == "cancelled")
  }

  /**
   * A validated request gets its row exactly when the user id fits a bigint and the amount is within the
   * column's CHECK; the row holds what was asked for, made and updated when its transaction began.
   */
  lemma ValidatedRow(call: Call, at: nat, maxAmount: real)
    requires Validated(call.request, maxAmount)
    ensures RowOf(call, at).Some? <==>
            call.request.userId < 0x8000_0000_0000_0000 && DecimalValue(call.request.amount) <= 1000000.0
    ensures RowOf(call, at).Some? ==>
              var o := RowOf(call, at).value;
              && o.id == call.orderId && o.userId == call.request.userId && o.status == call.request.status
              && o.cents as real / 100.0 == DecimalValue(call.request.amount)
              && Same(PayloadOrEmpty(call.request.payload), o.payload)
              && o.createdAt == at && o.updatedAt == at
  {
    RowPayload(call, at);
    StoredExactly(call.request.amount);
  }

  /** A row meets the constraints of its table, whatever the request. */
  lemma RowMeetsSchema(call: Call, at: nat)
    requires RowOf(call, at).Some?
    ensures var o := RowOf(call, at).value;
            && MeetsSchema(o) && o.createdAt == at && o.updatedAt == at
            && o.id == call.orderId && o.userId == call.request.userId
  {}

  predicate MeetsSchema(o: Order) {
    && 1 <= o.userId <= 0x7FFF_FFFF_FFFF_FFFF
    && 0 <= o.cents <= 100_000_000
    && o.status in ["pending", "paid", "cancelled"]
    && o.payload.Obj?
  }

  lemma RowJsonValid(env: Env, o: Order)
    requires Valid(env.column(ToJsonb(o.payload)))
    ensures Valid(RowJson(env, o))
  {
    RowNames(env, o);
  }

  /** A returned row equals itself, and whatever the driver makes a dict of its stored text is the same row. */
  lemma StoredResponse(env: Env, o: Order)
    requires Honest(env) && Valid(o.payload) && o.payload.Obj?
    ensures Valid(RowJson(env, o)) && Same(RowJson(env, o), RowJson(env, o))
    ensures var replay := Decode(env, ToJsonb(RowJson(env, o)));
            && (replay.Some? ==> Valid(replay.value) && Same(RowJson(env, o), replay.value))
            && (Decoding(env) ==> replay.Some?)
  {
    assert HonestAt(env, o.payload);
    RowJsonValid(env, o);
    FormsDecideSameness(RowJson(env, o), RowJson(env, o));
    Replays(env, RowJson(env, o));
  }

  lemma Replays(env: Env, v: Value)
    requires Honest(env) && Valid(v) && v.Obj?
    ensures var replay := Decode(env, ToJsonb(v));
            && (replay.Some? ==> Valid(replay.value) && Same(v, replay.value))
            && (Decoding(env) ==> replay.Some?)
  {
    assert HonestAt(env, v);
    if Decoding(env) {
      assert DecodingAt(env, v);
      DecodedDict(env, v);
    }
  }

  lemma ReadsResponse(env: Env, row: KeyRow, hash: string)
    requires row.response.Some?
    ensures Read(env, row, hash)
         == if row.hash != hash then Mismatch
            else if Decode(env, row.response.value).Some? then Answered(Decode(env, row.response.value).value)
            else Undecodable
  {}

  /** The row a creation leaves is read as its request's hash and what the driver makes of its response. */
  lemma AnsweredEntry(env: Env, call: Call, o: Order)
    ensures EntryOf(env, AnswerRow(env, call, o))
         == Entry(HashOf(env, call), Decode(env, ToJsonb(RowJson(env, o))))
  {}

  lemma {:induction false} LookupIn(ms: seq<Member>, m: Member)
    requires DistinctNames(ms) && m in ms
    ensures Lookup(ms, m.name) == Some(m.value)
  {
    if ms[0].name != m.name {
      assert m in ms[1..];
      LookupIn(ms[1..], m);
    } else {
      OnePerName(ms, ms[0], m);
    }
  }

  /** Whatever is the same object shows each member under its name, up to member order. */
  lemma Shows(ms: seq<Member>, v: Value, i: nat)
    requires Valid(v) && Same(Obj(ms), v) && i < |ms|
    ensures Field(v, ms[i].name).Some? && Valid(Field(v, ms[i].name).value)
    ensures Same(ms[i].value, Field(v, ms[i].name).value)
  {
    assert ms[i] in ms && ms[i].name in Names(ms);
    var n := MemberOf(v.members, ms[i].name);
    LookupIn(v.members, n);
  }

  /** A response, first or replayed, tells the whole order: each column under its own name. */
  lemma ResponseTells(env: Env, o: Order, v: Value)
    requires Valid(v) && Same(RowJson(env, o), v)
    ensures && Field(v, "id") == Some(Str(UuidText(o.id)))
            && Field(v, "user_id") == Some(Int(o.userId))
            && Field(v, "amount") == Some(Str(CentsText(o.cents)))
            && Field(v, "status") == Some(Str(o.status))
            && Field(v, "created_at") == Some(Str(env.isoTime(o.createdAt)))
            && Field(v, "updated_at") == Some(Str(env.isoTime(o.updatedAt)))
    ensures Field(v, "payload").Some? && Valid(Field(v, "payload").value)
    ensures Same(env.column(ToJsonb(o.payload)), Field(v, "payload").value)
  {
    var ms := RowJson(env, o).members;
    Shows(ms, v, 0);
    Shows(ms, v, 1);
    Shows(ms, v, 2);
    Shows(ms, v, 3);
    Shows(ms, v, 4);
    Shows(ms, v, 5);
    Shows(ms, v, 6);
  }

  /** The payload a response shows: the stored one with a decoding driver, its text without a codec. */
  lemma PayloadShown(env: Env, o: Order, v: Value)
    requires Valid(o.payload) && o.payload.Obj? && Valid(v) && Same(RowJson(env, o), v)
    ensures Decoding(env) ==> Field(v, "payload").Some? && Same(o.payload, Field(v, "payload").value)
    ensures Undecoded(env) ==> Field(v, "payload").Some? && Field(v, "payload").value.Str?
  {
    ResponseTells(env, o, v);
    if Decoding(env) {
      assert DecodingAt(env, o.payload);
      SameTransitive(o.payload, env.column(ToJsonb(o.payload)), Field(v, "payload").value);
    }
  }
}
