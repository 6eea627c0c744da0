/** Order requests and the idempotency hash. */
module Requests {
  import opened Wrappers
  import opened Json
  import opened JsonParser
  import opened Amount

  /** The arguments of `create_order` that describe the order. */
  datatype Request = Request(userId: int, amount: Decimal, status: string, payload: Option<Dict>)

  /**
   * What the code takes from its surroundings: the SHA-256 hex digest of a text, `isoformat` of a time, and
   * what the database and its driver hand back for a jsonb column into which a text was written.
   */
  datatype Env = Env(digest: string -> string, isoTime: nat -> string, column: string -> Value)

  /** No two texts collide under the digest. */
  ghost predicate CollisionFree(env: Env) {
    forall x, y :: env.digest(x) == env.digest(y) ==> x == y
  }

  /** `payload or {}`. */
  function PayloadOrEmpty(payload: Option<Dict>): Value {
    match payload
    case None => Obj([])
    case Some(ms) => Obj(ms)
  }

  function CanonicalRequest(r: Request): Value {
    Obj([Member("user_id", Int(r.userId)),
         Member("amount", Str(FixedText(r.amount))),
         Member("status", Str(r.status)),
         Member("payload", PayloadOrEmpty(r.payload))])
  }

  /** `idempotency_request_hash`. */
  function RequestHash(env: Env, r: Request): string {
    env.digest(ToJsonb(CanonicalRequest(r)))
  }

  /** The same request body: equal user, amount text and status, and payloads equal up to member order. */
  ghost predicate SameRequest(a: Request, b: Request) {
    && a.userId == b.userId
    && FixedText(a.amount) == FixedText(b.amount)
    && a.status == b.status
    && Same(PayloadOrEmpty(a.payload), PayloadOrEmpty(b.payload))
  }

  lemma CanonicalRequestValid(r: Request)
    ensures Valid(CanonicalRequest(r)) && Valid(PayloadOrEmpty(r.payload))
  {
    var ms := CanonicalRequest(r).members;
    assert |"user_id"| == 7 == |"payload"| && |"amount"| == 6 == |"status"|;
    assert "user_id"[0] != "payload"[0] && "amount"[0] != "status"[0];
    assert Valid(PayloadOrEmpty(r.payload));
  }

  lemma FourMembers(ms: seq<Member>, ns: seq<Member>)
    requires |ms| == 4 == |ns| && DistinctNames(ms)
    requires forall i | 0 <= i < 4 :: ms[i].name == ns[i].name
    ensures Same(Obj(ms), Obj(ns)) <==>
              && Same(ms[0].value, ns[0].value) && Same(ms[1].value, ns[1].value)
              && Same(ms[2].value, ns[2].value) && Same(ms[3].value, ns[3].value)
  {
    if Same(Obj(ms), Obj(ns)) {
      SameGivesAligned(ms, ns, 0);
      SameGivesAligned(ms, ns, 1);
      SameGivesAligned(ms, ns, 2);
      SameGivesAligned(ms, ns, 3);
    } else if Same(ms[0].value, ns[0].value) && Same(ms[1].value, ns[1].value)
              && Same(ms[2].value, ns[2].value) && Same(ms[3].value, ns[3].value) {
      FourAligned(ms, ns);
    }
  }

  lemma FourAligned(ms: seq<Member>, ns: seq<Member>)
    requires |ms| == 4 == |ns| && DistinctNames(ms)
    requires forall i | 0 <= i < 4 :: ms[i].name == ns[i].name
    requires Same(ms[0].value, ns[0].value) && Same(ms[1].value, ns[1].value)
    requires Same(ms[2].value, ns[2].value) && Same(ms[3].value, ns[3].value)
    ensures Same(Obj(ms), Obj(ns))
  {
    AlignedGivesSame(ms, ns);
  }

  lemma CanonicalRequestsSame(a: Request, b: Request)
    ensures Same(CanonicalRequest(a), CanonicalRequest(b)) <==> SameRequest(a, b)
  {
    CanonicalRequestValid(a);
    FourMembers(CanonicalRequest(a).members, CanonicalRequest(b).members);
  }

  /** Two requests hash equally exactly when they are the same request; a missing payload is an empty one. */
  lemma HashDecidesRequest(env: Env, a: Request, b: Request)
    requires CollisionFree(env)
    ensures RequestHash(env, a) == RequestHash(env, b) <==> SameRequest(a, b)
    ensures RequestHash(env, a.(payload := None)) == RequestHash(env, a.(payload := Some([])))
  {
    CanonicalRequestValid(a);
    CanonicalRequestValid(b);
    TextDecidesSameness(CanonicalRequest(a), CanonicalRequest(b));
    CanonicalRequestsSame(a, b);
  }
}
