/** Roles, tenant scoping, and who ever sees which order, over runs of the two services. */
module Tenancy {
  import opened Wrappers
  import opened Json
  import opened Requests
  import opened Settings
  import opened OrderStore
  import opened OrderProtocol
  import opened OrderInvariant
  import opened OrderTheorems
  import opened Listing

  /** Verified claims. */
  datatype Principal = Principal(subject: string, roles: set<string>, tenantId: Option<int>)

  datatype Access = Granted | Unauthorized | Forbidden

  predicate AuthDisabled(s: Settings) {
    s.authMode == "disabled" && !Production(s)
  }

  /** `require_role`, before rate limiting. */
  function RequireRole(s: Settings, who: Option<Principal>, role: string): Access {
    if AuthDisabled(s) then Granted
    else if who == None then Unauthorized
    else if role !in who.value.roles && "admin" !in who.value.roles then Forbidden
    else Granted
  }

  /** The principal left on the request: none when authentication is disabled. */
  function Attached(s: Settings, who: Option<Principal>): Option<Principal> {
    if AuthDisabled(s) then None else who
  }

  /** `require_tenant_access`. */
  function RequireTenantAccess(s: Settings, who: Option<Principal>, userId: int): Access {
    if !s.enforceTenantAuth then Granted
    else
      match who
      case None => Unauthorized
      case Some(p) =>
        if "admin" in p.roles || "internal" in p.roles then Granted
        else if p.tenantId == None then Forbidden
        else if p.tenantId.value != userId then Forbidden
        else Granted
  }

  /** `getattr(principal, "subject", "anonymous")`. */
  function PrincipalId(who: Option<Principal>): string {
    if who.Some? then who.value.subject else "anonymous"
  }

  // ---- the services ----------------------------------------------------------------

  /** What a caller received: a stored row, or the response of a POST. */
  datatype Delivery =
    | Row(who: Option<Principal>, order: Order)
    | Response(who: Option<Principal>, body: Value)

  datatype System = System(core: State, posters: map<nat, Option<Principal>>, deliveries: seq<Delivery>)

  datatype Action =
    | Post(client: nat, who: Option<Principal>, call: Call, at: nat)
    | Transact(step: Step)
    | GetOrder(who: Option<Principal>, pk: OrderPk)
    | ListUser(who: Option<Principal>, userId: int, limit: Option<int>, rows: seq<Order>)
    | AdminRead(who: Option<Principal>, pk: OrderPk)

  const IDLE: System := System(OrderProtocol.START, map[], [])

  function RowsFor(who: Option<Principal>, rows: seq<Order>): (r: seq<Delivery>)
    ensures |r| == |rows|
    ensures forall i | 0 <= i < |rows| :: r[i] == Row(who, rows[i])
  {
    if rows == [] then [] else [Row(who, rows[0])] + RowsFor(who, rows[1..])
  }

  /** The response, if any, that a step sends to the client that posted. */
  function Sent(core: State, step: Step): Option<Value> {
    if step.Commit? && step.delivered && step.client in core.txs && core.txs[step.client].stage.Committing?
    then ResponseOf(core.txs[step.client].stage.result)
    else None
  }

  /** POST /orders: role, tenant, then the transaction begins under the principal's own name. */
  ghost function DoPost(s: Settings, env: Env, sys: System, c: nat, who: Option<Principal>, call: Call, at: nat)
    : Option<System>
  {
    var p := Attached(s, who);
    if RequireRole(s, who, "orders:write") != Granted then None
    else if RequireTenantAccess(s, p, call.request.userId) != Granted then None
    else if call.principal != PrincipalId(p) then None
    else
      match Apply(env, sys.core, Begin(c, call, at))
      case None => None
      case Some(core) => Some(sys.(core := core, posters := sys.posters[c := p]))
  }

  ghost function DoTransact(env: Env, sys: System, step: Step): Option<System> {
    if step.Begin? || step.client !in sys.posters then None
    else
      match Apply(env, sys.core, step)
      case None => None
      case Some(core) =>
        Some(sys.(core := core, deliveries := sys.deliveries + SentBy(sys, step)))
  }

  /** GET /users/{user_id}/orders/{order_id}. */
  function DoGet(s: Settings, sys: System, who: Option<Principal>, pk: OrderPk): Option<seq<Delivery>> {
    if RequireRole(s, who, "orders:read") == Granted
       && RequireTenantAccess(s, Attached(s, who), pk.userId) == Granted
       && pk in sys.core.db.orders
    then Some([Row(Attached(s, who), sys.core.db.orders[pk])])
    else None
  }

  /** GET /users/{user_id}/orders: the listing of the committed orders. */
  ghost function DoList(s: Settings, sys: System, who: Option<Principal>,
                        userId: int, limit: Option<int>, rows: seq<Order>): Option<seq<Delivery>>
  {
    if RequireRole(s, who, "orders:read") == Granted
       && RequireTenantAccess(s, Attached(s, who), userId) == Granted
       && SafeLimit(s, limit) >= 0
       && IsListing(sys.core.db.orders.Values, userId, SafeLimit(s, limit), rows)
    then Some(RowsFor(Attached(s, who), rows))
    else None
  }

  /** The admin endpoints, which check the role only. */
  function DoAdminRead(s: Settings, sys: System, who: Option<Principal>, pk: OrderPk): Option<seq<Delivery>> {
    if RequireRole(s, who, "admin") == Granted && pk in sys.core.db.orders
    then Some([Row(Attached(s, who), sys.core.db.orders[pk])])
    else None
  }

  function Deliver(sys: System, ds: Option<seq<Delivery>>): Option<System> {
    match ds
    case None => None
    case Some(more) => Some(sys.(deliveries := sys.deliveries + more))
  }

  ghost function Act(s: Settings, env: Env, sys: System, a: Action): Option<System> {
    match a
    case Post(c, who, call, at) => DoPost(s, env, sys, c, who, call, at)
    case Transact(step) => DoTransact(env, sys, step)
    case GetOrder(who, pk) => Deliver(sys, DoGet(s, sys, who, pk))
    case ListUser(who, userId, limit, rows) => Deliver(sys, DoList(s, sys, who, userId, limit, rows))
    case AdminRead(who, pk) => Deliver(sys, DoAdminRead(s, sys, who, pk))
  }

  ghost function Serve(s: Settings, env: Env, actions: seq<Action>): Option<System> {
    if actions == [] then Some(IDLE)
    else
      match Serve(s, env, actions[..|actions| - 1])
      case None => None
      case Some(sys) => Act(s, env, sys, actions[|actions| - 1])
  }

  // ---- scoping ----------------------------------------------------------------------------

  /** Whom tenant scoping lets see or create orders of a user. */
  predicate InScope(who: Option<Principal>, userId: int) {
    who.Some? ==>
      "admin" in who.value.roles || "internal" in who.value.roles || who.value.tenantId == Some(userId)
  }

  ghost predicate DeliveryScoped(d: Delivery) {
    match d
    case Row(who, o) => InScope(who, o.userId)
    case Response(who, v) => exists u :: Field(v, "user_id") == Some(Int(u)) && InScope(who, u)
  }

  /** Every transaction was posted, by someone in whose scope its user is. */
  ghost predicate PostsScoped(txs: map<nat, Tx>, posters: map<nat, Option<Principal>>) {
    && txs.Keys == posters.Keys
    && forall c | c in txs ::
         InScope(posters[c], txs[c].call.request.userId) && txs[c].call.principal == PrincipalId(posters[c])
  }

  ghost predicate DeliveriesScoped(ds: seq<Delivery>) {
    forall i | 0 <= i < |ds| :: DeliveryScoped(ds[i])
  }

  ghost predicate SysInv(env: Env, sys: System) {
    Inv(env, sys.core) && PostsScoped(sys.core.txs, sys.posters) && DeliveriesScoped(sys.deliveries)
  }

  lemma MoreDeliveries(ds: seq<Delivery>, more: seq<Delivery>)
    requires DeliveriesScoped(ds) && DeliveriesScoped(more)
    ensures DeliveriesScoped(ds + more)
  {}

  lemma GrantedIsScoped(s: Settings, who: Option<Principal>, userId: int)
    requires s.enforceTenantAuth && RequireTenantAccess(s, who, userId) == Granted
    ensures InScope(who, userId)
  {}

  /** What a commit sends names the user of the committing call, also when it is a replay. */
  lemma SentNamesUser(env: Env, core: State, c: nat)
    requires CollisionFree(env) && Honest(env) && Inv(env, core)
    requires c in core.txs && core.txs[c].stage.Committing? && ResponseOf(core.txs[c].stage.result).Some?
    ensures Field(ResponseOf(core.txs[c].stage.result).value, "user_id")
         == Some(Int(core.txs[c].call.request.userId))
  {
    CommitKeeps(env, core, c, true);
    var after := DoCommit(core, c, true);
    var j := |core.history|;
    assert after.history[j] == Event(c, core.txs[c].call, core.txs[c].stage.result, true);
    var o := AnswersOwnRequestIn(env, after, j);
    ResponseTells(env, o, ResponseOf(after.history[j].outcome).value);
  }

  /** What a step delivers. */
  function SentBy(sys: System, step: Step): seq<Delivery>
    requires step.client in sys.posters
  {
    match Sent(sys.core, step)
    case None => []
    case Some(v) => [Response(sys.posters[step.client], v)]
  }

  lemma ResponseScoped(who: Option<Principal>, v: Value, userId: int)
    requires Field(v, "user_id") == Some(Int(userId)) && InScope(who, userId)
    ensures DeliveriesScoped([Response(who, v)])
  {
    assert DeliveryScoped(Response(who, v));
  }

  lemma SentScoped(env: Env, sys: System, step: Step)
    requires CollisionFree(env) && Honest(env) && Inv(env, sys.core) && PostsScoped(sys.core.txs, sys.posters)
    requires step.client in sys.posters
    ensures DeliveriesScoped(SentBy(sys, step))
  {
    if Sent(sys.core, step).Some? {
      var c := step.client;
      SentNamesUser(env, sys.core, c);
      ResponseScoped(sys.posters[c], Sent(sys.core, step).value, sys.core.txs[c].call.request.userId);
    }
  }

  /** A transaction that keeps its call keeps to its poster's scope. */
  lemma TouchedPosts(core: State, core': State, posters: map<nat, Option<Principal>>, c: nat)
    requires PostsScoped(core.txs, posters) && OneTouched(core, core', c)
    ensures PostsScoped(core'.txs, posters)
  {}

  lemma TransactPosts(env: Env, core: State, step: Step, posters: map<nat, Option<Principal>>)
    requires PostsScoped(core.txs, posters) && !step.Begin? && Apply(env, core, step).Some?
    ensures PostsScoped(Apply(env, core, step).value.txs, posters)
  {
    StepTouchesOne(env, core, step);
    TouchedPosts(core, Apply(env, core, step).value, posters, step.client);
  }

  lemma TransactKeeps(env: Env, sys: System, step: Step)
    requires CollisionFree(env) && Honest(env) && SysInv(env, sys) && DoTransact(env, sys, step).Some?
    ensures SysInv(env, DoTransact(env, sys, step).value)
  {
    OrderInvariant.StepKeeps(env, sys.core, step);
    TransactPosts(env, sys.core, step, sys.posters);
    SentScoped(env, sys, step);
    MoreDeliveries(sys.deliveries, SentBy(sys, step));
  }

  lemma BeginPosts(env: Env, core: State, posters: map<nat, Option<Principal>>,
                   c: nat, call: Call, at: nat, p: Option<Principal>)
    requires PostsScoped(core.txs, posters) && InScope(p, call.request.userId) && call.principal == PrincipalId(p)
    requires Apply(env, core, Begin(c, call, at)).Some?
    ensures PostsScoped(Apply(env, core, Begin(c, call, at)).value.txs, posters[c := p])
  {}

  lemma PostKeeps(s: Settings, env: Env, sys: System, c: nat, who: Option<Principal>, call: Call, at: nat)
    requires s.enforceTenantAuth && SysInv(env, sys) && DoPost(s, env, sys, c, who, call, at).Some?
    ensures SysInv(env, DoPost(s, env, sys, c, who, call, at).value)
  {
    OrderInvariant.StepKeeps(env, sys.core, Begin(c, call, at));
    GrantedIsScoped(s, Attached(s, who), call.request.userId);
    BeginPosts(env, sys.core, sys.posters, c, call, at, Attached(s, who));
  }

  /** Stored orders stand under their own user. */
  lemma StoredUnderUser(env: Env, db: Db, h: seq<Event>, pk: OrderPk)
    requires EventsOk(env, db, h) && OrdersBacked(db, h) && pk in db.orders
    ensures PkOf(db.orders[pk]) == pk
  {
    var i :| 0 <= i < |h| && CreatedAs(h[i], pk);
    assert EventOk(env, db, h[i]);
  }

  lemma RowScoped(who: Option<Principal>, o: Order)
    requires InScope(who, o.userId)
    ensures DeliveriesScoped([Row(who, o)])
  {}

  lemma ListingScoped(who: Option<Principal>, rows: seq<Order>, userId: int)
    requires InScope(who, userId) && forall o | o in rows :: o.userId == userId
    ensures DeliveriesScoped(RowsFor(who, rows))
  {
    forall i | 0 <= i < |rows| ensures DeliveryScoped(RowsFor(who, rows)[i]) {
      assert rows[i] in rows;
    }
  }

  lemma DeliverKeeps(env: Env, sys: System, ds: Option<seq<Delivery>>)
    requires SysInv(env, sys) && (ds.Some? ==> DeliveriesScoped(ds.value))
    ensures Deliver(sys, ds).Some? ==> SysInv(env, Deliver(sys, ds).value)
  {
    if ds.Some? {
      MoreDeliveries(sys.deliveries, ds.value);
    }
  }

  lemma GetScoped(s: Settings, env: Env, sys: System, who: Option<Principal>, pk: OrderPk)
    requires s.enforceTenantAuth && DoGet(s, sys, who, pk).Some?
    requires EventsOk(env, sys.core.db, sys.core.history) && OrdersBacked(sys.core.db, sys.core.history)
    ensures DeliveriesScoped(DoGet(s, sys, who, pk).value)
  {
    StoredUnderUser(env, sys.core.db, sys.core.history, pk);
    GrantedIsScoped(s, Attached(s, who), pk.userId);
    RowScoped(Attached(s, who), sys.core.db.orders[pk]);
  }

  lemma ListScoped(s: Settings, sys: System, who: Option<Principal>, userId: int, limit: Option<int>, rows: seq<Order>)
    requires s.enforceTenantAuth
    ensures DoList(s, sys, who, userId, limit, rows).Some? ==>
              DeliveriesScoped(DoList(s, sys, who, userId, limit, rows).value)
  {
    if DoList(s, sys, who, userId, limit, rows).Some? {
      GrantedIsScoped(s, Attached(s, who), userId);
      ListingScoped(Attached(s, who), rows, userId);
    }
  }

  lemma AdminScoped(s: Settings, sys: System, who: Option<Principal>, pk: OrderPk)
    ensures DoAdminRead(s, sys, who, pk).Some? ==> DeliveriesScoped(DoAdminRead(s, sys, who, pk).value)
  {}

  lemma ReadKeeps(s: Settings, env: Env, sys: System, a: Action)
    requires s.enforceTenantAuth && SysInv(env, sys) && Act(s, env, sys, a).Some?
    requires !a.Post? && !a.Transact?
    ensures SysInv(env, Act(s, env, sys, a).value)
  {
    match a
    case GetOrder(who, pk) =>
      GetScoped(s, env, sys, who, pk);
      DeliverKeeps(env, sys, DoGet(s, sys, who, pk));
    case ListUser(who, userId, limit, rows) =>
      ListScoped(s, sys, who, userId, limit, rows);
      DeliverKeeps(env, sys, DoList(s, sys, who, userId, limit, rows));
    case AdminRead(who, pk) =>
      AdminScoped(s, sys, who, pk);
      DeliverKeeps(env, sys, DoAdminRead(s, sys, who, pk));
  }

  lemma {:induction false} ServeKeeps(s: Settings, env: Env, actions: seq<Action>)
    requires s.enforceTenantAuth && CollisionFree(env) && Honest(env) && Serve(s, env, actions).Some?
    ensures SysInv(env, Serve(s, env, actions).value)
  {
    if actions != [] {
      var before, a := actions[..|actions| - 1], actions[|actions| - 1];
      ServeKeeps(s, env, before);
      var sys := Serve(s, env, before).value;
      match a
      case Post(c, who, call, at) => PostKeeps(s, env, sys, c, who, call, at);
      case Transact(step) => TransactKeeps(env, sys, step);
      case _ => ReadKeeps(s, env, sys, a);
    }
  }

  /**
   * With tenant enforcement on, whatever a principal that is neither admin nor internal ever receives -
   * rows read, first responses and replays - belongs to its own tenant; one without a tenant receives nothing.
   */
  lemma ReceivesOwnTenantOnly(s: Settings, env: Env, actions: seq<Action>, i: nat, p: Principal)
    requires s.enforceTenantAuth && CollisionFree(env) && Honest(env) && Serve(s, env, actions).Some?
    requires "admin" !in p.roles && "internal" !in p.roles
    requires var sys := Serve(s, env, actions).value; i < |sys.deliveries| && sys.deliveries[i].who == Some(p)
    ensures p.tenantId.Some?
    ensures match Serve(s, env, actions).value.deliveries[i]
            case Row(_, o) => o.userId == p.tenantId.value
            case Response(_, v) => Field(v, "user_id") == Some(Int(p.tenantId.value))
  {
    ServeKeeps(s, env, actions);
    assert DeliveryScoped(Serve(s, env, actions).value.deliveries[i]);
  }

  /** Nor does such a principal ever create an order for another user, or under another subject's keys. */
  lemma CreatesOwnTenantOnly(s: Settings, env: Env, actions: seq<Action>, j: nat, p: Principal)
    requires s.enforceTenantAuth && CollisionFree(env) && Honest(env) && Serve(s, env, actions).Some?
    requires "admin" !in p.roles && "internal" !in p.roles
    requires var sys := Serve(s, env, actions).value;
             && j < |sys.core.history| && sys.core.history[j].outcome.Created?
             && sys.core.history[j].client in sys.posters && sys.posters[sys.core.history[j].client] == Some(p)
    ensures var o := Serve(s, env, actions).value.core.history[j].outcome.order;
            && p.tenantId == Some(o.userId)
            && Serve(s, env, actions).value.core.history[j].call.principal == p.subject
            && PkOf(o) in Serve(s, env, actions).value.core.db.orders
  {
    ServeKeeps(s, env, actions);
    var sys := Serve(s, env, actions).value;
    var o := AnswersOwnRequestIn(env, sys.core, j);
    assert sys.core.txs[sys.core.history[j].client].call == sys.core.history[j].call;
  }

  // ---- roles -----------------------------------------------------------------------------

  predicate HasRole(who: Option<Principal>, role: string) {
    who.Some? && (role in who.value.roles || "admin" in who.value.roles)
  }

  predicate DeliveryAuthorized(d: Delivery) {
    match d
    case Row(who, _) => HasRole(who, "orders:read")
    case Response(who, _) => HasRole(who, "orders:write")
  }

  ghost predicate Authorized(sys: System) {
    && (forall c | c in sys.posters :: HasRole(sys.posters[c], "orders:write"))
    && forall i | 0 <= i < |sys.deliveries| :: DeliveryAuthorized(sys.deliveries[i])
  }

  lemma DeliverAuthorized(sys: System, more: seq<Delivery>)
    requires Authorized(sys) && forall i | 0 <= i < |more| :: DeliveryAuthorized(more[i])
    ensures Authorized(sys.(deliveries := sys.deliveries + more))
  {}

  lemma ActAuthorized(s: Settings, env: Env, sys: System, a: Action)
    requires !AuthDisabled(s) && Authorized(sys) && Act(s, env, sys, a).Some?
    ensures Authorized(Act(s, env, sys, a).value)
  {
    match a
    case Post(c, who, call, at) =>
    case Transact(step) => DeliverAuthorized(sys, SentBy(sys, step));
    case GetOrder(who, pk) => DeliverAuthorized(sys, DoGet(s, sys, who, pk).value);
    case ListUser(who, userId, limit, rows) => DeliverAuthorized(sys, DoList(s, sys, who, userId, limit, rows).value);
    case AdminRead(who, pk) => DeliverAuthorized(sys, DoAdminRead(s, sys, who, pk).value);
  }

  /**
   * Unless authentication is disabled, which validated production settings never allow, every row read went
   * to an authenticated principal that may read and every response of a POST to one that may write.
   */
  lemma {:induction false} RolesEnforced(s: Settings, env: Env, actions: seq<Action>)
    requires !AuthDisabled(s) && Serve(s, env, actions).Some?
    ensures Authorized(Serve(s, env, actions).value)
  {
    if actions != [] {
      var before := actions[..|actions| - 1];
      RolesEnforced(s, env, before);
      ActAuthorized(s, env, Serve(s, env, before).value, actions[|actions| - 1]);
    }
  }

  // ---- what the services owe a caller ---------------------------------------------------------

  /** Tenant access is granted exactly without enforcement or to a principal in whose scope the user is. */
  lemma AccessExactly(s: Settings, who: Option<Principal>, userId: int)
    ensures RequireTenantAccess(s, who, userId) == Granted <==>
            !s.enforceTenantAuth || (who.Some? && InScope(who, userId))
    ensures RequireTenantAccess(s, who, userId) == Unauthorized <==> s.enforceTenantAuth && who == None
  {}

  /** Who may do what: a principal with the role or an admin, unless authentication is switched off. */
  lemma RoleExactly(s: Settings, who: Option<Principal>, role: string)
    ensures RequireRole(s, who, role) == Granted <==>
            (s.authMode == "disabled" && s.appEnv != "production") || HasRole(who, role)
    ensures RequireRole(s, who, role) == Unauthorized <==>
            (s.authMode != "disabled" || s.appEnv == "production") && who == None
  {}

  /** Whom the services know a caller as, and whether they serve it for a user. */
  ghost predicate Serves(s: Settings, who: Option<Principal>, role: string, userId: int) {
    if s.authMode == "disabled" && s.appEnv != "production" then !s.enforceTenantAuth
    else && who.Some? && (role in who.value.roles || "admin" in who.value.roles)
         && (s.enforceTenantAuth ==>
               "admin" in who.value.roles || "internal" in who.value.roles || who.value.tenantId == Some(userId))
  }

  /** The name under which a call runs: the subject, or "anonymous" without authentication. */
  function CallerName(s: Settings, who: Option<Principal>): string {
    if (s.authMode == "disabled" && s.appEnv != "production") || who == None then "anonymous" else who.value.subject
  }

  /**
   * A POST by a client not there yet is accepted exactly when the service serves its principal for the user
   * of the order and the call runs under the principal's own name; it then begins that call.
   */
  lemma PostAccepted(s: Settings, env: Env, sys: System, c: nat, who: Option<Principal>, call: Call, at: nat)
    requires c !in sys.core.txs
    ensures Act(s, env, sys, Post(c, who, call, at)).Some? <==>
            Serves(s, who, "orders:write", call.request.userId) && call.principal == CallerName(s, who)
    ensures var r := Act(s, env, sys, Post(c, who, call, at));
            r.Some? ==>
              && Apply(env, sys.core, Begin(c, call, at)) == Some(r.value.core)
              && r.value.deliveries == sys.deliveries
              && r.value.posters.Keys == sys.posters.Keys + {c}
              && r.value.posters[c] == (if s.authMode == "disabled" && s.appEnv != "production" then None else who)
  {}

  /** A GET of one order delivers exactly the stored order to a principal served for its user, or nothing. */
  lemma GetDelivers(s: Settings, env: Env, sys: System, who: Option<Principal>, pk: OrderPk)
    ensures var r := Act(s, env, sys, GetOrder(who, pk));
            && (r.Some? <==> Serves(s, who, "orders:read", pk.userId) && pk in sys.core.db.orders)
            && (r.Some? ==>
                  && r.value.core == sys.core && r.value.posters == sys.posters
                  && r.value.deliveries == sys.deliveries + [Row(Attached(s, who), sys.core.db.orders[pk])])
  {}

  /** A listing within the accepted range delivers exactly the listing of that length of the user's stored orders. */
  lemma ListDelivers(s: Settings, env: Env, sys: System, who: Option<Principal>, userId: int, limit: nat,
                     rows: seq<Order>)
    requires 1 <= limit <= s.maxListLimit
    ensures var r := Act(s, env, sys, ListUser(who, userId, Some(limit), rows));
            && (r.Some? <==>
                  Serves(s, who, "orders:read", userId) && IsListing(sys.core.db.orders.Values, userId, limit, rows))
            && (r.Some? ==>
                  && r.value.core == sys.core && r.value.posters == sys.posters
                  && r.value.deliveries == sys.deliveries + RowsFor(Attached(s, who), rows))
  {}

  /** An admin reads any stored order, and nobody else does that way. */
  lemma AdminDelivers(s: Settings, env: Env, sys: System, who: Option<Principal>, pk: OrderPk)
    ensures var r := Act(s, env, sys, AdminRead(who, pk));
            && (r.Some? <==>
                  && pk in sys.core.db.orders
                  && ((s.authMode == "disabled" && s.appEnv != "production")
                      || (who.Some? && "admin" in who.value.roles)))
            && (r.Some? ==>
                  && r.value.core == sys.core
                  && r.value.deliveries == sys.deliveries + [Row(Attached(s, who), sys.core.db.orders[pk])])
  {}

  /** Every step of a posted call is taken, and a response that is not lost goes to the one who posted it. */
  lemma CommitDelivers(s: Settings, env: Env, sys: System, c: nat, delivered: bool)
    requires c in sys.posters && c in sys.core.txs && sys.core.txs[c].stage.Committing?
    ensures var r := Act(s, env, sys, Transact(Commit(c, delivered)));
            && r.Some? && r.value.posters == sys.posters
            && Apply(env, sys.core, Commit(c, delivered)) == Some(r.value.core)
            && r.value.deliveries
               == sys.deliveries
                  + match sys.core.txs[c].stage.result
                    case Created(_, v) => if delivered then [Response(sys.posters[c], v)] else []
                    case Replayed(v) => if delivered then [Response(sys.posters[c], v)] else []
                    case _ => []
  {}

  /** So does every other step of a posted call, without a response. */
  lemma StepsServed(s: Settings, env: Env, sys: System, step: Step)
    requires step.client in sys.posters && !step.Begin? && !step.Commit? && Apply(env, sys.core, step).Some?
    ensures var r := Act(s, env, sys, Transact(step));
            r.Some? && Apply(env, sys.core, step) == Some(r.value.core) && r.value.deliveries == sys.deliveries
  {}
}
