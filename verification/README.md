# Orders service: verified model

A Dafny model of the parts of the orders service whose correctness is not visible in one function: idempotent
order creation under concurrency, the canonical serializer that idempotency rests on, the rate limiters,
UUIDv7 packing, tenant scoping, the order listing and identifier quoting. `dafny verify dfyconfig.toml`
checks everything.

## What is modelled

**Idempotent creation** (`OrderStore`, `OrderProtocol`, `OrderInvariant`, `OrderTheorems`, `OrderProgress`,
`OrderLaws`, `OrderRepository`). `create_order` is a step relation: a state holds the committed
`idempotency_keys` and `orders` tables, every transaction's statement counter and uncommitted writes, and the history of decisions. A run is any sequence of
steps of any number of clients. The environment is PostgreSQL at READ COMMITTED: a read sees committed rows, an
INSERT of a primary key that a rival has inserted and not committed waits, then succeeds or raises, commit is
atomic, and a transaction may abort before any statement. A committed response may be lost; a retry is another
client with the same request and key. After a unique violation there is no savepoint, so PostgreSQL refuses the
recovery SELECT: that is the abort step. The recovery SELECT that is answered is modelled too, and safety holds
on both branches. `OrderRepository.Repository` is the same transaction as an imperative method, proved equal to
what one undisturbed client does in the step relation.

`OrderStore.AtomicCall` is the independent meaning: a map from (principal, key) to (hash, response) with one
operation - absent: create and store; same hash: return what is stored; other hash: conflict.

What the database and its driver hand back for a jsonb column is a function of the text written to it, left open:
`Env.column`. It covers PostgreSQL's own member order and spacing, a registered codec (`OrderStore.Decoding`) and
none (`OrderStore.Undecoded`). Everything about tables, keys, conflicts, refinement and progress holds for every
such function; what a response shows is stated for honest ones (`OrderStore.Honest`: whatever `dict` accepts is
the object that was stored), and both of these drivers are honest.

**Serializer and hash** (`Text`, `Sorting`, `Json`, `JsonParser`, `JsonLaws`, `Amount`, `Requests`). `to_jsonb` over a
recursive value whose objects keep insertion order, and a separately written reader of RFC 8259 text (white
space, all escapes of its section 7, surrogate pairs). Two values are the *same* when they are equal up to member
order at every depth. The digest is any function without collisions (`Requests.CollisionFree`).

**Rate limiters** (`MemoryLimiter`, `Settings`, `RateLimits`, `RateLimitTheorems`, `RateLimitTightness`,
`RateLimitDelays`, `RateLimitDuty`). The memory limiter is a class over a map of deques with the source's loop. The
Redis limiter, its fallback and the dispatch are a step relation over one Redis, one clock in integer ticks of any
resolution, and any number of processes: INCR and EXPIRE are separate steps, each may fail with or without having
been applied, and a request may vanish between them. The one assumption about time is that an INCR reaches Redis at most five seconds
after the clock read that chose its bucket. An admission by Redis can be dated by that read or by its INCR, and
the bounds differ; both are stated, both are reached by some run, and for both the windows that keep the plain
limit are determined. R below is `RATE_LIMIT_REQUESTS`, W the window in ticks.

**UUIDv7** (`Uuid7`). Python's shifts, or and and on unbounded integers, bit by bit, with clock and randomness
as inputs; section 5.7 of RFC 9562 is read back by shifting and masking.

**Tenant scoping** (`Tenancy`), **listing** (`Listing`) and **identifier quoting** (`Identifiers`). The services
run on top of the order protocol: posts, reads, listings and admin reads of arbitrary principals interleave with
the transaction steps, and everything delivered to anyone is recorded.

## What to know about the code

- README.md:370 promises a replay for the same key and body. It is given exactly when `dict(existing["response"])`
  accepts what the driver hands over (`OrderTheorems.RetryReplays`): with a jsonb codec always
  (`OrderTheorems.DecodingReplays`), but as written never, since app/common/db.py:31-36 registers none and `dict` of
  a nonempty text raises (`OrderTheorems.UndecodedRetryFails`, `OrderTheorems.UndecodedNeverReplays`). Without a codec
  the `payload` of a first response is a text as well (`OrderStore.PayloadShown`).
- README.md:370-371 speaks of the same and a different body. The code decides on the text of the amount: 1.5 and
  1.50 are equal numbers and the same stored row, but different requests. `Amount.TextDecidesAmount` gives the
  exact condition, `Amount.EqualNumbersMayDifferInText` the instance.
- The documentation does not say over which windows `RATE_LIMIT_REQUESTS` is meant. By clock read it holds exactly
  for windows that are one bucket or reach back to the start of the clock (`RateLimitTightness.KeepsLimitWhenAligned`),
  by INCR only for the latter (`RateLimitDelays.KeepsLimitCountedOnlyAtStart`); in all other windows bursts at
  bucket boundaries exceed it.

## Model

| member | source | states |
|---|---|---|
| `JsonParser.RoundTrip` | app/common/repository.py:32-34 | parsing the output of `to_jsonb` gives every valid value back up to member order, nesting and escapes included |
| `JsonParser.ReadWritten` | app/common/repository.py:34 | reading written text stops exactly at its end, whatever follows that could not continue a number |
| `JsonParser.TextDecidesSameness` | app/common/repository.py:32-34 | two values have one text exactly when they are the same up to member order |
| `Json.FormsDecideSameness` | app/common/repository.py:34 | sorted keys give one form exactly to the values that are the same up to member order |
| `Json.SortKeysValid` | app/common/repository.py:34 | sorting keys keeps a dict a dict and the value it denotes |
| `JsonLaws.SortedText` | app/common/repository.py:34 | read back, the text has the names of every object in code-point order, at every depth |
| `JsonLaws.ShortestText` | app/common/repository.py:34 | no text that is read as the same value is shorter: no white space, no escape that could be left out |
| `JsonLaws.HashedText` | app/common/repository.py:37-44 | what is hashed is the object of amount text, payload, status and user id, in this order and without spaces |
| `Amount.FixedRoundTrip` | app/common/repository.py:23-24 | a reader of fixed-point text recovers sign, digits and scale, hence the number, for every coefficient and exponent |
| `Amount.NoLeadingZero` | app/common/repository.py:23-24 | the fixed-point text has no superfluous digits in front |
| `Amount.TextDecidesAmount` | app/common/repository.py:40 | amount texts are equal exactly when sign, unscaled digits and scale are, and then the amounts are equal numbers |
| `Amount.EqualNumbersMayDifferInText` | app/common/repository.py:40 | the converse fails: 1.5 and 1.50 |
| `Amount.StoredExactly` | app/writer_service/main.py:26 | an amount of at most two places is stored exactly in the numeric(12, 2) column |
| `Amount.StoredNearest` | alembic/versions/0001_init_schema.py:39 | an amount of more places is kept as the nearest hundredth, halves away from zero |
| `Amount.CentsShown` | app/common/repository.py:23-24 | the text of a stored amount has two places and is read back as the amount |
| `Requests.HashDecidesRequest` | app/common/repository.py:37-44 | without digest collisions two requests hash equally exactly when user, amount text, status and payload agree up to member order; a missing payload is an empty one |
| `OrderStore.RowPayload` | app/common/repository.py:63 | the payload's JSON text always parses, and the stored payload is the same value as the one sent |
| `OrderStore.ValidatedRow` | app/writer_service/main.py:24-42 | a request that passes the validators gets a row exactly when its user id fits a bigint and its amount the CHECK, with every column as asked for and both times those of its transaction |
| `OrderStore.StoredResponse` | app/common/repository.py:130-140 | what an honest driver makes a dict of from the stored response text is the returned row up to member order, and a decoding driver always makes one |
| `OrderStore.ResponseTells` | app/common/repository.py:117-129 | whatever is the same object as the returned row, first response or replay, shows every column of the order under its own name |
| `OrderStore.PayloadShown` | app/common/repository.py:117-129 | the payload in a response is the stored one with a jsonb codec and a text without |
| `OrderStore.ParsingDecodes` | app/common/repository.py:84 | a driver that parses the stored text is a decoding one, by the round trip of the serializer |
| `OrderStore.UndecodedIsHonest` | app/common/db.py:31-36 | a driver that hands over text never passes off another object as the stored one, so tenancy and agreement hold of the code as written |
| `OrderInvariant.StepKeeps` | app/common/repository.py:64-141 | every statement, wait, commit and abort keeps the invariant tying tables, pending writes and history together |
| `OrderInvariant.RunKeeps` | app/common/repository.py:64-141 | the invariant holds in every state of every run |
| `OrderInvariant.CommittedKeyAnswers` | app/common/repository.py:129-140 | a committed key row is the hash and encoded row of an order in the table, created under that key |
| `OrderLaws.OneOrderPerKey` | app/common/repository.py:66-75 | two calls of one principal with one nonempty key never both create an order |
| `OrderLaws.AnswersEarlierCreation` | app/common/repository.py:66-84 | every replay and every conflict answers from an earlier creation by the same principal under the same nonempty key |
| `OrderLaws.OnlyRefusedFail` | app/common/repository.py:64-141 | apart from aborts, a transaction fails only for a key of a wrong length, a row the table refuses, an id taken, or a stored response that is no dict, and then nothing changes |
| `OrderLaws.OrdersInPlace` | alembic/versions/0001_init_schema.py:36-45 | in every reachable state every order stands under its own user and id, meets the constraints of the table and fulfils a committed call |
| `OrderLaws.KeysInPlace` | alembic/versions/0001_init_schema.py:50-59 | in every reachable state every key row stands under the principal and key of the call that made it, of allowed length |
| `OrderLaws.CreatedWhenBegun` | alembic/versions/0001_init_schema.py:42-43 | a created order bears the time at which its transaction began, in both columns |
| `OrderLaws.AmountShown` | app/common/repository.py:117-140 | with an honest driver whatever answers a request of at most two places shows the amount asked for |
| `OrderLaws.AnyMayAbort` | app/common/repository.py:64-65 | an open transaction may abort at any statement, which undoes everything it wrote |
| `OrderLaws.AnyResponseMayBeLost` | app/common/repository.py:141 | a commit records its decision whether or not the response arrives |
| `OrderLaws.AnyoneMayBegin` | app/common/repository.py:64-65 | a new client may begin any call at any time, disturbing nothing |
| `OrderTheorems.ExactlyOnce` | app/common/repository.py:66-140 | in every run the orders created under a (principal, key) number one if the key row is committed and none otherwise, and no two decisions create one order |
| `OrderTheorems.KeyRowsAnswered` | app/common/repository.py:76-84 | every committed key row carries the response of an order created under it with the hash of that order's request, so the fall-through to the order INSERT is unreachable |
| `OrderTheorems.StepRefines` | app/common/repository.py:66-141 | a step changes nothing visible or makes one decision, of its own client, exactly as the atomic map does |
| `OrderTheorems.RunRefines` | app/common/repository.py:66-141 | the decisions of any run are a sequential run of the atomic map that ends in the committed key table; each is that of one finished call, and every call that ended with an answer or a conflict has its own |
| `OrderTheorems.RealTimeOrder` | app/common/repository.py:64-141 | that sequential order respects real time: decisions made by some point stay in front, and every later one is of a call that had not ended by then |
| `OrderStore.AtomicByKey` | app/common/repository.py:66-141 | the atomic map by principal and key: no entry - create and store; equal hash - replay the entry; other hash - conflict; without a key - create only |
| `OrderTheorems.AnswersOwnRequest` | app/common/repository.py:76-84 | whatever a call returns, first or replayed, comes from a committed order with the call's own user, amount, status and payload: its row, or what the driver makes of the row's stored text, which with an honest driver is that row |
| `OrderTheorems.Agreement` | app/common/repository.py:76-84 | two successful calls under one key made the same request and were answered from one committed order; with an honest driver both responses are its row |
| `OrderTheorems.ConflictMeansDifferent` | app/common/repository.py:77-81 | under a key with a conflict every other decision is a conflict or a success, and no success made the request that conflicted |
| `OrderTheorems.RetryReplays` | app/common/repository.py:76-115 | once an order exists under a key, delivered or not, both SELECTs answer another request with a conflict and the same request with a replay if and only if the driver makes a dict of the stored text; otherwise the call fails and nothing changes |
| `OrderTheorems.DecodingReplays` | app/common/repository.py:76-115 | with a decoding driver every retry is replayed, with the first response up to member order |
| `OrderTheorems.UndecodedRetryFails` | app/common/db.py:31-36 | with a driver that hands over text every retry fails, at both SELECTs |
| `OrderTheorems.UndecodedNeverReplays` | app/common/db.py:31-36 | with such a driver no run ever replays a response |
| `OrderTheorems.LoserFindsWinner` | app/common/repository.py:96-115 | a transaction that hit the unique violation always has the winner's committed row to find, and the SELECT of it ends in the winner's response, a conflict by the hash, or the failure of `dict`, never in the bare raise |
| `OrderTheorems.OrdersConserved` | app/common/repository.py:64-141 | committed orders are the committed unkeyed creations plus the committed keys |
| `OrderTheorems.OnlyCreationsWrite` | app/common/repository.py:64-141 | only the commit of a created order changes a table, adding exactly that order and, when keyed, its answered key; replays, conflicts, aborts and id collisions change none |
| `OrderProgress.WaitingDescends` | app/common/repository.py:87-128 | in every reachable state whoever waits for an uncommitted key or order waits for one nearer to its end, so waiting never runs in a circle |
| `OrderProgress.NoDeadlock` | app/common/repository.py:64-141 | from every reachable state an open transaction is led to its end by at most twelve steps, none a begin or an abort, each its own or of one holding an uncommitted row |
| `OrderRepository.Repository.CreateOrder` | app/common/repository.py:51-141 | the whole transaction in place: tables and outcome are those of the specification `Alone` |
| `OrderRepository.Repository.WriteOrder` | app/common/repository.py:117-140 | when the order INSERT is refused, and the exact tables after INSERT and UPDATE otherwise |
| `OrderRepository.AloneIsAtomic` | app/common/repository.py:51-141 | an undisturbed call is the atomic operation or fails without a trace, with the exact condition of failure |
| `OrderRepository.AloneByKey` | app/common/repository.py:66-140 | what an undisturbed call with a nonempty key leaves, by principal and key |
| `OrderRepository.AloneWithoutKey` | app/common/repository.py:66 | without a key, or with an empty one, every call that is not refused makes an order and no key |
| `OrderRepository.AloneIsARun` | app/common/repository.py:64-141 | the method's tables and outcome are reached by steps of one client alone from any state without uncommitted writes |
| `Tenancy.ServeKeeps` | app/writer_service/main.py:51-68 | over every run of the services with an honest driver all posts and deliveries stay in the scope of their principals |
| `Tenancy.ReceivesOwnTenantOnly` | app/common/security.py:221-232 | a principal neither admin nor internal only ever receives orders and responses of its own tenant, replays included, and nothing without a tenant |
| `Tenancy.CreatesOwnTenantOnly` | app/writer_service/main.py:57-68 | nor does it ever create an order of another user, or under another subject's keys |
| `Tenancy.RolesEnforced` | app/common/security.py:196-218 | unless authentication is disabled, rows only ever reach principals that may read and responses of a POST principals that may write |
| `Tenancy.AccessExactly` | app/common/security.py:221-232 | tenant access is granted exactly without enforcement or to a principal that is admin, internal or of that tenant |
| `Tenancy.RoleExactly` | app/common/security.py:196-214 | a role is granted exactly to its holders and to admins, or with authentication disabled outside production |
| `Tenancy.PostAccepted` | app/writer_service/main.py:51-66 | a POST is accepted exactly from a principal served for the user of the order, under its own name, and begins the call |
| `Tenancy.GetDelivers` | app/reader_service/main.py:30-36 | a GET delivers exactly the stored order of that user and id to a principal served for it, otherwise nothing |
| `Tenancy.ListDelivers` | app/reader_service/main.py:20-27 | a listing delivers exactly the listing of the accepted length to a principal served for the user |
| `Tenancy.AdminDelivers` | app/writer_service/main.py:82-87 | any stored order is delivered to admins, and to nobody else that way |
| `Tenancy.CommitDelivers` | app/writer_service/main.py:60-68 | a response that is not lost goes to the one who posted the call |
| `Tenancy.StepsServed` | app/writer_service/main.py:60-68 | every other statement of a posted call is executed as the protocol says, delivering nothing |
| `Tenancy.SentNamesUser` | app/common/repository.py:37-44 | what a commit sends names the user of the committing call, also when it is a replay |
| `Listing.DeterminedBySet` | app/common/repository.py:169-182 | the listing is the one newest-first listing of the stored set, of length min(limit, count), whatever the insertion order |
| `Listing.SmallerLimitIsPrefix` | app/common/repository.py:170 | a smaller effective limit gives a prefix of a larger one |
| `Listing.NewestFirst` | app/common/repository.py:177 | newest first, larger id first among equals, and only older rows left out |
| `Listing.ListedAsAsked` | app/reader_service/main.py:24 | a limit within the accepted range is the length of the listing, if there are so many rows |
| `Listing.ListedByDefault` | app/common/repository.py:170 | no limit and zero mean the default, more than the maximum means the maximum |
| `MemoryLimiter.RateWindows.Enforce` | app/common/security.py:147-156 | the loop over the deque computes `Decide` and changes the windows as it says |
| `MemoryLimiter.Exact` | app/common/security.py:147-156 | after each call the key's deque is its sorted log of admissions in (now - W, now], other keys are untouched, and rejection means that log was full |
| `MemoryLimiter.Sound` | app/common/security.py:147-156 | every (t - W, t] holds at most R admissions per key |
| `MemoryLimiter.StaysAhead` | app/common/security.py:147-156 | no schedule with at most R per window has admitted more calls of a key |
| `MemoryLimiter.GreedyOptimal` | app/common/security.py:147-156 | the limiter is such a schedule, and in every prefix and for every key the best one |
| `RateLimits.StepKeeps` | app/common/security.py:159-189 | every step keeps counters, tickets and local windows consistent, Redis errors included |
| `RateLimitTheorems.RedisKeyInjective` | app/common/security.py:162 | different rate-limit keys or buckets never share a Redis key |
| `RateLimitTheorems.RateLimitKeySeparates` | app/common/security.py:130-135 | principals share a limit neither with each other nor with an address |
| `RateLimitTheorems.AddressesSeparate` | app/common/security.py:134-135 | without principals different addresses have different limits |
| `RateLimitTheorems.NeverResets` | app/common/security.py:160-166 | with an expiry of window + 5 a counter never resets while a request of its bucket can still arrive |
| `RateLimitTheorems.FirstPass` | app/common/security.py:164-178 | exactly the first R INCRs of a bucket pass |
| `RateLimitTheorems.RedisBound` | app/common/security.py:159-178 | of the jobs of a key whose clock read is in (t - W, t] at most 2R pass, over all processes, and at most R when the window is one bucket or reaches back to the start of the clock |
| `RateLimitTheorems.DelayedBound` | app/common/security.py:161-166 | of the jobs of a key whose INCR is in (t - W, t] at most (2 + ceil((5 s - 1 tick) / W)) R pass: 3R for windows of five seconds and more |
| `RateLimitTheorems.CombinedBound` | app/common/security.py:167-175 | with any mix of Redis errors the memory of a process adds at most R to either bound in any (t - W, t]: 3R with Redis admissions dated by clock read |
| `RateLimitTheorems.ProductionUsesRedisOnly` | app/common/settings.py:130-133 | with validated production settings no memory window is ever touched |
| `RateLimitDuty.EveryRequestHandled` | app/common/security.py:180-189 | in every run a request escapes the limiters exactly when limiting is off or left to the gateway or its path is public, meets memory with any backend but Redis, and never memory with Redis in production |
| `RateLimitDuty.ErrorsRefuseOrFallBack` | app/common/security.py:167-175 | after a Redis error a request is refused in production and decided in memory at once otherwise |
| `RateLimitDuty.RedisMayFail` | app/common/security.py:163-167 | any INCR and EXPIRE may fail, before or after it is applied |
| `RateLimitDuty.RedisMayAnswer` | app/common/security.py:163-178 | an answered INCR leads to an EXPIRE exactly for the count one, and to the decision by the count |
| `RateLimitDuty.AnythingMayHappen` | app/common/security.py:159-178 | time may pass, requests may arrive and requests under way may vanish at any moment |
| `RateLimitDuty.ExpireSets` | app/common/security.py:166 | an EXPIRE lets the counter live for the window and five seconds, and no longer |
| `RateLimitDuty.OnlyExpireExpires` | app/common/security.py:164-166 | nothing but an EXPIRE changes when a live counter expires |
| `RateLimitDuty.BucketOfClock` | app/common/security.py:160-162 | a request increments the counter of the window in which it read the clock |
| `Settings.AcceptedExactly` | app/common/settings.py:100-137 | settings are accepted exactly when they are sound, and hardened in production |
| `Settings.SmallestRanges` | app/common/settings.py:24-35 | limits, windows and list lengths of one are read, and nothing smaller |
| `RateLimitTightness.KeepsLimitWhenAligned` | app/common/security.py:161-178 | by clock read, every run passes at most R jobs of a key in (t - W, t] if and only if Redis is not used, t is the last tick of a bucket, or t < W |
| `RateLimitTightness.TwiceIsReached` | app/common/security.py:161-178 | in every other window some run passes exactly 2R |
| `RateLimitTightness.ThriceIsReached` | app/common/security.py:167-175 | outside production some run admits exactly 3R through one process in every such window |
| `RateLimitTightness.TwiceWithMemory` | app/common/security.py:167-175 | outside production some run admits 2R through one process in every window from the start of the clock on, exactly 2R in aligned ones |
| `RateLimitTightness.KeepsCombinedWhen` | app/common/security.py:159-189 | Redis and the memory of a process together keep R in (t - W, t] over every run if and only if Redis is not used, t is before the clock starts, or it is production and t is the last tick of a bucket or below W |
| `RateLimitDelays.DelayedIsReached` | app/common/security.py:161-178 | the bound by INCR is reached within some window, and outside production the bound with memory too |
| `RateLimitDelays.KeepsLimitCountedOnlyAtStart` | app/common/security.py:161-178 | by INCR, every run passes at most R jobs of a key in (t - W, t] if and only if Redis is not used or t < W |
| `Uuid7.OrDisjoint` | app/common/uuidv7.py:20 | or-ing a field into vacant low bits adds it |
| `Uuid7.Layout` | app/common/uuidv7.py:17-21 | the value is below 2^128 and shifting and masking return the 48-bit clock, both random fields, version 7 and variant 10 |
| `Uuid7.PackingInjective` | app/common/uuidv7.py:17-21 | two identifiers are equal exactly when their fields are |
| `Uuid7.TimeOrdered` | app/common/uuidv7.py:17-21 | an earlier millisecond gives a smaller number and a smaller 16-byte string, whatever the random fields |
| `Uuid7.BytesOrder` | app/common/uuidv7.py:21 | numeric order is byte order of the big-endian form |
| `Uuid7.UuidTextRead` | app/common/repository.py:25-26 | the text of an identifier, in lower case, is read back as the identifier |
| `Uuid7.UuidTextInjective` | app/common/repository.py:25-26 | different identifiers have different texts |
| `Identifiers.QuotedIsRead` | alembic/versions/0001_init_schema.py:19-22 | quoting is refused exactly for empty names and NULs; otherwise the SQL lexer stops at the closing quote and returns the name |
| `Identifiers.QuotingInjective` | alembic/versions/0001_init_schema.py:19-22 | different names have different quoted forms |

## Left out

- PostgreSQL, Citus, PgBouncer and Redis internals: only the axioms above; row locks appear only as waiting for uncommitted inserts and updates of one key.
- SHA-256, UTF-8 encoding, JWT verification and the random source: a collision-free function of the text, an already verified principal, arbitrary inputs.
- Floats, NaN, non-string dict keys, lone surrogates and integers beyond Python's digit limit in payloads, and NaN or infinite amounts: not in the datatypes.
- Text with NUL characters, which PostgreSQL refuses: covered by the abort step of the protocol, not by `Alone`.
- `isoformat` of timestamps: an arbitrary function of the time.
- Clock skew between hosts and real-valued time: one clock in integer ticks.
- `dict()` of an empty text, an empty list or a list of pairs, which would build an object: a stored response comes back as an object or a nonempty text.
- Expiry of idempotency keys: a setting exists, no code deletes keys, so keys are permanent.
- `list_pending_orders_admin` and `get_order_by_id_admin` as queries: the tenancy model lets the admin endpoints deliver any stored order.
- Request counters and latency in `SecurityHeadersMiddleware.dispatch`, metrics, logging, connection retry, readiness, the WAL monitor and the producer: plumbing or easy members.
- FastAPI and pydantic machinery, HTTP status codes and response formatting: handlers act on parsed requests; replay equality is about the JSON value.
- Deployment: shell scripts, Compose files, TLS, nginx, backups, grants and the rest of the migration.
