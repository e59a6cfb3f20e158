/**
 The idempotency protocol of the licence service (license-service/src/database.ts,
 `runPublicRoute` in license-service/src/index.ts): a call is checked for freshness,
 looked up, and inserted with its key and its request id in one batch before its
 handler runs. Calls interleave between database operations. Times are milliseconds.
 */
module Idempotency {
  import opened Wrappers

  const MINUTE := 60_000
  const FRESH := 5 * MINUTE
  const DAY := 24 * 60 * MINUTE

  /** How long a call may take for the guarantees to hold: a day less twice the window. */
  const PATIENCE := DAY - 2 * FRESH

  type Scope = string
  type Key = string

  /** A signed request. Its hash is taken to be injective, so the body stands for it. */
  datatype Body = Body(requestId: string, requestedAt: int, content: string)

  datatype Response = Response(status: int, text: string)

  datatype Row = Row(body: Body, stored: Option<Response>, expires: int)

  type Keys = map<(Scope, Key), Row>
  type Nonces = map<(Scope, string), int>

  datatype Refusal = StaleRequest | InvalidKey | KeyReused | InProgress | Replayed

  datatype Answer = Own(own: Response) | Cached(cached: Response) | Refused(why: Refusal)

  // --- the operations on the tables -----------------------------------------------

  predicate Fresh(requestedAt: int, now: int) {
    -FRESH <= now - requestedAt <= FRESH
  }

  predicate KeyChar(c: char) {
    'A' <= c <= 'Z' || 'a' <= c <= 'z' || '0' <= c <= '9' || c == '.' || c == '_' || c == ':' || c == '-'
  }

  predicate ValidKey(key: Key) {
    8 <= |key| <= 128 && forall c | c in key :: KeyChar(c)
  }

  /** `resolveExisting`. */
  function Resolve(row: Row, body: Body): Answer {
    if row.body != body then Refused(KeyReused)
    else if row.stored.None? then Refused(InProgress)
    else Cached(row.stored.value)
  }

  /** The batch of two inserts succeeds when neither primary key is taken. */
  predicate Insertable(keys: Keys, nonces: Nonces, scope: Scope, key: Key, body: Body) {
    (scope, key) !in keys && (scope, body.requestId) !in nonces
  }

  function Inserted(keys: Keys, scope: Scope, key: Key, body: Body, now: int): Keys {
    keys[(scope, key) := Row(body, None, now + DAY)]
  }

  function WithNonce(nonces: Nonces, scope: Scope, body: Body, now: int): Nonces {
    nonces[(scope, body.requestId) := now + DAY]
  }

  /** `completeIdempotentRequest`: only a row that is still processing is updated. */
  function Completed(keys: Keys, scope: Scope, key: Key, response: Response): Keys {
    if (scope, key) in keys && keys[(scope, key)].stored.None?
    then keys[(scope, key) := keys[(scope, key)].(stored := Some(response))]
    else keys
  }

  /** `cleanupExpiredState`, for the two tables. */
  function KeptKeys(keys: Keys, timestamp: int): Keys {
    map k | k in keys && keys[k].expires >= timestamp :: keys[k]
  }

  function KeptNonces(nonces: Nonces, timestamp: int): Nonces {
    map n | n in nonces && nonces[n] >= timestamp :: nonces[n]
  }

  // --- calls ----------------------------------------------------------------------

  datatype Phase =
    | Arrived
    | Missed                          // the first lookup found nothing
    | Conflicted                      // the batch of inserts failed
    | Handling                        // the rows are in, the handler runs
    | Storing(response: Response, again: bool)   // the response is about to be stored; `again` after a failure
    | Done(answer: Answer)
    | Lost                            // the instance died

  /**
   A call. `insertedAt` is when its rows went in, `ran` counts its handler runs,
   `stored` is the response that it wrote into its row, and `failed` says that storing a
   response was reported to have failed.
   */
  datatype Call = Call(
    scope: Scope,
    key: Key,
    body: Body,
    arrived: int,
    phase: Phase,
    insertedAt: Option<int>,
    ran: nat,
    stored: Option<Response>,
    failed: bool)

  datatype Service = Service(now: int, keys: Keys, nonces: Nonces, calls: seq<Call>)

  const EMPTY := Service(0, map[], map[], [])

  datatype Step =
    | Tick(to: int)
    | Arrive(scope: Scope, key: Key, body: Body)
    | LookUp(i: nat)
    | Insert(i: nat)
    | InsertFails(i: nat, applied: bool)    // the batch is reported to have failed, whether or not it took effect
    | LookAgain(i: nat)
    | Handle(i: nat, response: Response)
    | Store(i: nat)
    | StoreFails(i: nat, applied: bool, error: Response)
    | Die(i: nat)
    | Cleanup(timestamp: int)

  predicate OfCall(s: Step) {
    s.LookUp? || s.Insert? || s.InsertFails? || s.LookAgain? || s.Handle? || s.Store? || s.StoreFails? || s.Die?
  }

  /** A step of call `i`; `life` bounds how long after its arrival a call still acts. */
  predicate CallEnabled(v: Service, s: Step, life: int, i: nat) {
    && i < |v.calls| && v.now <= v.calls[i].arrived + life
    && match s
       case LookUp(_) => v.calls[i].phase.Arrived?
       case Insert(_) => v.calls[i].phase.Missed?
       case InsertFails(_, _) => v.calls[i].phase.Missed?
       case LookAgain(_) => v.calls[i].phase.Conflicted?
       case Handle(_, _) => v.calls[i].phase.Handling?
       case Store(_) => v.calls[i].phase.Storing?
       case StoreFails(_, _, _) => v.calls[i].phase.Storing?
       case _ => !v.calls[i].phase.Done?
  }

  function WithCall(v: Service, i: nat, c: Call): Service
    requires i < |v.calls|
  {
    v.(calls := v.calls[i := c])
  }

  function CallNext(v: Service, s: Step, life: int): Service
    requires OfCall(s) && CallEnabled(v, s, life, s.i)
  {
    var i := s.i;
    var c := v.calls[i];
    var id := (c.scope, c.key);
    match s
    case LookUp(_) =>
      WithCall(v, i, c.(phase := if id in v.keys then Done(Resolve(v.keys[id], c.body)) else Missed))
    case Insert(_) =>
      if Insertable(v.keys, v.nonces, c.scope, c.key, c.body) then RowsGoIn(v, i, Handling)
      else WithCall(v, i, c.(phase := Conflicted))
    case InsertFails(_, applied) =>
      if applied && Insertable(v.keys, v.nonces, c.scope, c.key, c.body) then RowsGoIn(v, i, Conflicted)
      else WithCall(v, i, c.(phase := Conflicted))
    case LookAgain(_) =>
      WithCall(v, i, c.(phase := Done(if id in v.keys then Resolve(v.keys[id], c.body) else Refused(Replayed))))
    case Handle(_, response) => WithCall(v, i, c.(phase := Storing(response, false), ran := c.ran + 1))
    case Store(_) => Stored(v, i, Done(Own(c.phase.response)))
    case StoreFails(_, applied, error) =>
      var next := if c.phase.again then Lost else Storing(error, true);
      if applied then Stored(WithCall(v, i, c.(failed := true)), i, next)
      else WithCall(v, i, c.(phase := next, failed := true))
    case Die(_) => WithCall(v, i, c.(phase := Lost))
  }

  /** Both rows of call `i` go in. */
  function RowsGoIn(v: Service, i: nat, next: Phase): Service
    requires i < |v.calls|
  {
    var c := v.calls[i];
    WithCall(v, i, c.(phase := next, insertedAt := Some(v.now)))
      .(keys := Inserted(v.keys, c.scope, c.key, c.body, c.arrived),
        nonces := WithNonce(v.nonces, c.scope, c.body, c.arrived))
  }

  /** The response of call `i` reaches the table. */
  function Stored(v: Service, i: nat, next: Phase): Service
    requires i < |v.calls| && v.calls[i].phase.Storing?
  {
    var c := v.calls[i];
    var id := (c.scope, c.key);
    var writes := id in v.keys && v.keys[id].stored.None?;
    WithCall(v, i, c.(phase := next, stored := if writes then Some(c.phase.response) else c.stored))
      .(keys := Completed(v.keys, c.scope, c.key, c.phase.response))
  }

  /** A step that is not enabled does not happen. */
  function Next(v: Service, s: Step, life: int): Service {
    match s
    case Tick(to) => if to >= v.now then v.(now := to) else v
    case Arrive(scope, key, body) =>
      var refusal :=
        if !Fresh(body.requestedAt, v.now) then Done(Refused(StaleRequest))
        else if !ValidKey(key) then Done(Refused(InvalidKey))
        else Arrived;
      v.(calls := v.calls + [Call(scope, key, body, v.now, refusal, None, 0, None, false)])
    case Cleanup(timestamp) =>
      if timestamp <= v.now
      then v.(keys := KeptKeys(v.keys, timestamp), nonces := KeptNonces(v.nonces, timestamp))
      else v
    case _ => if CallEnabled(v, s, life, s.i) then CallNext(v, s, life) else v
  }

  function Run(v: Service, steps: seq<Step>, life: int): Service {
    if steps == [] then v else Next(Run(v, steps[..|steps| - 1], life), steps[|steps| - 1], life)
  }

  // --- the database object --------------------------------------------------------

  /** How the batch of inserts fares apart from taken keys. */
  datatype Batch = Works | FailsBefore | FailsAfter

  /** The two tables, and the calls of one request that nothing interrupts. */
  class LicenseDatabase {
    var keys: Keys
    var nonces: Nonces

    constructor ()
      ensures keys == map[] && nonces == map[]
    {
      keys, nonces := map[], map[];
    }

    /**
     `None` means that the rows are in and the handler is to run. Any failure of the batch
     is answered by what a second lookup finds, be it the call's own row.
     */
    method BeginIdempotentRequest(scope: Scope, key: Key, body: Body, now: int, batch: Batch)
      returns (answer: Option<Answer>)
      modifies this
      ensures answer.None?
        <==> ValidKey(key) && Insertable(old(keys), old(nonces), scope, key, body) && batch == Works
      ensures var applied := ValidKey(key) && Insertable(old(keys), old(nonces), scope, key, body) && batch != FailsBefore;
        && keys == (if applied then Inserted(old(keys), scope, key, body, now) else old(keys))
        && nonces == (if applied then WithNonce(old(nonces), scope, body, now) else old(nonces))
      ensures answer.Some? ==>
        answer.value == if !ValidKey(key) then Refused(InvalidKey)
                        else if (scope, key) !in keys then Refused(Replayed)
                        else if keys[(scope, key)].body != body then Refused(KeyReused)
                        else if keys[(scope, key)].stored.None? then Refused(InProgress)
                        else Cached(keys[(scope, key)].stored.value)
    {
      if !ValidKey(key) {
        return Some(Refused(InvalidKey));
      }
      if (scope, key) in keys {
        return Some(Resolve(keys[(scope, key)], body));
      }
      var failed := (scope, body.requestId) in nonces || batch != Works;
      if (scope, body.requestId) !in nonces && batch != FailsBefore {
        keys := keys[(scope, key) := Row(body, None, now + DAY)];
        nonces := nonces[(scope, body.requestId) := now + DAY];
      }
      if failed {
        return Some(if (scope, key) in keys then Resolve(keys[(scope, key)], body) else Refused(Replayed));
      }
      answer := None;
    }

    method CompleteIdempotentRequest(scope: Scope, key: Key, response: Response)
      modifies this`keys
      ensures keys == Completed(old(keys), scope, key, response)
    {
      if (scope, key) in keys && keys[(scope, key)].stored.None? {
        keys := keys[(scope, key) := keys[(scope, key)].(stored := Some(response))];
      }
    }

    method CleanupExpiredState(timestamp: int)
      modifies this
      ensures keys == KeptKeys(old(keys), timestamp) && nonces == KeptNonces(old(nonces), timestamp)
    {
      keys := map k | k in keys && keys[k].expires >= timestamp :: keys[k];
      nonces := map n | n in nonces && nonces[n] >= timestamp :: nonces[n];
    }

    /** A whole request, from the freshness check on; `response` is what its handler would return. */
    method RunPublicRoute(scope: Scope, key: Key, body: Body, now: int, response: Response, batch: Batch)
      returns (answer: Answer, ran: bool)
      modifies this
      ensures ran <==> Fresh(body.requestedAt, now) && ValidKey(key) && batch == Works
                       && Insertable(old(keys), old(nonces), scope, key, body)
      ensures !ran && batch != FailsAfter ==> keys == old(keys) && nonces == old(nonces)
      ensures !ran ==>
        && answer == if !Fresh(body.requestedAt, now) then Refused(StaleRequest)
                     else if !ValidKey(key) then Refused(InvalidKey)
                     else if (scope, key) !in keys then Refused(Replayed)
                     else if keys[(scope, key)].body != body then Refused(KeyReused)
                     else if keys[(scope, key)].stored.None? then Refused(InProgress)
                     else Cached(keys[(scope, key)].stored.value)
      ensures ran ==>
        && answer == Own(response) && nonces == WithNonce(old(nonces), scope, body, now)
        && keys == old(keys)[(scope, key) := Row(body, Some(response), now + DAY)]
    {
      if !Fresh(body.requestedAt, now) {
        return Refused(StaleRequest), false;
      }
      var started := BeginIdempotentRequest(scope, key, body, now, batch);
      if started.Some? {
        return started.value, false;
      }
      CompleteIdempotentRequest(scope, key, response);
      return Own(response), true;
    }
  }

  /** A repeated request that nothing interrupts is answered from the row, with the same response. */
  method Replay(db: LicenseDatabase, scope: Scope, key: Key, body: Body, now: int, later: int, first: Response, second: Response)
    returns (answer: Answer, ran: bool)
    requires Fresh(body.requestedAt, now) && Fresh(body.requestedAt, later) && ValidKey(key)
    requires Insertable(db.keys, db.nonces, scope, key, body)
    modifies db
    ensures answer == Cached(first) && !ran
  {
    answer, ran := db.RunPublicRoute(scope, key, body, now, first, Works);
    answer, ran := db.RunPublicRoute(scope, key, body, later, second, Works);
  }

  /** Another request under a key in use is refused, and does not run. */
  method ReuseKey(db: LicenseDatabase, scope: Scope, key: Key, body: Body, other: Body, now: int, later: int, first: Response, second: Response)
    returns (answer: Answer, ran: bool)
    requires Fresh(body.requestedAt, now) && Fresh(other.requestedAt, later) && ValidKey(key) && other != body
    requires Insertable(db.keys, db.nonces, scope, key, body)
    modifies db
    ensures answer == Refused(KeyReused) && !ran
  {
    answer, ran := db.RunPublicRoute(scope, key, body, now, first, Works);
    answer, ran := db.RunPublicRoute(scope, key, other, later, second, Works);
  }

  /** The same request under another key is a replay, and does not run. */
  method ReplayUnderOtherKey(db: LicenseDatabase, scope: Scope, key: Key, other: Key, body: Body, now: int, later: int, first: Response, second: Response)
    returns (answer: Answer, ran: bool)
    requires Fresh(body.requestedAt, now) && Fresh(body.requestedAt, later) && ValidKey(key) && ValidKey(other) && other != key
    requires Insertable(db.keys, db.nonces, scope, key, body) && (scope, other) !in db.keys
    modifies db
    ensures answer == Refused(Replayed) && !ran
  {
    answer, ran := db.RunPublicRoute(scope, key, body, now, first, Works);
    answer, ran := db.RunPublicRoute(scope, other, body, later, second, Works);
  }
}
