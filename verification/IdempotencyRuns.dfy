/**
 What every interleaving of calls, clock and cleanup keeps: a signed request runs its
 handler at most once, replays get the one stored response, and a key that is still
 retained never runs a different request.
 */
module IdempotencyRuns {
  import opened Idempotency
  import opened Wrappers

  /** The two calls carry the same signed request to the same route. */
  predicate SameRequest(a: Call, b: Call) {
    a.scope == b.scope && a.body == b.body
  }

  predicate SameKey(a: Call, b: Call) {
    a.scope == b.scope && a.key == b.key
  }

  predicate WentIn(c: Call) {
    c.insertedAt.Some?
  }

  // --- the invariant --------------------------------------------------------------

  /** What holds of one call by itself. */
  predicate GoodCall(v: Service, c: Call, life: int) {
    && c.arrived <= v.now
    && (!c.phase.Done? ==> Fresh(c.body.requestedAt, c.arrived))
    && (WentIn(c) ==> Fresh(c.body.requestedAt, c.arrived) && c.arrived <= c.insertedAt.value <= c.arrived + life
                      && c.insertedAt.value <= v.now)
    && (c.phase.Handling? || c.phase.Storing? ==> WentIn(c))
    && (c.phase.Arrived? || c.phase.Missed? ==> !WentIn(c))
    && (c.phase.Conflicted? ==> c.ran == 0 && !c.failed && c.stored.None?)
    && c.ran <= (if WentIn(c) then 1 else 0)
    && (c.phase.Handling? ==> c.ran == 0)
    && (c.phase.Storing? ==> c.ran == 1 && (c.phase.again ==> c.failed) && (!c.failed ==> c.stored.None?))
    && (c.phase.Handling? ==> !c.failed && c.stored.None?)
    && (!WentIn(c) ==> !c.failed)
    && (c.stored.Some? ==> WentIn(c) && c.ran == 1)
    && (c.phase.Done? && c.phase.answer.Own? ==>
          WentIn(c) && c.ran == 1 && c.stored.Some? && (!c.failed ==> c.stored == Some(c.phase.answer.own)))
  }

  /** The rows of a call that went in are there until a day after its arrival. */
  predicate Retained(v: Service, c: Call) {
    WentIn(c) ==>
      || v.now > c.arrived + DAY
      || ((c.scope, c.key) in v.keys && v.keys[(c.scope, c.key)] == Row(c.body, c.stored, c.arrived + DAY)
          && (c.scope, c.body.requestId) in v.nonces && v.nonces[(c.scope, c.body.requestId)] == c.arrived + DAY)
  }

  /** A row was put in by some call, and holds what that call stored. */
  ghost predicate Owned(v: Service, id: (Scope, Key)) {
    id in v.keys ==>
      exists i :: 0 <= i < |v.calls| && OwnerOf(v, id, v.calls[i])
  }

  predicate OwnerOf(v: Service, id: (Scope, Key), c: Call)
    requires id in v.keys
  {
    WentIn(c) && (c.scope, c.key) == id && v.keys[id] == Row(c.body, c.stored, c.arrived + DAY)
  }

  /** The call was answered with what a call of the same request, under the same key, had stored. */
  ghost predicate AnsweredBy(calls: seq<Call>, c: Call) {
    c.phase.Done? && c.phase.answer.Cached? ==>
      exists i :: 0 <= i < |calls| && Stores(calls[i], c)
  }

  predicate Stores(a: Call, c: Call)
    requires c.phase.Done? && c.phase.answer.Cached?
  {
    WentIn(a) && SameRequest(a, c) && SameKey(a, c) && a.stored == Some(c.phase.answer.cached)
  }

  /** Of two calls that went in, the request ids differ unless more than a day lies between. */
  predicate Apart(a: Call, b: Call) {
    WentIn(a) && WentIn(b) ==>
      && (a.scope == b.scope && a.body.requestId == b.body.requestId ==> DayBetween(a, b))
      && (SameKey(a, b) ==> DayBetween(a, b))
  }

  /** One of the two went in only after the rows of the other had expired. */
  predicate DayBetween(a: Call, b: Call)
    requires WentIn(a) && WentIn(b)
  {
    b.insertedAt.value > a.arrived + DAY || a.insertedAt.value > b.arrived + DAY
  }

  ghost predicate Inv(v: Service, life: int) {
    && (forall i | 0 <= i < |v.calls| :: GoodCall(v, v.calls[i], life))
    && (forall i | 0 <= i < |v.calls| :: Retained(v, v.calls[i]))
    && (forall id :: Owned(v, id))
    && (forall i | 0 <= i < |v.calls| :: AnsweredBy(v.calls, v.calls[i]))
    && (forall i, j | 0 <= i < j < |v.calls| :: Apart(v.calls[i], v.calls[j]))
  }

  lemma EmptyIsGood(life: int)
    ensures Inv(EMPTY, life)
  {
  }

  // --- steps of the clock and the tables ------------------------------------------

  lemma TickKeepsInv(v: Service, to: int, life: int)
    requires Inv(v, life)
    ensures Inv(Next(v, Tick(to), life), life)
  {
    var w := Next(v, Tick(to), life);
    forall id ensures Owned(w, id) {
      assert Owned(v, id);
    }
    hide Apart, AnsweredBy, Owned;
  }

  lemma ArriveKeepsInv(v: Service, scope: Scope, key: Key, body: Body, life: int)
    requires Inv(v, life)
    ensures Inv(Next(v, Arrive(scope, key, body), life), life)
  {
    var w := Next(v, Arrive(scope, key, body), life);
    assert forall i | 0 <= i < |v.calls| :: w.calls[i] == v.calls[i];
    forall id ensures Owned(w, id) {
      assert Owned(v, id);
      if id in v.keys {
        var i :| 0 <= i < |v.calls| && OwnerOf(v, id, v.calls[i]);
        assert OwnerOf(w, id, w.calls[i]);
      }
    }
    hide Owned, Stores;
    forall i | 0 <= i < |w.calls| ensures AnsweredBy(w.calls, w.calls[i]) {
      if i < |v.calls| {
        assert AnsweredBy(v.calls, v.calls[i]);
        if v.calls[i].phase.Done? && v.calls[i].phase.answer.Cached? {
          var k :| 0 <= k < |v.calls| && Stores(v.calls[k], v.calls[i]);
          assert Stores(w.calls[k], w.calls[i]);
        }
      }
    }
  }

  lemma CleanupKeepsInv(v: Service, timestamp: int, life: int)
    requires Inv(v, life) && timestamp <= v.now
    ensures Inv(Next(v, Cleanup(timestamp), life), life)
  {
    var w := Next(v, Cleanup(timestamp), life);
    forall id ensures Owned(w, id) {
      assert Owned(v, id);
      if id in w.keys {
        var i :| 0 <= i < |v.calls| && OwnerOf(v, id, v.calls[i]);
        assert OwnerOf(w, id, w.calls[i]);
      }
    }
    hide Apart, AnsweredBy, Owned;
  }

  // --- steps of a call ------------------------------------------------------------

  /** Call `i` moves on without touching a table or what was stored. */
  lemma PhaseKeepsInv(v: Service, i: nat, c: Call, life: int)
    requires Inv(v, life) && i < |v.calls| && GoodCall(v, c, life)
    requires c.phase.Done? && c.phase.answer.Cached? ==> exists k :: 0 <= k < |v.calls| && Stores(v.calls[k], c)
    requires var before := v.calls[i];
             c == before.(phase := c.phase, ran := c.ran, failed := c.failed)
    ensures Inv(WithCall(v, i, c), life)
  {
    var w := WithCall(v, i, c);
    forall id ensures Owned(w, id) {
      assert Owned(v, id);
      if id in v.keys {
        var k :| 0 <= k < |v.calls| && OwnerOf(v, id, v.calls[k]);
        assert OwnerOf(w, id, w.calls[k]);
      }
    }
    hide Owned, OwnerOf;
    forall j | 0 <= j < |w.calls| ensures AnsweredBy(w.calls, w.calls[j]) {
      if w.calls[j].phase.Done? && w.calls[j].phase.answer.Cached? {
        assert j != i ==> AnsweredBy(v.calls, v.calls[j]);
        var k :| 0 <= k < |v.calls| && Stores(v.calls[k], w.calls[j]);
        assert Stores(w.calls[k], w.calls[j]);
      }
    }
    hide Stores, AnsweredBy;
    forall j, k | 0 <= j < k < |w.calls| ensures Apart(w.calls[j], w.calls[k]) {
      assert Apart(v.calls[j], v.calls[k]);
    }
  }

  lemma ResolveIsStored(v: Service, i: nat, life: int)
    requires Inv(v, life) && i < |v.calls|
    requires (v.calls[i].scope, v.calls[i].key) in v.keys
    ensures var c := v.calls[i];
            var answer := Resolve(v.keys[(c.scope, c.key)], c.body);
            var d := c.(phase := Done(answer));
            && !answer.Own?
            && (answer.Cached? ==> exists k :: 0 <= k < |v.calls| && Stores(v.calls[k], d))
  {
    var c := v.calls[i];
    var id := (c.scope, c.key);
    assert Owned(v, id);
    var k :| 0 <= k < |v.calls| && OwnerOf(v, id, v.calls[k]);
    var answer := Resolve(v.keys[id], c.body);
    if answer.Cached? {
      assert Stores(v.calls[k], c.(phase := Done(answer)));
    }
  }

  lemma InsertedTables(v: Service, i: nat, next: Phase, life: int)
    requires Inv(v, life) && CallEnabled(v, Insert(i), life, i) && life <= PATIENCE
    requires next == Handling || next == Conflicted
    requires Insertable(v.keys, v.nonces, v.calls[i].scope, v.calls[i].key, v.calls[i].body)
    ensures var w := RowsGoIn(v, i, next);
            && (forall id :: Owned(w, id))
            && (forall j | 0 <= j < |w.calls| :: Retained(w, w.calls[j]))
  {
    var w := RowsGoIn(v, i, next);
    var c := v.calls[i];
    forall id ensures Owned(w, id) {
      assert Owned(v, id);
      if id == (c.scope, c.key) {
        assert OwnerOf(w, id, w.calls[i]);
      } else if id in v.keys {
        var k :| 0 <= k < |v.calls| && OwnerOf(v, id, v.calls[k]);
        assert k != i;
        assert OwnerOf(w, id, w.calls[k]);
      }
    }
    hide Owned, OwnerOf, Apart, AnsweredBy;
    forall j | 0 <= j < |w.calls| ensures Retained(w, w.calls[j]) {
      assert Retained(v, v.calls[j]);
    }
  }

  lemma InsertKeepsInv(v: Service, i: nat, next: Phase, life: int)
    requires Inv(v, life) && CallEnabled(v, Insert(i), life, i) && life <= PATIENCE
    requires next == Handling || next == Conflicted
    requires Insertable(v.keys, v.nonces, v.calls[i].scope, v.calls[i].key, v.calls[i].body)
    ensures Inv(RowsGoIn(v, i, next), life)
  {
    var w := RowsGoIn(v, i, next);
    InsertedTables(v, i, next, life);
    assert forall j | 0 <= j < |v.calls| && j != i :: w.calls[j] == v.calls[j];
    hide Owned, OwnerOf;
    forall j | 0 <= j < |w.calls| ensures AnsweredBy(w.calls, w.calls[j]) {
      if w.calls[j].phase.Done? && w.calls[j].phase.answer.Cached? {
        assert AnsweredBy(v.calls, v.calls[j]);
        var k :| 0 <= k < |v.calls| && Stores(v.calls[k], w.calls[j]);
        assert k != i;
        assert Stores(w.calls[k], w.calls[j]);
      }
    }
    hide Stores, AnsweredBy;
    forall j, k | 0 <= j < k < |w.calls| ensures Apart(w.calls[j], w.calls[k]) {
      assert Apart(v.calls[j], v.calls[k]);
      assert Retained(v, v.calls[j]) && Retained(v, v.calls[k]);
    }
  }

  lemma StoredTables(v: Service, i: nat, next: Phase, life: int)
    requires Inv(v, life) && i < |v.calls| && v.calls[i].phase.Storing? && life <= PATIENCE
    requires v.now <= v.calls[i].arrived + life
    ensures var w := Stored(v, i, next);
            && (forall id :: Owned(w, id))
            && (forall j | 0 <= j < |w.calls| :: Retained(w, w.calls[j]))
            && w.calls[i].stored == if v.calls[i].stored.Some? then v.calls[i].stored else Some(v.calls[i].phase.response)
  {
    var w := Stored(v, i, next);
    var c := v.calls[i];
    var own := (c.scope, c.key);
    assert GoodCall(v, c, life) && Retained(v, c);
    assert own in v.keys && v.keys[own] == Row(c.body, c.stored, c.arrived + DAY);
    forall id ensures Owned(w, id) {
      assert Owned(v, id);
      if id == own {
        assert OwnerOf(w, id, w.calls[i]);
      } else if id in v.keys {
        var k :| 0 <= k < |v.calls| && OwnerOf(v, id, v.calls[k]);
        assert k != i;
        assert OwnerOf(w, id, w.calls[k]);
      }
    }
    hide Owned, OwnerOf, AnsweredBy;
    forall j | 0 <= j < |w.calls| ensures Retained(w, w.calls[j]) {
      assert Retained(v, v.calls[j]) && GoodCall(v, v.calls[j], life);
      if j < i {
        assert Apart(v.calls[j], v.calls[i]);
      } else if j > i {
        assert Apart(v.calls[i], v.calls[j]);
      }
    }
  }

  lemma StoreKeepsInv(v: Service, i: nat, next: Phase, life: int)
    requires Inv(v, life) && i < |v.calls| && v.calls[i].phase.Storing? && life <= PATIENCE
    requires v.now <= v.calls[i].arrived + life
    requires next == Lost || (next.Storing? && next.again && v.calls[i].failed)
             || next == Done(Own(v.calls[i].phase.response))
    ensures Inv(Stored(v, i, next), life)
  {
    var w := Stored(v, i, next);
    StoredTables(v, i, next, life);
    assert GoodCall(v, v.calls[i], life);
    hide Owned, OwnerOf;
    forall j | 0 <= j < |w.calls| ensures AnsweredBy(w.calls, w.calls[j]) {
      if w.calls[j].phase.Done? && w.calls[j].phase.answer.Cached? {
        assert AnsweredBy(v.calls, v.calls[j]);
        var k :| 0 <= k < |v.calls| && Stores(v.calls[k], w.calls[j]);
        assert Stores(w.calls[k], w.calls[j]);
      }
    }
    hide Stores, AnsweredBy, Retained;
    forall j, k | 0 <= j < k < |w.calls| ensures Apart(w.calls[j], w.calls[k]) {
      assert Apart(v.calls[j], v.calls[k]);
    }
  }

  lemma FailureKeepsInv(v: Service, i: nat, life: int)
    requires Inv(v, life) && i < |v.calls| && v.calls[i].phase.Storing?
    ensures Inv(WithCall(v, i, v.calls[i].(failed := true)), life)
  {
    assert GoodCall(v, v.calls[i], life);
    hide Inv;
    PhaseKeepsInv(v, i, v.calls[i].(failed := true), life);
  }

  lemma CallKeepsInv(v: Service, s: Step, life: int)
    requires Inv(v, life) && OfCall(s) && CallEnabled(v, s, life, s.i) && life <= PATIENCE
    ensures Inv(CallNext(v, s, life), life)
  {
    var i := s.i;
    var c := v.calls[i];
    assert GoodCall(v, c, life);
    hide Inv, Owned, Retained, AnsweredBy, Apart, Resolve, Inserted, WithNonce, Completed, Stores;
    match s {
      case LookUp(_) =>
        if (c.scope, c.key) in v.keys {
          ResolveIsStored(v, i, life);
        }
        PhaseKeepsInv(v, i, CallNext(v, s, life).calls[i], life);
      case Insert(_) =>
        if Insertable(v.keys, v.nonces, c.scope, c.key, c.body) {
          InsertKeepsInv(v, i, Handling, life);
        } else {
          PhaseKeepsInv(v, i, c.(phase := Conflicted), life);
        }
      case InsertFails(_, applied) =>
        if applied && Insertable(v.keys, v.nonces, c.scope, c.key, c.body) {
          InsertKeepsInv(v, i, Conflicted, life);
        } else {
          PhaseKeepsInv(v, i, c.(phase := Conflicted), life);
        }
      case LookAgain(_) =>
        if (c.scope, c.key) in v.keys {
          ResolveIsStored(v, i, life);
        }
        PhaseKeepsInv(v, i, CallNext(v, s, life).calls[i], life);
      case Handle(_, response) => PhaseKeepsInv(v, i, c.(phase := Storing(response, false), ran := c.ran + 1), life);
      case Store(_) => StoreKeepsInv(v, i, Done(Own(c.phase.response)), life);
      case StoreFails(_, applied, error) =>
        var next := if c.phase.again then Lost else Storing(error, true);
        FailureKeepsInv(v, i, life);
        if applied {
          StoreKeepsInv(WithCall(v, i, c.(failed := true)), i, next, life);
        } else {
          PhaseKeepsInv(v, i, c.(phase := next, failed := true), life);
        }
      case Die(_) => PhaseKeepsInv(v, i, c.(phase := Lost), life);
    }
  }

  lemma {:induction false} RunKeepsInv(steps: seq<Step>, life: int)
    requires life <= PATIENCE
    ensures Inv(Run(EMPTY, steps, life), life)
  {
    hide Inv, CallNext, CallEnabled;
    if steps == [] {
      EmptyIsGood(life);
    } else {
      var before, s := Run(EMPTY, steps[..|steps| - 1], life), steps[|steps| - 1];
      RunKeepsInv(steps[..|steps| - 1], life);
      match s {
        case Tick(to) => TickKeepsInv(before, to, life);
        case Arrive(scope, key, body) => ArriveKeepsInv(before, scope, key, body, life);
        case Cleanup(timestamp) =>
          if timestamp <= before.now {
            CleanupKeepsInv(before, timestamp, life);
          }
        case _ =>
          if CallEnabled(before, s, life, s.i) {
            CallKeepsInv(before, s, life);
          }
      }
    }
  }

  // --- at most once ---------------------------------------------------------------

  /** Every handler ran at most once, and at most one of two calls of the same request ran it. */
  ghost predicate AtMostOnce(v: Service) {
    && (forall i | 0 <= i < |v.calls| :: v.calls[i].ran <= 1)
    && (forall i, j | 0 <= i < j < |v.calls| && SameRequest(v.calls[i], v.calls[j]) ::
          v.calls[i].ran + v.calls[j].ran <= 1)
  }

  lemma OnlyOneWentIn(v: Service, i: nat, j: nat, life: int)
    requires Inv(v, life) && life <= PATIENCE && i < j < |v.calls| && SameRequest(v.calls[i], v.calls[j])
    ensures !(WentIn(v.calls[i]) && WentIn(v.calls[j]))
  {
    assert Apart(v.calls[i], v.calls[j]);
    assert GoodCall(v, v.calls[i], life) && GoodCall(v, v.calls[j], life);
  }

  lemma HandlersRunAtMostOnce(steps: seq<Step>, life: int)
    requires life <= PATIENCE
    ensures AtMostOnce(Run(EMPTY, steps, life))
  {
    var v := Run(EMPTY, steps, life);
    RunKeepsInv(steps, life);
    hide Run;
    forall i, j | 0 <= i < j < |v.calls| && SameRequest(v.calls[i], v.calls[j])
      ensures v.calls[i].ran + v.calls[j].ran <= 1
    {
      OnlyOneWentIn(v, i, j, life);
      assert GoodCall(v, v.calls[i], life) && GoodCall(v, v.calls[j], life);
    }
    assert forall i | 0 <= i < |v.calls| :: GoodCall(v, v.calls[i], life);
  }

  lemma RunSplits(v: Service, steps: seq<Step>, more: seq<Step>, life: int)
    ensures Run(v, steps + more, life) == Run(Run(v, steps, life), more, life)
  {
    hide Next;
    if more == [] {
      assert steps + more == steps;
    } else {
      RunSplits(v, steps, more[..|more| - 1], life);
      assert (steps + more)[..|steps + more| - 1] == steps + more[..|more| - 1];
    }
  }

  lemma RunOne(v: Service, s: Step, life: int)
    ensures Run(v, [s], life) == Next(v, s, life)
  {
    hide Next;
    assert [s][..0] == [];
  }

  /** The first half of the run that breaks the guarantee: a call runs its handler at once. */
  function FirstHalf(key: Key, body: Body, r: Response): seq<Step> {
    [Arrive("s", key, body), LookUp(0), Insert(0), Handle(0, r)]
  }

  /** A repetition under another key, while the request is still fresh: the lookup finds nothing. */
  function Repetition(key: Key, body: Body): seq<Step> {
    [Tick(2 * FRESH), Arrive("s", key, body), LookUp(1)]
  }

  /** The repetition goes on after the cleanup of the first call's rows. */
  function AfterCleanup(r: Response): seq<Step> {
    [Tick(DAY + 1), Cleanup(DAY + 1), Insert(1), Handle(1, r)]
  }

  lemma {:induction false} RunFromFront(v: Service, steps: seq<Step>, life: int)
    requires steps != []
    ensures Run(v, steps, life) == Run(Next(v, steps[0], life), steps[1..], life)
  {
    hide Next;
    assert steps == [steps[0]] + steps[1..];
    RunSplits(v, [steps[0]], steps[1..], life);
    RunOne(v, steps[0], life);
  }

  lemma FirstHalfRuns(key: Key, r: Response, life: int)
    requires ValidKey(key) && life >= 0
    ensures var body := Body("id", FRESH, "");
            var v := Run(EMPTY, FirstHalf(key, body, r), life);
            && v.now == 0 && v.keys == map[("s", key) := Row(body, None, DAY)] && v.nonces == map[("s", "id") := DAY]
            && v.calls == [Call("s", key, body, 0, Storing(r, false), Some(0), 1, None, false)]
  {
    var body := Body("id", FRESH, "");
    var steps := FirstHalf(key, body, r);
    hide ValidKey, Run, Inserted, WithNonce;
    RunFromFront(EMPTY, steps, life);
    var a := Next(EMPTY, steps[0], life);
    assert a.calls == [Call("s", key, body, 0, Arrived, None, 0, None, false)];
    RunFromFront(a, steps[1..], life);
    var b := Next(a, LookUp(0), life);
    assert b.calls == [Call("s", key, body, 0, Missed, None, 0, None, false)];
    RunFromFront(b, steps[1..][1..], life);
    var c := Next(b, Insert(0), life);
    assert c.calls == [Call("s", key, body, 0, Handling, Some(0), 0, None, false)];
    RunFromFront(c, steps[1..][1..][1..], life);
    InsertedIntoEmpty(key, body);
    NothingLeft(Next(c, Handle(0, r), life), steps[1..][1..][1..][1..], life);
  }

  lemma NothingLeft(v: Service, steps: seq<Step>, life: int)
    requires steps == []
    ensures Run(v, steps, life) == v
  {
  }

  lemma InsertedIntoEmpty(key: Key, body: Body)
    ensures Inserted(map[], "s", key, body, 0) == map[("s", key) := Row(body, None, DAY)]
    ensures WithNonce(map[], "s", body, 0) == map[("s", body.requestId) := DAY]
  {
  }

  lemma RepetitionRuns(v: Service, other: Key, life: int)
    requires ValidKey(other) && life >= 0 && v.now == 0 && ("s", other) !in v.keys && |v.calls| == 1
    ensures var body := Body("id", FRESH, "");
            Run(v, Repetition(other, body), life)
            == v.(now := 2 * FRESH,
                  calls := [v.calls[0], Call("s", other, body, 2 * FRESH, Missed, None, 0, None, false)])
  {
    var body := Body("id", FRESH, "");
    var steps := Repetition(other, body);
    hide ValidKey, Run;
    RunFromFront(v, steps, life);
    var a := Next(v, steps[0], life);
    RunFromFront(a, steps[1..], life);
    var b := Next(a, Arrive("s", other, body), life);
    assert b.calls == [v.calls[0], Call("s", other, body, 2 * FRESH, Arrived, None, 0, None, false)];
    RunFromFront(b, steps[1..][1..], life);
    var c := Next(b, LookUp(1), life);
    assert c.calls == [v.calls[0], Call("s", other, body, 2 * FRESH, Missed, None, 0, None, false)];
    NothingLeft(c, steps[1..][1..][1..], life);
  }

  lemma AfterCleanupRuns(c: Service, other: Key, r: Response, life: int)
    requires life > PATIENCE && c.now <= DAY && |c.calls| == 2
    requires c.calls[1] == Call("s", other, Body("id", FRESH, ""), 2 * FRESH, Missed, None, 0, None, false)
    requires forall k | k in c.keys :: c.keys[k].expires == DAY
    requires forall n | n in c.nonces :: c.nonces[n] == DAY
    ensures var w := Run(c, AfterCleanup(r), life);
            |w.calls| == 2 && w.calls[0] == c.calls[0] && w.calls[1].ran == 1
            && w.calls[1].scope == "s" && w.calls[1].body == Body("id", FRESH, "")
  {
    var steps := AfterCleanup(r);
    hide Run, KeptKeys, KeptNonces;
    RunFromFront(c, steps, life);
    var d := Next(c, Tick(DAY + 1), life);
    RunFromFront(d, steps[1..], life);
    var e := Next(d, Cleanup(DAY + 1), life);
    AllExpired(c.keys, c.nonces);
    assert e.calls == c.calls && e.keys == map[] && e.nonces == map[];
    hide Next;
    LastSteps(e, c.calls[0], other, r, life);
    assert steps[1..][1..] == [Insert(1), Handle(1, r)];
  }

  lemma LastSteps(e: Service, first: Call, other: Key, r: Response, life: int)
    requires e.now == DAY + 1 && e.keys == map[] && e.nonces == map[] && life > PATIENCE
    requires e.calls == [first, Call("s", other, Body("id", FRESH, ""), 2 * FRESH, Missed, None, 0, None, false)]
    ensures var w := Run(e, [Insert(1), Handle(1, r)], life);
            |w.calls| == 2 && w.calls[0] == first && w.calls[1].ran == 1
            && w.calls[1].scope == "s" && w.calls[1].body == Body("id", FRESH, "")
  {
    hide Run, Inserted, WithNonce;
    var steps := [Insert(1), Handle(1, r)];
    RunFromFront(e, steps, life);
    var f := Next(e, Insert(1), life);
    assert f.calls == [first, Call("s", other, Body("id", FRESH, ""), 2 * FRESH, Handling, Some(DAY + 1), 0, None, false)];
    RunFromFront(f, steps[1..], life);
    NothingLeft(Next(f, Handle(1, r), life), steps[1..][1..], life);
  }

  lemma AllExpired(keys: Keys, nonces: Nonces)
    requires forall k | k in keys :: keys[k].expires == DAY
    requires forall n | n in nonces :: nonces[n] == DAY
    ensures KeptKeys(keys, DAY + 1) == map[] && KeptNonces(nonces, DAY + 1) == map[]
  {
  }

  /**
   The guarantee holds over every run exactly when no call acts later than a day less
   ten minutes after it arrived: 85 800 seconds. A slower call can miss the cleanup of the
   rows that would have stopped it.
   */
  lemma AtMostOnceExactly(life: int)
    requires life >= 0
    ensures (forall steps :: AtMostOnce(Run(EMPTY, steps, life))) <==> life <= 85_800_000
  {
    if life <= PATIENCE {
      forall steps ensures AtMostOnce(Run(EMPTY, steps, life)) {
        HandlersRunAtMostOnce(steps, life);
      }
    } else {
      SlowCallRunsTwice(life);
    }
  }

  lemma SampleKeys(key: Key, other: Key)
    requires key == seq(8, _ => 'a') && other == seq(9, _ => 'a')
    ensures ValidKey(key) && ValidKey(other) && key != other
  {
    assert |key| != |other|;
  }

  lemma SlowCallRunsTwice(life: int)
    requires life > PATIENCE
    ensures exists steps :: !AtMostOnce(Run(EMPTY, steps, life))
  {
    hide Run, FirstHalf, Repetition, AfterCleanup, ValidKey, Next, AtMostOnce;
    var key, other, body, r := seq(8, _ => 'a'), seq(9, _ => 'a'), Body("id", FRESH, ""), Response(200, "");
    SampleKeys(key, other);
    var first, second, third := FirstHalf(key, body, r), Repetition(other, body), AfterCleanup(r);
    FirstHalfRuns(key, r, life);
    var v := Run(EMPTY, first, life);
    RepetitionRuns(v, other, life);
    var c := Run(v, second, life);
    AfterCleanupRuns(c, other, r, life);
    RunSplits(EMPTY, first, second, life);
    RunSplits(EMPTY, first + second, third, life);
    var w := Run(EMPTY, first + second + third, life);
    RanTwice(w);
  }

  lemma RanTwice(w: Service)
    requires |w.calls| >= 2 && w.calls[0].ran + w.calls[1].ran == 2 && SameRequest(w.calls[0], w.calls[1])
    ensures !AtMostOnce(w)
  {
  }

  // --- what one step does ---------------------------------------------------------

  /** A request arrives in time if it was signed at most five minutes before or after the server's clock. */
  predicate InTime(body: Body, now: int) {
    body.requestedAt - 300_000 <= now <= body.requestedAt + 300_000
  }

  /** A key has 8 to 128 letters, digits, dots, underscores, colons and hyphens. */
  predicate Usable(key: Key) {
    && 8 <= |key| <= 128
    && forall c | c in key :: 'a' <= c <= 'z' || 'A' <= c <= 'Z' || '0' <= c <= '9' || c in "._:-"
  }

  lemma UsableKeys(key: Key)
    ensures ValidKey(key) <==> Usable(key)
  {
    forall c: char ensures c in "._:-" <==> c == '.' || c == '_' || c == ':' || c == '-' {
      var marks := "._:-";
      assert marks[0] == '.' && marks[1] == '_' && marks[2] == ':' && marks[3] == '-';
    }
  }

  /** An arriving call is turned away if it is stale, then if its key is unusable, and else it goes on to its lookup. */
  lemma ArrivalIsCheckedExactly(v: Service, scope: Scope, key: Key, body: Body, life: int)
    ensures var w := Next(v, Arrive(scope, key, body), life);
            && w.calls == v.calls + [w.calls[|v.calls|]] && w.now == v.now && w.keys == v.keys && w.nonces == v.nonces
            && w.calls[|v.calls|].phase == (if !InTime(body, v.now) then Done(Refused(StaleRequest))
                                            else if !Usable(key) then Done(Refused(InvalidKey)) else Arrived)
            && w.calls[|v.calls|].ran == 0
  {
    UsableKeys(key);
    hide ValidKey, Usable;
  }

  /**
   A lookup finds the row of its key or none. Another body under the key is refused as
   reused; the same one gets the stored response, or is told that it is still in progress.
   Without a row the first lookup goes on to the inserts, and the second one, after they
   failed, refuses the request as a replay. The tables stay as they are.
   */
  lemma LookupAnswersExactly(v: Service, s: Step, life: int)
    requires (s.LookUp? || s.LookAgain?) && CallEnabled(v, s, life, s.i)
    ensures var c, w := v.calls[s.i], Next(v, s, life);
            && w == v.(calls := v.calls[s.i := c.(phase := w.calls[s.i].phase)])
            && w.calls[s.i].phase ==
                 if (c.scope, c.key) !in v.keys then (if s.LookUp? then Missed else Done(Refused(Replayed)))
                 else
                   var row := v.keys[(c.scope, c.key)];
                   if row.body != c.body then Done(Refused(KeyReused))
                   else if row.stored.None? then Done(Refused(InProgress))
                   else Done(Cached(row.stored.value))
  {
  }

  /** What a call that is in this phase may do next, apart from dying. */
  predicate MayDo(phase: Phase, s: Step) {
    match phase
    case Arrived => s.LookUp?
    case Missed => s.Insert? || s.InsertFails?
    case Conflicted => s.LookAgain?
    case Handling => s.Handle?
    case Storing(_, _) => s.Store? || s.StoreFails?
    case Done(_) => false
    case Lost => false
  }

  /** A call acts exactly while its time lasts, one operation after the other, and may die until it is answered. */
  lemma CallActsExactly(v: Service, s: Step, life: int, i: nat)
    requires OfCall(s)
    ensures CallEnabled(v, s, life, i) <==>
      && i < |v.calls| && v.now <= v.calls[i].arrived + life
      && if s.Die? then !v.calls[i].phase.Done? else MayDo(v.calls[i].phase, s)
  {
  }

  /**
   After its handler a call stores the response once and answers with it. A failure to
   store it is answered by storing the error instead, and a second failure loses the call.
   Either may have reached the table, but only a row that is still processing takes it.
   */
  lemma StoringIsExact(v: Service, s: Step, life: int)
    requires (s.Store? || s.StoreFails?) && CallEnabled(v, s, life, s.i)
    ensures var c, w := v.calls[s.i], Next(v, s, life);
            var id := (c.scope, c.key);
            var writes := (s.Store? || s.applied) && id in v.keys && v.keys[id].stored.None?;
            && w.calls == v.calls[s.i := w.calls[s.i]] && w.nonces == v.nonces && w.now == v.now
            && w.keys == (if writes then v.keys[id := v.keys[id].(stored := Some(c.phase.response))] else v.keys)
            && w.calls[s.i].phase == (if s.Store? then Done(Own(c.phase.response))
                                      else if c.phase.again then Lost else Storing(s.error, true))
            && w.calls[s.i].ran == c.ran && w.calls[s.i].failed == (s.StoreFails? || c.failed)
            && w.calls[s.i].stored == if writes then Some(c.phase.response) else c.stored
  {
  }

  /** A cleanup removes exactly the rows that expired before its timestamp, and leaves the calls alone. */
  lemma CleanupIsExact(v: Service, timestamp: int, life: int)
    requires timestamp <= v.now
    ensures var w := Next(v, Cleanup(timestamp), life);
            && w.calls == v.calls && w.now == v.now
            && (forall k :: k in w.keys <==> k in v.keys && timestamp <= v.keys[k].expires)
            && (forall k | k in w.keys :: w.keys[k] == v.keys[k])
            && (forall n :: n in w.nonces <==> n in v.nonces && timestamp <= v.nonces[n])
            && (forall n | n in w.nonces :: w.nonces[n] == v.nonces[n])
  {
  }

  // --- replays and keys -----------------------------------------------------------

  /**
   All replays of a request that are answered from the table get the same response: the
   one that the only call whose rows went in stored. That call's own caller got it too,
   unless storing it was reported to have failed.
   */
  lemma ReplaysAgree(steps: seq<Step>, life: int, i: nat, j: nat)
    requires life <= PATIENCE
    requires var calls := Run(EMPTY, steps, life).calls;
             && i < |calls| && j < |calls| && SameRequest(calls[i], calls[j])
             && calls[i].phase.Done? && calls[i].phase.answer.Cached? && calls[j].phase.Done?
    ensures var calls := Run(EMPTY, steps, life).calls;
            && (calls[j].phase.answer.Cached? ==> calls[j].phase.answer == calls[i].phase.answer)
            && (calls[j].phase.answer.Own? && !calls[j].failed ==> calls[j].phase.answer.own == calls[i].phase.answer.cached)
  {
    var v := Run(EMPTY, steps, life);
    RunKeepsInv(steps, life);
    hide Run;
    assert AnsweredBy(v.calls, v.calls[i]) && AnsweredBy(v.calls, v.calls[j]);
    var k: nat :| k < |v.calls| && Stores(v.calls[k], v.calls[i]);
    if v.calls[j].phase.answer.Cached? {
      var l: nat :| l < |v.calls| && Stores(v.calls[l], v.calls[j]);
      OneOwner(v, k, l, life);
    } else if v.calls[j].phase.answer.Own? {
      assert GoodCall(v, v.calls[j], life);
      OneOwner(v, k, j, life);
    }
  }

  lemma OneOwner(v: Service, k: nat, l: nat, life: int)
    requires Inv(v, life) && life <= PATIENCE && k < |v.calls| && l < |v.calls|
    requires WentIn(v.calls[k]) && WentIn(v.calls[l]) && SameRequest(v.calls[k], v.calls[l])
    ensures k == l
  {
    if k < l {
      OnlyOneWentIn(v, k, l, life);
    } else if l < k {
      OnlyOneWentIn(v, l, k, life);
    }
  }

  /** A second request under a retained key never runs: one of the two went in a day after the other arrived. */
  lemma RetainedKeyRunsOneRequest(steps: seq<Step>, life: int, i: nat, j: nat)
    requires life <= PATIENCE
    requires var calls := Run(EMPTY, steps, life).calls;
             i < j < |calls| && SameKey(calls[i], calls[j]) && calls[i].ran > 0 && calls[j].ran > 0
    ensures var calls := Run(EMPTY, steps, life).calls;
            && WentIn(calls[i]) && WentIn(calls[j]) && DayBetween(calls[i], calls[j])
            && calls[i].body != calls[j].body
  {
    var v := Run(EMPTY, steps, life);
    RunKeepsInv(steps, life);
    hide Run;
    assert GoodCall(v, v.calls[i], life) && GoodCall(v, v.calls[j], life) && Apart(v.calls[i], v.calls[j]);
    if v.calls[i].body == v.calls[j].body {
      OnlyOneWentIn(v, i, j, life);
    }
  }

  /**
   A batch that took effect although it was reported to have failed blocks its key: while
   the row is retained, every call of the request under that key is told that it is in
   progress, and none runs or is answered from the table.
   */
  lemma LostInsertBlocksItsKey(steps: seq<Step>, life: int, i: nat)
    requires life <= PATIENCE && i < |Run(EMPTY, steps, life).calls|
    requires var v := Run(EMPTY, steps, life);
             var c := v.calls[i];
             WentIn(c) && c.phase.Done? && c.ran == 0 && v.now <= c.arrived + DAY
    ensures var v := Run(EMPTY, steps, life);
            var c := v.calls[i];
            && (c.scope, c.key) in v.keys && Resolve(v.keys[(c.scope, c.key)], c.body) == Refused(InProgress)
            && forall j: nat | j < |v.calls| && j != i && SameRequest(v.calls[i], v.calls[j]) :: v.calls[j].ran == 0
  {
    var v := Run(EMPTY, steps, life);
    RunKeepsInv(steps, life);
    hide Run;
    assert GoodCall(v, v.calls[i], life) && Retained(v, v.calls[i]);
    forall j: nat | j < |v.calls| && j != i && SameRequest(v.calls[i], v.calls[j]) ensures v.calls[j].ran == 0 {
      assert GoodCall(v, v.calls[j], life);
      if i < j {
        OnlyOneWentIn(v, i, j, life);
      } else {
        OnlyOneWentIn(v, j, i, life);
      }
    }
  }

  /** Only a call whose rows went in runs its handler, and no other call gets a response of its own. */
  lemma OnlyOwnersRun(steps: seq<Step>, life: int, i: nat)
    requires life <= PATIENCE && i < |Run(EMPTY, steps, life).calls|
    ensures var c := Run(EMPTY, steps, life).calls[i];
            && (c.ran > 0 ==> WentIn(c) && Fresh(c.body.requestedAt, c.arrived))
            && (c.phase.Done? && c.ran == 0 ==> !c.phase.answer.Own?)
  {
    var v := Run(EMPTY, steps, life);
    RunKeepsInv(steps, life);
    hide Run;
    assert GoodCall(v, v.calls[i], life);
  }
}
