/** The identity manager of identity/identity.go: a set of identities and providers of more of them. */
module IdentityManager {
  import opened Common
  import opened IdentityNames

  /** What the callback answers: whether to end the iteration. */
  type Callback = Identity -> bool

  /** What is offered of `ids`: all of them, or those up to the first on which the callback says stop. */
  function UntilStop(ids: seq<Identity>, cb: Callback): seq<Identity>
  {
    if ids == [] then [] else [ids[0]] + if cb(ids[0]) then [] else UntilStop(ids[1..], cb)
  }

  predicate Stops(ids: seq<Identity>, cb: Callback)
  {
    exists id :: id in ids && cb(id)
  }

  lemma {:induction false} GoesOn(a: seq<Identity>, b: seq<Identity>, cb: Callback)
    requires !Stops(a, cb)
    ensures UntilStop(a + b, cb) == a + UntilStop(b, cb)
  {
    if a == [] {
      assert a + b == b;
    } else {
      var first, rest := a[0], a[1..];
      assert !cb(first) && !Stops(rest, cb);
      assert a == [first] + rest;
      GoesOn(rest, b, cb);
      Assoc([first], rest, b);
      OffersFirst(first, rest + b, cb);
      Assoc([first], rest, UntilStop(b, cb));
    }
  }

  lemma OffersFirst(first: Identity, rest: seq<Identity>, cb: Callback)
    requires !cb(first)
    ensures UntilStop([first] + rest, cb) == [first] + UntilStop(rest, cb)
  {
    assert ([first] + rest)[1..] == rest;
  }

  lemma {:induction false} EndsWithin(a: seq<Identity>, b: seq<Identity>, cb: Callback)
    requires Stops(a, cb)
    ensures UntilStop(a + b, cb) == UntilStop(a, cb)
  {
    assert (a + b)[0] == a[0];
    if !cb(a[0]) {
      assert Stops(a[1..], cb);
      assert (a + b)[1..] == a[1..] + b;
      EndsWithin(a[1..], b, cb);
    }
  }

  /** The callback ends the iteration at `id`, and not before. */
  lemma StopsAt(a: seq<Identity>, id: Identity, b: seq<Identity>, cb: Callback)
    requires !Stops(a, cb) && cb(id)
    ensures UntilStop(a + [id] + b, cb) == a + [id]
  {
    assert a + [id] + b == a + ([id] + b);
    GoesOn(a, [id] + b, cb);
  }

  function Concat(providers: seq<seq<Identity>>): seq<Identity>
  {
    if providers == [] then [] else providers[0] + Concat(providers[1..])
  }

  /** That is a beginning of them, up to and with the first on which the callback says stop. */
  lemma {:induction false} UntilStopIsPrefix(ids: seq<Identity>, cb: Callback) returns (n: nat)
    ensures n <= |ids| && UntilStop(ids, cb) == ids[..n]
    ensures forall i: nat :: i < n - 1 ==> !cb(ids[i])
    ensures n < |ids| ==> n > 0 && cb(ids[n - 1])
  {
    if ids == [] {
      n := 0;
    } else if cb(ids[0]) {
      n := 1;
    } else {
      var k := UntilStopIsPrefix(ids[1..], cb);
      n := k + 1;
      assert ids[..n] == [ids[0]] + ids[1..][..k];
      assert forall i: nat :: 0 < i < |ids| ==> ids[i] == ids[1..][i - 1];
    }
  }

  /** The providers hand out theirs one after the other, each all of them. */
  lemma {:induction false} ConcatSplits(a: seq<seq<Identity>>, ids: seq<Identity>, b: seq<seq<Identity>>)
    ensures Concat(a + [ids] + b) == Concat(a) + ids + Concat(b)
  {
    if a == [] {
      assert [] + [ids] + b == [ids] + b && ([ids] + b)[1..] == b;
      assert [] + ids == ids;
    } else {
      assert (a + [ids] + b)[1..] == a[1..] + [ids] + b && (a + [ids] + b)[0] == a[0];
      ConcatSplits(a[1..], ids, b);
      assert a[0] + (Concat(a[1..]) + ids + Concat(b)) == a[0] + Concat(a[1..]) + ids + Concat(b);
    }
  }

  /** `order` lists each of `ids` once. */
  ghost predicate Lists(order: seq<Identity>, ids: set<Identity>)
  {
    && (forall id :: id in order <==> id in ids)
    && forall i, j :: 0 <= i < j < |order| ==> order[i] != order[j]
  }

  lemma {:induction false} SomeList(ids: set<Identity>) returns (order: seq<Identity>)
    ensures Lists(order, ids)
    decreases |ids|
  {
    if ids == {} {
      order := [];
    } else {
      var id :| id in ids;
      var rest := SomeList(ids - {id});
      order := [id] + rest;
    }
  }

  lemma ListsAppend(a: seq<Identity>, b: seq<Identity>, ids: set<Identity>, todo: set<Identity>)
    requires todo <= ids && Lists(a, ids - todo) && Lists(b, todo)
    ensures Lists(a + b, ids)
  {
    forall i, j | 0 <= i < j < |a + b| ensures (a + b)[i] != (a + b)[j] {
      if i < |a| <= j {
        assert a[i] in a && b[j - |a|] in b;
      }
    }
  }

  /** What an iteration over the manager offers: its identities, each once, and then those of the providers in turn. */
  ghost predicate Offered(visited: seq<Identity>, ids: set<Identity>, providers: seq<seq<Identity>>, cb: Callback)
  {
    exists order :: Lists(order, ids) && visited == UntilStop(order + Concat(providers), cb)
  }

  /** The iteration ends among the manager's own identities. */
  lemma EndsAt(visited: seq<Identity>, id: Identity, ids: set<Identity>, todo: set<Identity>, providers: seq<seq<Identity>>, cb: Callback)
    requires id in todo && todo <= ids && Lists(visited, ids - todo) && !Stops(visited, cb) && cb(id)
    ensures Offered(visited + [id], ids, providers, cb)
  {
    var rest := SomeList(todo - {id});
    ListsAppend([id], rest, todo, todo - {id});
    ListsAppend(visited, [id] + rest, ids, todo);
    StopsInOrder(visited, id, rest, Concat(providers), cb);
    assert Lists(visited + ([id] + rest), ids);
  }

  lemma StopsInOrder(a: seq<Identity>, id: Identity, rest: seq<Identity>, more: seq<Identity>, cb: Callback)
    requires !Stops(a, cb) && cb(id)
    ensures UntilStop(a + ([id] + rest) + more, cb) == a + [id]
  {
    StopsAt(a, id, rest + more, cb);
    assert a + [id] + (rest + more) == a + ([id] + rest) + more;
  }

  lemma ConcatStep(providers: seq<seq<Identity>>, visited: seq<Identity>, cb: Callback)
    requires providers != []
    ensures var p, rest := providers[0], UntilStop(Concat(providers[1..]), cb);
            visited + UntilStop(Concat(providers), cb) == visited + UntilStop(p, cb) + if Stops(p, cb) then [] else rest
  {
    var p, rest := providers[0], Concat(providers[1..]);
    if Stops(p, cb) {
      EndsWithin(p, rest, cb);
    } else {
      GoesOn(p, rest, cb);
      GoesOn(p, [], cb);
      assert p + [] == p;
      assert visited + (p + UntilStop(rest, cb)) == visited + p + UntilStop(rest, cb);
    }
  }

  /** A provider hands out its identities. */
  method Provide(provided: seq<Identity>, cb: Callback) returns (stopped: bool, visited: seq<Identity>)
    ensures visited == UntilStop(provided, cb) && (stopped <==> Stops(provided, cb))
  {
    visited := [];
    for k := 0 to |provided|
      invariant visited == provided[..k] && !Stops(visited, cb)
    {
      visited := visited + [provided[k]];
      assert visited == provided[..k + 1];
      if cb(provided[k]) {
        StopsAt(provided[..k], provided[k], provided[k + 1..], cb);
        assert provided == provided[..k] + [provided[k]] + provided[k + 1..];
        return true, visited;
      }
    }
    GoesOn(provided, [], cb);
    assert provided + [] == provided;
    stopped := false;
  }

  class Manager {
    var ids: set<Identity>
    /** The identities that each provider would hand out. */
    var forEachIds: seq<seq<Identity>>
    /** The calls of the debugging hook. */
    var added: seq<Identity>

    /** Neither nil nor anonymous identities, and one call of the hook for each that was added. */
    ghost predicate Valid()
      reads this
    {
      && (forall id :: id in ids ==> IsReal(id))
      && (forall id :: id in ids ==> id in added)
    }

    constructor ()
      ensures Valid() && ids == {} && forEachIds == [] && added == []
    {
      ids, forEachIds, added := {}, [], [];
    }

    method AddIdentity(newIds: seq<Identity>)
      requires Valid()
      modifies this`ids, this`added
      ensures Valid()
      ensures ids == old(ids) + set id | id in newIds && IsReal(id)
      ensures old(added) <= added
      ensures forall id :: multiset(added[|old(added)|..])[id] == if id in ids - old(ids) then 1 else 0
    {
      ghost var before := added;
      for i := 0 to |newIds|
        invariant Valid()
        invariant ids == old(ids) + set id | id in newIds[..i] && IsReal(id)
        invariant before <= added
        invariant forall id :: multiset(added[|before|..])[id] == if id in ids - old(ids) then 1 else 0
      {
        var id := newIds[i];
        assert newIds[..i + 1] == newIds[..i] + [id];
        if id == Nil || id == Anonymous {
          continue;
        }
        if id !in ids {
          ghost var news := added[|before|..];
          added := added + [id];
          assert added[|before|..] == news + [id];
          ids := ids + {id};
        }
      }
      assert newIds[..|newIds|] == newIds;
    }

    method AddIdentityForEach(providers: seq<seq<Identity>>)
      modifies this`forEachIds
      ensures forEachIds == old(forEachIds) + providers
    {
      forEachIds := forEachIds + providers;
    }

    method Reset()
      requires Valid()
      modifies this`ids
      ensures Valid() && ids == {}
    {
      ids := {};
    }

    /** Offers the identities in no particular order, each once, and then those of the providers, until the callback says stop. */
    method ForEachIdentity(cb: Callback) returns (stopped: bool, visited: seq<Identity>)
      ensures Offered(visited, ids, forEachIds, cb)
      ensures stopped <==> (exists id :: id in ids && cb(id)) || exists p :: p in forEachIds && Stops(p, cb)
    {
      visited := [];
      var todo := ids;
      while todo != {}
        invariant todo <= ids && Lists(visited, ids - todo) && !Stops(visited, cb)
        decreases |todo|
      {
        var id :| id in todo;
        if cb(id) {
          EndsAt(visited, id, ids, todo, forEachIds, cb);
          return true, visited + [id];
        }
        todo := todo - {id};
        visited := visited + [id];
      }
      stopped, visited := OfferProvided(visited, cb);
    }

    /** After the manager's own identities those of the providers follow. */
    method OfferProvided(own: seq<Identity>, cb: Callback) returns (stopped: bool, visited: seq<Identity>)
      requires !Stops(own, cb)
      ensures visited == UntilStop(own + Concat(forEachIds), cb)
      ensures stopped <==> exists p :: p in forEachIds && Stops(p, cb)
    {
      visited := own;
      ghost var goal := UntilStop(own + Concat(forEachIds), cb);
      GoesOn(own, Concat(forEachIds), cb);
      for i := 0 to |forEachIds|
        invariant goal == visited + UntilStop(Concat(forEachIds[i..]), cb)
        invariant forall p :: p in forEachIds[..i] ==> !Stops(p, cb)
      {
        ConcatStep(forEachIds[i..], visited, cb);
        assert forEachIds[i..][1..] == forEachIds[i + 1..];
        var ended, offered := Provide(forEachIds[i], cb);
        visited := visited + offered;
        if ended {
          return true, visited;
        }
      }
      stopped := false;
    }
  }
}
