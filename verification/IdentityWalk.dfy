/** The deep walk over identities of identity/identity.go. */
module IdentityWalk {
  import opened Common
  import opened IdentityNames

  type Manager = nat

  /**
    What the identities answer through their interfaces: the manager they lead to, and the identities they provide.
    `ids` is the finite set of identities in use.
   */
  datatype World = World(
    ids: set<Identity>,
    members: Manager -> seq<Identity>,
    manager: Identity -> Option<Manager>,
    provided: Identity -> Option<Identity>,
    group: Identity -> Option<Identity>)

  function Listed(x: Option<Identity>): seq<Identity>
  {
    match x case None => [] case Some(id) => [id]
  }

  /** The identities a shallow walk over `v` offers, in order: itself, the one it provides, its group. */
  function Faces(w: World, v: Identity): seq<Identity>
  {
    [v] + Listed(w.provided(v)) + Listed(w.group(v))
  }

  function AllFaces(w: World, vs: seq<Identity>): seq<Identity>
  {
    if vs == [] then [] else Faces(w, vs[0]) + AllFaces(w, vs[1..])
  }

  /** What the manager of `id` offers. */
  function Offers(w: World, id: Identity): seq<Identity>
  {
    match w.manager(id) case None => [] case Some(m) => AllFaces(w, w.members(m))
  }

  ghost predicate Within(faces: seq<Identity>, ids: set<Identity>)
  {
    forall id :: id in faces ==> id in ids
  }

  ghost predicate Closed(w: World)
  {
    forall id :: id in w.ids ==> Within(Offers(w, id), w.ids)
  }

  type Callback = (nat, Identity) -> bool

  datatype Call = Call(level: nat, id: Identity)

  /** The identities seen so far, the calls made to the callback, and whether the walk under way is to stop. */
  datatype Walk = Walk(seen: set<Identity>, calls: seq<Call>, stop: bool)

  predicate Skipped(id: Identity, seen: set<Identity>)
  {
    id == Anonymous || id == Nil || id in seen
  }

  /** One identity: it is reported, and what its manager offers is visited one level further down. */
  function Visit(w: World, cb: Callback, level: nat, id: Identity, s: Walk): (r: Walk)
    requires Closed(w) && id in w.ids
    ensures s.seen <= r.seen
    decreases w.ids - s.seen, 0, 0
  {
    if Skipped(id, s.seen) then s.(stop := false)
    else
      var s1 := Walk(s.seen + {id}, s.calls + [Call(level, id)], false);
      if cb(level, id) then s1.(stop := true)
      else VisitAll(w, cb, level + 1, Offers(w, id), s1).(stop := false)
  }

  /** Several identities, until one visit asks to stop. */
  function VisitAll(w: World, cb: Callback, level: nat, faces: seq<Identity>, s: Walk): (r: Walk)
    requires Closed(w) && Within(faces, w.ids)
    ensures s.seen <= r.seen
    decreases w.ids - s.seen, 1, |faces|
  {
    if faces == [] then s.(stop := false)
    else
      var r := Visit(w, cb, level, faces[0], s);
      assert w.ids - r.seen <= w.ids - s.seen;
      if r.stop then r else VisitAll(w, cb, level, faces[1..], r)
  }

  /** The deep walk from the identities that the starting value offers. */
  function WalkDeep(w: World, cb: Callback, start: seq<Identity>): Walk
    requires Closed(w) && Within(start, w.ids)
  {
    VisitAll(w, cb, 0, start, Walk({}, [], false))
  }

  lemma {:induction false} VisitAllSplit(w: World, cb: Callback, level: nat, a: seq<Identity>, b: seq<Identity>, s: Walk)
    requires Closed(w) && Within(a, w.ids) && Within(b, w.ids)
    ensures Within(a + b, w.ids)
    ensures var r := VisitAll(w, cb, level, a, s);
            VisitAll(w, cb, level, a + b, s) == if r.stop then r else VisitAll(w, cb, level, b, r)
    decreases |a|
  {
    if a == [] {
      assert a + b == b;
      assert VisitAll(w, cb, level, b, s) == VisitAll(w, cb, level, b, s.(stop := false));
    } else {
      assert (a + b)[1..] == a[1..] + b;
      var r := Visit(w, cb, level, a[0], s);
      if !r.stop {
        VisitAllSplit(w, cb, level, a[1..], b, r);
      }
    }
  }

  /** The manager of `p` leads on to `id`: it holds `id` itself, or an identity that provides it or has it as its group. */
  ghost predicate LeadsOn(w: World, p: Identity, id: Identity)
  {
    w.manager(p).Some? &&
    exists v :: v in w.members(w.manager(p).value) && (id == v || w.provided(v) == Some(id) || w.group(v) == Some(id))
  }

  lemma {:induction false} AllFacesExactly(w: World, vs: seq<Identity>, id: Identity)
    ensures id in AllFaces(w, vs) <==> exists v :: v in vs && (id == v || w.provided(v) == Some(id) || w.group(v) == Some(id))
  {
    if vs != [] {
      AllFacesExactly(w, vs[1..], id);
      assert forall v :: v in vs <==> v == vs[0] || v in vs[1..];
    }
  }

  /** What the walk is offered behind `p` is exactly what the manager of `p` leads on to. */
  lemma OffersExactly(w: World, p: Identity, id: Identity)
    ensures id in Offers(w, p) <==> LeadsOn(w, p, id)
  {
    if w.manager(p).Some? {
      AllFacesExactly(w, w.members(w.manager(p).value), id);
    }
  }

  type Relation = (Identity, Identity) -> bool

  /** `id` is reached from `start` by taking `n` steps of the relation, never by way of nil or anonymous identities. */
  ghost predicate ReachedBy(leadsOn: Relation, start: seq<Identity>, id: Identity, n: nat)
    decreases n
  {
    IsReal(id) && if n == 0 then id in start else exists p :: ReachedBy(leadsOn, start, p, n - 1) && leadsOn(p, id)
  }

  ghost function LeadingOn(w: World): Relation
  {
    (p, id) => LeadsOn(w, p, id)
  }

  /** `id` is reached from `start` by going down through `n` managers. */
  ghost predicate ReachedAt(w: World, start: seq<Identity>, id: Identity, n: nat)
  {
    ReachedBy(LeadingOn(w), start, id, n)
  }

  ghost predicate Reached(w: World, start: seq<Identity>, id: Identity)
  {
    exists n: nat :: ReachedAt(w, start, id, n)
  }

  ghost predicate NeverStops(cb: Callback)
  {
    forall level, id :: !cb(level, id)
  }

  /** Every seen identity was reported in exactly one call. */
  ghost predicate Tidy(s: Walk)
  {
    && (forall i, j :: 0 <= i < j < |s.calls| ==> s.calls[i].id != s.calls[j].id)
    && (forall c :: c in s.calls ==> c.id in s.seen)
    && (forall id :: id in s.seen ==> exists c :: c in s.calls && c.id == id)
  }

  /** Every call of `s` reports an identity at a depth at which it can be reached. */
  ghost predicate Grounded(w: World, start: seq<Identity>, s: Walk)
  {
    forall c :: c in s.calls ==> ReachedAt(w, start, c.id, c.level)
  }

  ghost predicate GroundedFaces(w: World, start: seq<Identity>, faces: seq<Identity>, level: nat)
  {
    forall id :: id in faces && IsReal(id) ==> ReachedAt(w, start, id, level)
  }

  lemma SeenIsReported(s: Walk, c: Call, id: Identity)
    requires Tidy(s) && id in s.seen + {c.id}
    ensures exists d :: d in s.calls + [c] && d.id == id
  {
    if id == c.id {
      assert c in s.calls + [c];
    } else {
      var d :| d in s.calls && d.id == id;
      assert d in s.calls + [c];
    }
  }

  lemma TidyReport(s: Walk, c: Call)
    requires Tidy(s) && c.id !in s.seen
    ensures Tidy(Walk(s.seen + {c.id}, s.calls + [c], false))
  {
    var s1 := Walk(s.seen + {c.id}, s.calls + [c], false);
    forall i | 0 <= i < |s.calls| ensures s.calls[i].id != c.id {
      assert s.calls[i] in s.calls;
    }
    forall id | id in s1.seen ensures exists d :: d in s1.calls && d.id == id {
      SeenIsReported(s, c, id);
    }
  }

  lemma GroundedReport(w: World, start: seq<Identity>, s: Walk, c: Call)
    requires Grounded(w, start, s) && ReachedAt(w, start, c.id, c.level)
    ensures Grounded(w, start, Walk(s.seen + {c.id}, s.calls + [c], false))
  {}

  lemma OffersAreGrounded(w: World, start: seq<Identity>, id: Identity, level: nat)
    requires ReachedAt(w, start, id, level)
    ensures GroundedFaces(w, start, Offers(w, id), level + 1)
  {
    forall x | x in Offers(w, id) && IsReal(x) ensures ReachedAt(w, start, x, level + 1) {
      OffersExactly(w, id, x);
      assert LeadingOn(w)(id, x);
    }
  }

  lemma {:induction false} VisitIsGrounded(w: World, cb: Callback, start: seq<Identity>, level: nat, id: Identity, s: Walk)
    requires Closed(w) && id in w.ids
    requires Tidy(s) && Grounded(w, start, s) && GroundedFaces(w, start, [id], level)
    ensures var r := Visit(w, cb, level, id, s); Tidy(r) && Grounded(w, start, r)
    decreases w.ids - s.seen, 0, 0
  {
    if !Skipped(id, s.seen) {
      var s1 := Walk(s.seen + {id}, s.calls + [Call(level, id)], false);
      assert id in [id];
      TidyReport(s, Call(level, id));
      GroundedReport(w, start, s, Call(level, id));
      if !cb(level, id) {
        OffersAreGrounded(w, start, id, level);
        VisitAllIsGrounded(w, cb, start, level + 1, Offers(w, id), s1);
      }
    }
  }

  lemma {:induction false} VisitAllIsGrounded(w: World, cb: Callback, start: seq<Identity>, level: nat, faces: seq<Identity>, s: Walk)
    requires Closed(w) && Within(faces, w.ids)
    requires Tidy(s) && Grounded(w, start, s) && GroundedFaces(w, start, faces, level)
    ensures var r := VisitAll(w, cb, level, faces, s); Tidy(r) && Grounded(w, start, r)
    decreases w.ids - s.seen, 1, |faces|
  {
    if faces != [] {
      VisitIsGrounded(w, cb, start, level, faces[0], s);
      var r := Visit(w, cb, level, faces[0], s);
      if !r.stop {
        VisitAllIsGrounded(w, cb, start, level, faces[1..], r);
      }
    }
  }

  ghost predicate Holds(seen: set<Identity>, faces: seq<Identity>)
  {
    forall id :: id in faces && IsReal(id) ==> id in seen
  }

  /** What is offered by the identities in `added` is in `seen`. */
  ghost predicate Saturated(w: World, added: set<Identity>, seen: set<Identity>)
  {
    forall x :: x in added ==> Holds(seen, Offers(w, x))
  }

  lemma {:induction false} VisitSaturates(w: World, cb: Callback, level: nat, id: Identity, s: Walk)
    requires Closed(w) && id in w.ids && NeverStops(cb)
    ensures var r := Visit(w, cb, level, id, s);
            !r.stop && (IsReal(id) ==> id in r.seen) && Saturated(w, r.seen - s.seen, r.seen)
    decreases w.ids - s.seen, 0, 0
  {
    if !Skipped(id, s.seen) {
      VisitAllSaturates(w, cb, level + 1, Offers(w, id), Walk(s.seen + {id}, s.calls + [Call(level, id)], false));
    }
  }

  lemma {:induction false} VisitAllSaturates(w: World, cb: Callback, level: nat, faces: seq<Identity>, s: Walk)
    requires Closed(w) && Within(faces, w.ids) && NeverStops(cb)
    ensures var r := VisitAll(w, cb, level, faces, s);
            && !r.stop
            && Holds(r.seen, faces)
            && Saturated(w, r.seen - s.seen, r.seen)
    decreases w.ids - s.seen, 1, |faces|
  {
    if faces != [] {
      VisitSaturates(w, cb, level, faces[0], s);
      VisitAllSaturates(w, cb, level, faces[1..], Visit(w, cb, level, faces[0], s));
    }
  }

  /** A set that holds the start and all that its members lead on to holds everything reached. */
  lemma {:induction false} SaturatedHoldsReached(leadsOn: Relation, start: seq<Identity>, seen: set<Identity>, id: Identity, n: nat)
    requires Holds(seen, start) && (forall x, y :: x in seen && leadsOn(x, y) && IsReal(y) ==> y in seen)
    requires ReachedBy(leadsOn, start, id, n)
    ensures id in seen
    decreases n
  {
    if n > 0 {
      var p :| ReachedBy(leadsOn, start, p, n - 1) && leadsOn(p, id);
      SaturatedHoldsReached(leadsOn, start, seen, p, n - 1);
    }
  }

  /**
    Whatever the callback answers, on cyclic graphs too, no identity is reported twice, and each is reported at a
    depth at which it can be reached through managers; never nil, never anonymous.
   */
  lemma CallsAreReached(w: World, cb: Callback, start: seq<Identity>)
    requires Closed(w) && Within(start, w.ids)
    ensures var calls := WalkDeep(w, cb, start).calls;
            && (forall i, j :: 0 <= i < j < |calls| ==> calls[i].id != calls[j].id)
            && (forall c :: c in calls ==> ReachedAt(w, start, c.id, c.level))
  {
    VisitAllIsGrounded(w, cb, start, 0, start, Walk({}, [], false));
  }

  /** With a callback that never stops, the identities reported are exactly the reachable ones. */
  lemma EveryReachedIsCalled(w: World, cb: Callback, start: seq<Identity>, id: Identity)
    requires Closed(w) && Within(start, w.ids) && NeverStops(cb)
    ensures Reached(w, start, id) <==> exists c :: c in WalkDeep(w, cb, start).calls && c.id == id
  {
    var s := Walk({}, [], false);
    var r := WalkDeep(w, cb, start);
    VisitAllIsGrounded(w, cb, start, 0, start, s);
    VisitAllSaturates(w, cb, 0, start, s);
    assert r.seen - s.seen == r.seen;
    if Reached(w, start, id) {
      var n: nat :| ReachedAt(w, start, id, n);
      forall x, y | x in r.seen && LeadingOn(w)(x, y) && IsReal(y) ensures y in r.seen {
        OffersExactly(w, x, y);
      }
      SaturatedHoldsReached(LeadingOn(w), start, r.seen, id, n);
    }
  }

  /**
    The order of the faces of one value: itself, then what it provides, then its group; each only when no earlier one
    has made the callback stop.
   */
  lemma FacesInOrder(w: World, cb: Callback, v: Identity, p: Identity, g: Identity)
    requires Closed(w) && Within(Faces(w, v), w.ids) && w.provided(v) == Some(p) && w.group(v) == Some(g)
    requires IsReal(v) && IsReal(p) && IsReal(g) && v != p && v != g && p != g
    requires w.manager(v).None? && w.manager(p).None? && w.manager(g).None?
    ensures WalkDeep(w, cb, Faces(w, v)).calls
         == if cb(0, v) then [Call(0, v)]
            else if cb(0, p) then [Call(0, v), Call(0, p)]
            else [Call(0, v), Call(0, p), Call(0, g)]
  {
    assert Faces(w, v) == [v, p, g] && [v, p, g][1..] == [p, g] && [p, g][1..] == [g] && [g][1..] == [];
    var s := Walk({}, [], false);
    LeafVisit(w, cb, 0, v, s);
    var s1 := Visit(w, cb, 0, v, s);
    assert s1.calls == [Call(0, v)];
    LeafVisit(w, cb, 0, p, s1);
    var s2 := Visit(w, cb, 0, p, s1);
    assert s2.calls == [Call(0, v), Call(0, p)];
    LeafVisit(w, cb, 0, g, s2);
    assert VisitAll(w, cb, 0, [g], s2).calls == s2.calls + [Call(0, g)];
    assert VisitAll(w, cb, 0, [p, g], s1) == if s2.stop then s2 else VisitAll(w, cb, 0, [g], s2);
    assert VisitAll(w, cb, 0, [v, p, g], s) == if s1.stop then s1 else VisitAll(w, cb, 0, [p, g], s1);
  }

  lemma LeafVisit(w: World, cb: Callback, level: nat, id: Identity, s: Walk)
    requires Closed(w) && id in w.ids && IsReal(id) && id !in s.seen && w.manager(id).None?
    ensures Visit(w, cb, level, id, s) == Walk(s.seen + {id}, s.calls + [Call(level, id)], cb(level, id))
  {
    var s1 := Walk(s.seen + {id}, s.calls + [Call(level, id)], false);
    assert VisitAll(w, cb, level + 1, [], s1) == s1;
  }

  /** No call was made after one on which the callback asked to stop. */
  ghost predicate StopsAtOnce(cb: Callback, calls: seq<Call>)
  {
    forall i :: 0 <= i < |calls| - 1 ==> !cb(calls[i].level, calls[i].id)
  }

  /** The walk in progress: the seen set and the record of callback calls. */
  class Walker {
    const world: World
    const cb: Callback
    var seen: set<Identity>
    var calls: seq<Call>

    constructor (world: World, cb: Callback)
      ensures this.world == world && this.cb == cb && seen == {} && calls == []
    {
      this.world, this.cb, seen, calls := world, cb, {}, [];
    }

    ghost function State(stop: bool): Walk
      reads this
    {
      Walk(seen, calls, stop)
    }

    /** The recursive callback of the walk. */
    method CbRecursive(level: nat, id: Identity) returns (stop: bool)
      requires Closed(world) && id in world.ids && id != Anonymous
      modifies this
      ensures State(stop) == Visit(world, cb, level, id, old(State(false)))
      decreases world.ids - seen, 0, 0
    {
      if id == Nil { return false; }
      if id in seen { return false; }
      seen := seen + {id};
      calls := calls + [Call(level, id)];
      if cb(level, id) { return true; }
      var m := world.manager(id);
      if m.Some? {
        ghost var s1 := State(false);
        var members := world.members(m.value);
        var i := 0;
        var stopped := false;
        while i < |members| && !stopped
          invariant 0 <= i <= |members|
          invariant s1.seen <= seen
          invariant Within(AllFaces(world, members[i..]), world.ids)
          invariant VisitAll(world, cb, level + 1, AllFaces(world, members), s1)
                 == if stopped then State(true) else VisitAll(world, cb, level + 1, AllFaces(world, members[i..]), State(false))
        {
          ghost var faces, rest := Faces(world, members[i]), AllFaces(world, members[i + 1..]);
          assert members[i..][1..] == members[i + 1..];
          assert AllFaces(world, members[i..]) == faces + rest;
          assert Within(faces, world.ids) && Within(rest, world.ids);
          VisitAllSplit(world, cb, level + 1, faces, rest, State(false));
          stopped := WalkShallow(Faces(world, members[i]), level + 1);
          i := i + 1;
        }
      }
      return false;
    }

    /** Offers the faces of a value to the recursive callback, one after the other, skipping anonymous ones. */
    method WalkShallow(faces: seq<Identity>, level: nat) returns (stop: bool)
      requires Closed(world) && Within(faces, world.ids)
      modifies this
      ensures State(stop) == VisitAll(world, cb, level, faces, old(State(false)))
      decreases world.ids - seen, 1, 4
    {
      var i := 0;
      stop := false;
      ghost var s := State(false);
      while i < |faces| && !stop
        invariant 0 <= i <= |faces|
        invariant s.seen <= seen
        invariant VisitAll(world, cb, level, faces, s)
               == if stop then State(true) else VisitAll(world, cb, level, faces[i..], State(false))
      {
        assert faces[i..][1..] == faces[i + 1..];
        if faces[i] != Anonymous {
          stop := CbRecursive(level, faces[i]);
        }
        i := i + 1;
      }
    }
  }

  /** The deep walk: a fresh set of seen identities, then the faces of the starting value. */
  method WalkIdentitiesDeep(world: World, cb: Callback, start: seq<Identity>) returns (calls: seq<Call>)
    requires Closed(world) && Within(start, world.ids)
    ensures calls == WalkDeep(world, cb, start).calls
  {
    var walker := new Walker(world, cb);
    var stop := walker.WalkShallow(start, 0);
    calls := walker.calls;
  }
}
