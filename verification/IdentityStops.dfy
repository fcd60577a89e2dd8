/** When the deep walk of identity/identity.go ends as soon as its callback asks for it. */
module IdentityStops {
  import opened Common
  import opened IdentityNames
  import opened IdentityWalk

  ghost predicate Distinct(ids: seq<Identity>)
  {
    forall i, j :: 0 <= i < j < |ids| ==> ids[i] != ids[j]
  }

  /**
    A way down on which the callback does not stop, to an identity `b` on which it does, and an identity `c` that the
    walk could still come to.
   */
  ghost predicate Loses(cb: Callback, path: seq<Identity>, b: Identity, c: Identity)
  {
    && path != [] && Distinct(path + [b, c]) && (forall id :: id in path + [b, c] ==> IsReal(id))
    && (forall i :: 0 <= i < |path| ==> !cb(i, path[i])) && cb(|path|, b)
  }

  // ---------------------------------------------------------------------------------------------
  // A world in which the stop is lost

  function IndexOf(path: seq<Identity>, id: Identity): (i: nat)
    requires id in path
    ensures i < |path| && path[i] == id
  {
    if path[0] == id then 0 else 1 + IndexOf(path[1..], id)
  }

  /** Each identity of the way down leads to the next one, and the last of them to `b`. */
  function ChainWorld(path: seq<Identity>, b: Identity, c: Identity): World
  {
    World((set id | id in path) + {b, c},
          (m: nat) => if m + 1 < |path| then [path[m + 1]] else [b],
          id => if id in path then Some(IndexOf(path, id)) else None,
          id => None,
          id => None)
  }

  lemma ChainOffers(path: seq<Identity>, b: Identity, c: Identity, i: nat)
    requires Distinct(path + [b, c]) && i <= |path|
    ensures var w, chain := ChainWorld(path, b, c), path + [b];
            && (i < |path| ==> Offers(w, chain[i]) == [chain[i + 1]])
            && Offers(w, b) == [] && Offers(w, c) == []
  {
    var w, all := ChainWorld(path, b, c), path + [b, c];
    assert forall k :: 0 <= k < |path| ==> all[k] == path[k];
    assert all[|path|] == b && all[|path| + 1] == c;
    if i < |path| {
      assert IndexOf(path, path[i]) == i by {
        var k := IndexOf(path, path[i]);
        assert all[k] == all[i];
      }
      var next := (path + [b])[i + 1];
      assert w.members(i) == [next];
      assert [next][1..] == [] && Faces(w, next) == [next];
      assert AllFaces(w, [next]) == Faces(w, next) + AllFaces(w, []) == [next];
    }
  }

  lemma ChainIsClosed(path: seq<Identity>, b: Identity, c: Identity)
    requires path != [] && Distinct(path + [b, c])
    ensures Closed(ChainWorld(path, b, c)) && Within([path[0], c], ChainWorld(path, b, c).ids)
  {
    var w := ChainWorld(path, b, c);
    forall id | id in w.ids ensures Within(Offers(w, id), w.ids) {
      if id in path {
        ChainOffers(path, b, c, IndexOf(path, id));
      } else {
        ChainOffers(path, b, c, 0);
      }
    }
  }

  /** Going down the chain ends with the call on `b`, and does not stop what is above it. */
  lemma {:induction false} ChainVisit(cb: Callback, path: seq<Identity>, b: Identity, c: Identity, i: nat, s: Walk)
    requires Loses(cb, path, b, c) && i <= |path|
    requires Closed(ChainWorld(path, b, c)) && forall k :: i <= k <= |path| ==> (path + [b])[k] !in s.seen
    requires c !in s.seen && (path + [b])[i] in ChainWorld(path, b, c).ids
    ensures var r := Visit(ChainWorld(path, b, c), cb, i, (path + [b])[i], s);
            && r.calls != [] && r.calls[|r.calls| - 1] == Call(|path|, b)
            && (r.stop <==> i == |path|) && c !in r.seen
    decreases |path| - i
  {
    var w, chain, all := ChainWorld(path, b, c), path + [b], path + [b, c];
    ChainOffers(path, b, c, i);
    assert all[i] == chain[i] && all[|path| + 1] == c && chain[i] in all;
    if i < |path| {
      var s1 := Walk(s.seen + {chain[i]}, s.calls + [Call(i, chain[i])], false);
      assert forall k :: i < k <= |path| ==> chain[k] == all[k] != all[i];
      assert chain[i + 1] in w.ids by {
        assert chain[i + 1] == if i + 1 < |path| then path[i + 1] else b;
      }
      ChainVisit(cb, path, b, c, i + 1, s1);
      var r := Visit(w, cb, i + 1, chain[i + 1], s1);
      assert [chain[i + 1]][1..] == [];
      assert VisitAll(w, cb, i + 1, [chain[i + 1]], s1) == if r.stop then r else r.(stop := false);
    }
  }

  /** For every such callback there is a world in which the walk goes on after the stop. */
  lemma StopIsLost(cb: Callback, path: seq<Identity>, b: Identity, c: Identity) returns (w: World, start: seq<Identity>)
    requires Loses(cb, path, b, c)
    ensures Closed(w) && Within(start, w.ids) && !StopsAtOnce(cb, WalkDeep(w, cb, start).calls)
  {
    w, start := ChainWorld(path, b, c), [path[0], c];
    ChainIsClosed(path, b, c);
    ChainOffers(path, b, c, 0);
    var s, chain, all := Walk({}, [], false), path + [b], path + [b, c];
    assert chain[0] == path[0] && all[|path| + 1] == c && c in all;
    ChainVisit(cb, path, b, c, 0, s);
    var r := Visit(w, cb, 0, path[0], s);
    assert start[1..] == [c] && [c][1..] == [];
    var r1 := Walk(r.seen + {c}, r.calls + [Call(0, c)], false);
    assert VisitAll(w, cb, 1, Offers(w, c), r1) == r1;
    var r2 := Visit(w, cb, 0, c, r);
    assert r2.calls == r.calls + [Call(0, c)];
    assert VisitAll(w, cb, 0, [c], r).calls == r2.calls;
    assert WalkDeep(w, cb, start).calls == r2.calls;
    assert r2.calls[|r.calls| - 1] == Call(|path|, b);
  }

  // ---------------------------------------------------------------------------------------------
  // Where a stop was lost, there is such a way down

  ghost predicate Reported(id: Identity, calls: seq<Call>)
  {
    exists c :: c in calls && c.id == id
  }

  /** `path` is a way down through identities that have been reported and on which the callback did not stop. */
  ghost predicate Trace(cb: Callback, path: seq<Identity>, calls: seq<Call>)
  {
    Distinct(path) && forall j :: 0 <= j < |path| ==> IsReal(path[j]) && !cb(j, path[j]) && Reported(path[j], calls)
  }

  ghost predicate Known(s: Walk)
  {
    forall c :: c in s.calls ==> c.id in s.seen
  }

  ghost predicate Backed(cb: Callback, calls: seq<Call>, i: nat)
    requires i < |calls|
  {
    exists path :: Trace(cb, path, calls[..i]) && |path| == calls[i].level
  }

  /** Every call below the top level was reached by such a way down. */
  ghost predicate AllBacked(cb: Callback, calls: seq<Call>)
  {
    forall i :: 0 <= i < |calls| ==> IsReal(calls[i].id) && Backed(cb, calls, i)
  }

  lemma TraceGrows(cb: Callback, path: seq<Identity>, calls: seq<Call>, more: seq<Call>)
    requires Trace(cb, path, calls) && calls <= more
    ensures Trace(cb, path, more)
  {
    forall j | 0 <= j < |path| ensures Reported(path[j], more) {
      var c :| c in calls && c.id == path[j];
      assert c in more;
    }
  }

  lemma BackedReport(cb: Callback, path: seq<Identity>, calls: seq<Call>, c: Call)
    requires AllBacked(cb, calls) && Trace(cb, path, calls) && |path| == c.level && IsReal(c.id)
    ensures AllBacked(cb, calls + [c])
  {
    forall i | 0 <= i < |calls + [c]| ensures IsReal((calls + [c])[i].id) && Backed(cb, calls + [c], i) {
      if i < |calls| {
        assert Backed(cb, calls, i) && (calls + [c])[..i] == calls[..i];
      } else {
        assert (calls + [c])[..i] == calls;
      }
    }
  }

  lemma TraceDown(cb: Callback, path: seq<Identity>, s: Walk, id: Identity)
    requires Trace(cb, path, s.calls) && Known(s) && id !in s.seen && IsReal(id) && !cb(|path|, id)
    ensures Trace(cb, path + [id], s.calls + [Call(|path|, id)])
  {
    var c := Call(|path|, id);
    assert c in s.calls + [c];
    TraceGrows(cb, path, s.calls, s.calls + [c]);
    forall j | 0 <= j < |path| ensures path[j] != id {
      assert Reported(path[j], s.calls);
      var d :| d in s.calls && d.id == path[j];
    }
  }

  function Reporting(level: nat, id: Identity, s: Walk): Walk
  {
    Walk(s.seen + {id}, s.calls + [Call(level, id)], false)
  }

  lemma ReportIsBacked(cb: Callback, path: seq<Identity>, id: Identity, s: Walk)
    requires Known(s) && AllBacked(cb, s.calls) && Trace(cb, path, s.calls) && !Skipped(id, s.seen)
    ensures var s1 := Reporting(|path|, id, s);
            && Known(s1) && AllBacked(cb, s1.calls) && s.calls <= s1.calls
            && (!cb(|path|, id) ==> Trace(cb, path + [id], s1.calls))
  {
    BackedReport(cb, path, s.calls, Call(|path|, id));
    if !cb(|path|, id) {
      TraceDown(cb, path, s, id);
    }
  }

  lemma VisitUnfolds(w: World, cb: Callback, level: nat, id: Identity, s: Walk)
    requires Closed(w) && id in w.ids && !Skipped(id, s.seen)
    ensures var s1 := Reporting(level, id, s);
            Visit(w, cb, level, id, s)
            == if cb(level, id) then s1.(stop := true) else VisitAll(w, cb, level + 1, Offers(w, id), s1).(stop := false)
  {}

  lemma {:induction false} VisitIsBacked(w: World, cb: Callback, path: seq<Identity>, id: Identity, s: Walk)
    requires Closed(w) && id in w.ids && Known(s) && AllBacked(cb, s.calls) && Trace(cb, path, s.calls)
    ensures var r := Visit(w, cb, |path|, id, s); Known(r) && AllBacked(cb, r.calls) && s.calls <= r.calls
    decreases w.ids - s.seen, 0, 0
  {
    if !Skipped(id, s.seen) {
      var s1 := Reporting(|path|, id, s);
      ReportIsBacked(cb, path, id, s);
      VisitUnfolds(w, cb, |path|, id, s);
      if !cb(|path|, id) {
        VisitAllIsBacked(w, cb, path + [id], Offers(w, id), s1);
      }
    }
  }

  lemma {:induction false} VisitAllIsBacked(w: World, cb: Callback, path: seq<Identity>, faces: seq<Identity>, s: Walk)
    requires Closed(w) && Within(faces, w.ids) && Known(s) && AllBacked(cb, s.calls) && Trace(cb, path, s.calls)
    ensures var r := VisitAll(w, cb, |path|, faces, s); Known(r) && AllBacked(cb, r.calls) && s.calls <= r.calls
    decreases w.ids - s.seen, 1, |faces|
  {
    if faces != [] {
      VisitIsBacked(w, cb, path, faces[0], s);
      var r := Visit(w, cb, |path|, faces[0], s);
      if !r.stop {
        TraceGrows(cb, path, s.calls, r.calls);
        VisitAllIsBacked(w, cb, path, faces[1..], r);
      }
    }
  }

  /** No call at the top level asked to stop. */
  ghost predicate TopGoesOn(cb: Callback, calls: seq<Call>)
  {
    forall c :: c in calls && c.level == 0 ==> !cb(0, c.id)
  }

  /** At the top level a stop ends the walk; further down there are no calls of the top level. */
  lemma {:induction false} VisitAtTop(w: World, cb: Callback, level: nat, id: Identity, s: Walk)
    requires Closed(w) && id in w.ids && TopGoesOn(cb, s.calls)
    ensures var r := Visit(w, cb, level, id, s);
            && (level > 0 || !r.stop ==> TopGoesOn(cb, r.calls))
            && (r.stop ==> r.calls != [] && TopGoesOn(cb, r.calls[..|r.calls| - 1]))
    decreases w.ids - s.seen, 0, 0
  {
    if !Skipped(id, s.seen) {
      var s1 := Walk(s.seen + {id}, s.calls + [Call(level, id)], false);
      assert s1.calls[..|s1.calls| - 1] == s.calls;
      if !cb(level, id) {
        VisitAllAtTop(w, cb, level + 1, Offers(w, id), s1);
      }
    }
  }

  lemma {:induction false} VisitAllAtTop(w: World, cb: Callback, level: nat, faces: seq<Identity>, s: Walk)
    requires Closed(w) && Within(faces, w.ids) && TopGoesOn(cb, s.calls)
    ensures var r := VisitAll(w, cb, level, faces, s);
            && (level > 0 || !r.stop ==> TopGoesOn(cb, r.calls))
            && (r.stop ==> r.calls != [] && TopGoesOn(cb, r.calls[..|r.calls| - 1]))
    decreases w.ids - s.seen, 1, |faces|
  {
    if faces != [] {
      VisitAtTop(w, cb, level, faces[0], s);
      var r := Visit(w, cb, level, faces[0], s);
      if !r.stop {
        VisitAllAtTop(w, cb, level, faces[1..], r);
      }
    }
  }

  lemma CallsAreBacked(w: World, cb: Callback, start: seq<Identity>)
    requires Closed(w) && Within(start, w.ids)
    ensures AllBacked(cb, WalkDeep(w, cb, start).calls)
  {
    var s := Walk({}, [], false);
    assert Trace(cb, [], s.calls);
    VisitAllIsBacked(w, cb, [], start, s);
  }

  lemma StopBelowTop(w: World, cb: Callback, start: seq<Identity>, i: nat)
    requires Closed(w) && Within(start, w.ids)
    requires var calls := WalkDeep(w, cb, start).calls; i < |calls| - 1 && cb(calls[i].level, calls[i].id)
    ensures WalkDeep(w, cb, start).calls[i].level > 0
  {
    VisitAllAtTop(w, cb, 0, start, Walk({}, [], false));
    var r := WalkDeep(w, cb, start);
    assert r.calls[i] in r.calls;
    assert r.stop ==> r.calls[..|r.calls| - 1][i] in r.calls[..|r.calls| - 1];
  }

  lemma TraceAvoids(cb: Callback, path: seq<Identity>, calls: seq<Call>, i: nat, id: Identity)
    requires i < |calls| && Trace(cb, path, calls[..i])
    requires forall k :: 0 <= k < i ==> calls[k].id != id
    ensures id !in path
  {
    forall j | 0 <= j < |path| ensures path[j] != id {
      assert Reported(path[j], calls[..i]);
      var d :| d in calls[..i] && d.id == path[j];
      var k :| 0 <= k < i && calls[k] == d;
    }
  }

  /** A stop below the top level was made at the end of a way down, and the next call came to another identity. */
  lemma PathToStop(cb: Callback, calls: seq<Call>, i: nat) returns (path: seq<Identity>, b: Identity, c: Identity)
    requires i + 1 < |calls| && AllBacked(cb, calls) && calls[i].level > 0 && cb(calls[i].level, calls[i].id)
    requires forall j, k :: 0 <= j < k < |calls| ==> calls[j].id != calls[k].id
    ensures Loses(cb, path, b, c)
  {
    assert Backed(cb, calls, i) && IsReal(calls[i + 1].id);
    path :| Trace(cb, path, calls[..i]) && |path| == calls[i].level;
    b, c := calls[i].id, calls[i + 1].id;
    TraceAvoids(cb, path, calls, i, b);
    TraceAvoids(cb, path, calls, i, c);
    assert forall id :: id in path + [b, c] ==> id in path || id == b || id == c;
  }

  lemma LostStopHasPath(w: World, cb: Callback, start: seq<Identity>, i: nat) returns (path: seq<Identity>, b: Identity, c: Identity)
    requires Closed(w) && Within(start, w.ids)
    requires var calls := WalkDeep(w, cb, start).calls; i < |calls| - 1 && cb(calls[i].level, calls[i].id)
    ensures Loses(cb, path, b, c)
  {
    CallsAreReached(w, cb, start);
    CallsAreBacked(w, cb, start);
    StopBelowTop(w, cb, start, i);
    path, b, c := PathToStop(cb, WalkDeep(w, cb, start).calls, i);
  }

  /**
    The promise that returning true from the callback ends the walk holds in every world if and only if the callback
    never stops at the end of a way down through other identities while there is still one to come to.
   */
  lemma StopEndsWalk(cb: Callback)
    ensures (forall w, start :: Closed(w) && Within(start, w.ids) ==> StopsAtOnce(cb, WalkDeep(w, cb, start).calls))
       <==> !exists path, b, c :: Loses(cb, path, b, c)
  {
    if path, b, c :| Loses(cb, path, b, c) {
      var w, start := StopIsLost(cb, path, b, c);
      assert !StopsAtOnce(cb, WalkDeep(w, cb, start).calls);
    } else {
      forall w, start | Closed(w) && Within(start, w.ids) ensures StopsAtOnce(cb, WalkDeep(w, cb, start).calls) {
        var calls := WalkDeep(w, cb, start).calls;
        forall i | 0 <= i < |calls| - 1 ensures !cb(calls[i].level, calls[i].id) {
          if cb(calls[i].level, calls[i].id) {
            var path, b, c := LostStopHasPath(w, cb, start, i);
          }
        }
      }
    }
  }

  /** So a callback that asks to stop only at the top level does end the walk. */
  lemma TopLevelStopEndsWalk(w: World, cb: Callback, start: seq<Identity>)
    requires Closed(w) && Within(start, w.ids)
    requires forall l, x :: l > 0 ==> !cb(l, x)
    ensures StopsAtOnce(cb, WalkDeep(w, cb, start).calls)
  {
    StopEndsWalk(cb);
  }

  /** And one that asks for it at some level below, and nowhere else, does not. */
  lemma LevelStopIsLost(cb: Callback, level: nat)
    requires level > 0 && forall l, x :: cb(l, x) <==> l == level
    ensures exists w, start :: Closed(w) && Within(start, w.ids) && !StopsAtOnce(cb, WalkDeep(w, cb, start).calls)
  {
    var path := seq(level, i requires 0 <= i < level => Named(i));
    assert Loses(cb, path, Named(level), Named(level + 1));
    var w, start := StopIsLost(cb, path, Named(level), Named(level + 1));
  }
}
