/** What an identity is. */
module IdentityNames {
  /** `Nil` is Go's nil interface; the two named constants are the special identities of the package. */
  datatype Identity = Nil | Anonymous | GenghisKhan | Named(n: nat)

  predicate IsReal(id: Identity)
  {
    id != Nil && id != Anonymous
  }
}

/** The managers that hold identities, and which identities can be reached from a manager. */
module Identities {
  import opened Common
  import opened IdentityNames

  type Manager = nat

  datatype ManagerIdentity = ManagerIdentity(manager: Option<Manager>, identity: Identity)

  /**
    What the identities of a site answer when asked through their interfaces. `None` says that an identity
    does not implement the interface. `managers` is the finite set of managers in use.
   */
  datatype World = World(
    managers: set<Manager>,
    members: Manager -> seq<Identity>,
    manager: Identity -> Option<Manager>,
    unwrap: Identity -> Identity,
    findFirst: Identity -> Option<ManagerIdentity>,
    base: Identity -> string,
    eq: Identity -> Option<Identity -> bool>,
    isProbablyDependent: Identity -> Option<Identity -> bool>,
    isProbablyDependency: Identity -> Option<Identity -> bool>,
    probablyEq: Identity -> Option<Identity -> bool>)
  {
    ghost predicate Closed()
    {
      && (forall v :: manager(v).Some? ==> manager(v).value in managers)
      && (forall v :: findFirst(v).Some? && findFirst(v).value.manager.Some? ==> findFirst(v).value.manager.value in managers)
    }
  }

  predicate Says(answer: Option<Identity -> bool>, id: Identity)
  {
    answer.Some? && answer.value(id)
  }

  /** `v` counts as an occurrence of `id`: it is equal to it or, unless exact matches are asked for, probably related. */
  predicate Matches(w: World, exact: bool, id: Identity, v: Identity)
  {
    var id2 := w.unwrap(v);
    && id2 != Anonymous
    && (|| (if w.eq(id).Some? then Says(w.eq(id), id2) else id == id2)
        || (&& !exact && id2 != Nil
            && (|| id2 == GenghisKhan
                || w.base(id) == w.base(id2)
                || Says(w.isProbablyDependent(id), id2)
                || Says(w.probablyEq(id), id2)
                || Says(w.isProbablyDependency(id2), id)
                || Says(w.probablyEq(id2), id))))
  }

  /**
    The ways to match, one by one. An exact search asks `id` for its own notion of equality, or compares; any other
    search also takes the wildcard, a common base, and what either of the two says about the other.
   */
  lemma WaysToMatch(w: World, exact: bool, id: Identity, v: Identity, id2: Identity)
    requires w.unwrap(v) == id2 && IsReal(id2)
    ensures w.eq(id).Some? && w.eq(id).value(id2) ==> Matches(w, exact, id, v)
    ensures w.eq(id).None? && id == id2 ==> Matches(w, exact, id, v)
    ensures !exact && id2 == GenghisKhan ==> Matches(w, exact, id, v)
    ensures !exact && w.base(id) == w.base(id2) ==> Matches(w, exact, id, v)
    ensures !exact && Says(w.isProbablyDependent(id), id2) ==> Matches(w, exact, id, v)
    ensures !exact && Says(w.isProbablyDependency(id2), id) ==> Matches(w, exact, id, v)
    ensures !exact && (Says(w.probablyEq(id), id2) || Says(w.probablyEq(id2), id)) ==> Matches(w, exact, id, v)
    ensures exact && Matches(w, exact, id, v) ==> if w.eq(id).Some? then w.eq(id).value(id2) else id == id2
  {
  }

  /** A match is reachable from `v` itself through at most `n` managers; a find-first provider stands for what it provides. */
  ghost predicate HitWithin(w: World, exact: bool, id: Identity, v: Identity, n: nat)
    decreases n, 1
  {
    match w.findFirst(v)
    case Some(mi) => Matches(w, exact, id, mi.identity) || (mi.manager.Some? && ReachesWithin(w, exact, id, mi.manager.value, n))
    case None => Matches(w, exact, id, v)
  }

  ghost predicate ReachesWithin(w: World, exact: bool, id: Identity, m: Manager, n: nat)
    decreases n, 0
  {
    n > 0 && exists v :: v in w.members(m) && MemberWithin(w, exact, id, v, n - 1)
  }

  ghost predicate MemberWithin(w: World, exact: bool, id: Identity, v: Identity, n: nat)
    decreases n, 2
  {
    HitWithin(w, exact, id, v, n) || (w.manager(v).Some? && ReachesWithin(w, exact, id, w.manager(v).value, n))
  }

  /** A matching identity is reachable from the manager `m`. */
  ghost predicate Reaches(w: World, exact: bool, id: Identity, m: Manager)
  {
    exists n: nat :: ReachesWithin(w, exact, id, m, n)
  }

  ghost predicate Hits(w: World, exact: bool, id: Identity, v: Identity)
  {
    exists n: nat :: HitWithin(w, exact, id, v, n)
  }

  ghost predicate ManagerReaches(w: World, exact: bool, id: Identity, m: Option<Manager>)
  {
    m.Some? && Reaches(w, exact, id, m.value)
  }

  lemma {:induction false} ReachesLonger(w: World, exact: bool, id: Identity, m: Manager, n: nat, k: nat)
    requires ReachesWithin(w, exact, id, m, n) && n <= k
    ensures ReachesWithin(w, exact, id, m, k)
    decreases n, 0
  {
    var v :| v in w.members(m) && MemberWithin(w, exact, id, v, n - 1);
    if HitWithin(w, exact, id, v, n - 1) {
      HitsLonger(w, exact, id, v, n - 1, k - 1);
    } else {
      ReachesLonger(w, exact, id, w.manager(v).value, n - 1, k - 1);
    }
    assert MemberWithin(w, exact, id, v, k - 1);
  }

  lemma {:induction false} HitsLonger(w: World, exact: bool, id: Identity, v: Identity, n: nat, k: nat)
    requires HitWithin(w, exact, id, v, n) && n <= k
    ensures HitWithin(w, exact, id, v, k)
    decreases n, 1
  {
    if w.findFirst(v).Some? {
      var mi := w.findFirst(v).value;
      if !Matches(w, exact, id, mi.identity) {
        ReachesLonger(w, exact, id, mi.manager.value, n, k);
      }
    }
  }

  /** Reachability satisfies the equation that the search computes by. */
  lemma ReachesStep(w: World, exact: bool, id: Identity, m: Manager)
    ensures Reaches(w, exact, id, m) <==> exists v :: v in w.members(m) && Leads(w, exact, id, v)
  {
    if n: nat :| ReachesWithin(w, exact, id, m, n) {
      var v :| v in w.members(m) && MemberWithin(w, exact, id, v, n - 1);
      var k: nat := n - 1;
      assert HitWithin(w, exact, id, v, k) ==> Hits(w, exact, id, v);
      assert w.manager(v).Some? && ReachesWithin(w, exact, id, w.manager(v).value, k) ==> ManagerReaches(w, exact, id, w.manager(v));
      assert Leads(w, exact, id, v);
    }
    if v :| v in w.members(m) && Leads(w, exact, id, v) {
      var n: nat :| HitWithin(w, exact, id, v, n) || (w.manager(v).Some? && ReachesWithin(w, exact, id, w.manager(v).value, n));
      assert MemberWithin(w, exact, id, v, n);
      assert ReachesWithin(w, exact, id, m, n + 1);
    }
  }

  /** A member leads to a match: it is one itself, or its own manager reaches one. */
  ghost predicate Leads(w: World, exact: bool, id: Identity, v: Identity)
  {
    Hits(w, exact, id, v) || ManagerReaches(w, exact, id, w.manager(v))
  }

  lemma HitsStep(w: World, exact: bool, id: Identity, v: Identity)
    ensures Hits(w, exact, id, v) <==>
            match w.findFirst(v)
            case Some(mi) => Matches(w, exact, id, mi.identity) || ManagerReaches(w, exact, id, mi.manager)
            case None => Matches(w, exact, id, v)
  {
    match w.findFirst(v)
    case None => assert HitWithin(w, exact, id, v, 0) <==> Matches(w, exact, id, v);
    case Some(mi) =>
      if Matches(w, exact, id, mi.identity) {
        assert HitWithin(w, exact, id, v, 0);
      } else if n: nat :| HitWithin(w, exact, id, v, n) {
        assert ReachesWithin(w, exact, id, mi.manager.value, n);
      }
      if ManagerReaches(w, exact, id, mi.manager) {
        var n: nat :| ReachesWithin(w, exact, id, mi.manager.value, n);
        assert HitWithin(w, exact, id, v, n);
      }
  }
}

/** The dependency finder of identity/finder.go. */
module DependencyFinder {
  import opened Common
  import opened IdentityNames
  import opened Identities

  type FinderResult = r: int | 0 <= r <= 3
  const NOT_FOUND: FinderResult := 0
  const FOUND_ONE_OF_MANY_REPETITION: FinderResult := 1
  const FOUND_ONE_OF_MANY: FinderResult := 2
  const FOUND: FinderResult := 3

  /** `TooManyLevels` is the panic of an exact search that passes level 100. */
  datatype Answer = Result(value: FinderResult) | TooManyLevels

  const MAX_LEVELS := 100

  /** The state of one query. */
  class SearchID {
    const id: Identity
    const maxDepth: int
    var seen: set<Manager>

    constructor (id: Identity, maxDepth: int)
      ensures this.id == id && this.maxDepth == maxDepth && seen == {}
    {
      this.id, this.maxDepth, seen := id, maxDepth, {};
    }
  }

  /** What the guards at the head of a query answer before any search. */
  function Shortcut(id: Identity, container: Identity): Option<FinderResult>
  {
    if id == Anonymous || container == Anonymous then Some(NOT_FOUND)
    else if id == GenghisKhan && container == GenghisKhan then Some(NOT_FOUND)
    else if id == GenghisKhan then Some(FOUND)
    else if id == container then Some(FOUND)
    else if id == Nil || container == Nil then Some(NOT_FOUND)
    else None
  }

  /** Anonymous identities contain nothing and are contained in nothing; the wildcard is in everything else but itself. */
  lemma ShortcutCases(id: Identity, container: Identity)
    ensures Shortcut(Anonymous, container) == Shortcut(id, Anonymous) == Some(NOT_FOUND)
    ensures Shortcut(GenghisKhan, container) == if container in {Anonymous, GenghisKhan} then Some(NOT_FOUND) else Some(FOUND)
    ensures id !in {Anonymous, GenghisKhan} ==> Shortcut(id, id) == Some(FOUND)
    ensures id !in {Anonymous, GenghisKhan, Nil} ==> Shortcut(id, Nil) == Shortcut(Nil, id) == Some(NOT_FOUND)
    ensures Shortcut(id, container).None? <==>
      id !in {Anonymous, GenghisKhan, Nil} && container !in {Anonymous, Nil} && id != container
  {
  }

  /** Managers are ranked below the managers that lead to them, and there are no find-first providers. */
  ghost predicate Acyclic(w: World, rank: Manager -> nat)
  {
    && (forall v :: w.findFirst(v).None?)
    && (forall m, v :: v in w.members(m) && w.manager(v).Some? ==> rank(w.manager(v).value) < rank(m))
  }

  /** And there are at most 100 of them on a path. */
  ghost predicate Ranked(w: World, rank: Manager -> nat)
  {
    Acyclic(w, rank) && forall m :: rank(m) < MAX_LEVELS
  }

  /** The `i`-th member of `m` leads to the manager `x`. */
  predicate Child(w: World, m: Manager, i: nat, x: Manager)
  {
    i < |w.members(m)| && w.manager(w.members(m)[i]) == Some(x)
  }

  /** No manager holds a find-first provider. */
  ghost predicate PlainMembers(w: World)
  {
    forall m, v :: v in w.members(m) ==> w.findFirst(v).None?
  }

  /** No manager is led to twice, and none holds a find-first provider. */
  ghost predicate LedToOnce(w: World)
  {
    && PlainMembers(w)
    && (forall m1, i1: nat, m2, i2: nat, x :: Child(w, m1, i1, x) && Child(w, m2, i2, x) ==> m1 == m2 && i1 == i2)
  }

  ghost predicate NotLedTo(w: World, m: Option<Manager>)
  {
    forall p, i: nat, x: Manager :: Child(w, p, i, x) ==> m != Some(x)
  }

  function LevelsLeft(level: nat): nat
  {
    if level > MAX_LEVELS then 0 else MAX_LEVELS + 1 - level
  }

  /** `path` leads down from `m`: each is a member of the manager that the one before it leads to. */
  ghost predicate LeadsDown(w: World, m: Option<Manager>, path: seq<Identity>)
    decreases |path|
  {
    path == [] || (m.Some? && path[0] in w.members(m.value) && LeadsDown(w, w.manager(path[0]), path[1..]))
  }

  ghost predicate HasPath(w: World, m: Option<Manager>, length: nat)
  {
    exists path :: |path| == length && LeadsDown(w, m, path)
  }

  lemma PathStep(w: World, m: Manager, length: nat)
    requires length > 0
    ensures HasPath(w, Some(m), length) <==> exists v :: v in w.members(m) && HasPath(w, w.manager(v), length - 1)
  {
    if path :| |path| == length && LeadsDown(w, Some(m), path) {
      assert |path[1..]| == length - 1 && LeadsDown(w, w.manager(path[0]), path[1..]);
    }
    if v :| v in w.members(m) && HasPath(w, w.manager(v), length - 1) {
      var path :| |path| == length - 1 && LeadsDown(w, w.manager(v), path);
      assert ([v] + path)[1..] == path;
      assert LeadsDown(w, Some(m), [v] + path);
    }
  }

  /** Ranks bound the length of a path. */
  lemma {:induction false} RankedHasNoLongPath(w: World, rank: Manager -> nat, m: Option<Manager>, length: nat)
    requires Acyclic(w, rank) && (m.Some? ==> length > rank(m.value) + 1) && (m.None? ==> length > 0)
    ensures !HasPath(w, m, length)
    decreases if m.Some? then rank(m.value) + 1 else 0
  {
    if m.Some? {
      PathStep(w, m.value, length);
      forall v | v in w.members(m.value) ensures !HasPath(w, w.manager(v), length - 1) {
        RankedHasNoLongPath(w, rank, w.manager(v), length - 1);
      }
    } else {
      forall path | LeadsDown(w, m, path) ensures path == [] {
      }
    }
  }

  /** What a search without caches finds from `m` at `level`: the depth limit is tested first, then the limit on levels. */
  ghost predicate Finds(w: World, exact: bool, id: Identity, maxDepth: int, m: Option<Manager>, level: nat)
    decreases LevelsLeft(level)
  {
    !(0 <= maxDepth < level)
    && (level > MAX_LEVELS || (m.Some? && exists v :: v in w.members(m.value) && FindsAt(w, exact, id, maxDepth, v, level)))
  }

  ghost predicate FindsAt(w: World, exact: bool, id: Identity, maxDepth: int, v: Identity, level: nat)
    requires level <= MAX_LEVELS
    decreases LevelsLeft(level), 0
  {
    Matches(w, exact, id, v) || Finds(w, exact, id, maxDepth, w.manager(v), level + 1)
  }

  lemma FindsSomewhere(w: World, exact: bool, id: Identity, maxDepth: int, m: Manager, level: nat) returns (finds: seq<bool>)
    ensures |finds| == |w.members(m)|
    ensures level <= MAX_LEVELS ==>
      forall j :: 0 <= j < |finds| ==> (finds[j] <==> FindsAt(w, exact, id, maxDepth, w.members(m)[j], level))
    ensures level <= MAX_LEVELS && !(0 <= maxDepth < level) ==>
      (Finds(w, exact, id, maxDepth, Some(m), level) <==> exists j :: 0 <= j < |finds| && finds[j])
  {
    finds := seq(|w.members(m)|, j requires 0 <= j < |w.members(m)| =>
      level <= MAX_LEVELS && FindsAt(w, exact, id, maxDepth, w.members(m)[j], level));
    if v :| v in w.members(m) && level <= MAX_LEVELS && FindsAt(w, exact, id, maxDepth, v, level) {
      var j :| 0 <= j < |w.members(m)| && w.members(m)[j] == v;
    }
  }

  ghost predicate ClosedUpwards(w: World, seen: set<Manager>)
  {
    forall m, i: nat, x :: Child(w, m, i, x) && x in seen ==> m in seen
  }

  /** A query that has seen `seen` comes to `m` for the first time, from above. */
  ghost predicate Ahead(w: World, seen: set<Manager>, m: Option<Manager>)
  {
    m.Some? ==> m.value !in seen && forall p, i: nat :: Child(w, p, i, m.value) ==> p in seen
  }

  /** The members of `m` from the `i`-th on lead to managers that have not been seen. */
  ghost predicate MembersAhead(w: World, seen: set<Manager>, m: Manager, i: nat)
  {
    m in seen && forall j: nat, x :: i <= j && Child(w, m, j, x) ==> x !in seen
  }

  /** What has been seen since `before` is `m` and what is below it. */
  ghost predicate SeenBelow(w: World, before: set<Manager>, seen: set<Manager>, m: Option<Manager>)
  {
    before <= seen && forall p, i: nat, x :: Child(w, p, i, x) && x in seen && x !in before ==> p !in before || m == Some(x)
  }

  /** What has been seen since `before` is below the first `n` members of `m`. */
  ghost predicate SeenBelowMembers(w: World, before: set<Manager>, seen: set<Manager>, m: Manager, n: nat)
  {
    && before <= seen
    && forall p, i: nat, x :: Child(w, p, i, x) && x in seen && x !in before ==> p !in before || (p == m && i < n)
  }

  lemma MemberIsAhead(w: World, seen: set<Manager>, m: Manager, i: nat)
    requires LedToOnce(w) && MembersAhead(w, seen, m, i) && i < |w.members(m)|
    ensures Ahead(w, seen, w.manager(w.members(m)[i]))
  {
    var next := w.manager(w.members(m)[i]);
    assert next.Some? ==> Child(w, m, i, next.value);
  }

  lemma NextMember(w: World, start: set<Manager>, before: set<Manager>, seen: set<Manager>, m: Manager, i: nat)
    requires LedToOnce(w) && m in start && i < |w.members(m)|
    requires SeenBelowMembers(w, start, before, m, i) && MembersAhead(w, before, m, i)
    requires SeenBelow(w, before, seen, w.manager(w.members(m)[i]))
    ensures SeenBelowMembers(w, start, seen, m, i + 1) && MembersAhead(w, seen, m, i + 1)
  {
    var next := w.manager(w.members(m)[i]);
    assert next.Some? ==> Child(w, m, i, next.value);
  }

  /** The search of `m` begins, and when it has found nothing, all that is new is below it. */
  lemma SearchBegins(w: World, seen: set<Manager>, m: Manager)
    requires ClosedUpwards(w, seen) && Ahead(w, seen, Some(m))
    ensures ClosedUpwards(w, seen + {m}) && MembersAhead(w, seen + {m}, m, 0)
  {
  }

  lemma SearchEnds(w: World, before: set<Manager>, seen: set<Manager>, m: Manager)
    requires m !in before && SeenBelowMembers(w, before + {m}, seen, m, |w.members(m)|)
    ensures SeenBelow(w, before, seen, Some(m))
  {
  }

  /** Without a limit of at most 100, that is a match that can be reached, or a path on which the search passes level 100. */
  lemma {:induction false} FindsMatchOrLongPath(w: World, exact: bool, id: Identity, maxDepth: int, m: Option<Manager>, level: nat)
    requires PlainMembers(w) && !(0 <= maxDepth <= MAX_LEVELS) && level <= MAX_LEVELS + 1
    ensures Finds(w, exact, id, maxDepth, m, level) <==> ManagerReaches(w, exact, id, m) || HasPath(w, m, LevelsLeft(level))
    decreases LevelsLeft(level)
  {
    if level > MAX_LEVELS {
      assert LeadsDown(w, m, []);
    } else if m.Some? {
      ReachesStep(w, exact, id, m.value);
      PathStep(w, m.value, LevelsLeft(level));
      forall v | v in w.members(m.value)
        ensures FindsAt(w, exact, id, maxDepth, v, level)
           <==> Leads(w, exact, id, v) || HasPath(w, w.manager(v), LevelsLeft(level) - 1)
      {
        HitsStep(w, exact, id, v);
        FindsMatchOrLongPath(w, exact, id, maxDepth, w.manager(v), level + 1);
      }
    }
  }

  /** With such a limit, it is a match that can be reached through as many managers as the limit leaves. */
  lemma {:induction false} FindsWithinDepth(w: World, exact: bool, id: Identity, maxDepth: int, m: Option<Manager>, level: nat)
    requires PlainMembers(w) && 0 <= maxDepth <= MAX_LEVELS && level <= maxDepth + 1
    ensures Finds(w, exact, id, maxDepth, m, level)
       <==> m.Some? && ReachesWithin(w, exact, id, m.value, maxDepth + 1 - level)
    decreases LevelsLeft(level)
  {
    if level <= maxDepth && m.Some? {
      forall v | v in w.members(m.value)
        ensures FindsAt(w, exact, id, maxDepth, v, level) <==> MemberWithin(w, exact, id, v, maxDepth - level)
      {
        FindsWithinDepth(w, exact, id, maxDepth, w.manager(v), level + 1);
      }
    }
  }

  /**
    What a query is to find from the manager of its container: a match within the depth limit, or, without a limit of
    at most 100, any match that can be reached, or a path that passes level 100.
   */
  ghost predicate Findable(w: World, exact: bool, id: Identity, maxDepth: int, m: Option<Manager>)
  {
    if 0 <= maxDepth <= MAX_LEVELS then m.Some? && ReachesWithin(w, exact, id, m.value, maxDepth + 1)
    else ManagerReaches(w, exact, id, m) || HasPath(w, m, MAX_LEVELS + 1)
  }

  lemma FindsFindable(w: World, exact: bool, id: Identity, maxDepth: int, m: Option<Manager>, level: nat)
    requires PlainMembers(w) && level == 0
    ensures Finds(w, exact, id, maxDepth, m, level) <==> Findable(w, exact, id, maxDepth, m)
  {
    if 0 <= maxDepth <= MAX_LEVELS {
      FindsWithinDepth(w, exact, id, maxDepth, m, level);
    } else {
      FindsMatchOrLongPath(w, exact, id, maxDepth, m, level);
    }
  }

  class Finder {
    const world: World
    const exact: bool
    var answers: map<(Manager, Identity), FinderResult>
    var seenFindOnce: set<Identity>

    /** Set once a search has passed level 100. */
    ghost var overflow: bool

    /** The graph is acyclic, without find-first providers, and every query is unlimited. */
    ghost const complete: bool
    ghost const rank: Manager -> nat

    ghost predicate Valid()
      reads this
    {
      && world.Closed()
      && (complete ==> Ranked(world, rank))
      && (!overflow ==> forall key :: key in answers && answers[key] > FOUND_ONE_OF_MANY_REPETITION ==>
            Reaches(world, exact, key.1, key.0))
      && (complete ==> !overflow && forall key :: key in answers ==>
            answers[key] == if Reaches(world, exact, key.1, key.0) then FOUND else NOT_FOUND)
    }

    constructor (world: World, exact: bool, ghost complete: bool, ghost rank: Manager -> nat)
      requires world.Closed() && (complete ==> Ranked(world, rank))
      ensures Valid() && answers == map[] && seenFindOnce == {} && !overflow
      ensures this.world == world && this.exact == exact && this.complete == complete && this.rank == rank
    {
      this.world, this.exact, answers, seenFindOnce := world, exact, map[], {};
      overflow, this.complete, this.rank := false, complete, rank;
    }

    /** `container` contains `id`: it matches itself, or a match is reachable through its managers. */
    ghost predicate Holds(id: Identity, container: Identity)
    {
      Leads(world, exact, id, container)
    }

    /** A manager that is already seen leads to no match, unless it is one of those above the current search. */
    ghost predicate SeenAreSettled(sid: SearchID, bound: nat)
      reads sid
    {
      complete ==> forall m :: m in sid.seen && Reaches(world, exact, sid.id, m) ==> rank(m) >= bound
    }

    method CheckMaxDepth(sid: SearchID, level: nat) returns (r: Option<Answer>)
      modifies this`overflow
      ensures r == if 0 <= sid.maxDepth < level then Some(Result(NOT_FOUND))
                   else if level <= MAX_LEVELS then None
                   else if exact then Some(TooManyLevels) else Some(Result(FOUND))
      ensures overflow == (old(overflow) || (level > MAX_LEVELS && !(0 <= sid.maxDepth < level)))
    {
      if sid.maxDepth >= 0 && level > sid.maxDepth {
        return Some(Result(NOT_FOUND));
      }
      if level > 100 {
        overflow := true;
        if !exact {
          return Some(Result(FOUND));
        }
        return Some(TooManyLevels);
      }
      return None;
    }

    method DoCheckOne(sid: SearchID, v: Identity) returns (r: FinderResult)
      ensures r == if Matches(world, exact, sid.id, v) then FOUND else NOT_FOUND
    {
      var id2 := world.unwrap(v);
      if id2 == Anonymous { return NOT_FOUND; }
      var id := sid.id;
      if world.eq(id).Some? {
        if Says(world.eq(id), id2) { return FOUND; }
      } else if id == id2 {
        return FOUND;
      }
      if exact { return NOT_FOUND; }
      if id2 == Nil { return NOT_FOUND; }
      if id2 == GenghisKhan { return FOUND; }
      if world.base(id) == world.base(id2) { return FOUND; }
      if Says(world.isProbablyDependent(id), id2) { return FOUND; }
      if Says(world.probablyEq(id), id2) { return FOUND; }
      if Says(world.isProbablyDependency(id2), id) { return FOUND; }
      if Says(world.probablyEq(id2), id) { return FOUND; }
      return NOT_FOUND;
    }

    /** What every part of the search relies on; `bound` is above the rank of what it looks at. */
    ghost predicate Ready(sid: SearchID, level: nat, bound: nat)
      reads this, sid
    {
      && Valid() && SeenAreSettled(sid, bound)
      && sid.id != Anonymous && sid.id != GenghisKhan
      && (complete ==> sid.maxDepth < 0 && level + bound <= MAX_LEVELS)
    }

    /** The answer is right about `truth`: never a false find, and in a complete search the exact answer. */
    ghost predicate Right(a: Answer, truth: bool)
      reads this
    {
      && (a.Result? && a.value > FOUND_ONE_OF_MANY_REPETITION && !overflow ==> truth)
      && (complete ==> a == Result(if truth then FOUND else NOT_FOUND))
      && (a.TooManyLevels? ==> overflow)
    }

    /** A query that cannot panic and meets every manager once: what it has seen is closed under going back up. */
    ghost predicate OnTree(sid: SearchID)
      reads this, sid
    {
      && !complete && (exact ==> 0 <= sid.maxDepth <= MAX_LEVELS) && LedToOnce(world)
      && ClosedUpwards(world, sid.seen)
      && (forall key :: key in answers && key.1 == sid.id ==> key.0 in sid.seen)
    }

    /** Within the search of `m`, which began when the query had seen `start`, and has come to the `i`-th member. */
    ghost predicate TreeSearch(sid: SearchID, start: set<Manager>, m: Manager, i: nat)
      reads this, sid
    {
      OnTree(sid) && m in start && MembersAhead(world, sid.seen, m, i) && SeenBelowMembers(world, start, sid.seen, m, i)
    }

    twostate predicate Progress(sid: SearchID, a: Answer)
      reads this, sid
    {
      && Valid() && old(sid.seen) <= sid.seen && old(seenFindOnce) <= seenFindOnce
      && (old(overflow) ==> overflow)
      && (0 <= sid.maxDepth <= MAX_LEVELS ==> overflow == old(overflow))
      && (complete && a != Result(FOUND) ==>
            forall m :: m in sid.seen && m !in old(sid.seen) ==> !Reaches(world, exact, sid.id, m))
    }

    /** A cached answer is given again, at whatever depth it was found; a new one is cached unless it is one of many. */
    twostate predicate Cached(a: Answer, key: (Manager, Identity))
      reads this
    {
      if key in old(answers) then a == Result(old(answers)[key]) && answers == old(answers)
      else a.Result? && a.value != FOUND_ONE_OF_MANY ==> key in answers && answers[key] == a.value
    }

    method CheckManager(sid: SearchID, m: Option<Manager>, level: nat) returns (a: Answer)
      requires Ready(sid, level, if m.Some? then rank(m.value) + 1 else 0)
      requires m.Some? ==> m.value in world.managers
      modifies this`answers, this`seenFindOnce, this`overflow, sid`seen
      ensures Progress(sid, a)
      ensures Right(a, ManagerReaches(world, exact, sid.id, m))
      ensures m.None? ==> a == if level <= MAX_LEVELS || 0 <= sid.maxDepth < level then Result(NOT_FOUND)
                               else if exact then TooManyLevels else Result(FOUND)
      ensures old(OnTree(sid) && Ahead(world, sid.seen, m)) ==>
        && a == Result(if Finds(world, exact, sid.id, sid.maxDepth, m, level) then FOUND else NOT_FOUND)
        && (a == Result(NOT_FOUND) ==> OnTree(sid) && SeenBelow(world, old(sid.seen), sid.seen, m))
      ensures m.Some? && m.value !in old(sid.seen) && level <= MAX_LEVELS && !(0 <= sid.maxDepth < level) ==>
        Cached(a, (m.value, sid.id))
      ensures PlainMembers(world) ==> seenFindOnce == old(seenFindOnce)
      decreases world.managers - sid.seen, 1
    {
      var r := CheckMaxDepth(sid, level);
      if r.Some? { return r.value; }
      if m.None? { return Result(NOT_FOUND); }
      if m.value in sid.seen { return Result(NOT_FOUND); }
      a := SearchManager(sid, m.value, level);
    }

    /** A manager that the query sees for the first time: what the cache says, or else the search. */
    method SearchManager(sid: SearchID, m: Manager, level: nat) returns (a: Answer)
      requires Ready(sid, level, rank(m) + 1) && m in world.managers && m !in sid.seen && level <= MAX_LEVELS && !(0 <= sid.maxDepth < level)
      modifies this`answers, this`seenFindOnce, this`overflow, sid`seen
      ensures Progress(sid, a)
      ensures Right(a, Reaches(world, exact, sid.id, m))
      ensures old(OnTree(sid) && Ahead(world, sid.seen, Some(m))) ==>
        && a == Result(if Finds(world, exact, sid.id, sid.maxDepth, Some(m), level) then FOUND else NOT_FOUND)
        && (a == Result(NOT_FOUND) ==> OnTree(sid) && SeenBelow(world, old(sid.seen), sid.seen, Some(m)))
      ensures Cached(a, (m, sid.id))
      ensures PlainMembers(world) ==> seenFindOnce == old(seenFindOnce)
      decreases world.managers - sid.seen, 0
    {
      ghost var onTree := OnTree(sid) && Ahead(world, sid.seen, Some(m));
      if onTree {
        SearchBegins(world, sid.seen, m);
      }
      sid.seen := sid.seen + {m};
      var key := (m, sid.id);
      if key in answers { return Result(answers[key]); }
      a := Search(sid, m, level);
      if onTree && a == Result(NOT_FOUND) {
        SearchEnds(world, old(sid.seen), sid.seen, m);
      }
      if a.TooManyLevels? { return; }
      if a.value == FOUND_ONE_OF_MANY { return; }
      answers := answers[key := a.value];
    }

    method CheckOne(sid: SearchID, v: Identity, depth: nat, ghost bound: nat) returns (a: Answer)
      requires Ready(sid, depth, bound)
      modifies this`answers, this`seenFindOnce, this`overflow, sid`seen
      ensures Progress(sid, a)
      ensures Right(a, Hits(world, exact, sid.id, v))
      ensures var ff := world.findFirst(v);
              a == Result(FOUND_ONE_OF_MANY) ==>
                ff.Some? && ff.value.identity !in old(seenFindOnce) && ff.value.identity in seenFindOnce
      ensures world.findFirst(v).Some? ==>
        var mi := world.findFirst(v).value;
        if mi.identity in old(seenFindOnce) then
          && a == Result(FOUND_ONE_OF_MANY_REPETITION)
          && seenFindOnce == old(seenFindOnce) && answers == old(answers) && sid.seen == old(sid.seen)
        else if Matches(world, exact, sid.id, mi.identity) then
          && a == Result(FOUND_ONE_OF_MANY)
          && seenFindOnce == old(seenFindOnce) + {mi.identity} && answers == old(answers) && sid.seen == old(sid.seen)
        else
          old(OnTree(sid) && Ahead(world, sid.seen, mi.manager)) ==>
            a == Result(if Finds(world, exact, sid.id, sid.maxDepth, mi.manager, depth) then FOUND_ONE_OF_MANY else NOT_FOUND)
      ensures world.findFirst(v).None? ==>
        && a == Result(if Matches(world, exact, sid.id, v) then FOUND else NOT_FOUND)
        && answers == old(answers) && sid.seen == old(sid.seen) && seenFindOnce == old(seenFindOnce)
      decreases world.managers - sid.seen, 2
    {
      HitsStep(world, exact, sid.id, v);
      var ff := world.findFirst(v);
      if ff.Some? {
        var mi := ff.value;
        if mi.identity in seenFindOnce {
          return Result(FOUND_ONE_OF_MANY_REPETITION);
        }
        var r := DoCheckOne(sid, mi.identity);
        a := Result(r);
        if r == NOT_FOUND {
          a := CheckManager(sid, mi.manager, depth);
          if a.TooManyLevels? { return; }
        }
        if a.value > FOUND_ONE_OF_MANY_REPETITION {
          if mi.identity in seenFindOnce {
            return Result(FOUND_ONE_OF_MANY_REPETITION);
          }
          seenFindOnce := seenFindOnce + {mi.identity};
          a := Result(FOUND_ONE_OF_MANY);
        }
      } else {
        var r := DoCheckOne(sid, v);
        a := Result(r);
      }
    }

    /** One member of `m`: itself first, then the manager it leads to, one level further down. */
    method CheckMember(sid: SearchID, m: Manager, ghost i: nat, v: Identity, depth: nat, ghost start: set<Manager>) returns (a: Answer)
      requires Ready(sid, depth, rank(m)) && (complete ==> depth + rank(m) < MAX_LEVELS)
      requires depth <= MAX_LEVELS && i < |world.members(m)| && world.members(m)[i] == v
      modifies this`answers, this`seenFindOnce, this`overflow, sid`seen
      ensures Progress(sid, a)
      ensures Right(a, Leads(world, exact, sid.id, v))
      ensures old(TreeSearch(sid, start, m, i)) ==>
        && a == Result(if FindsAt(world, exact, sid.id, sid.maxDepth, v, depth) then FOUND else NOT_FOUND)
        && (a == Result(NOT_FOUND) ==> TreeSearch(sid, start, m, i + 1))
      ensures PlainMembers(world) ==> seenFindOnce == old(seenFindOnce)
      decreases world.managers - sid.seen, 3
    {
      var one := CheckOne(sid, v, depth, rank(m));
      if one.TooManyLevels? || one.value == FOUND { return one; }
      var next := CheckNext(sid, m, i, v, depth, start);
      if next.TooManyLevels? || next.value > one.value { return next; }
      return one;
    }

    /** The manager that a member leads to. */
    method CheckNext(sid: SearchID, m: Manager, ghost i: nat, v: Identity, depth: nat, ghost start: set<Manager>) returns (a: Answer)
      requires Ready(sid, depth, rank(m)) && (complete ==> depth + rank(m) < MAX_LEVELS)
      requires i < |world.members(m)| && world.members(m)[i] == v
      modifies this`answers, this`seenFindOnce, this`overflow, sid`seen
      ensures Progress(sid, a)
      ensures Right(a, ManagerReaches(world, exact, sid.id, world.manager(v)))
      ensures old(TreeSearch(sid, start, m, i)) ==>
        && a == Result(if Finds(world, exact, sid.id, sid.maxDepth, world.manager(v), depth + 1) then FOUND else NOT_FOUND)
        && (a == Result(NOT_FOUND) ==> TreeSearch(sid, start, m, i + 1))
      ensures PlainMembers(world) ==> seenFindOnce == old(seenFindOnce)
      decreases world.managers - sid.seen, 2
    {
      ghost var onTree, before := TreeSearch(sid, start, m, i), sid.seen;
      if onTree {
        MemberIsAhead(world, sid.seen, m, i);
      }
      a := CheckManager(sid, world.manager(v), depth + 1);
      if onTree && a == Result(NOT_FOUND) {
        NextMember(world, start, before, sid.seen, m, i);
      }
    }

    lemma LeadsSomewhere(id: Identity, m: Manager) returns (leads: seq<bool>)
      ensures |leads| == |world.members(m)|
      ensures forall j :: 0 <= j < |leads| ==> (leads[j] <==> Leads(world, exact, id, world.members(m)[j]))
      ensures Reaches(world, exact, id, m) <==> exists j :: 0 <= j < |leads| && leads[j]
    {
      leads := seq(|world.members(m)|, j requires 0 <= j < |world.members(m)| => Leads(world, exact, id, world.members(m)[j]));
      ReachesStep(world, exact, id, m);
      if v :| v in world.members(m) && Leads(world, exact, id, v) {
        var j :| 0 <= j < |world.members(m)| && world.members(m)[j] == v;
      }
    }

    /** What the members are to say, in the one case or the other. */
    lemma SaysSomewhere(id: Identity, maxDepth: int, m: Manager, level: nat) returns (says: seq<bool>)
      requires level <= MAX_LEVELS && !(0 <= maxDepth < level)
      ensures |says| == |world.members(m)|
      ensures forall j :: 0 <= j < |says| ==>
        (says[j] <==> if complete then Leads(world, exact, id, world.members(m)[j])
                      else FindsAt(world, exact, id, maxDepth, world.members(m)[j], level))
      ensures (if complete then Reaches(world, exact, id, m) else Finds(world, exact, id, maxDepth, Some(m), level))
         <==> exists j :: 0 <= j < |says| && says[j]
    {
      var leads := LeadsSomewhere(id, m);
      var finds := FindsSomewhere(world, exact, id, maxDepth, m, level);
      says := if complete then leads else finds;
    }

    /** Looks at every member of `m` and at the managers they lead to, until a certain match is found. */
    method Search(sid: SearchID, m: Manager, depth: nat) returns (a: Answer)
      requires Ready(sid, depth, rank(m)) && (complete ==> depth + rank(m) < MAX_LEVELS)
      requires depth <= MAX_LEVELS && !(0 <= sid.maxDepth < depth)
      modifies this`answers, this`seenFindOnce, this`overflow, sid`seen
      ensures Progress(sid, a)
      ensures Right(a, Reaches(world, exact, sid.id, m))
      ensures old(OnTree(sid) && MembersAhead(world, sid.seen, m, 0)) ==>
        && a == Result(if Finds(world, exact, sid.id, sid.maxDepth, Some(m), depth) then FOUND else NOT_FOUND)
        && (a == Result(NOT_FOUND) ==> OnTree(sid) && SeenBelowMembers(world, old(sid.seen), sid.seen, m, |world.members(m)|))
      ensures PlainMembers(world) ==> seenFindOnce == old(seenFindOnce)
      decreases world.managers - sid.seen, 4
    {
      ghost var goal := Reaches(world, exact, sid.id, m);
      ghost var onTree := OnTree(sid) && MembersAhead(world, sid.seen, m, 0);
      var members := world.members(m);
      ghost var leads := LeadsSomewhere(sid.id, m);
      ghost var says := SaysSomewhere(sid.id, sid.maxDepth, m, depth);
      var r: FinderResult := NOT_FOUND;
      for i := 0 to |members|
        invariant Progress(sid, Result(r)) && r != FOUND
        invariant r > FOUND_ONE_OF_MANY_REPETITION && !overflow ==> goal
        invariant complete || onTree ==> r == NOT_FOUND && forall j :: 0 <= j < i ==> !says[j]
        invariant SeenAreSettled(sid, rank(m))
        invariant PlainMembers(world) ==> seenFindOnce == old(seenFindOnce)
        invariant onTree ==> TreeSearch(sid, old(sid.seen), m, i)
      {
        var v := members[i];
        assert v in members;
        var one := CheckMember(sid, m, i, v, depth, old(sid.seen));
        assert complete || onTree ==> one == Result(if says[i] then FOUND else NOT_FOUND);
        if one.TooManyLevels? { return one; }
        if one.value > r { r := one.value; }
        if r == FOUND { return Result(r); }
      }
      return Result(r);
    }

    /** Whether `container` contains `id`: itself first, then what its manager leads to. */
    method Contains(id: Identity, container: Identity, maxDepth: int) returns (a: Answer)
      requires Valid() && (complete ==> maxDepth < 0)
      modifies this`answers, this`seenFindOnce, this`overflow
      ensures Valid() && (0 <= maxDepth <= MAX_LEVELS ==> overflow == old(overflow))
      ensures Shortcut(id, container).Some? ==> a == Result(Shortcut(id, container).value)
      ensures Shortcut(id, container).None? ==> Right(a, Holds(id, container)) && MatchesItself(a, id, container) && FromCache(a, id, container)
      ensures Shortcut(id, container).None? && (exact ==> 0 <= maxDepth <= MAX_LEVELS) && LedToOnce(world)
        && (forall key :: key in old(answers) ==> key.1 != id)
        && world.findFirst(container).None? && NotLedTo(world, world.manager(container))
        ==> a == Result(if Hits(world, exact, id, container) || Findable(world, exact, id, maxDepth, world.manager(container))
                        then FOUND else NOT_FOUND)
    {
      if id == Anonymous || container == Anonymous { return Result(NOT_FOUND); }
      if id == GenghisKhan && container == GenghisKhan { return Result(NOT_FOUND); }
      if id == GenghisKhan { return Result(FOUND); }
      if id == container { return Result(FOUND); }
      if id == Nil || container == Nil { return Result(NOT_FOUND); }
      if complete {
        RankedHasNoLongPath(world, rank, world.manager(container), MAX_LEVELS + 1);
      }
      var sid := new SearchID(id, maxDepth);
      a := Query(sid, container, 0);
    }

    /** Whatever the caches hold: a container that matches is found, and one that stands for a match is claimed or a repetition. */
    twostate predicate MatchesItself(a: Answer, id: Identity, container: Identity)
      reads this
    {
      match world.findFirst(container)
      case None => Matches(world, exact, id, container) ==> a == Result(FOUND)
      case Some(mi) =>
        if mi.identity in old(seenFindOnce) then a != Result(NOT_FOUND)
        else Matches(world, exact, id, mi.identity) ==>
          mi.identity in seenFindOnce && (a.Result? ==> a.value >= FOUND_ONE_OF_MANY)
    }

    /** A plain container that does not match itself gets the answer that is, or is then, cached for its manager. */
    twostate predicate FromCache(a: Answer, id: Identity, container: Identity)
      reads this
    {
      world.findFirst(container).None? && !Matches(world, exact, id, container) && world.manager(container).Some? ==>
        Cached(a, (world.manager(container).value, id))
    }

    /** The container itself first, then what its manager leads to. */
    method Query(sid: SearchID, container: Identity, level: nat) returns (a: Answer)
      requires Ready(sid, level, MAX_LEVELS) && sid.seen == {} && level == 0
      modifies this`answers, this`seenFindOnce, this`overflow, sid`seen
      ensures Valid() && (0 <= sid.maxDepth <= MAX_LEVELS ==> overflow == old(overflow))
      ensures Right(a, Holds(sid.id, container)) && MatchesItself(a, sid.id, container) && FromCache(a, sid.id, container)
      ensures old(OnTree(sid)) && world.findFirst(container).None? && NotLedTo(world, world.manager(container)) ==>
        a == Result(if Hits(world, exact, sid.id, container) || Findable(world, exact, sid.id, sid.maxDepth, world.manager(container))
                    then FOUND else NOT_FOUND)
    {
      HitsStep(world, exact, sid.id, container);
      var m := world.manager(container);
      if LedToOnce(world) {
        FindsFindable(world, exact, sid.id, sid.maxDepth, m, level);
      }
      var r: FinderResult := NOT_FOUND;
      var one := CheckOne(sid, container, level, MAX_LEVELS);
      if one.TooManyLevels? { return one; }
      if one.value > r { r := one.value; }
      if r == FOUND { return Result(r); }
      if m.Some? {
        var next := CheckManager(sid, m, level);
        if next.TooManyLevels? { return next; }
        if next.value > r { r := next.value; }
      }
      return Result(r);
    }
  }

  // ---------------------------------------------------------------------------------------------
  // The level limit

  /** The identity searched for, the one that is searched, and 101 managers on a path from it. */
  const WANTED := Named(1000)
  const CONTAINER := Named(999)

  function UpTo(n: nat): (ms: set<Manager>)
    ensures forall m: nat :: m in ms <==> m <= n
  {
    if n == 0 then {0} else UpTo(n - 1) + {n}
  }

  function LimitWorld(): World
  {
    World(UpTo(MAX_LEVELS),
          (m: Manager) => if m <= MAX_LEVELS then [Named(m)] else [],
          id => if id == CONTAINER then Some(0) else if id.Named? && id.n < MAX_LEVELS then Some(id.n + 1) else None,
          id => id,
          id => None,
          id => if id == WANTED then "wanted" else "other",
          id => None, id => None, id => None, id => None)
  }

  lemma NothingMatches(v: Identity)
    requires v.Named? && v != WANTED
    ensures !Matches(LimitWorld(), false, WANTED, v)
  {}

  lemma {:induction false} NothingReached(m: Manager, n: nat)
    ensures !ReachesWithin(LimitWorld(), false, WANTED, m, n)
    decreases n
  {
    var w := LimitWorld();
    if n > 0 {
      forall v | v in w.members(m) ensures !MemberWithin(w, false, WANTED, v, n - 1) {
        NothingMatches(v);
        if w.manager(v).Some? {
          NothingReached(w.manager(v).value, n - 1);
        }
      }
    }
  }

  function LimitRank(m: Manager): nat
  {
    if m <= MAX_LEVELS then MAX_LEVELS - m else 0
  }

  lemma LimitManager(v: Identity)
    ensures var m := LimitWorld().manager(v);
            m.Some? ==> m.value <= MAX_LEVELS && (v == CONTAINER || v == Named(m.value - 1))
  {}

  lemma LimitIsClosed()
    ensures LimitWorld().Closed()
  {
    forall v | LimitWorld().manager(v).Some? ensures LimitWorld().manager(v).value in LimitWorld().managers {
      LimitManager(v);
    }
  }

  lemma LimitIsAcyclic()
    ensures Acyclic(LimitWorld(), LimitRank)
  {
    forall m, v | v in LimitWorld().members(m) && LimitWorld().manager(v).Some?
      ensures LimitRank(LimitWorld().manager(v).value) < LimitRank(m)
    {
      LimitManager(v);
      assert v == Named(m);
    }
  }

  lemma LimitIsLedToOnce()
    ensures LedToOnce(LimitWorld())
    ensures NotLedTo(LimitWorld(), LimitWorld().manager(CONTAINER))
  {
    var w := LimitWorld();
    forall m, i: nat, x | Child(w, m, i, x) ensures x == m + 1 && i == 0 {
      assert w.members(m)[i] == Named(m);
      LimitManager(Named(m));
    }
    assert w.manager(CONTAINER) == Some(0);
  }

  lemma {:induction false} LimitLeadsDown(m: Manager, path: seq<Identity>)
    requires m + |path| == MAX_LEVELS + 1
    requires forall i :: 0 <= i < |path| ==> path[i] == Named(m + i)
    ensures LeadsDown(LimitWorld(), Some(m), path)
    decreases |path|
  {
    if |path| > 1 {
      LimitLeadsDown(m + 1, path[1..]);
    }
  }

  lemma LimitHasPath()
    ensures HasPath(LimitWorld(), LimitWorld().manager(CONTAINER), MAX_LEVELS + 1)
  {
    var path := seq(MAX_LEVELS + 1, i requires 0 <= i => Named(i));
    LimitLeadsDown(0, path);
  }

  lemma NothingLeads()
    ensures !Leads(LimitWorld(), false, WANTED, CONTAINER)
  {
    NothingMatches(CONTAINER);
    HitsStep(LimitWorld(), false, WANTED, CONTAINER);
    forall n: nat ensures !ReachesWithin(LimitWorld(), false, WANTED, 0, n) {
      NothingReached(0, n);
    }
  }

  lemma LimitFacts()
    ensures var w := LimitWorld();
            && w.Closed() && Acyclic(w, LimitRank) && LedToOnce(w) && NotLedTo(w, w.manager(CONTAINER))
            && HasPath(w, w.manager(CONTAINER), MAX_LEVELS + 1) && !Leads(w, false, WANTED, CONTAINER)
  {
    LimitIsClosed();
    LimitIsAcyclic();
    LimitIsLedToOnce();
    LimitHasPath();
    NothingLeads();
  }

  /**
    What a query finds, exactly, where no manager is led to twice and the caches are empty: with a depth limit, a match
    that can be reached through that many managers and one; without one, any match that can be reached, and what is not
    there if and only if some path has more than 100 members in a row.
   */
  method FirstQuery(w: World, exact: bool, id: Identity, container: Identity, maxDepth: int) returns (a: Answer)
    requires w.Closed() && LedToOnce(w) && NotLedTo(w, w.manager(container)) && w.findFirst(container).None?
    requires exact ==> 0 <= maxDepth <= MAX_LEVELS
    ensures a == Result(if Shortcut(id, container).Some? then Shortcut(id, container).value
                        else if Hits(w, exact, id, container) || Findable(w, exact, id, maxDepth, w.manager(container)) then FOUND
                        else NOT_FOUND)
  {
    var f := new Finder(w, exact, false, m => 0);
    a := f.Contains(id, container, maxDepth);
  }

  /**
    Because the level is tested before the manager, the member without a manager at level 100 counts as found:
    on 101 managers in a row, one more than completeness allows, a search finds what is not there.
   */
  method FindsAtLimit() returns (a: Answer)
    ensures a == Result(FOUND) && Shortcut(WANTED, CONTAINER) == None
    ensures !Leads(LimitWorld(), false, WANTED, CONTAINER)
    ensures Acyclic(LimitWorld(), LimitRank)
  {
    LimitFacts();
    a := FirstQuery(LimitWorld(), false, WANTED, CONTAINER, -1);
  }

  // ---------------------------------------------------------------------------------------------
  // The cache and the depth

  /**
    A second query with another depth limit gets the answer of the first: the cache does not say how deep an answer
    was looked for. So it is right if and only if the same can be found within both limits.
   */
  method AskAgain(w: World, exact: bool, id: Identity, container: Identity, depth1: int, depth2: int) returns (first: Answer, second: Answer)
    requires w.Closed() && LedToOnce(w) && NotLedTo(w, w.manager(container)) && w.findFirst(container).None?
    requires exact ==> 0 <= depth1 <= MAX_LEVELS && 0 <= depth2 <= MAX_LEVELS
    requires Shortcut(id, container).None? && !Matches(w, exact, id, container) && w.manager(container).Some?
    ensures first == Result(if Findable(w, exact, id, depth1, w.manager(container)) then FOUND else NOT_FOUND)
    ensures second == first
  {
    HitsStep(w, exact, id, container);
    var f := new Finder(w, exact, false, m => 0);
    first := f.Contains(id, container, depth1);
    second := f.Contains(id, container, depth2);
  }

  /** The match is a member of the second manager. */
  function TwoLevelWorld(): World
  {
    World(UpTo(1),
          (m: Manager) => if m == 0 then [Named(0)] else if m == 1 then [WANTED] else [],
          id => if id == CONTAINER then Some(0) else if id == Named(0) then Some(1) else None,
          id => id,
          id => None,
          id => if id == WANTED then "wanted" else "other",
          id => None, id => None, id => None, id => None)
  }

  lemma TwoLevelFacts()
    ensures var w := TwoLevelWorld();
            && w.Closed() && LedToOnce(w) && NotLedTo(w, w.manager(CONTAINER)) && !Matches(w, false, WANTED, CONTAINER)
            && !Findable(w, false, WANTED, 0, w.manager(CONTAINER)) && Findable(w, false, WANTED, 2, w.manager(CONTAINER))
  {
    var w := TwoLevelWorld();
    forall m, i: nat, x | Child(w, m, i, x) ensures m == 0 && i == 0 && x == 1 {
      assert w.members(m)[i] == if m == 0 then Named(0) else WANTED;
    }
    assert !Matches(w, false, WANTED, Named(0)) && Matches(w, false, WANTED, WANTED);
    assert !ReachesWithin(w, false, WANTED, 1, 0);
    assert WANTED in w.members(1) && MemberWithin(w, false, WANTED, WANTED, 1);
    assert ReachesWithin(w, false, WANTED, 1, 2);
    assert Named(0) in w.members(0) && MemberWithin(w, false, WANTED, Named(0), 2);
  }

  /** What a query of depth 0 does not find, a query of depth 2 does; but not after the query of depth 0. */
  method CacheForgetsDepth() returns (shallow: Answer, deep: Answer, other: Answer)
    ensures shallow == deep == Result(NOT_FOUND) && other == Result(FOUND)
  {
    TwoLevelFacts();
    shallow, deep := AskAgain(TwoLevelWorld(), false, WANTED, CONTAINER, 0, 2);
    other := FirstQuery(TwoLevelWorld(), false, WANTED, CONTAINER, 2);
  }
}
