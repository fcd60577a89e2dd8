/** Which resources belong to a page: the pruned walk of hugolib/content_map_page.go. */
module PageResources {
  import opened Common
  import opened DocTree

  /** The page a resource belongs to: the nearest page among the directories it is in. */
  function Owner(pages: set<string>, k: string): Option<string>
  {
    NearestAbove(pages, k)
  }

  /** When the longest key is an ancestor, there is no page in between. */
  lemma {:induction false} LongestAncestorOwns(pages: set<string>, s: string, k: string)
    requires LongestKey(pages, s) == Some(k) && Under(s, k)
    ensures Owner(pages, s) == Some(k)
    decreases |s|
  {
    LongestKeyIsLongest(pages, s);
    UnderUp(s, k);
    var u := Up(s);
    assert HasPrefix(s, u);
    if u !in pages {
      assert s[..|k| + 1] == k + "/" && Under(u, k);
      assert HasPrefix(u, k) by {
        assert u[..|k|] == s[..|k|];
      }
      LongestKeyOfShorter(pages, s, u, k);
      LongestAncestorOwns(pages, u, k);
    }
  }

  /** Every key that begins with the prefix to skip belongs to someone else. */
  ghost predicate SkipsOnlyOthers(skipPrefixes: seq<string>, pages: set<string>, keyPage: string)
  {
    forall p :: p in skipPrefixes ==> exists q :: q in pages && p == q + "/" && |q| > |keyPage|
  }

  lemma SkippedBelongsToOthers(skipPrefixes: seq<string>, pages: set<string>, keyPage: string, k: string)
    requires SkipsOnlyOthers(skipPrefixes, pages, keyPage)
    requires exists p :: p in skipPrefixes && HasPrefix(k, p)
    ensures Owner(pages, k) != Some(keyPage)
  {
    var p :| p in skipPrefixes && HasPrefix(k, p);
    var q :| q in pages && p == q + "/" && |q| > |keyPage|;
    NearestIsNearest(pages, k, q);
  }

  /** What the climb finds: no page at all, the page in question, or another page that owns the resource. */
  datatype Claim = NoPage | Mine | Others(ownerKey: string)

  lemma OneUp(pages: set<string>, keyPage: string, s: string)
    requires Keys(pages) && keyPage in pages && Under(s, keyPage)
    ensures HasPrefix(Dir(s), keyPage) && LongestKey(pages, Dir(s)).Some?
    ensures var k := LongestKey(pages, Dir(s)).value;
            && k in pages && HasPrefix(Dir(s), k) && |keyPage| <= |k| && (|keyPage| == |k| ==> k == keyPage)
            && (k == keyPage ==> Owner(pages, s) == Some(keyPage))
            && (k != keyPage ==> Dir(s) == Up(s) && Under(Up(s), keyPage))
            && (k != keyPage && k == Dir(s) ==> Owner(pages, s) == Some(k))
            && (k != keyPage && k != Dir(s) ==> Owner(pages, s) == Owner(pages, Up(s)))
  {
    UnderUp(s, keyPage);
    var d := Dir(s);
    LongestKeyIsLongest(pages, d);
    assert HasPrefix(d, keyPage);
    var k := LongestKey(pages, d).value;
    if d == "/" {
      assert k == d[..|k|];
      assert k != "/";
      assert k == "" == keyPage;
      assert Up("/") == "" && NearestAbove(pages, "/") == Some("");
    } else if k == keyPage && d != keyPage {
      LongestAncestorOwns(pages, d, keyPage);
    }
  }

  /** The climb from `s` as far as `steps` lookups bring it: what it has found, or nothing yet. */
  function Climb(pages: set<string>, keyPage: string, s: string, steps: nat): Option<Claim>
    decreases steps
  {
    if steps == 0 then None
    else
      var d := Dir(s);
      match LongestKey(pages, d)
      case None => Some(NoPage)
      case Some(ownerKey) =>
        if ownerKey == keyPage then Some(Mine)
        else if d != ownerKey && HasPrefix(d, ownerKey) then Climb(pages, keyPage, d, steps - 1)
        else Some(Others(ownerKey))
  }

  ghost predicate Loops(pages: set<string>, keyPage: string, s: string)
  {
    forall steps: nat :: Climb(pages, keyPage, s, steps) == None
  }

  /** No directory that `s` is in, the root aside, is a page or finds the page in question. */
  ghost predicate NothingOnTheWay(pages: set<string>, keyPage: string, s: string)
  {
    forall d :: Under(s, d) && d != "" ==> d !in pages && LongestKey(pages, d) != Some(keyPage)
  }

  lemma {:induction false} RootLoops(pages: set<string>, keyPage: string, steps: nat)
    requires Keys(pages) && "" in pages && keyPage != ""
    ensures Climb(pages, keyPage, "/", steps) == None
  {
    assert LongestKey(pages, "/") == Some("") by {
      assert "/" !in pages && "/"[..0] == "";
    }
    assert Dir("/") == "/";
    if steps > 0 {
      RootLoops(pages, keyPage, steps - 1);
    }
  }

  lemma LoopsAtRoot(pages: set<string>, keyPage: string, s: string)
    requires Keys(pages) && s != "" && s[0] == '/' && Up(s) == ""
    ensures Loops(pages, keyPage, s) <==> "" in pages && keyPage != ""
  {
    assert Dir(s) == "/";
    assert "/"[..0] == "" && LongestKey(pages, "/") == LongestKey(pages, "");
    if "" in pages && keyPage != "" {
      forall steps: nat ensures Climb(pages, keyPage, s, steps) == None {
        if steps > 0 {
          RootLoops(pages, keyPage, steps - 1);
          assert Climb(pages, keyPage, s, steps) == Climb(pages, keyPage, "/", steps - 1);
        }
      }
    } else {
      assert Climb(pages, keyPage, s, 1) != None;
    }
  }

  lemma LoopsFurtherUp(pages: set<string>, keyPage: string, s: string)
    requires s != "" && s[0] == '/' && Up(s) != ""
    ensures Loops(pages, keyPage, s) <==>
            && LongestKey(pages, Up(s)).Some? && LongestKey(pages, Up(s)) != Some(keyPage) && Up(s) !in pages
            && Loops(pages, keyPage, Up(s))
  {
    var u := Up(s);
    LongestKeyIsLongest(pages, u);
    assert u[..|u|] == u;
    if Loops(pages, keyPage, s) {
      assert Climb(pages, keyPage, s, 1) == None;
      forall steps: nat ensures Climb(pages, keyPage, u, steps) == None {
        assert Climb(pages, keyPage, s, steps + 1) == None;
      }
    } else {
      var steps: nat :| Climb(pages, keyPage, s, steps) != None;
      assert Climb(pages, keyPage, s, steps) == Climb(pages, keyPage, s, steps - 1 + 1);
    }
  }

  ghost predicate Finds(pages: set<string>, keyPage: string, s: string, claim: Claim)
  {
    exists steps: nat :: Climb(pages, keyPage, s, steps) == Some(claim)
  }

  /** What the climb finds from the next directory it finds from `s`, unless it has ended there. */
  lemma FindsFurtherUp(pages: set<string>, keyPage: string, s: string, claim: Claim)
    requires LongestKey(pages, Dir(s)).Some? && LongestKey(pages, Dir(s)) != Some(keyPage)
    requires Dir(s) !in pages && Finds(pages, keyPage, Dir(s), claim)
    ensures Finds(pages, keyPage, s, claim)
  {
    LongestKeyIsLongest(pages, Dir(s));
    var steps: nat :| Climb(pages, keyPage, Dir(s), steps) == Some(claim);
    assert Climb(pages, keyPage, s, steps + 1) == Some(claim);
  }

  lemma FindsNow(pages: set<string>, keyPage: string, s: string, claim: Claim)
    requires Climb(pages, keyPage, s, 1) == Some(claim)
    ensures Finds(pages, keyPage, s, claim)
  {
  }

  /** For a page of the tree and a resource below it the climb ends, with the owner of the resource. */
  lemma {:induction false} ClimbFindsOwner(pages: set<string>, keyPage: string, s: string)
    requires Keys(pages) && keyPage in pages && Under(s, keyPage)
    ensures Owner(pages, s).Some?
    ensures Finds(pages, keyPage, s, if Owner(pages, s).value == keyPage then Mine else Others(Owner(pages, s).value))
    decreases |s|
  {
    OneUp(pages, keyPage, s);
    var k := LongestKey(pages, Dir(s)).value;
    if k == keyPage {
      FindsNow(pages, keyPage, s, Mine);
    } else if k == Dir(s) {
      FindsNow(pages, keyPage, s, Others(k));
    } else {
      LongestKeyIsLongest(pages, Dir(s));
      ClimbFindsOwner(pages, keyPage, Up(s));
      assert Dir(s) !in pages by {
        assert Dir(s)[..|Dir(s)|] == Dir(s);
      }
      FindsFurtherUp(pages, keyPage, s, if Owner(pages, s).value == keyPage then Mine else Others(Owner(pages, s).value));
    }
  }

  /**
    When the climb never ends: exactly when there is a home page, which is not the page in question, and no
    directory on the way is a page or has that page as its longest stored prefix. From the root directory it then
    goes on at the root directory.
   */
  lemma {:induction false} ClimbLoops(pages: set<string>, keyPage: string, s: string)
    requires Keys(pages) && s != "" && s[0] == '/'
    ensures Loops(pages, keyPage, s) <==> "" in pages && keyPage != "" && NothingOnTheWay(pages, keyPage, s)
    decreases |s|
  {
    var u := Up(s);
    UpIsUnder(s);
    forall d | Under(s, d) ensures d == u || Under(u, d) {
      UnderUp(s, d);
    }
    if u == "" {
      LoopsAtRoot(pages, keyPage, s);
    } else {
      forall d | Under(u, d) ensures Under(s, d) {
        UnderTransitive(s, u, d);
      }
      LoopsFurtherUp(pages, keyPage, s);
      LongestKeyIsLongest(pages, u);
      assert HasPrefix(u, "");
      ClimbLoops(pages, keyPage, u);
    }
  }

  /** Climbs from the resource until the longest page key found settles whose it is. */
  method FindOwner(pages: set<string>, keyPage: string, resourceKey: string) returns (claim: Claim)
    requires Keys(pages) && keyPage in pages && Under(resourceKey, keyPage)
    ensures Owner(pages, resourceKey).Some? && Owner(pages, resourceKey).value in pages
    ensures claim == Mine <==> Owner(pages, resourceKey) == Some(keyPage)
    ensures claim != Mine ==> claim == Others(Owner(pages, resourceKey).value) && |claim.ownerKey| > |keyPage|
  {
    var s := resourceKey;
    while true
      invariant Under(s, keyPage) && Owner(pages, s) == Owner(pages, resourceKey)
      decreases |s|
    {
      OneUp(pages, keyPage, s);
      s := Dir(s);
      var found := LongestKey(pages, s);
      if found.None? {
        return NoPage;
      }
      var ownerKey := found.value;
      if ownerKey == keyPage {
        return Mine;
      }
      if s != ownerKey && HasPrefix(s, ownerKey) {
        continue;
      }
      return Others(ownerKey);
    }
  }

  /** What `handle` answers for a resource: whether to end the walk. */
  type Handler = string -> bool

  /** The calls to `handle`: the resources wanted, in the order of the tree, up to one on which it ends the walk. */
  function Handled(resources: seq<string>, wanted: string -> bool, ends: Handler): seq<string>
  {
    if resources == [] then []
    else if !wanted(resources[0]) then Handled(resources[1..], wanted, ends)
    else if ends(resources[0]) then [resources[0]]
    else [resources[0]] + Handled(resources[1..], wanted, ends)
  }

  function BelongsTo(pages: set<string>, keyPage: string, isBranch: bool): string -> bool
  {
    k => Under(k, keyPage) && (isBranch ==> Owner(pages, k) == Some(keyPage))
  }

  lemma {:induction false} HandledExactly(resources: seq<string>, wanted: string -> bool, ends: Handler)
    requires forall k :: k in resources && wanted(k) ==> !ends(k)
    ensures forall k :: k in Handled(resources, wanted, ends) <==> k in resources && wanted(k)
  {
    if resources != [] {
      HandledExactly(resources[1..], wanted, ends);
    }
  }

  /**
    The calls in detail: the wanted resources among the first `n`, each once and in order, where `n` is just past the
    first wanted one on which the handler ends the walk, or else the number of all.
   */
  lemma {:induction false} HandledInOrder(resources: seq<string>, wanted: string -> bool, ends: Handler) returns (n: nat, at: seq<nat>)
    ensures n <= |resources| && PicksInOrder(Handled(resources, wanted, ends), resources[..n], wanted, at)
    ensures forall i: nat :: i < n - 1 ==> !(wanted(resources[i]) && ends(resources[i]))
    ensures n < |resources| ==> n > 0 && wanted(resources[n - 1]) && ends(resources[n - 1])
  {
    n := HandledIsFilter(resources, wanted, ends);
    at := FilterPicks(resources[..n], wanted);
  }

  lemma {:induction false} HandledIsFilter(resources: seq<string>, wanted: string -> bool, ends: Handler) returns (n: nat)
    ensures n <= |resources| && Handled(resources, wanted, ends) == Filter(resources[..n], wanted)
    ensures forall i: nat :: i < n - 1 ==> !(wanted(resources[i]) && ends(resources[i]))
    ensures n < |resources| ==> n > 0 && wanted(resources[n - 1]) && ends(resources[n - 1])
  {
    if resources == [] {
      n := 0;
    } else if wanted(resources[0]) && ends(resources[0]) {
      n := 1;
      assert resources[..1] == [resources[0]] && [resources[0]][1..] == [];
    } else {
      var k := HandledIsFilter(resources[1..], wanted, ends);
      n := k + 1;
      assert resources[..n][1..] == resources[1..][..k];
      assert forall i: nat :: 0 < i < |resources| ==> resources[i] == resources[1..][i - 1];
    }
  }

  /**
    The walk over the resources of a page. For a branch page it handles exactly the resources whose nearest page
    is that page, in order; every prefix it skips on the way holds only resources of other pages. For any other
    page it handles all resources below it.
   */
  method ForEachResourceInPage(pages: set<string>, resources: seq<string>, keyPage: string, isBranch: bool, ends: Handler)
    returns (handled: seq<string>, rw: Walker)
    requires Keys(pages) && keyPage in pages
    ensures handled == Handled(resources, BelongsTo(pages, keyPage, isBranch), ends)
    ensures SkipsOnlyOthers(rw.skipPrefixes, pages, keyPage)
  {
    rw := new Walker(keyPage + "/");
    handled := [];
    ghost var wanted := BelongsTo(pages, keyPage, isBranch);
    ghost var goal := Handled(resources, wanted, ends);
    var i := 0;
    while i < |resources|
      invariant 0 <= i <= |resources|
      invariant isBranch || rw.skipPrefixes == []
      invariant fresh(rw) && rw.prefix == keyPage + "/"
      invariant SkipsOnlyOthers(rw.skipPrefixes, pages, keyPage)
      invariant goal == handled + Handled(resources[i..], wanted, ends)
    {
      var k := resources[i];
      assert resources[i..][1..] == resources[i + 1..];
      i := i + 1;
      var skip := rw.ShouldSkip(k);
      if skip {
        SkippedBelongsToOthers(rw.skipPrefixes, pages, keyPage, k);
      }
      if HasPrefix(k, rw.prefix) && !skip {
        if isBranch {
          var claim := FindOwner(pages, keyPage, k);
          if claim == NoPage { break; }
          if claim.Others? {
            rw.SkipPrefix(claim.ownerKey + "/");
            continue;
          }
        }
        handled := handled + [k];
        if ends(k) { break; }
      }
    }
  }
}
