/**
  Parents, ancestors, sections and section listings: hugolib/page__tree.go and the pruned walk of
  getPagesInSection in hugolib/content_map_page.go.
 */
module PageListing {
  import opened Common
  import opened DocTree

  datatype Page = Page(branch: bool, section: bool, listed: bool)

  type PageTree = Tree<Page>

  predicate Branch(t: PageTree, k: string)
  {
    Here(t, k) && t[k].value.branch
  }

  function Branches(t: PageTree): set<string>
  {
    set k | k in t && Branch(t, k)
  }

  /** A path to look up: a key or the root directory. */
  predicate IsPath(s: string)
  {
    s == "" || s[0] == '/'
  }

  /** The nearest branch page among the ancestors of `k`; at the top, the home page. */
  function NearestBranch(t: PageTree, k: string): string
  {
    NearestOrHome(Branches(t), k)
  }

  /** What LongestPrefix finds: climbing from `s`, the first longest stored prefix that holds a page here. */
  function LongestHere(t: PageTree, s: string): Option<string>
    requires IsPath(s)
    decreases |s|
  {
    var r := LongestKey(t.Keys, s);
    if r.Some? && Here(t, r.value) then r
    else if s == "" || s == "/" then None
    else LongestHere(t, Dir(s))
  }

  /** What Parent finds from the directory `s`: climbing, the first longest stored prefix that is a branch page here. */
  function BranchAbove(t: PageTree, s: string): string
    requires IsPath(s)
    decreases |s|
  {
    var r := LongestKey(t.Keys, s);
    if r.Some? && Branch(t, r.value) then r.value
    else if s == "" || s == "/" then ""
    else BranchAbove(t, Dir(s))
  }

  /** The parent of the page at `k`; the home page has none. */
  function ParentOf(t: PageTree, k: string): Option<string>
    requires IsPath(k)
  {
    if k == "" then None else Some(BranchAbove(t, Dir(k)))
  }

  /** The parent of a page in the bundle of another one: whatever page is found first, a branch page or not. */
  function BundledParentOf(t: PageTree, k: string): Option<string>
    requires IsPath(k)
  {
    if k == "" then None else
    match LongestHere(t, Dir(k)) case Some(b) => Some(b) case None => Some("")
  }

  /**
    What the lookup finds is a page here whose key is a prefix of the path, though perhaps as a string only; and no
    page here that is at the path or above it has a longer key.
   */
  lemma {:induction false} LongestHereIsLongest(t: PageTree, s: string)
    requires Keys(t.Keys) && IsPath(s)
    ensures match LongestHere(t, s)
            case Some(r) => Here(t, r) && HasPrefix(s, r) && forall b :: Here(t, b) && (b == s || Under(s, b)) ==> |b| <= |r|
            case None => forall b :: Here(t, b) ==> b != s && !Under(s, b)
    decreases |s|
  {
    var r := LongestKey(t.Keys, s);
    LongestKeyIsLongest(t.Keys, s);
    forall b | b == s || Under(s, b) ensures HasPrefix(s, b) {
      assert b == s || s[..|b|] == s[..|b| + 1][..|b|] == b;
      assert b == s ==> s[..|s|] == s;
    }
    if !(r.Some? && Here(t, r.value)) {
      if s == "" || s == "/" {
        NoPageAtRoot(t, s);
      } else {
        FurtherUp(t, s);
        LongestHereIsLongest(t, Dir(s));
        assert HasPrefix(s, Dir(s));
        forall b | HasPrefix(Dir(s), b) ensures HasPrefix(s, b) {
          assert s[..|b|] == Dir(s)[..|b|];
        }
      }
    }
  }

  lemma NoPageAtRoot(t: PageTree, s: string)
    requires Keys(t.Keys) && (s == "" || s == "/")
    requires var r := LongestKey(t.Keys, s); !(r.Some? && Here(t, r.value))
    ensures forall b :: Here(t, b) ==> b != s && !Under(s, b)
  {
    assert "/" !in t;
    assert |s| > 0 ==> s[..|s| - 1] == "";
  }

  /** What is above a path that holds no page is at its directory or above that. */
  lemma FurtherUp(t: PageTree, s: string)
    requires IsPath(s) && s != "" && s != "/" && !Here(t, s)
    ensures forall b :: Here(t, b) && (b == s || Under(s, b)) ==> b == Dir(s) || Under(Dir(s), b)
  {
    forall b | Under(s, b) ensures b == Dir(s) || Under(Dir(s), b) {
      UnderUp(s, b);
    }
  }

  /** A page in a bundle whose page is here has that page as its parent. */
  lemma BundledParentIsBundle(t: PageTree, k: string)
    requires Keys(t.Keys) && IsPath(k) && k != "" && Up(k) != "" && Here(t, Up(k))
    ensures BundledParentOf(t, k) == Some(Up(k))
  {
    LongestHereIsLongest(t, Dir(k));
    var r := LongestHere(t, Dir(k)).value;
    assert r == Dir(k)[..|r|] == Dir(k);
  }

  /** And without a page at its directory or above, the home page. */
  lemma BundledParentElseHome(t: PageTree, k: string)
    requires Keys(t.Keys) && IsPath(k) && k != ""
    ensures BundledParentOf(t, k).Some?
    ensures BundledParentOf(t, k) == Some("") || Here(t, BundledParentOf(t, k).value)
    ensures (forall b :: Here(t, b) ==> !HasPrefix(Dir(k), b)) ==> BundledParentOf(t, k) == Some("")
  {
    LongestHereIsLongest(t, Dir(k));
  }

  method LongestPrefix(t: PageTree, s0: string) returns (r: Option<string>)
    requires IsPath(s0)
    ensures r == LongestHere(t, s0)
  {
    var s := s0;
    while true
      invariant IsPath(s) && LongestHere(t, s) == LongestHere(t, s0)
      decreases |s|
    {
      r := LongestKey(t.Keys, s);
      if r.Some? && Here(t, r.value) {
        return;
      }
      if s == "" || s == "/" {
        return None;
      }
      s := Dir(s);
    }
  }

  lemma {:induction false} BranchBehindHere(t: PageTree, s: string)
    requires IsPath(s)
    ensures var r := LongestHere(t, s);
            && (r == None ==> BranchAbove(t, s) == "")
            && (r.Some? && Branch(t, r.value) ==> BranchAbove(t, s) == r.value)
            && (r.Some? && !Branch(t, r.value) && s != "" && s != "/" ==> BranchAbove(t, s) == BranchAbove(t, Dir(s)))
    decreases |s|
  {
    var r := LongestKey(t.Keys, s);
    if !(r.Some? && Here(t, r.value)) && s != "" && s != "/" {
      BranchBehindHere(t, Dir(s));
    }
  }

  lemma {:induction false} RootHoldsHome(t: PageTree, s: string)
    requires WellFormed(t, Branches(t)) && (s == "" || s == "/")
    ensures LongestHere(t, s) == None || LongestHere(t, s) == Some("")
  {
    LongestKeyIsLongest(t.Keys, s);
    assert "/" !in t.Keys;
    assert LongestKey(t.Keys, s).Some? ==> LongestKey(t.Keys, s).value == s[..|LongestKey(t.Keys, s).value|];
  }

  /** The parent of the page at `k`: a loop of lookups, each starting a directory further up. */
  method Parent(t: PageTree, k: string, bundled: bool) returns (parent: Option<string>)
    requires WellFormed(t, Branches(t)) && IsPath(k)
    ensures parent == if bundled then BundledParentOf(t, k) else ParentOf(t, k)
  {
    if k == "" {
      return None;
    }
    var dir := Dir(k);
    while true
      invariant bundled ==> dir == Dir(k)
      invariant IsPath(dir) && dir != "" && BranchAbove(t, dir) == BranchAbove(t, Dir(k))
      decreases |dir|
    {
      BranchBehindHere(t, dir);
      var n := LongestPrefix(t, dir);
      if n.None? {
        return Some("");
      }
      if bundled || Branch(t, n.value) {
        return n;
      }
      if dir == "/" {
        RootHoldsHome(t, dir);
      }
      dir := Dir(dir);
    }
  }

  lemma {:induction false} BranchAboveIsShort(t: PageTree, s: string)
    requires IsPath(s)
    ensures |BranchAbove(t, s)| <= |s|
    decreases |s|
  {
    LongestKeyIsLongest(t.Keys, s);
    var r := LongestKey(t.Keys, s);
    if !(r.Some? && Branch(t, r.value)) && s != "" && s != "/" {
      BranchAboveIsShort(t, Dir(s));
    }
  }

  /** A parent has a strictly shorter key, so the chain of parents comes to an end. */
  lemma ParentIsShorter(t: PageTree, k: string)
    requires WellFormed(t, Branches(t)) && IsKey(k) && k != ""
    ensures |ParentOf(t, k).value| < |k| && IsKey(ParentOf(t, k).value)
  {
    BranchAboveIsShort(t, Dir(k));
    BranchAboveIsKey(t, Dir(k));
  }

  lemma {:induction false} BranchAboveIsKey(t: PageTree, s: string)
    requires WellFormed(t, Branches(t)) && IsPath(s)
    ensures IsKey(BranchAbove(t, s))
    decreases |s|
  {
    LongestKeyIsLongest(t.Keys, s);
    var r := LongestKey(t.Keys, s);
    if !(r.Some? && Branch(t, r.value)) && s != "" && s != "/" {
      BranchAboveIsKey(t, Dir(s));
    }
  }

  function Length(parent: Option<string>): nat
  {
    match parent case None => 0 case Some(k) => |k| + 1
  }

  /** `parent`, its parent, and so on. */
  function Chain(t: PageTree, parent: Option<string>): seq<string>
    requires WellFormed(t, Branches(t)) && (parent.Some? ==> IsKey(parent.value))
    decreases Length(parent)
  {
    if parent == None then []
    else
      NextParent(t, parent.value);
      [parent.value] + Chain(t, ParentOf(t, parent.value))
  }

  lemma NextParent(t: PageTree, k: string)
    requires WellFormed(t, Branches(t)) && IsKey(k)
    ensures var p := ParentOf(t, k); Length(p) <= |k| && (p.Some? ==> IsKey(p.value))
  {
    if k != "" {
      ParentIsShorter(t, k);
    }
  }

  lemma BundledParentIsKey(t: PageTree, k: string)
    requires WellFormed(t, Branches(t)) && IsKey(k)
    ensures BundledParentOf(t, k).Some? ==> IsKey(BundledParentOf(t, k).value)
  {
    if k != "" {
      LongestHereIsLongest(t, Dir(k));
    }
  }

  lemma ChainStep(t: PageTree, before: seq<string>, k: string)
    requires WellFormed(t, Branches(t)) && IsKey(k)
    ensures var p := ParentOf(t, k);
            && Length(p) <= |k| && (p.Some? ==> IsKey(p.value))
            && before + Chain(t, Some(k)) == before + [k] + Chain(t, p)
  {
    NextParent(t, k);
    Assoc(before, [k], Chain(t, ParentOf(t, k)));
  }

  method Ancestors(t: PageTree, k: string, bundled: bool) returns (ancestors: seq<string>)
    requires WellFormed(t, Branches(t)) && IsKey(k)
    ensures var parent := if bundled then BundledParentOf(t, k) else ParentOf(t, k);
            (parent.Some? ==> IsKey(parent.value)) && ancestors == Chain(t, parent)
  {
    ancestors := [];
    NextParent(t, k);
    BundledParentIsKey(t, k);
    var parent := Parent(t, k, bundled);
    ghost var goal := Chain(t, parent);
    while parent.Some?
      invariant parent.Some? ==> IsKey(parent.value)
      invariant goal == ancestors + Chain(t, parent)
      decreases Length(parent)
    {
      var p := parent.value;
      ChainStep(t, ancestors, p);
      ancestors := ancestors + [p];
      parent := Parent(t, p, false);
    }
  }

  /** The lookup in the directory `s` finds a branch page that is a prefix of `s` as a string only. */
  ghost predicate Stray(t: PageTree, s: string)
  {
    var r := LongestKey(t.Keys, s);
    r.Some? && Branch(t, r.value) && r.value != s && !Under(s, r.value)
  }

  /** Some directory above `k`, but below its nearest branch page, is led astray. */
  ghost predicate LedAstray(t: PageTree, k: string)
  {
    exists s :: Under(k, s) && Under(s, NearestBranch(t, k)) && Stray(t, s)
  }

  lemma NearestBranchIsAbove(t: PageTree, k: string)
    requires IsPath(k) && k != ""
    ensures var b := NearestBranch(t, k); Under(k, b) && (b == "" || Branch(t, b))
  {
    NearestOrHomeIsAbove(Branches(t), k);
  }

  lemma DirIsUp(k: string)
    requires IsPath(k) && k != ""
    ensures Dir(k) == if Up(k) == "" then "/" else Up(k)
    ensures IsPath(Up(k)) && IsPath(Dir(k))
  {}

  /** When the longest key is an ancestor and a branch, it is the nearest branch. */
  lemma LongestBranchIsNearest(t: PageTree, u: string, r: string)
    requires IsPath(u) && LongestKey(t.Keys, u) == Some(r) && Branch(t, r) && Under(u, r)
    ensures NearestBranch(t, u) == r
  {
    LongestKeyIsLongest(t.Keys, u);
    NearestBranchIsAbove(t, u);
    NearestIsNearest(Branches(t), u, r);
    var b := NearestBranch(t, u);
    AncestorsAreComparable(u, r, b);
    assert u[..|b|] == u[..|b| + 1][..|b|] == b;
    assert HasPrefix(u, b);
  }

  /** Between `k` and its nearest branch page there is nothing but the directory `Up(k)` and what lies below it. */
  lemma LedAstrayAbove(t: PageTree, k: string)
    requires IsPath(k) && k != "" && Up(k) != "" && !Branch(t, Up(k))
    ensures LedAstray(t, k) <==> Stray(t, Up(k)) || LedAstray(t, Up(k))
  {
    var u := Up(k);
    DirIsUp(k);
    UpIsUnder(k);
    NearestBranchIsAbove(t, u);
    if LedAstray(t, k) {
      var s :| Under(k, s) && Under(s, NearestBranch(t, k)) && Stray(t, s);
      UnderUp(k, s);
    }
    if LedAstray(t, u) {
      var s :| Under(u, s) && Under(s, NearestBranch(t, u)) && Stray(t, s);
      UnderTransitive(k, u, s);
    }
  }

  /** The directories between a path and its longest key, an ancestor, find that key as well. */
  lemma NotLedAstray(t: PageTree, u: string, r: string)
    requires IsPath(u) && LongestKey(t.Keys, u) == Some(r) && Branch(t, r) && Under(u, r)
    ensures !LedAstray(t, u)
  {
    LongestBranchIsNearest(t, u, r);
    forall s | Under(u, s) && Under(s, r) ensures !Stray(t, s) {
      assert s[..|r|] == s[..|r| + 1][..|r|] == r;
      assert u[..|s|] == u[..|s| + 1][..|s|] == s;
      LongestKeyOfShorter(t.Keys, u, s, r);
    }
  }

  lemma NothingBetween(t: PageTree, k: string)
    requires IsPath(k) && k != "" && NearestBranch(t, k) == Up(k)
    ensures !LedAstray(t, k)
  {
    forall s | Under(k, s) ensures !Under(s, Up(k)) {
      UnderUp(k, s);
    }
  }

  /**
    When the parent is the nearest branch page above: exactly when no directory in between finds, as the longest
    stored prefix, a branch page that is a prefix of it as a string only.
   */
  lemma {:induction false} ParentIsNearestBranch(t: PageTree, k: string)
    requires WellFormed(t, Branches(t)) && IsPath(k) && k != ""
    ensures ParentOf(t, k) == Some(NearestBranch(t, k)) <==> !LedAstray(t, k)
    decreases |k|
  {
    DirIsUp(k);
    var u := Up(k);
    LongestKeyIsLongest(t.Keys, Dir(k));
    if u == "" {
      RootFindsHome(t);
      assert NearestAbove(Branches(t), u) == None;
      NothingBetween(t, k);
    } else if Branch(t, u) {
      NothingBetween(t, k);
    } else {
      LedAstrayAbove(t, k);
      var r := LongestKey(t.Keys, u);
      if r.Some? && Branch(t, r.value) {
        if Under(u, r.value) {
          LongestBranchIsNearest(t, u, r.value);
          NotLedAstray(t, u, r.value);
        } else {
          NearestBranchIsAbove(t, u);
        }
      } else {
        ParentIsNearestBranch(t, u);
      }
    }
  }

  lemma RootFindsHome(t: PageTree)
    requires WellFormed(t, Branches(t))
    ensures BranchAbove(t, "/") == ""
  {
    LongestKeyIsLongest(t.Keys, "/");
    assert "/" !in t.Keys;
    var r := LongestKey(t.Keys, "/");
    assert r.Some? ==> r.value == "/"[..|r.value|];
  }

  lemma NoOverlapNoStray(t: PageTree, k: string)
    requires NoOverlap(t.Keys) && k in t
    ensures !LedAstray(t, k)
  {
    forall s | Under(k, s) && Under(s, NearestBranch(t, k)) ensures !Stray(t, s) {
      LongestKeyIsLongest(t.Keys, s);
      var r := LongestKey(t.Keys, s);
      if r.Some? {
        assert k[..|s|] == k[..|s| + 1][..|s|] == s;
        assert k[..|r.value|] == s[..|r.value|];
        assert HasPrefix(k, r.value);
        AncestorsAreComparable(k, r.value, s);
      }
    }
  }

  /** A page that goes to the wrong parent: /blog/a is a section, and /blog/ab no page. */
  lemma StrayParent()
    ensures var t: PageTree := map["" := Some(Page(true, false, true)), "/blog" := Some(Page(true, true, true)),
                               "/blog/a" := Some(Page(true, true, true)), "/blog/ab/x" := Some(Page(false, false, true))];
            && WellFormed(t, Branches(t)) && NearestBranch(t, "/blog/ab/x") == "/blog" && ParentOf(t, "/blog/ab/x") == Some("/blog/a")
  {
    var t: PageTree := map["" := Some(Page(true, false, true)), "/blog" := Some(Page(true, true, true)),
                       "/blog/a" := Some(Page(true, true, true)), "/blog/ab/x" := Some(Page(false, false, true))];
    var k, u := "/blog/ab/x", "/blog/ab";
    UpAt(k, 8);
    UpAt(u, 5);
    assert k[..8] == u && u[..5] == "/blog" && u[..|u| - 1] == "/blog/a";
    assert LongestKey(t.Keys, u) == LongestKey(t.Keys, "/blog/a") == Some("/blog/a");
  }

  ghost predicate BranchBetween(t: PageTree, top: string, k: string)
  {
    exists b :: Branch(t, b) && Under(b, top) && Under(k, b)
  }

  /** The prefixes skipped so far hold exactly the keys below a branch page that the walk has come past. */
  ghost predicate SkipsBranches(skipPrefixes: seq<string>, t: PageTree, top: string, past: seq<string>)
  {
    && (forall p :: p in skipPrefixes ==> exists b :: p == b + "/" && Branch(t, b) && Under(b, top))
    && (forall b :: b in past && Branch(t, b) && Under(b, top) ==> exists p :: p in skipPrefixes && HasPrefix(b + "/", p))
  }

  lemma SkippedIsBelowBranch(w: Walker, t: PageTree, top: string, past: seq<string>, k: string)
    requires SkipsBranches(w.skipPrefixes, t, top, past) && w.Skips(k)
    ensures BranchBetween(t, top, k)
  {
    var p :| p in w.skipPrefixes && HasPrefix(k, p);
    var b :| p == b + "/" && Branch(t, b) && Under(b, top);
    assert Under(k, b);
  }

  lemma BelowBranchIsSkipped(w: Walker, t: PageTree, top: string, past: seq<string>, k: string, b: string)
    requires SkipsBranches(w.skipPrefixes, t, top, past)
    requires b in past && Branch(t, b) && Under(b, top) && Under(k, b)
    ensures w.Skips(k)
  {
    var p :| p in w.skipPrefixes && HasPrefix(b + "/", p);
    assert k[..|p|] == k[..|b| + 1][..|p|];
  }

  lemma SkippedExactly(w: Walker, t: PageTree, top: string, order: seq<string>, i: nat)
    requires Walks(order, t.Keys) && i < |order| && SkipsBranches(w.skipPrefixes, t, top, order[..i])
    ensures w.Skips(order[i]) <==> BranchBetween(t, top, order[i])
  {
    var k := order[i];
    if w.Skips(k) {
      SkippedIsBelowBranch(w, t, top, order[..i], k);
    }
    if BranchBetween(t, top, k) {
      var b :| Branch(t, b) && Under(b, top) && Under(k, b);
      assert b in order;
      var j :| 0 <= j < |order| && order[j] == b;
      AncestorsComeFirst(order, j, i);
      assert order[..i][j] == b;
      BelowBranchIsSkipped(w, t, top, order[..i], k, b);
    }
  }

  /** Going on past a key that is no branch, that is skipped, or whose subtree is skipped from now on. */
  lemma SkipsBranchesOn(skip0: seq<string>, skip: seq<string>, t: PageTree, top: string, past: seq<string>, k: string)
    requires SkipsBranches(skip0, t, top, past)
    requires skip == skip0 || (skip == skip0 + [k + "/"] && Branch(t, k) && Under(k, top))
    requires Branch(t, k) && Under(k, top) ==> k + "/" in skip || exists p :: p in skip0 && HasPrefix(k, p)
    ensures SkipsBranches(skip, t, top, past + [k])
  {
    forall b | b in past + [k] && Branch(t, b) && Under(b, top) ensures exists p :: p in skip && HasPrefix(b + "/", p) {
      if b in past {
        var p :| p in skip0 && HasPrefix(b + "/", p);
        assert p in skip;
      } else if k + "/" in skip {
        assert HasPrefix(b + "/", k + "/");
      } else {
        var p :| p in skip0 && HasPrefix(k, p);
        assert (b + "/")[..|p|] == k[..|p|];
      }
    }
  }

  ghost function Listing(t: PageTree, top: string, recursive: bool, admit: string -> bool): string -> bool
  {
    k => Under(k, top) && Here(t, k) && admit(k) && (recursive || !BranchBetween(t, top, k))
  }

  /** The branch noted last, if any, is one that the walk has come past. */
  ghost predicate Noted(otherBranch: string, past: seq<string>)
  {
    otherBranch == "" || exists b :: b in past && otherBranch == b + "/"
  }

  /** No key comes twice, so the branch at hand is never the one noted before. */
  lemma NewBranch(order: seq<string>, i: nat, otherBranch: string)
    requires InOrder(order) && i < |order| && Noted(otherBranch, order[..i])
    ensures otherBranch != order[i] + "/"
  {
    if otherBranch == order[i] + "/" {
      var b :| b in order[..i] && otherBranch == b + "/";
      var j :| 0 <= j < i && order[j] == b;
      assert b == otherBranch[..|b|] == order[i];
      assert HasPrefix(b, b);
      PrefixIsNotAfter(b, b);
    }
  }

  /** The state that the walk's callback shares with it. */
  class Lister {
    const tree: PageTree
    const recursive: bool
    const admit: string -> bool
    const w: Walker
    var pas: seq<string>
    var otherBranch: string

    constructor (tree: PageTree, recursive: bool, admit: string -> bool, w: Walker)
      ensures this.tree == tree && this.recursive == recursive && this.admit == admit && this.w == w
      ensures pas == [] && otherBranch == ""
    {
      this.tree, this.recursive, this.admit, this.w, pas, otherBranch := tree, recursive, admit, w, [], "";
    }

    /** The callback for a key that is not skipped. */
    method Handle(key: string)
      requires Here(tree, key)
      modifies this, w
      ensures pas == old(pas) + if admit(key) then [key] else []
      ensures recursive || !Branch(tree, key) ==> w.skipPrefixes == old(w.skipPrefixes) && otherBranch == old(otherBranch)
      ensures !recursive && Branch(tree, key) ==> otherBranch == key + "/"
      ensures !recursive && Branch(tree, key) && old(otherBranch) != key + "/" ==>
        w.skipPrefixes == old(w.skipPrefixes) + [key + "/"]
    {
      if admit(key) {
        pas := pas + [key];
      }
      if !recursive && Branch(tree, key) {
        var currentBranch := key + "/";
        if otherBranch == "" || otherBranch != currentBranch {
          w.SkipPrefix(currentBranch);
        }
        otherBranch := currentBranch;
      }
    }

    /** What holds after the walk has come past some keys. */
    ghost predicate Past(top: string, past: seq<string>)
      reads this, w
    {
      && w.prefix == top + "/"
      && Noted(otherBranch, past)
      && if recursive then w.skipPrefixes == [] else SkipsBranches(w.skipPrefixes, tree, top, past)
    }

    /** One key of the walk. */
    method Visit(top: string, ghost order: seq<string>, ghost i: nat, key: string)
      requires Walks(order, tree.Keys) && i < |order| && order[i] == key && Past(top, order[..i])
      modifies this, w
      ensures Past(top, order[..i + 1])
      ensures pas == old(pas) + if Listing(tree, top, recursive, admit)(key) then [key] else []
    {
      assert order[..i + 1] == order[..i] + [key];
      ghost var skip0 := w.skipPrefixes;
      NewBranch(order, i, otherBranch);
      if !recursive {
        SkippedExactly(w, tree, top, order, i);
      }
      var skip := w.ShouldSkip(key);
      if HasPrefix(key, w.prefix) && !skip && Here(tree, key) {
        Handle(key);
      }
      if !recursive {
        SkipsBranchesOn(skip0, w.skipPrefixes, tree, top, order[..i], key);
      }
    }
  }

  /**
    The listing of a section: one walk over the keys below it, which skips what lies below any other branch page.
    The pages come in the order of the walk; the source sorts them afterwards.
   */
  method GetPagesInSection(t: PageTree, order: seq<string>, top: string, recursive: bool, includeSelf: bool, admit: string -> bool)
    returns (pas: seq<string>)
    requires Walks(order, t.Keys)
    ensures pas == Filter(order, Listing(t, top, recursive, admit)) + if includeSelf && Here(t, top) && admit(top) then [top] else []
  {
    var w := new Walker(top + "/");
    var lister := new Lister(t, recursive, admit, w);
    ghost var wanted := Listing(t, top, recursive, admit);
    ghost var goal := Filter(order, wanted);
    for i := 0 to |order|
      invariant fresh(w) && fresh(lister) && lister.w == w
      invariant lister.tree == t && lister.recursive == recursive && lister.admit == admit
      invariant lister.Past(top, order[..i])
      invariant goal == lister.pas + Filter(order[i..], wanted)
    {
      FilterStep(order, i, wanted);
      Assoc(lister.pas, if wanted(order[i]) then [order[i]] else [], Filter(order[i + 1..], wanted));
      lister.Visit(top, order, i, order[i]);
    }
    pas := lister.pas;
    if includeSelf && Here(t, top) && admit(top) {
      pas := pas + [top];
    }
  }

  /** Nothing between `top` and `k`: `top` is the nearest branch page of `k`, if it is a branch page or the home page. */
  lemma NearestIsNothingBetween(t: PageTree, top: string, k: string)
    requires IsPath(k) && k != "" && (top == "" || Branch(t, top))
    ensures NearestBranch(t, k) == top <==> Under(k, top) && !BranchBetween(t, top, k)
  {
    var n := NearestBranch(t, k);
    NearestBranchIsAbove(t, k);
    if n == top && BranchBetween(t, top, k) {
      var b :| Branch(t, b) && Under(b, top) && Under(k, b);
      NearestIsNearest(Branches(t), k, b);
    }
    if Under(k, top) && !BranchBetween(t, top, k) {
      AncestorsAreComparable(k, if |n| <= |top| then n else top, if |n| <= |top| then top else n);
      if top != "" {
        NearestIsNearest(Branches(t), k, top);
      }
    }
  }

  /** A section lists exactly the pages that have it as their nearest branch page, whatever the keys are. */
  lemma ListingIsNearest(t: PageTree, order: seq<string>, top: string, admit: string -> bool, k: string)
    requires WellFormed(t, Branches(t)) && Walks(order, t.Keys) && (top == "" || Branch(t, top))
    ensures k in Filter(order, Listing(t, top, false, admit))
       <==> k != "" && Here(t, k) && admit(k) && NearestBranch(t, k) == top
  {
    FilterExactly(order, Listing(t, top, false, admit), k);
    if k != "" && Here(t, k) {
      NearestIsNothingBetween(t, top, k);
    }
  }

  /** The section at `top` lists the page at `k` if and only if it is its parent. */
  ghost predicate ListedByParent(t: PageTree, order: seq<string>, admit: string -> bool, k: string, top: string)
    requires IsPath(k)
  {
    k in Filter(order, Listing(t, top, false, admit)) <==> ParentOf(t, k) == Some(top)
  }

  /**
    For which pages listing and parent agree: a page is listed by exactly the sections that are its parent if
    and only if no directory on its way up is led astray.
   */
  lemma ListingAgreesUnlessAstray(t: PageTree, order: seq<string>, admit: string -> bool, k: string)
    requires WellFormed(t, Branches(t)) && Walks(order, t.Keys) && k != "" && Here(t, k) && admit(k)
    ensures !LedAstray(t, k) <==> forall top :: top == "" || Branch(t, top) ==> ListedByParent(t, order, admit, k, top)
  {
    NearestBranchIsAbove(t, k);
    ParentIsNearestBranch(t, k);
    forall top | top == "" || Branch(t, top)
      ensures ListedByParent(t, order, admit, k, top) <==> (NearestBranch(t, k) == top <==> ParentOf(t, k) == Some(top))
    {
      ListingIsNearest(t, order, top, admit, k);
    }
    var n := NearestBranch(t, k);
    assert ListedByParent(t, order, admit, k, n) <==> ParentOf(t, k) == Some(n);
  }

  /** Without overlapping keys, a section lists exactly the pages whose parent it is. */
  lemma ListingAgreesWithParent(t: PageTree, order: seq<string>, top: string, admit: string -> bool, k: string)
    requires WellFormed(t, Branches(t)) && Walks(order, t.Keys) && NoOverlap(t.Keys) && (top == "" || Branch(t, top))
    ensures k in Filter(order, Listing(t, top, false, admit))
       <==> Here(t, k) && admit(k) && IsPath(k) && ParentOf(t, k) == Some(top)
  {
    ListingIsNearest(t, order, top, admit, k);
    if k != "" && Here(t, k) {
      NoOverlapNoStray(t, k);
      ParentIsNearestBranch(t, k);
    }
  }

  /** Without overlapping keys, the ancestors of a page are exactly the branch pages above it, up to the home page. */
  lemma {:induction false} AncestorsAreBranchesAbove(t: PageTree, k: string, a: string)
    requires WellFormed(t, Branches(t)) && NoOverlap(t.Keys) && k in t
    ensures ParentOf(t, k).Some? ==> IsKey(ParentOf(t, k).value)
    ensures a in Chain(t, ParentOf(t, k)) <==> (a == "" || Branch(t, a)) && Under(k, a)
    decreases |k|
  {
    NextParent(t, k);
    if k != "" {
      var n := NearestBranch(t, k);
      NoOverlapNoStray(t, k);
      ParentIsNearestBranch(t, k);
      NearestBranchIsAbove(t, k);
      NextParent(t, n);
      assert Chain(t, Some(n)) == [n] + Chain(t, ParentOf(t, n));
      if n != "" {
        AncestorsAreBranchesAbove(t, n, a);
      }
      if Under(k, a) && Branch(t, a) {
        NearestIsNearest(Branches(t), k, a);
      }
      if Under(k, a) && (a == "" || Branch(t, a)) {
        AncestorsAreComparable(k, a, n);
      }
      if Under(n, a) {
        UnderTransitive(k, n, a);
      }
    }
  }

  lemma {:induction false} BranchAboveAtLeast(t: PageTree, s: string, b: string)
    requires IsPath(s) && b != "" && Branch(t, b) && (s == b || Under(s, b))
    ensures |BranchAbove(t, s)| >= |b|
    decreases |s|
  {
    LongestKeyIsLongest(t.Keys, s);
    assert s == b || s[..|b|] == s[..|b| + 1][..|b|] == b;
    assert HasPrefix(s, b);
    var r := LongestKey(t.Keys, s);
    if !(r.Some? && Branch(t, r.value)) {
      UnderUp(s, b);
      BranchAboveAtLeast(t, Dir(s), b);
    }
  }

  /** Below a branch page that is itself below `top`, no page has `top` as its parent, stray or not. */
  lemma ParentBelowBranch(t: PageTree, top: string, b: string, k: string)
    requires IsPath(k) && Branch(t, b) && Under(b, top) && Under(k, b)
    ensures ParentOf(t, k) != Some(top)
  {
    UnderUp(k, b);
    BranchAboveAtLeast(t, Dir(k), b);
  }

  predicate IsSectionOf(t: PageTree, top: string, k: string)
  {
    && Branch(t, k) && t[k].value.section && t[k].value.listed && IsPath(k)
    && Under(k, top) && ParentOf(t, k) == Some(top)
  }

  /** A prefix under which no page has `top` as its parent. */
  ghost predicate BranchPrefix(t: PageTree, top: string, p: string)
  {
    exists b :: p == b + "/" && Branch(t, b) && Under(b, top)
  }

  lemma NotBelow(t: PageTree, top: string, p: string, k: string)
    requires WellFormed(t, Branches(t)) && BranchPrefix(t, top, p) && HasPrefix(k, p) && k in t
    ensures !IsSectionOf(t, top, k)
  {
    var b :| p == b + "/" && Branch(t, b) && Under(b, top);
    if k != "" {
      ParentBelowBranch(t, top, b, k);
    }
  }

  /** The state of the walk behind Sections. */
  class SectionFinder {
    const tree: PageTree
    const top: string
    const w: Walker
    var pages: seq<string>
    var currentBranchPrefix: string

    constructor (tree: PageTree, top: string, w: Walker)
      ensures this.tree == tree && this.top == top && this.w == w && pages == [] && currentBranchPrefix == ""
    {
      this.tree, this.top, this.w, pages, currentBranchPrefix := tree, top, w, [], "";
    }

    ghost predicate Valid()
      reads this, w
    {
      && WellFormed(tree, Branches(tree)) && w.prefix == top + "/"
      && (forall p :: p in w.skipPrefixes ==> BranchPrefix(tree, top, p))
      && (currentBranchPrefix != "" ==> BranchPrefix(tree, top, currentBranchPrefix))
    }

    /** The callback for a key below the page that is not skipped. */
    method Handle(ss: string)
      requires Valid() && Here(tree, ss) && Under(ss, top)
      modifies this, w
      ensures Valid()
      ensures pages == old(pages) + if IsSectionOf(tree, top, ss) then [ss] else []
    {
      if !Branch(tree, ss) {
        return;
      }
      assert BranchPrefix(tree, top, ss + "/");
      if currentBranchPrefix == "" || !HasPrefix(ss, currentBranchPrefix) {
        var parent := Parent(tree, ss, false);
        if tree[ss].value.section && tree[ss].value.listed && parent == Some(top) {
          pages := pages + [ss];
        } else {
          w.SkipPrefix(ss + "/");
        }
      } else {
        NotBelow(tree, top, currentBranchPrefix, ss);
      }
      currentBranchPrefix := ss + "/";
    }

    method Visit(ss: string)
      requires Valid() && ss in tree
      modifies this, w
      ensures Valid()
      ensures pages == old(pages) + if IsSectionOf(tree, top, ss) then [ss] else []
    {
      var skip := w.ShouldSkip(ss);
      if skip {
        ghost var p :| p in w.skipPrefixes && HasPrefix(ss, p);
        NotBelow(tree, top, p, ss);
      }
      if HasPrefix(ss, w.prefix) && !skip && Here(tree, ss) {
        Handle(ss);
      }
    }
  }

  /**
    The sections of a page: exactly the listable sections below it whose parent it is, although the walk skips
    whole subtrees and compares prefixes as strings.
   */
  method Sections(t: PageTree, order: seq<string>, top: string) returns (pages: seq<string>)
    requires WellFormed(t, Branches(t)) && Walks(order, t.Keys)
    ensures pages == Filter(order, k => IsSectionOf(t, top, k))
  {
    var w := new Walker(top + "/");
    var finder := new SectionFinder(t, top, w);
    ghost var wanted := k => IsSectionOf(t, top, k);
    ghost var goal := Filter(order, wanted);
    for i := 0 to |order|
      invariant fresh(w) && fresh(finder) && finder.w == w && finder.tree == t && finder.top == top
      invariant finder.Valid()
      invariant goal == finder.pages + Filter(order[i..], wanted)
    {
      FilterStep(order, i, wanted);
      Assoc(finder.pages, if wanted(order[i]) then [order[i]] else [], Filter(order[i + 1..], wanted));
      finder.Visit(order[i]);
    }
    pages := finder.pages;
  }
}
