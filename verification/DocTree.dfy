/**
  The tree of hugolib/doctree as its clients see it: keys in order, the longest stored key that is a prefix of a
  string, character by character, and a walk that can be told to skip prefixes. The home page has the key "";
  all other keys start with a slash, do not end with one and are clean paths.
 */
module DocTree {
  import opened Common

  predicate IsKey(k: string)
  {
    k == "" || (|k| >= 2 && k[0] == '/' && k[|k| - 1] != '/')
  }

  ghost predicate Keys(keys: set<string>)
  {
    forall k :: k in keys ==> IsKey(k)
  }

  function LastSlash(s: string): (i: int)
    ensures -1 <= i < |s|
    ensures i >= 0 ==> s[i] == '/'
    ensures forall j :: i < j < |s| ==> s[j] != '/'
  {
    if s == "" then -1 else if s[|s| - 1] == '/' then |s| - 1 else LastSlash(s[..|s| - 1])
  }

  /** path.Dir on clean paths: all but the last element, or "/" when that is nothing. */
  function Dir(s: string): string
  {
    var i := LastSlash(s);
    if i < 0 then "." else if i == 0 then "/" else s[..i]
  }

  /** The key one level up, which is "" above the top level. */
  function Up(k: string): (up: string)
    ensures k != "" ==> |up| < |k|
  {
    var i := LastSlash(k);
    if i <= 0 then "" else k[..i]
  }

  lemma UpAt(k: string, i: nat)
    requires 0 < i < |k| && k[i] == '/' && forall j :: i < j < |k| ==> k[j] != '/'
    ensures Up(k) == k[..i]
  {
    assert LastSlash(k) == i;
  }

  /** `k` lies below `b` as a path, and not only as a string. */
  predicate Under(k: string, b: string)
  {
    HasPrefix(k, b + "/")
  }

  lemma UpIsUnder(k: string)
    requires k != "" && k[0] == '/'
    ensures Under(k, Up(k))
  {
    var i := LastSlash(k);
    assert k[..i + 1] == k[..i] + "/";
  }

  lemma UnderUp(k: string, b: string)
    requires Under(k, b)
    ensures Up(k) == b || Under(Up(k), b)
    ensures Dir(k) == if Up(k) == "" then "/" else Up(k)
  {
    var i := LastSlash(k);
    var p := b + "/";
    assert k[..|p|][|b|] == '/';
    assert i >= |b|;
    if i == |b| {
      assert k[..i] == k[..|p|][..i] == b;
    } else {
      assert k[..i][..|p|] == k[..|p|];
    }
  }

  lemma UnderTransitive(a: string, b: string, c: string)
    requires Under(a, b) && (Under(b, c) || b == c)
    ensures Under(a, c)
  {
    if b != c {
      var p := c + "/";
      assert a[..|b| + 1] == b + "/";
      assert a[..|p|] == a[..|b| + 1][..|p|] == b[..|p|];
    }
  }

  /** Two ancestors of one path are ancestors of each other. */
  lemma AncestorsAreComparable(k: string, a: string, b: string)
    requires Under(k, a) && Under(k, b) && |a| <= |b|
    ensures a == b || Under(b, a)
  {
    var p, q := a + "/", b + "/";
    assert k[..|q|] == q && k[..|p|] == p;
    assert q[..|p|] == k[..|q|][..|p|] == p;
    if |a| == |b| {
      assert a == p[..|a|] && b == q[..|b|];
    } else {
      assert b == q[..|b|];
      assert b[..|p|] == q[..|p|];
    }
  }

  /** The nearest key above `k`, by path. */
  function NearestAbove(keys: set<string>, k: string): Option<string>
    decreases |k|
  {
    if k == "" then None
    else if Up(k) in keys then Some(Up(k))
    else NearestAbove(keys, Up(k))
  }

  lemma {:induction false} NearestIsShorter(keys: set<string>, k: string)
    ensures var r := NearestAbove(keys, k); r.Some? ==> r.value in keys && |r.value| < |k|
    decreases |k|
  {
    if k != "" && Up(k) !in keys {
      NearestIsShorter(keys, Up(k));
    }
  }

  /** Any key above `k` is at or above the nearest one. */
  lemma {:induction false} NearestIsNearest(keys: set<string>, k: string, q: string)
    requires Under(k, q) && q in keys
    ensures NearestAbove(keys, k).Some? && |q| <= |NearestAbove(keys, k).value|
    decreases |k|
  {
    UnderUp(k, q);
    if Up(k) !in keys {
      NearestIsNearest(keys, Up(k), q);
    } else if Up(k) != q {
      assert |q| < |Up(k)|;
    }
  }

  lemma {:induction false} NearestIsAbove(keys: set<string>, k: string)
    requires k == "" || k[0] == '/'
    ensures var r := NearestAbove(keys, k); r.Some? ==> r.value in keys && Under(k, r.value)
    decreases |k|
  {
    if k != "" {
      UpIsUnder(k);
      if Up(k) !in keys {
        NearestIsAbove(keys, Up(k));
        var r := NearestAbove(keys, Up(k));
        if r.Some? {
          UnderTransitive(k, Up(k), r.value);
        }
      }
    }
  }

  /** The nearest key above `k`; at the top, the home page. */
  function NearestOrHome(keys: set<string>, k: string): (b: string)
    ensures k != "" ==> |b| < |k|
    ensures b == "" || b in keys
  {
    NearestIsShorter(keys, k);
    match NearestAbove(keys, k) case Some(b) => b case None => ""
  }

  lemma NearestOrHomeIsAbove(keys: set<string>, k: string)
    requires k != "" && k[0] == '/'
    ensures Under(k, NearestOrHome(keys, k))
  {
    NearestIsAbove(keys, k);
  }

  /** The keys of a tree, with the node that each holds in the current language, if any. */
  type Tree<V> = map<string, Option<V>>

  predicate Here<V>(t: Tree<V>, k: string)
  {
    k in t && t[k].Some?
  }

  /** The keys are keys, and the home page, if there is one, is a branch page. */
  ghost predicate WellFormed<V>(t: Tree<V>, branches: set<string>)
  {
    Keys(t.Keys) && (Here(t, "") ==> "" in branches)
  }

  /** No key is a prefix of another as a string, except where it is an ancestor. */
  ghost predicate NoOverlap(keys: set<string>)
  {
    forall a, b :: a in keys && b in keys && HasPrefix(b, a) ==> a == b || Under(b, a)
  }

  /** The longest stored key that is a prefix of `s`, as the radix tree finds it. */
  function LongestKey(keys: set<string>, s: string): (r: Option<string>)
  {
    if s in keys then Some(s) else if s == "" then None else LongestKey(keys, s[..|s| - 1])
  }

  lemma {:induction false} LongestKeyIsLongest(keys: set<string>, s: string)
    ensures match LongestKey(keys, s)
            case Some(k) => k in keys && HasPrefix(s, k) && forall j :: j in keys && HasPrefix(s, j) ==> |j| <= |k|
            case None => forall j :: j in keys ==> !HasPrefix(s, j)
  {
    if s !in keys && s != "" {
      var t := s[..|s| - 1];
      LongestKeyIsLongest(keys, t);
      assert s[..|s|] == s;
      forall j | j in keys && HasPrefix(s, j) ensures HasPrefix(t, j) {
        assert j != s;
        assert t[..|j|] == s[..|j|];
      }
      forall j | HasPrefix(t, j) ensures HasPrefix(s, j) {
        assert s[..|j|] == t[..|j|];
      }
    }
  }

  /** A shorter string that still has the longest key as a prefix has the same longest key. */
  lemma LongestKeyOfShorter(keys: set<string>, s: string, t: string, k: string)
    requires LongestKey(keys, s) == Some(k) && HasPrefix(s, t) && HasPrefix(t, k)
    ensures LongestKey(keys, t) == Some(k)
  {
    LongestKeyIsLongest(keys, s);
    LongestKeyIsLongest(keys, t);
    forall j | HasPrefix(t, j) ensures HasPrefix(s, j) {
      assert s[..|j|] == s[..|t|][..|j|];
    }
    var r := LongestKey(keys, t);
    assert r.Some? && |r.value| == |k| && r.value == t[..|k|] == k;
  }

  /** The order of the tree. */
  predicate Before(s: string, t: string)
  {
    t != "" && (s == "" || s[0] < t[0] || (s[0] == t[0] && Before(s[1..], t[1..])))
  }

  ghost predicate InOrder(order: seq<string>)
  {
    forall i, j :: 0 <= i < j < |order| ==> Before(order[i], order[j])
  }

  /** `order` lists the keys in the order of a walk. */
  ghost predicate Walks(order: seq<string>, keys: set<string>)
  {
    InOrder(order) && forall k :: k in order <==> k in keys
  }

  /** The wanted keys of a walk, in its order. */
  function Filter(order: seq<string>, wanted: string -> bool): seq<string>
  {
    if order == [] then [] else (if wanted(order[0]) then [order[0]] else []) + Filter(order[1..], wanted)
  }

  lemma FilterStep(order: seq<string>, i: nat, wanted: string -> bool)
    requires i < |order|
    ensures Filter(order[i..], wanted) == (if wanted(order[i]) then [order[i]] else []) + Filter(order[i + 1..], wanted)
  {
    assert order[i..][1..] == order[i + 1..];
  }

  lemma {:induction false} FilterExactly(order: seq<string>, wanted: string -> bool, k: string)
    ensures k in Filter(order, wanted) <==> k in order && wanted(k)
  {
    if order != [] {
      FilterExactly(order[1..], wanted, k);
    }
  }

  /** The places `at` are those of the wanted keys, each once and in order, and `picked` is what stands there. */
  ghost predicate PicksInOrder(picked: seq<string>, order: seq<string>, wanted: string -> bool, at: seq<nat>)
  {
    && |at| == |picked| && (forall j :: 0 <= j < |at| ==> at[j] < |order| && picked[j] == order[at[j]])
    && (forall i, j :: 0 <= i < j < |at| ==> at[i] < at[j])
    && (forall i: nat :: i < |order| ==> (i in at <==> wanted(order[i])))
  }

  lemma {:induction false} FilterAppend(order: seq<string>, last: string, wanted: string -> bool)
    ensures Filter(order + [last], wanted) == Filter(order, wanted) + if wanted(last) then [last] else []
  {
    if order == [] {
      assert [] + [last] == [last] && [last][1..] == [];
    } else {
      assert (order + [last])[1..] == order[1..] + [last];
      FilterAppend(order[1..], last, wanted);
      Assoc(if wanted(order[0]) then [order[0]] else [], Filter(order[1..], wanted), if wanted(last) then [last] else []);
    }
  }

  /** Filtering takes every wanted key once for each time that it comes, and keeps the order. */
  lemma {:induction false} FilterPicks(order: seq<string>, wanted: string -> bool) returns (at: seq<nat>)
    ensures PicksInOrder(Filter(order, wanted), order, wanted, at)
    decreases |order|
  {
    if order == [] {
      at := [];
    } else {
      var front, last := order[..|order| - 1], order[|order| - 1];
      at := FilterPicks(front, wanted);
      FilterAppend(front, last, wanted);
      assert front + [last] == order;
      if wanted(last) {
        at := at + [|front|];
      }
    }
  }

  lemma {:induction false} PrefixIsNotAfter(s: string, t: string)
    requires HasPrefix(t, s)
    ensures !Before(t, s)
  {
    if s != "" {
      assert t[..|s|][0] == t[0] && t[1..][..|s| - 1] == t[..|s|][1..];
      PrefixIsNotAfter(s[1..], t[1..]);
    }
  }

  /** In the order of the tree, a path comes after its ancestors. */
  lemma AncestorsComeFirst(order: seq<string>, i: nat, j: nat)
    requires InOrder(order) && i < |order| && j < |order| && Under(order[j], order[i])
    ensures i < j
  {
    var b, k := order[i], order[j];
    assert k[..|b|] == k[..|b| + 1][..|b|] == b;
    PrefixIsNotAfter(b, k);
  }

  /** The walker over one tree: the keys to visit, in order, and the prefixes to skip. */
  class Walker {
    const prefix: string
    var skipPrefixes: seq<string>

    constructor (prefix: string)
      ensures this.prefix == prefix && skipPrefixes == []
    {
      this.prefix, skipPrefixes := prefix, [];
    }

    method SkipPrefix(p: string)
      modifies this
      ensures skipPrefixes == old(skipPrefixes) + [p]
    {
      skipPrefixes := skipPrefixes + [p];
    }

    ghost predicate Skips(s: string)
      reads this
    {
      exists p :: p in skipPrefixes && HasPrefix(s, p)
    }

    method ShouldSkip(s: string) returns (skip: bool)
      ensures skip <==> Skips(s)
    {
      for i := 0 to |skipPrefixes|
        invariant forall j :: 0 <= j < i ==> !HasPrefix(s, skipPrefixes[j])
      {
        if HasPrefix(s, skipPrefixes[i]) {
          return true;
        }
      }
      return false;
    }
  }
}
