/** Finite trees of content: every token unfolded into the content of its value. */
module ExpansionTrees {
  import opened Common
  import opened ShortcodeExpansion
  import opened ExpansionRefinement

  /** Content with every token already unfolded into the content of its value. */
  datatype Tree = Leaf(text: string) | Node(key: string, kids: seq<Tree>)

  function Roots(ts: seq<Tree>): (ps: seq<Piece>)
    ensures |ps| == |ts|
  {
    if ts == [] then [] else [Root(ts[0])] + Roots(ts[1..])
  }

  function Root(t: Tree): Piece
  {
    match t case Leaf(s) => Lit(s) case Node(key, _) => Tok(key)
  }

  /** Every node carries the pieces of its token's value. */
  ghost predicate Unfolds(ts: seq<Tree>, values: Values)
    decreases ts
  {
    ts == [] || (UnfoldsOne(ts[0], values) && Unfolds(ts[1..], values))
  }

  ghost predicate UnfoldsOne(t: Tree, values: Values)
    decreases t
  {
    t.Node? ==> values(t.key) == Some(Roots(t.kids)) && Unfolds(t.kids, values)
  }

  /** The text of the leaves, in order. */
  function FullText(ts: seq<Tree>): string
    decreases ts
  {
    if ts == [] then "" else TextOf(ts[0]) + FullText(ts[1..])
  }

  function TextOf(t: Tree): string
    decreases t
  {
    match t case Leaf(s) => s case Node(_, kids) => FullText(kids)
  }

  /** The number of tokens that will be replaced. */
  function Nodes(ts: seq<Tree>): nat
    decreases ts
  {
    if ts == [] then 0 else NodesOf(ts[0]) + Nodes(ts[1..])
  }

  function NodesOf(t: Tree): nat
    decreases t
  {
    match t case Leaf(_) => 0 case Node(_, kids) => 1 + Nodes(kids)
  }

  lemma {:induction false} Append(a: seq<Tree>, b: seq<Tree>, values: Values)
    ensures Roots(a + b) == Roots(a) + Roots(b)
    ensures FullText(a + b) == FullText(a) + FullText(b)
    ensures Nodes(a + b) == Nodes(a) + Nodes(b)
    ensures Unfolds(a, values) && Unfolds(b, values) <==> Unfolds(a + b, values)
    decreases |a|
  {
    if a == [] {
      assert a + b == b;
    } else {
      assert (a + b)[1..] == a[1..] + b && (a + b)[0] == a[0];
      Append(a[1..], b, values);
      Assoc(TextOf(a[0]), FullText(a[1..]), FullText(b));
      Assoc([Root(a[0])], Roots(a[1..]), Roots(b));
    }
  }

  function DropLeaves(ts: seq<Tree>, n: nat): seq<Tree>
  {
    if ts == [] || n == 0 || ts[0].Node? then ts
    else if |ts[0].text| <= n then DropLeaves(ts[1..], n - |ts[0].text|)
    else [Leaf(ts[0].text[n..])] + ts[1..]
  }

  lemma DropLeavesIsDrop(ts: seq<Tree>, n: nat, values: Values)
    requires Unfolds(ts, values)
    ensures Roots(DropLeaves(ts, n)) == DropChars(Roots(ts), n)
    ensures Unfolds(DropLeaves(ts, n), values) && Nodes(DropLeaves(ts, n)) == Nodes(ts)
  {
    if ts != [] && n > 0 && ts[0].Leaf? {
      if |ts[0].text| <= n {
        DropLeavesIsDrop(ts[1..], n - |ts[0].text|, values);
      } else {
        assert ([Leaf(ts[0].text[n..])] + ts[1..])[1..] == ts[1..];
        assert Roots(ts)[1..] == Roots(ts[1..]);
      }
    }
  }

  // ---------------------------------------------------------------------------------------------
  // Which content has a finite tree

  lemma SplitRoots(ts: seq<Tree>, a: seq<Piece>, b: seq<Piece>, values: Values)
    requires Roots(ts) == a + b && Unfolds(ts, values)
    ensures var ta, tb := ts[..|a|], ts[|a|..];
            Roots(ta) == a && Roots(tb) == b && Unfolds(ta, values) && Unfolds(tb, values) && Nodes(ts) == Nodes(ta) + Nodes(tb)
  {
    var ta, tb := ts[..|a|], ts[|a|..];
    assert ts == ta + tb;
    Append(ta, tb, values);
    assert Roots(ta) == (a + b)[..|a|] && Roots(tb) == (a + b)[|a|..];
  }

  /** Restores what `DropChars` removed. */
  lemma {:induction false} Undrop(ps: seq<Piece>, n: nat, ts: seq<Tree>, values: Values) returns (us: seq<Tree>)
    requires Roots(ts) == DropChars(ps, n) && Unfolds(ts, values)
    ensures Roots(us) == ps && Unfolds(us, values) && Nodes(us) == Nodes(ts)
    decreases |ps|
  {
    if ps == [] || n == 0 || ps[0].Tok? {
      us := ts;
    } else {
      var t := ps[0].text;
      var tail;
      if |t| <= n {
        tail := Undrop(ps[1..], n - |t|, ts, values);
      } else {
        tail := ts[1..];
        assert Roots(ts)[1..] == ps[1..];
      }
      us := [Leaf(t)] + tail;
      assert us[1..] == tail;
      assert Roots(us) == [Lit(t)] + Roots(tail) == ps;
    }
  }

  /** The trees of a token's value and of what stood behind the token. */
  lemma SplitAfterToken(out: string, v: seq<Piece>, rest: seq<Piece>, both: seq<Tree>, values: Values)
    returns (kids: seq<Tree>, us: seq<Tree>)
    requires Roots(both) == AfterToken(out, v, rest).1 && Unfolds(both, values)
    ensures Roots(kids) == v && Roots(us) == rest && Unfolds(kids, values) && Unfolds(us, values)
    ensures Nodes(both) == Nodes(kids) + Nodes(us)
  {
    kids, us := both[..|v|], both[|v|..];
    if WrapsToken(out, rest) {
      SplitRoots(both, v, DropChars(rest, 4), values);
      us := Undrop(rest, 4, us, values);
    } else {
      SplitRoots(both, v, rest, values);
    }
  }

  /** A finished splicing has built a finite tree, one node a round. */
  lemma {:induction false} SplicedUnfolds(out: string, ps: seq<Piece>, values: Values, tails: nat -> string, n: nat, fuel: nat) returns (ts: seq<Tree>)
    requires Splice(out, ps, values, tails, n, fuel).Spliced?
    ensures Roots(ts) == ps && Unfolds(ts, values) && Nodes(ts) <= fuel
    decreases fuel, |ps|
  {
    if ps == [] {
      ts := [];
    } else {
      var rest := ps[1..];
      match ps[0]
      case Lit(t) =>
        var us := SplicedUnfolds(out + t, rest, values, tails, n, fuel);
        ts := [Leaf(t)] + us;
        assert ts[1..] == us;
      case Tok(key) =>
        assert ps == [Tok(key)] + rest;
        SpliceToken(out, key, rest, values, tails, n, fuel);
        var v := values(key).value;
        var (out', ps') := AfterToken(out, v, rest);
        var both := SplicedUnfolds(out', ps', values, tails, n + 1, fuel - 1);
        var kids, us := SplitAfterToken(out, v, rest, both, values);
        ts := [Node(key, kids)] + us;
        assert ts[1..] == us;
    }
  }

  /** Ranked tokens: every token of a value has a smaller rank than the token of the value. */
  ghost predicate Ranked(values: Values, rank: string -> nat)
  {
    forall key, i :: values(key).Some? && 0 <= i < |values(key).value| && values(key).value[i].Tok? ==>
      rank(values(key).value[i].key) < rank(key) && values(values(key).value[i].key).Some?
  }

  lemma {:induction false} RankedHasTree(ps: seq<Piece>, values: Values, rank: string -> nat, bound: nat) returns (ts: seq<Tree>)
    requires Ranked(values, rank)
    requires forall i :: 0 <= i < |ps| && ps[i].Tok? ==> values(ps[i].key).Some? && rank(ps[i].key) < bound
    ensures Roots(ts) == ps && Unfolds(ts, values)
    decreases bound, |ps|
  {
    if ps == [] {
      ts := [];
    } else {
      var us := RankedHasTree(ps[1..], values, rank, bound);
      match ps[0] {
        case Lit(t) => ts := [Leaf(t)] + us;
        case Tok(key) =>
          assert rank(key) < bound;
          var kids := RankedHasTree(values(key).value, values, rank, rank(key));
          ts := [Node(key, kids)] + us;
      }
      assert ts[1..] == us;
    }
  }
}
