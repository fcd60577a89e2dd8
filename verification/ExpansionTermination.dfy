/** When the rewriter stops and leaves no placeholder prefix, from conditions on the texts alone. */
module ExpansionTermination {
  import opened Common
  import opened ShortcodeExpansion
  import opened ExpansionRefinement
  import opened ExpansionTrees
  import opened ExpansionMeaning

  // ---------------------------------------------------------------------------------------------
  // Clean texts

  /** `s` ends in a proper part of the placeholder prefix. */
  ghost predicate EndsInPart(s: string)
  {
    exists m :: 0 < m < |PREFIX| && EndsWith(s, PREFIX[..m])
  }

  /** No placeholder prefix in the text, and no first part of one at its end or in front of a `<`. */
  ghost predicate Clean(s: string)
  {
    !Occurs(s, PREFIX) && forall i :: 0 <= i <= |s| && CutsAt(s, i) ==> !EndsInPart(s[..i])
  }

  predicate CutsAt(s: string, i: nat)
    requires i <= |s|
  {
    i == |s| || s[i] == '<'
  }

  lemma PrefixAcross(a: string, b: string)
    ensures Occurs(a + b, PREFIX) ==> Occurs(a, PREFIX) || Occurs(b, PREFIX) || EndsInPart(a)
  {
    if i :| At(a + b, PREFIX, i) {
      var p := (a + b)[i..i + |PREFIX|];
      if i + |PREFIX| <= |a| {
        assert a[i..i + |PREFIX|] == p;
        assert At(a, PREFIX, i);
      } else if i >= |a| {
        assert b[i - |a|..i - |a| + |PREFIX|] == p;
        assert At(b, PREFIX, i - |a|);
      } else {
        var m := |a| - i;
        assert forall k :: 0 <= k < m ==> a[i..][k] == p[k];
        assert a[i..] == p[..m];
        assert EndsWith(a, PREFIX[..m]);
      }
    }
  }

  lemma PartAcross(a: string, b: string)
    ensures EndsInPart(a + b) ==> EndsInPart(b) || EndsInPart(a)
  {
    var s := a + b;
    if m :| 0 < m < |PREFIX| && EndsWith(s, PREFIX[..m]) {
      var p := s[|s| - m..];
      if m <= |b| {
        assert b[|b| - m..] == p;
        assert EndsWith(b, PREFIX[..m]);
      } else {
        var k := m - |b|;
        assert a[|a| - k..] == p[..k] == PREFIX[..m][..k] == PREFIX[..k];
        assert EndsWith(a, PREFIX[..k]);
      }
    }
  }

  lemma PartOfTail(a: string, b: string)
    ensures EndsInPart(b) ==> EndsInPart(a + b)
  {
    if m :| 0 < m < |PREFIX| && EndsWith(b, PREFIX[..m]) {
      var s := a + b;
      assert s[|s| - m..] == b[|b| - m..];
      assert EndsWith(s, PREFIX[..m]);
    }
  }

  /** Clean texts make a clean text: a prefix cannot come about where two of them meet. */
  lemma CleanAppend(a: string, b: string)
    requires Clean(a) && Clean(b)
    ensures Clean(a + b)
  {
    assert CutsAt(a, |a|) && a[..|a|] == a;
    PrefixAcross(a, b);
    forall i | 0 <= i <= |a + b| && CutsAt(a + b, i) ensures !EndsInPart((a + b)[..i]) {
      if i <= |a| {
        assert (a + b)[..i] == a[..i] && CutsAt(a, i);
      } else {
        assert (a + b)[..i] == a + b[..i - |a|] && CutsAt(b, i - |a|);
        PartAcross(a, b[..i - |a|]);
      }
    }
  }

  lemma CleanTake(s: string, n: nat)
    requires Clean(s) && n <= |s| && CutsAt(s, n)
    ensures Clean(s[..n])
  {
    OccursInSlice(s, 0, n, PREFIX);
    forall i | 0 <= i <= n && CutsAt(s[..n], i) ensures !EndsInPart(s[..n][..i]) {
      assert s[..n][..i] == s[..i] && CutsAt(s, i);
    }
  }

  lemma CleanDrop(s: string, n: nat)
    requires Clean(s) && n <= |s|
    ensures Clean(s[n..])
  {
    assert s[n..] == s[n..|s|];
    OccursInSlice(s, n, |s|, PREFIX);
    forall i | 0 <= i <= |s| - n && CutsAt(s[n..], i) ensures !EndsInPart(s[n..][..i]) {
      assert CutsAt(s, n + i) && s[..n + i] == s[..n] + s[n..][..i];
      PartOfTail(s[..n], s[n..][..i]);
    }
  }

  // ---------------------------------------------------------------------------------------------
  // Clean content and values

  ghost predicate CleanPieces(ps: seq<Piece>)
  {
    forall i :: 0 <= i < |ps| && ps[i].Lit? ==> Clean(ps[i].text)
  }

  ghost predicate CleanValues(values: Values)
  {
    forall key :: values(key).Some? ==> CleanPieces(values(key).value)
  }

  lemma {:induction false} CleanDropChars(ps: seq<Piece>, n: nat)
    requires CleanPieces(ps)
    ensures CleanPieces(DropChars(ps, n))
    decreases |ps|
  {
    if ps != [] && n > 0 && ps[0].Lit? {
      if |ps[0].text| <= n {
        CleanDropChars(ps[1..], n - |ps[0].text|);
      } else {
        CleanDrop(ps[0].text, n);
      }
    }
  }

  lemma {:induction false} CleanLead(ps: seq<Piece>)
    requires CleanPieces(ps)
    ensures Clean(Lead(ps)) && Index(Lead(ps), PREFIX) == -1
    decreases |ps|
  {
    if ps != [] && ps[0].Lit? {
      CleanLead(ps[1..]);
      CleanAppend(ps[0].text, Lead(ps[1..]));
    } else {
      CleanEmpty();
    }
    IndexNone(Lead(ps), PREFIX);
  }

  lemma CleanEmpty()
    ensures Clean("")
  {
  }

  lemma CleanAfterToken(out: string, v: seq<Piece>, rest: seq<Piece>)
    requires Clean(out) && CleanPieces(v) && CleanPieces(rest)
    ensures var (out', ps) := AfterToken(out, v, rest); Clean(out') && CleanPieces(ps)
  {
    CleanDropChars(rest, 4);
    if WrapsToken(out, rest) {
      assert out[|out| - 3..][0] == '<';
      CleanTake(out, |out| - 3);
    }
  }

  /** On clean pieces splicing never meets a stray prefix. */
  lemma {:induction false} CleanSplice(out: string, ps: seq<Piece>, values: Values, tails: nat -> string, n: nat, fuel: nat)
    requires Clean(out) && CleanPieces(ps) && CleanValues(values)
    ensures !Splice(out, ps, values, tails, n, fuel).Spurious?
    decreases fuel, |ps|
  {
    CleanLead(ps);
    if ps != [] {
      match ps[0]
      case Lit(t) =>
        CleanAppend(out, t);
        CleanSplice(out + t, ps[1..], values, tails, n, fuel);
      case Tok(key) =>
        if fuel > 0 && values(key).Some? {
          CleanAfterToken(out, values(key).value, ps[1..]);
          var (out', ps') := AfterToken(out, values(key).value, ps[1..]);
          CleanSplice(out', ps', values, tails, n + 1, fuel - 1);
        }
    }
  }

  ghost predicate CleanTrees(ts: seq<Tree>)
    decreases ts
  {
    ts == [] || (CleanTree(ts[0]) && CleanTrees(ts[1..]))
  }

  ghost predicate CleanTree(t: Tree)
    decreases t
  {
    match t case Leaf(s) => Clean(s) case Node(_, kids) => CleanTrees(kids)
  }

  lemma {:induction false} UnfoldedIsClean(ts: seq<Tree>, values: Values)
    requires CleanPieces(Roots(ts)) && CleanValues(values) && Unfolds(ts, values)
    ensures CleanTrees(ts)
    decreases ts
  {
    if ts != [] {
      assert Roots(ts)[0] == Root(ts[0]) && Roots(ts)[1..] == Roots(ts[1..]);
      UnfoldedIsClean(ts[1..], values);
      if ts[0].Node? {
        UnfoldedIsClean(ts[0].kids, values);
      }
    }
  }

  lemma {:induction false} CleanRoots(ts: seq<Tree>)
    requires CleanTrees(ts)
    ensures CleanPieces(Roots(ts))
    decreases |ts|
  {
    if ts != [] {
      CleanRoots(ts[1..]);
      assert Roots(ts) == [Root(ts[0])] + Roots(ts[1..]);
    }
  }

  lemma {:induction false} CleanTreesAppend(a: seq<Tree>, b: seq<Tree>)
    requires CleanTrees(a) && CleanTrees(b)
    ensures CleanTrees(a + b)
    decreases |a|
  {
    if a == [] {
      assert a + b == b;
    } else {
      assert (a + b)[1..] == a[1..] + b && (a + b)[0] == a[0];
      CleanTreesAppend(a[1..], b);
    }
  }

  lemma {:induction false} CleanTreesDrop(ts: seq<Tree>, n: nat)
    requires CleanTrees(ts)
    ensures CleanTrees(DropLeaves(ts, n))
    decreases |ts|
  {
    if ts != [] && n > 0 && ts[0].Leaf? {
      if |ts[0].text| <= n {
        CleanTreesDrop(ts[1..], n - |ts[0].text|);
      } else {
        CleanDrop(ts[0].text, n);
        assert ([Leaf(ts[0].text[n..])] + ts[1..])[1..] == ts[1..];
      }
    }
  }

  lemma OnwardKeepsClean(out: string, ts: seq<Tree>)
    requires ts != [] && Clean(out) && CleanTrees(ts)
    ensures var (out', us) := Onward(out, ts); Clean(out') && CleanTrees(us)
  {
    match ts[0]
    case Leaf(t) => CleanAppend(out, t);
    case Node(_, kids) =>
      CleanTreesDrop(ts[1..], 4);
      CleanTreesAppend(kids, DropLeaves(ts[1..], 4));
      CleanTreesAppend(kids, ts[1..]);
      if WrapsToken(out, Roots(ts[1..])) {
        assert out[|out| - 3..][0] == '<';
        CleanTake(out, |out| - 3);
      }
  }

  /** Nor does the walk over a tree of clean texts, and what it renders is clean. */
  lemma {:induction false} CleanWalk(out: string, ts: seq<Tree>)
    requires Clean(out) && CleanTrees(ts)
    ensures Quiet(out, ts) && Clean(Rendered(out, ts))
    decreases Nodes(ts), |ts|
  {
    CleanRoots(ts);
    CleanLead(Roots(ts));
    if ts != [] {
      OnwardShrinks(out, ts);
      OnwardKeepsClean(out, ts);
      var (out', us) := Onward(out, ts);
      CleanWalk(out', us);
    }
  }

  /**
    The rewriter on a finite tree of clean texts: for every spare capacity it panics, when the wrap test does, or ends
    with the intended text, and that text holds no placeholder prefix.
   */
  lemma CleanOutcome(ts: seq<Tree>, values: Values)
    requires ValidKeys(Roots(ts)) && ValidValues(values) && Unfolds(ts, values)
    requires CleanPieces(Roots(ts)) && CleanValues(values)
    ensures !Occurs(Rendered("", ts), PREFIX)
    ensures forall tails, fuel: nat :: fuel >= Nodes(ts) ==>
              Expand(Flat(Roots(ts)), 0, HandlerOf(values), tails, 0, fuel)
              == if Panics("", ts, tails, 0) then Panicked else Done(Rendered("", ts))
  {
    CleanEmpty();
    UnfoldedIsClean(ts, values);
    CleanWalk("", ts);
    forall tails, fuel: nat | fuel >= Nodes(ts)
      ensures Expand(Flat(Roots(ts)), 0, HandlerOf(values), tails, 0, fuel)
           == if Panics("", ts, tails, 0) then Panicked else Done(Rendered("", ts))
    {
      RewriterOutcome(ts, values, tails, fuel);
    }
  }

  /** For every spare capacity the rewriter ends. */
  ghost predicate AlwaysEnds(ps: seq<Piece>, values: Values, fuel: nat)
  {
    forall tails :: Expand(Flat(ps), 0, HandlerOf(values), tails, 0, fuel).Done?
  }

  /**
    On ranked tokens and clean texts the rewriter stops: from as many rounds on as there are tokens in the unfolded
    tree it never runs on and never fails, it leaves no placeholder prefix when it ends, and it ends for every spare
    capacity if and only if no token follows `<p>` with fewer than four bytes behind it.
   */
  lemma RankedExpansionStops(ps: seq<Piece>, values: Values, rank: string -> nat, bound: nat) returns (ts: seq<Tree>)
    requires ValidKeys(ps) && ValidValues(values) && CleanPieces(ps) && CleanValues(values) && Ranked(values, rank)
    requires forall i :: 0 <= i < |ps| && ps[i].Tok? ==> values(ps[i].key).Some? && rank(ps[i].key) < bound
    ensures Roots(ts) == ps && Unfolds(ts, values)
    ensures forall tails, fuel: nat :: fuel >= Nodes(ts) ==>
              var e := Expand(Flat(ps), 0, HandlerOf(values), tails, 0, fuel);
              e == Panicked || (e == Done(Rendered("", ts)) && !Occurs(e.bytes, PREFIX))
    ensures forall fuel: nat :: fuel >= Nodes(ts) ==> (AlwaysEnds(ps, values, fuel) <==> !Cramped("", ts))
  {
    ts := RankedHasTree(ps, values, rank, bound);
    CleanOutcome(ts, values);
    forall fuel: nat | fuel >= Nodes(ts)
      ensures AlwaysEnds(ps, values, fuel) <==> !Cramped("", ts)
    {
      EndsUnlessCramped(ts, values, fuel);
    }
  }

  lemma EndsUnlessCramped(ts: seq<Tree>, values: Values, fuel: nat)
    requires ValidKeys(Roots(ts)) && ValidValues(values) && Unfolds(ts, values) && fuel >= Nodes(ts)
    requires CleanPieces(Roots(ts)) && CleanValues(values)
    ensures AlwaysEnds(Roots(ts), values, fuel) <==> !Cramped("", ts)
  {
    if Cramped("", ts) {
      PanicsIfCramped("", ts, NoSpare, 0);
      EndsUnlessPanics(ts, values, NoSpare, fuel);
    } else {
      forall tails ensures Expand(Flat(Roots(ts)), 0, HandlerOf(values), tails, 0, fuel).Done? {
        PanicsIfCramped("", ts, tails, 0);
        EndsUnlessPanics(ts, values, tails, fuel);
      }
    }
  }

  lemma EndsUnlessPanics(ts: seq<Tree>, values: Values, tails: nat -> string, fuel: nat)
    requires ValidKeys(Roots(ts)) && ValidValues(values) && Unfolds(ts, values) && fuel >= Nodes(ts)
    requires CleanPieces(Roots(ts)) && CleanValues(values)
    ensures Expand(Flat(Roots(ts)), 0, HandlerOf(values), tails, 0, fuel).Done? <==> !Panics("", ts, tails, 0)
  {
    CleanOutcome(ts, values);
  }

  /** The tokens of `ps` unfold into a finite tree on which the wrap test does not panic. */
  ghost predicate HasCalmTree(ps: seq<Piece>, values: Values, tails: nat -> string)
  {
    exists ts :: Roots(ts) == ps && Unfolds(ts, values) && !Panics("", ts, tails, 0)
  }

  /** On clean texts the rewriter ends for some number of rounds exactly when the tokens have such a tree. */
  lemma RewriterStopsIffFinite(ps: seq<Piece>, values: Values, tails: nat -> string)
    requires ValidKeys(ps) && ValidValues(values) && CleanPieces(ps) && CleanValues(values)
    ensures (exists fuel: nat :: Expand(Flat(ps), 0, HandlerOf(values), tails, 0, fuel).Done?)
       <==> HasCalmTree(ps, values, tails)
  {
    if fuel: nat :| Expand(Flat(ps), 0, HandlerOf(values), tails, 0, fuel).Done? {
      EndedHasTree(ps, values, tails, fuel);
    }
    if ts :| Roots(ts) == ps && Unfolds(ts, values) && !Panics("", ts, tails, 0) {
      CleanOutcome(ts, values);
      assert Expand(Flat(ps), 0, HandlerOf(values), tails, 0, Nodes(ts)).Done?;
    }
  }

  lemma EndedHasTree(ps: seq<Piece>, values: Values, tails: nat -> string, fuel: nat)
    requires ValidKeys(ps) && ValidValues(values) && CleanPieces(ps) && CleanValues(values)
    requires Expand(Flat(ps), 0, HandlerOf(values), tails, 0, fuel).Done?
    ensures HasCalmTree(ps, values, tails)
  {
    CleanEmpty();
    CleanSplice("", ps, values, tails, 0, fuel);
    assert "" + Flat(ps) == Flat(ps);
    ExpandRefinesSplice("", ps, values, tails, 0, fuel);
    var ts := SplicedUnfolds("", ps, values, tails, 0, fuel);
    UnfoldedIsClean(ts, values);
    CleanWalk("", ts);
    WalkIsSplice("", ts, values, tails, 0, fuel);
  }

  // ---------------------------------------------------------------------------------------------
  // Values that contain their own token

  /** What lies behind the token never runs short of the four bytes that the wrap test reads, now and later. */
  predicate StaysRoomy(out: string, pre: string, post: string, after: string)
  {
    && (EndsWith(out + pre, P_START) ==> EndsWith(pre, P_START))
    && (EndsWith(pre, P_START) ==> |post| >= 4 && |after| >= 4)
  }

  lemma LastThree(s: string)
    ensures EndsWith(s, P_START) <==> |s| >= 3 && s[|s| - 3] == '<' && s[|s| - 2] == 'p' && s[|s| - 1] == '>'
  {
    if |s| >= 3 {
      var t := s[|s| - 3..];
      assert t[0] == s[|s| - 3] && t[1] == s[|s| - 2] && t[2] == s[|s| - 1];
      assert t == [t[0], t[1], t[2]];
    }
  }

  /** Repeating a text makes no `<p>` at the end that was not there before. */
  lemma NoNewParagraph(out: string, pre: string)
    requires EndsWith(out + pre, P_START) ==> EndsWith(pre, P_START)
    ensures EndsWith(out + pre + pre, P_START) ==> EndsWith(pre, P_START)
  {
    var s := out + pre + pre;
    LastThree(s);
    LastThree(pre);
    assert |pre| == 0 ==> s == out + pre;
    assert |pre| == 1 ==> s[|s| - 2] == s[|s| - 1];
    assert |pre| == 2 ==> s[|s| - 3] == s[|s| - 1];
  }

  /** The round that replaces the token: its value brings the token again. */
  lemma NestingRound(out: string, lead: string, pre: string, key: string, post: string, after: string)
    ensures var (o, a) := if EndsWith(out + lead, P_START) && HasPrefix(after, P_END)
                          then ((out + lead)[..|out + lead| - 3], post + after[4..]) else (out + lead, post + after);
            Onwards(out + lead, pre + key + post, after) == Next(o + pre + key + a, |o|)
  {
    var w := out + lead;
    if EndsWith(w, P_START) && HasPrefix(after, P_END) {
      assert w[..|w| - 3] + (pre + key + post) + after[4..] == w[..|w| - 3] + pre + key + (post + after[4..]);
    } else {
      assert w + (pre + key + post) + after == w + pre + key + (post + after);
    }
  }

  /** What a round does in front of a token, in terms of the rewriter as a value. */
  lemma ExpanderAtToken(expand: Expander, source: string, out: string, lead: string, key: string, after: string, v: string,
                        handler: Handler, tails: nat -> string, n: nat, fuel: nat)
    requires IsExpander(expand, handler, tails)
    requires Index(lead, PREFIX) == -1 && ValidKey(key) && source == out + lead + key + after && handler(key) == Content(v)
    ensures var e, next := expand(source, |out|, n, fuel), Onwards(out + lead, v, after);
            e == if fuel == 0 then Running
                 else if Misreads(out + lead, after, tails(n)) then Panicked
                 else expand(next.source, next.start, n + 1, fuel - 1)
  {
    ExpandAtToken(source, out, lead, key, after, handler, tails, n, fuel);
    var next := Onwards(out + lead, v, after);
    assert next.start <= |next.source|;
    assert RoundPoint(source, |out|, n, fuel) && (fuel > 0 ==> RoundPoint(next.source, next.start, n + 1, fuel - 1));
  }

  /** One more round, in which the token is found and its value brings it again. */
  lemma NestingStep(expand: Expander, out: string, lead: string, pre: string, key: string, post: string, after: string,
                    handler: Handler, tails: nat -> string, n: nat, fuel: nat) returns (o: string, a: string)
    requires IsExpander(expand, handler, tails)
    requires ValidKey(key) && Index(lead, PREFIX) == -1 && handler(key) == Content(pre + key + post)
    requires fuel > 0 && !Misreads(out + lead, after, tails(n))
    ensures expand(out + lead + key + after, |out|, n, fuel) == expand(o + pre + key + a, |o|, n + 1, fuel - 1)
    ensures |a| >= |post| && (o == out + lead || EndsWith(out + lead, P_START))
  {
    ExpanderAtToken(expand, out + lead + key + after, out, lead, key, after, pre + key + post, handler, tails, n, fuel);
    NestingRound(out, lead, pre, key, post, after);
    var w := out + lead;
    if EndsWith(w, P_START) && HasPrefix(after, P_END) {
      o, a := w[..|w| - 3], post + after[4..];
    } else {
      o, a := w, post + after;
    }
  }

  lemma NestingEnds(expand: Expander, out: string, lead: string, pre: string, key: string, post: string, after: string,
                    handler: Handler, tails: nat -> string, n: nat, fuel: nat)
    requires IsExpander(expand, handler, tails)
    requires ValidKey(key) && Index(lead, PREFIX) == -1 && handler(key) == Content(pre + key + post)
    requires fuel == 0 || Misreads(out + lead, after, tails(n))
    ensures expand(out + lead + key + after, |out|, n, fuel) == if fuel == 0 then Running else Panicked
  {
    ExpanderAtToken(expand, out + lead + key + after, out, lead, key, after, pre + key + post, handler, tails, n, fuel);
  }

  lemma NestingStays(out: string, pre: string, post: string, after: string, o: string, a: string)
    requires StaysRoomy(out, pre, post, after)
    requires |a| >= |post| && (o == out + pre || EndsWith(out + pre, P_START))
    ensures StaysRoomy(o, pre, post, a)
  {
    NoNewParagraph(out, pre);
  }

  lemma {:induction false} NestingGoesOn(expand: Expander, out: string, pre: string, key: string, post: string, after: string,
                                         handler: Handler, tails: nat -> string, n: nat, fuel: nat)
    requires IsExpander(expand, handler, tails)
    requires ValidKey(key) && Index(pre, PREFIX) == -1 && handler(key) == Content(pre + key + post)
    ensures var e := expand(out + pre + key + after, |out|, n, fuel);
            (e == Running || e == Panicked) && (StaysRoomy(out, pre, post, after) ==> e == Running)
    decreases fuel
  {
    if fuel == 0 || Misreads(out + pre, after, tails(n)) {
      NestingEnds(expand, out, pre, pre, key, post, after, handler, tails, n, fuel);
    } else {
      var o, a := NestingStep(expand, out, pre, pre, key, post, after, handler, tails, n, fuel);
      NestingGoesOn(expand, o, pre, key, post, a, handler, tails, n + 1, fuel - 1);
      if StaysRoomy(out, pre, post, after) {
        NestingStays(out, pre, post, after, o, a);
      }
    }
  }

  /** A token whose value contains the token itself: wherever it stands, the rewriter never ends, short of a panic. */
  lemma SelfNestingNeverStops(before: string, key: string, after: string, pre: string, post: string, handler: Handler,
                              tails: nat -> string, fuel: nat)
    requires ValidKey(key) && Index(before, PREFIX) == -1
    requires Index(pre, PREFIX) == -1 && handler(key) == Content(pre + key + post)
    ensures var e := Expand(before + key + after, 0, handler, tails, 0, fuel); e == Running || e == Panicked
  {
    var expand := TheExpander(before + key + after, handler, tails, fuel);
    NestingStarts(expand, before, key, after, pre, post, handler, tails, fuel);
  }

  lemma NestingStarts(expand: Expander, before: string, key: string, after: string, pre: string, post: string,
                      handler: Handler, tails: nat -> string, fuel: nat)
    requires IsExpander(expand, handler, tails) && ValidKey(key) && Index(before, PREFIX) == -1
    requires Index(pre, PREFIX) == -1 && handler(key) == Content(pre + key + post)
    ensures var e := expand(before + key + after, 0, 0, fuel); e == Running || e == Panicked
  {
    assert "" + before == before;
    if fuel == 0 || Misreads(before, after, tails(0)) {
      NestingEnds(expand, "", before, pre, key, post, after, handler, tails, 0, fuel);
    } else {
      var o, a := NestingStep(expand, "", before, pre, key, post, after, handler, tails, 0, fuel);
      NestingGoesOn(expand, o, pre, key, post, a, handler, tails, 1, fuel - 1);
    }
  }

  ghost predicate RunsForEver(key: string, handler: Handler)
  {
    forall tails, fuel: nat :: Expand(key, 0, handler, tails, 0, fuel) == Running
  }

  /** From the token alone it runs for ever, whatever the spare capacity, unless the value cramps the token after `<p>`. */
  lemma SelfNestingForEver(key: string, pre: string, post: string, handler: Handler)
    requires ValidKey(key) && Index(pre, PREFIX) == -1 && handler(key) == Content(pre + key + post)
    ensures RunsForEver(key, handler) <==> !(EndsWith(pre, P_START) && |post| < 4)
  {
    if EndsWith(pre, P_START) && |post| < 4 {
      CrampedNestingPanics(key, pre, post, handler);
    } else {
      forall tails, fuel: nat ensures Expand(key, 0, handler, tails, 0, fuel) == Running {
        RoomyNestingRuns(key, pre, post, handler, tails, fuel);
      }
    }
  }

  lemma CrampedNestingPanics(key: string, pre: string, post: string, handler: Handler)
    requires ValidKey(key) && Index(pre, PREFIX) == -1 && handler(key) == Content(pre + key + post)
    requires EndsWith(pre, P_START) && |post| < 4
    ensures Expand(key, 0, handler, NoSpare, 0, 2) == Panicked
  {
    var expand := TheExpander(key, handler, NoSpare, 2);
    FromTokenAlone(expand, key, pre, post, handler, NoSpare, 2);
    assert "" + pre == pre;
    NestingEnds(expand, "", pre, pre, key, post, post, handler, NoSpare, 1, 1);
  }

  lemma RoomyNestingRuns(key: string, pre: string, post: string, handler: Handler, tails: nat -> string, fuel: nat)
    requires ValidKey(key) && Index(pre, PREFIX) == -1 && handler(key) == Content(pre + key + post)
    requires EndsWith(pre, P_START) ==> |post| >= 4
    ensures Expand(key, 0, handler, tails, 0, fuel) == Running
  {
    var expand := TheExpander(key, handler, tails, fuel);
    FromTokenAlone(expand, key, pre, post, handler, tails, fuel);
    if fuel > 0 {
      assert "" + pre == pre;
      NestingGoesOn(expand, "", pre, key, post, post, handler, tails, 1, fuel - 1);
    }
  }

  lemma FromTokenAlone(expand: Expander, key: string, pre: string, post: string, handler: Handler, tails: nat -> string, fuel: nat)
    requires IsExpander(expand, handler, tails)
    requires ValidKey(key) && handler(key) == Content(pre + key + post)
    ensures expand(key, 0, 0, fuel) == if fuel == 0 then Running else expand(pre + key + post, 0, 1, fuel - 1)
  {
    assert "" + "" + key + "" == key;
    ExpanderAtToken(expand, key, "", "", key, "", pre + key + post, handler, tails, 0, fuel);
    NestingRound("", "", pre, key, post, "");
    assert "" + "" + pre + key + (post + "") == pre + key + post;
  }
}
