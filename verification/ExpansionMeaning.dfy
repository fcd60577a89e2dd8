/** What the rewriter leaves: the text of a finite tree, in source order, and when it leaves anything else. */
module ExpansionMeaning {
  import opened Common
  import opened ShortcodeExpansion
  import opened ExpansionRefinement
  import opened ExpansionTrees

  // ---------------------------------------------------------------------------------------------
  // The walk over a finite tree

  /** What is finished and what is still to come after the first tree of `ts`: no search and no handler is involved. */
  function Onward(out: string, ts: seq<Tree>): (string, seq<Tree>)
    requires ts != []
  {
    match ts[0]
    case Leaf(t) => (out + t, ts[1..])
    case Node(_, kids) =>
      if WrapsToken(out, Roots(ts[1..])) then (out[..|out| - 3], kids + DropLeaves(ts[1..], 4))
      else (out, kids + ts[1..])
  }

  function NoValues(): Values
  {
    _ => None
  }

  lemma {:induction false} DropLeavesShrinks(ts: seq<Tree>, n: nat)
    ensures Nodes(DropLeaves(ts, n)) == Nodes(ts) && |DropLeaves(ts, n)| <= |ts|
    ensures Roots(DropLeaves(ts, n)) == DropChars(Roots(ts), n)
    decreases |ts|
  {
    if ts != [] && n > 0 && ts[0].Leaf? {
      if |ts[0].text| <= n {
        DropLeavesShrinks(ts[1..], n - |ts[0].text|);
      } else {
        assert ([Leaf(ts[0].text[n..])] + ts[1..])[1..] == ts[1..];
        assert Roots(ts)[1..] == Roots(ts[1..]);
      }
    }
  }

  lemma FirstNodes(ts: seq<Tree>)
    requires ts != []
    ensures Nodes(ts) == Nodes(ts[1..]) + if ts[0].Node? then 1 + Nodes(ts[0].kids) else 0
  {
  }

  lemma NodesInFront(kids: seq<Tree>, rest: seq<Tree>)
    ensures Nodes(kids + rest) == Nodes(kids + DropLeaves(rest, 4)) == Nodes(kids) + Nodes(rest)
  {
    Append(kids, rest, NoValues());
    Append(kids, DropLeaves(rest, 4), NoValues());
    DropLeavesShrinks(rest, 4);
  }

  lemma OnwardShrinks(out: string, ts: seq<Tree>)
    requires ts != []
    ensures var (_, us) := Onward(out, ts); Nodes(us) < Nodes(ts) || (Nodes(us) == Nodes(ts) && |us| < |ts|)
    ensures ts[0].Node? ==> Nodes(Onward(out, ts).1) == Nodes(ts) - 1
  {
    FirstNodes(ts);
    if ts[0].Node? {
      NodesInFront(ts[0].kids, ts[1..]);
    }
  }

  /** The text of the tree behind `out`, without the paragraphs that wrap exactly one token. */
  function Rendered(out: string, ts: seq<Tree>): string
    decreases Nodes(ts), |ts|
  {
    if ts == [] then out
    else
      OnwardShrinks(out, ts);
      var (out', us) := Onward(out, ts);
      Rendered(out', us)
  }

  /** Some token follows `<p>` with fewer than four bytes behind it. */
  predicate Cramped(out: string, ts: seq<Tree>)
    decreases Nodes(ts), |ts|
  {
    ts != [] &&
      (|| (ts[0].Node? && ReadsPastEnd(out, Roots(ts[1..])))
       || (OnwardShrinks(out, ts); var (out', us) := Onward(out, ts); Cramped(out', us)))
  }

  /** No text between two tokens, as it stands when the rewriter comes to it, contains a placeholder prefix. */
  predicate Quiet(out: string, ts: seq<Tree>)
    decreases Nodes(ts), |ts|
  {
    Index(Lead(Roots(ts)), PREFIX) == -1 &&
      (ts == [] || (OnwardShrinks(out, ts); var (out', us) := Onward(out, ts); Quiet(out', us)))
  }

  /** The walk takes the pieces where splicing takes them. */
  lemma OnwardPieces(out: string, ts: seq<Tree>, values: Values)
    requires ts != [] && Unfolds(ts, values)
    ensures var (out', us) := Onward(out, ts);
            && Unfolds(us, values) && Roots(ts)[1..] == Roots(ts[1..])
            && (ts[0].Node? ==> (out', Roots(us)) == AfterToken(out, Roots(ts[0].kids), Roots(ts[1..])))
  {
    if ts[0].Node? {
      var kids, rest := ts[0].kids, ts[1..];
      Append(kids, rest, values);
      DropLeavesIsDrop(rest, 4, values);
      Append(kids, DropLeaves(rest, 4), values);
    }
  }

  /** Some token follows `<p>` with fewer than four bytes behind it, and the spare capacity met there makes the test panic. */
  predicate Panics(out: string, ts: seq<Tree>, tails: nat -> string, n: nat)
    decreases Nodes(ts), |ts|
  {
    ts != [] &&
      (|| (ts[0].Node? && Misreads(out, Flat(Roots(ts[1..])), tails(n)))
       || (OnwardShrinks(out, ts); var (out', us) := Onward(out, ts); Panics(out', us, tails, if ts[0].Node? then n + 1 else n)))
  }

  lemma OnwardIsSplice(out: string, ts: seq<Tree>, values: Values, tails: nat -> string, n: nat, fuel: nat)
    requires ts != [] && Unfolds(ts, values) && (ts[0].Node? ==> fuel > 0)
    requires Index(Lead(Roots(ts)), PREFIX) == -1
    ensures var (out', us) := Onward(out, ts);
            Splice(out, Roots(ts), values, tails, n, fuel)
            == if ts[0].Leaf? then Splice(out', Roots(us), values, tails, n, fuel)
               else if Misreads(out, Flat(Roots(ts[1..])), tails(n)) then Overread
               else Splice(out', Roots(us), values, tails, n + 1, fuel - 1)
  {
    OnwardPieces(out, ts, values);
    if ts[0].Node? {
      assert Roots(ts) == [Tok(ts[0].key)] + Roots(ts[1..]);
      SpliceToken(out, ts[0].key, Roots(ts[1..]), values, tails, n, fuel);
    }
  }

  /** Splicing a finite tree walks it. */
  lemma {:induction false} WalkIsSplice(out: string, ts: seq<Tree>, values: Values, tails: nat -> string, n: nat, fuel: nat)
    requires Unfolds(ts, values) && fuel >= Nodes(ts) && Quiet(out, ts)
    ensures Splice(out, Roots(ts), values, tails, n, fuel)
         == if Panics(out, ts, tails, n) then Overread else Spliced(Rendered(out, ts))
    decreases Nodes(ts), |ts|
  {
    if ts != [] {
      OnwardShrinks(out, ts);
      OnwardPieces(out, ts, values);
      OnwardIsSplice(out, ts, values, tails, n, fuel);
      var (out', us) := Onward(out, ts);
      if ts[0].Leaf? {
        WalkIsSplice(out', us, values, tails, n, fuel);
      } else if !Misreads(out, Flat(Roots(ts[1..])), tails(n)) {
        WalkIsSplice(out', us, values, tails, n + 1, fuel - 1);
      }
    }
  }

  /**
    Meaning preservation, exactly and for every spare capacity. When the tokens unfold into a finite tree and no text
    between two of them contains a placeholder prefix, the rewriter replaces every token by its fully expanded value, in
    source order, and takes away the paragraphs that wrap exactly one token; or it panics, when the wrap test does.
   */
  lemma RewriterOutcome(ts: seq<Tree>, values: Values, tails: nat -> string, fuel: nat)
    requires ValidKeys(Roots(ts)) && ValidValues(values) && Unfolds(ts, values) && Quiet("", ts) && fuel >= Nodes(ts)
    ensures Expand(Flat(Roots(ts)), 0, HandlerOf(values), tails, 0, fuel)
         == if Panics("", ts, tails, 0) then Panicked else Done(Rendered("", ts))
  {
    WalkIsSplice("", ts, values, tails, 0, fuel);
    assert "" + Flat(Roots(ts)) == Flat(Roots(ts));
    ExpandRefinesSplice("", Roots(ts), values, tails, 0, fuel);
  }

  /** A slice without spare capacity. */
  function NoSpare(n: nat): string
  {
    ""
  }

  /** Only a cramped token can make the wrap test panic, and without spare capacity it does. */
  lemma {:induction false} PanicsIfCramped(out: string, ts: seq<Tree>, tails: nat -> string, n: nat)
    ensures Panics(out, ts, tails, n) ==> Cramped(out, ts)
    ensures Panics(out, ts, NoSpare, n) <==> Cramped(out, ts)
    decreases Nodes(ts), |ts|
  {
    if ts != [] {
      OnwardShrinks(out, ts);
      var (out', us) := Onward(out, ts);
      PanicsIfCramped(out', us, tails, if ts[0].Node? then n + 1 else n);
    }
  }

  /** So the result is the same for every spare capacity if and only if no token follows `<p>` with fewer than four bytes behind it. */
  lemma RewriterMeaning(ts: seq<Tree>, values: Values, fuel: nat)
    requires ValidKeys(Roots(ts)) && ValidValues(values) && Unfolds(ts, values) && Quiet("", ts) && fuel >= Nodes(ts)
    ensures (forall tails :: Expand(Flat(Roots(ts)), 0, HandlerOf(values), tails, 0, fuel) == Done(Rendered("", ts)))
       <==> !Cramped("", ts)
    ensures Cramped("", ts) ==> Expand(Flat(Roots(ts)), 0, HandlerOf(values), NoSpare, 0, fuel) == Panicked
  {
    if Cramped("", ts) {
      PanicsIfCramped("", ts, NoSpare, 0);
      RewriterOutcome(ts, values, NoSpare, fuel);
    } else {
      forall tails ensures Expand(Flat(Roots(ts)), 0, HandlerOf(values), tails, 0, fuel) == Done(Rendered("", ts)) {
        RewriterOutcome(ts, values, tails, fuel);
        PanicsIfCramped("", ts, tails, 0);
      }
    }
  }

  /** No token that follows `<p>` is followed by `</p>` or has fewer than four bytes behind it. */
  predicate Unwrapped(out: string, ts: seq<Tree>)
    decreases Nodes(ts), |ts|
  {
    ts == [] ||
      (&& (ts[0].Node? && EndsWith(out, P_START) ==>
             !WrapsToken(out, Roots(ts[1..])) && !ReadsPastEnd(out, Roots(ts[1..])))
       && (OnwardShrinks(out, ts); var (out', us) := Onward(out, ts); Unwrapped(out', us)))
  }

  lemma {:induction false} UnwrappedText(out: string, ts: seq<Tree>)
    requires Unwrapped(out, ts)
    ensures Rendered(out, ts) == out + FullText(ts) && !Cramped(out, ts)
    decreases Nodes(ts), |ts|
  {
    if ts == [] {
      assert out + "" == out;
    } else {
      OnwardShrinks(out, ts);
      var (out', us) := Onward(out, ts);
      UnwrappedText(out', us);
      if ts[0].Node? {
        Append(ts[0].kids, ts[1..], NoValues());
      } else {
        Assoc(out, ts[0].text, FullText(ts[1..]));
      }
    }
  }

  lemma LeadBeginsText(ts: seq<Tree>)
    ensures HasPrefix(FullText(ts), Lead(Roots(ts)))
  {
    if ts != [] && ts[0].Leaf? {
      assert Roots(ts)[1..] == Roots(ts[1..]);
      LeadBeginsText(ts[1..]);
    }
  }

  lemma NoPrefixInPart(a: string, b: string, whole: string)
    requires whole == a + b && !Occurs(whole, PREFIX)
    ensures !Occurs(a, PREFIX) && !Occurs(b, PREFIX)
  {
    forall i ensures !At(a, PREFIX, i) && !At(b, PREFIX, i) {
      if 0 <= i && i + |PREFIX| <= |a| {
        assert whole[i..i + |PREFIX|] == a[i..i + |PREFIX|];
        assert !At(whole, PREFIX, i);
      }
      if 0 <= i && i + |PREFIX| <= |b| {
        assert whole[|a| + i..|a| + i + |PREFIX|] == b[i..i + |PREFIX|];
        assert !At(whole, PREFIX, |a| + i);
      }
    }
  }

  lemma LeadIsPlain(ts: seq<Tree>)
    requires !Occurs(FullText(ts), PREFIX)
    ensures Index(Lead(Roots(ts)), PREFIX) == -1
  {
    LeadBeginsText(ts);
    var lead := Lead(Roots(ts));
    NoPrefixInPart(lead, FullText(ts)[|lead|..], FullText(ts));
    IndexNone(lead, PREFIX);
  }

  /** A text without a placeholder prefix has none between two tokens. */
  lemma {:induction false} PlainIsQuiet(out: string, ts: seq<Tree>)
    requires Unwrapped(out, ts) && !Occurs(FullText(ts), PREFIX)
    ensures Quiet(out, ts)
    decreases Nodes(ts), |ts|
  {
    LeadIsPlain(ts);
    if ts != [] {
      OnwardShrinks(out, ts);
      var (out', us) := Onward(out, ts);
      if ts[0].Node? {
        Append(ts[0].kids, ts[1..], NoValues());
      } else {
        NoPrefixInPart(ts[0].text, FullText(us), FullText(ts));
      }
      PlainIsQuiet(out', us);
    }
  }

  /** Where no paragraph is taken away, the result is exactly the texts and values in source order. */
  lemma UnwrappedMeaning(ts: seq<Tree>, values: Values, tails: nat -> string, fuel: nat)
    requires ValidKeys(Roots(ts)) && ValidValues(values) && Unfolds(ts, values) && fuel >= Nodes(ts)
    requires Unwrapped("", ts) && Quiet("", ts)
    ensures var e := Expand(Flat(Roots(ts)), 0, HandlerOf(values), tails, 0, fuel);
            e == Done(FullText(ts)) && (Occurs(e.bytes, PREFIX) <==> Occurs(FullText(ts), PREFIX))
  {
    UnwrappedText("", ts);
    RewriterOutcome(ts, values, tails, fuel);
    PanicsIfCramped("", ts, tails, 0);
    assert "" + FullText(ts) == FullText(ts);
  }

  lemma OnwardsFromParagraph(a: string, v: string, b: string)
    ensures EndsWith(a + P_START, P_START) && |P_END + b| >= 4
    ensures Onwards(a + P_START, v, P_END + b) == Next(a + v + b, |a|)
  {
    var o, after := a + P_START, P_END + b;
    assert o[|o| - 3..] == P_START && o[..|o| - 3] == a;
    assert after[..4] == P_END && after[4..] == b;
  }

  /** A paragraph that wraps exactly one token disappears; the text around it stays. */
  lemma WrappedTokenLosesParagraph(a: string, key: string, value: string, b: string, values: Values,
                                   tails: nat -> string, fuel: nat)
    requires ValidKey(key) && ValidValues(values) && values(key) == Some([Lit(value)]) && fuel >= 1
    requires Index(a + "<p>", "HAHAHUGOSHORTCODE") == -1 && Index(value + b, "HAHAHUGOSHORTCODE") == -1
    ensures Expand(a + "<p>" + key + ("</p>" + b), 0, HandlerOf(values), tails, 0, fuel) == Done(a + value + b)
  {
    var o := a + P_START;
    assert "" + o == o;
    FlatLit(value);
    ExpandAtToken("" + o + key + (P_END + b), "", o, key, P_END + b, HandlerOf(values), tails, 0, fuel);
    OnwardsFromParagraph(a, value, b);
    Assoc(a, value, b);
    assert (a + (value + b))[|a|..] == value + b;
    ExpandNothing(a + value + b, |a|, HandlerOf(values), tails, 1, fuel - 1);
  }

  lemma FlatLit(value: string)
    ensures Flat([Lit(value)]) == value
  {
    assert [Lit(value)][1..] == [];
    assert value + "" == value;
  }

  /**
    The search never looks back before a replaced token, so a placeholder prefix put together from the text before
    a token and the value of the token survives.
   */
  lemma StraddlingPrefixSurvives(key: string, values: Values, tails: nat -> string)
    requires ValidKey(key) && ValidValues(values) && values(key) == Some([Lit("HUGOSHORTCODE!")])
    ensures Expand("HAHA" + key, 0, HandlerOf(values), tails, 0, 1) == Done("HAHA" + "HUGOSHORTCODE!")
    ensures HasPrefix("HAHA" + "HUGOSHORTCODE!", PREFIX)
  {
    HalvesMakePrefix();
    var before, value := "HAHA", "HUGOSHORTCODE!";
    assert "" + before + key + "" == before + key;
    FlatLit(value);
    ExpandAtToken(before + key, "", before, key, "", HandlerOf(values), tails, 0, 1);
    assert "" + before == before && before + value + "" == before + value;
    assert (before + value)[|before|..] == value;
    ExpandNothing(before + value, |before|, HandlerOf(values), tails, 1, 0);
  }

  lemma HalvesMakePrefix()
    ensures HasPrefix("HAHA" + "HUGOSHORTCODE!", PREFIX)
  {
    assert "HAHA" + "HUGOSHORTCODE!" == PREFIX + "!";
  }

  /** A token without an end mark is an error. */
  lemma EndMarkMissing(before: string, rest: string, handler: Handler, tails: nat -> string, fuel: nat)
    requires Index(before, PREFIX) == -1 && Index(PREFIX + rest, "HBHB") == -1 && fuel > 0
    ensures Expand(before + (PREFIX + rest), 0, handler, tails, 0, fuel) == MissingEnd
  {
    var source := before + (PREFIX + rest);
    FirstToken(before, PREFIX, rest);
    assert before + PREFIX + rest == source;
    assert source[0..] == source && source[|before|..] == PREFIX + rest;
  }

  /** The read past the end: a token after `<p>` at the very end panics when the slice has no spare capacity. */
  lemma TokenAtEndPanics(key: string, value: string, values: Values)
    requires ValidKey(key) && ValidValues(values) && values(key) == Some([Lit(value)])
    ensures Expand(P_START + key, 0, HandlerOf(values), (i: nat) => "", 0, 1) == Panicked
  {
    assert "" + P_START + key + "" == P_START + key;
    assert "" + P_START == P_START;
    ExpandAtToken(P_START + key, "", P_START, key, "", HandlerOf(values), (i: nat) => "", 0, 1);
  }

  // ---------------------------------------------------------------------------------------------
  // Values that are plain text

  /** No token's value holds tokens of its own. */
  predicate PlainValues(ts: seq<Tree>)
  {
    ts == [] || ((ts[0].Node? ==> ValidKey(ts[0].key) && Nodes(ts[0].kids) == 0) && PlainValues(ts[1..]))
  }

  predicate HasToken(ts: seq<Tree>)
  {
    Nodes(ts) > 0
  }

  /** The text in front of the last token when the rewriter comes to it, and what stands behind that token. */
  function AtLast(out: string, ts: seq<Tree>): Option<(string, string)>
    decreases Nodes(ts), |ts|
  {
    if ts == [] then None
    else if ts[0].Node? && !HasToken(ts[1..]) then Some((out, Flat(Roots(ts[1..]))))
    else
      OnwardShrinks(out, ts);
      var (out', us) := Onward(out, ts);
      AtLast(out', us)
  }

  lemma {:induction false} TokensAreLong(ts: seq<Tree>)
    requires PlainValues(ts) && HasToken(ts)
    ensures |Flat(Roots(ts))| >= 4
    decreases |ts|
  {
    assert Roots(ts)[1..] == Roots(ts[1..]);
    if ts[0].Leaf? {
      assert Nodes(ts) == NodesOf(ts[0]) + Nodes(ts[1..]) == Nodes(ts[1..]);
      TokensAreLong(ts[1..]);
    }
  }

  lemma {:induction false} NoTokenNotCramped(out: string, ts: seq<Tree>)
    requires !HasToken(ts)
    ensures !Cramped(out, ts) && AtLast(out, ts) == None && PlainValues(ts)
    decreases |ts|
  {
    if ts != [] {
      OnwardShrinks(out, ts);
      var (out', us) := Onward(out, ts);
      NoTokenNotCramped(out', us);
    }
  }

  lemma {:induction false} PlainAppend(a: seq<Tree>, b: seq<Tree>)
    requires PlainValues(a) && PlainValues(b)
    ensures PlainValues(a + b)
    decreases |a|
  {
    if a == [] {
      assert a + b == b;
    } else {
      assert (a + b)[1..] == a[1..] + b && (a + b)[0] == a[0];
      PlainAppend(a[1..], b);
    }
  }

  lemma {:induction false} PlainDrop(ts: seq<Tree>, n: nat)
    requires PlainValues(ts)
    ensures PlainValues(DropLeaves(ts, n))
    decreases |ts|
  {
    if ts != [] && n > 0 && ts[0].Leaf? {
      if |ts[0].text| <= n {
        PlainDrop(ts[1..], n - |ts[0].text|);
      } else {
        assert ([Leaf(ts[0].text[n..])] + ts[1..])[1..] == ts[1..];
      }
    }
  }

  lemma OnwardKeepsPlain(out: string, ts: seq<Tree>)
    requires ts != [] && PlainValues(ts)
    ensures PlainValues(Onward(out, ts).1)
  {
    if ts[0].Node? {
      NoTokenNotCramped("", ts[0].kids);
      PlainAppend(ts[0].kids, ts[1..]);
      PlainDrop(ts[1..], 4);
      PlainAppend(ts[0].kids, DropLeaves(ts[1..], 4));
    }
  }

  /** For plain values only the last token can be cramped, since a token is itself longer than four bytes. */
  lemma {:induction false} OnlyLastIsCramped(out: string, ts: seq<Tree>)
    requires PlainValues(ts)
    ensures Cramped(out, ts) <==> match AtLast(out, ts) case None => false case Some(last) => EndsWith(last.0, P_START) && |last.1| < 4
    decreases Nodes(ts), |ts|
  {
    if ts != [] {
      OnwardShrinks(out, ts);
      OnwardKeepsPlain(out, ts);
      var (out', us) := Onward(out, ts);
      if ts[0].Node? && !HasToken(ts[1..]) {
        NoTokenNotCramped(out', us);
      } else {
        if ts[0].Node? {
          TokensAreLong(ts[1..]);
        }
        OnlyLastIsCramped(out', us);
      }
    }
  }

  lemma {:induction false} PlainKeysAreValid(ts: seq<Tree>)
    requires PlainValues(ts)
    ensures ValidKeys(Roots(ts))
    decreases |ts|
  {
    if ts != [] {
      PlainKeysAreValid(ts[1..]);
      assert Roots(ts)[1..] == Roots(ts[1..]);
      assert forall i :: 0 < i < |ts| ==> Roots(ts)[i] == Roots(ts[1..])[i - 1];
    }
  }

  /**
    For values that are plain text, the result is the same for every spare capacity exactly unless the text in front of
    the last token ends in `<p>` and fewer than four bytes stand behind it.
   */
  lemma MeaningForEveryCapacity(ts: seq<Tree>, values: Values, fuel: nat)
    requires PlainValues(ts) && ValidValues(values) && Unfolds(ts, values) && Quiet("", ts) && fuel >= Nodes(ts)
    ensures (forall tails :: Expand(Flat(Roots(ts)), 0, HandlerOf(values), tails, 0, fuel) == Done(Rendered("", ts)))
       <==> match AtLast("", ts) case None => true case Some(last) => !EndsWith(last.0, P_START) || |last.1| >= 4
  {
    PlainKeysAreValid(ts);
    RewriterMeaning(ts, values, fuel);
    OnlyLastIsCramped("", ts);
  }
}
