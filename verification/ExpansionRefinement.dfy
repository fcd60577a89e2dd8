/** The rewriter finds its tokens by searching; these proofs tie it to splicing pieces in source order. */
module ExpansionRefinement {
  import opened Common
  import opened ShortcodeExpansion

  lemma FlatAppend(a: seq<Piece>, b: seq<Piece>)
    ensures Flat(a + b) == Flat(a) + Flat(b)
  {
    if a == [] {
      assert a + b == b;
    } else {
      assert (a + b)[1..] == a[1..] + b;
      FlatAppend(a[1..], b);
      Assoc(Source(a[0]), Flat(a[1..]), Flat(b));
    }
  }

  /** The pieces from the first token on. */
  function After(ps: seq<Piece>): (r: seq<Piece>)
    ensures r == [] || r[0].Tok?
  {
    if ps == [] || ps[0].Tok? then ps else After(ps[1..])
  }

  lemma FlatSplit(ps: seq<Piece>)
    ensures Flat(ps) == Lead(ps) + Flat(After(ps))
    ensures ValidKeys(ps) ==> ValidKeys(After(ps))
    ensures |After(ps)| <= |ps|
  {
    if ps != [] && ps[0].Lit? {
      FlatSplit(ps[1..]);
      Assoc(ps[0].text, Lead(ps[1..]), Flat(After(ps[1..])));
    }
  }

  /** Two occurrences of the prefix cannot overlap: it has no border. */
  lemma Unbordered(s: string, i: nat, j: nat)
    requires At(s, PREFIX, j) && i < j < i + |PREFIX|
    ensures !At(s, PREFIX, i)
  {
    var d := j - i;
    var m := if d == 2 then 3 else if d == 4 || d == 9 then 1 else 0;
    assert d in {2, 4, 9} || PREFIX[d] != 'H';
    assert PREFIX[d + m] != PREFIX[m];
    assert s[j..j + |PREFIX|][m] == s[j + m];
    if i + |PREFIX| <= |s| {
      assert s[i..i + |PREFIX|][d + m] == s[j + m];
    }
  }

  /** So a token is found where it starts, whatever text stands before it. */
  lemma FirstToken(lead: string, key: string, after: string)
    requires Index(lead, PREFIX) == -1 && HasPrefix(key, PREFIX)
    ensures Index(lead + key + after, PREFIX) == |lead|
  {
    IndexIsFirst(lead, PREFIX);
    var s := lead + key + after;
    assert s[|lead|..|lead| + |PREFIX|] == key[..|PREFIX|];
    forall i | 0 <= i < |lead| ensures !At(s, PREFIX, i) {
      if i + |PREFIX| <= |lead| {
        assert s[i..i + |PREFIX|] == lead[i..i + |PREFIX|];
        assert !At(lead, PREFIX, i);
      } else {
        Unbordered(s, i, |lead|);
      }
    }
    IndexIs(s, PREFIX, |lead|);
  }

  lemma TokenEnd(key: string, after: string)
    requires ValidKey(key)
    ensures Index(key + after, POST) == |key| - |POST|
  {
    IndexIsFirst(key, POST);
    var s, k := key + after, |key| - |POST|;
    assert s[k..k + |POST|] == key[k..k + |POST|];
    forall i | 0 <= i < k ensures !At(s, POST, i) {
      assert s[i..i + |POST|] == key[i..i + |POST|];
      assert !At(key, POST, i);
    }
    IndexIs(s, POST, k);
  }

  /** Where the rewriter goes on after replacing a token by `v` between `o` and `after`. */
  function Onwards(o: string, v: string, after: string): Round
  {
    if EndsWith(o, P_START) && HasPrefix(after, P_END)
    then Next(o[..|o| - 3] + v + after[4..], |o| - 3)
    else Next(o + v + after, |o|)
  }

  /** What stands around a token. */
  lemma AroundToken(o: string, key: string, after: string)
    ensures var source, end := o + key + after, |o| + |key|;
            && source[..|o|] == o && source[end..] == after
            && (|o| >= 3 ==> source[|o| - 3..|o|] == o[|o| - 3..] && source[..|o| - 3] == o[..|o| - 3])
            && (|after| >= 4 ==> source[end + 4..] == after[4..])
  {
  }

  lemma BehindToken(o: string, key: string, after: string, tail: string)
    requires |after| + |tail| >= 4
    ensures (o + key + after + tail)[|o| + |key|..|o| + |key| + 4] == (after + tail)[..4]
    ensures |after| >= 4 ==> (after + tail)[..4] == after[..4]
  {
    assert o + key + after + tail == o + key + (after + tail);
  }

  lemma WrapTestAtToken(o: string, key: string, after: string, k: nat, tail: string)
    requires |key| > 4 && k <= |o|
    ensures WrapTest(o + key + after, k, |o|, |o| + |key|, tail)
         == if Misreads(o, after, tail) then OutOfRange
            else if EndsWith(o, P_START) && HasPrefix(after, P_END) then Wrapped else Bare
  {
    AroundToken(o, key, after);
    if |after| + |tail| >= 4 {
      BehindToken(o, key, after, tail);
    }
  }

  lemma ReplaceAtToken(o: string, key: string, after: string, k: nat, v: string, tail: string)
    requires |key| > 4 && k <= |o|
    ensures Replace(o + key + after, k, |o|, |o| + |key|, v, tail)
         == if Misreads(o, after, tail) then Finished(Panicked) else Onwards(o, v, after)
  {
    WrapTestAtToken(o, key, after, k, tail);
    AroundToken(o, key, after);
  }

  lemma TokenAt(out: string, lead: string, key: string, after: string)
    requires Index(lead, PREFIX) == -1 && ValidKey(key)
    ensures var source, o := out + lead + key + after, out + lead;
            && Index(source[|out|..], PREFIX) == |lead|
            && Index(source[|o|..], POST) == |key| - |POST|
            && source[|o|..|o| + |key|] == key && source == o + key + after
  {
    var source, o := out + lead + key + after, out + lead;
    assert source[|out|..] == lead + key + after;
    FirstToken(lead, key, after);
    assert source[|o|..] == key + after;
    TokenEnd(key, after);
    assert source[|o|..|o| + |key|] == key;
  }

  /** One round of the rewriter in front of a token, in terms of the text around it. */
  lemma RewriteToken(out: string, lead: string, key: string, after: string, handler: Handler, tail: string)
    requires Index(lead, PREFIX) == -1 && ValidKey(key)
    ensures var r, o := Rewrite(out + lead + key + after, |out|, handler, tail), out + lead;
            match handler(key)
            case HandlerError => r == Finished(HandlerFailed)
            case Content(v) => r == if Misreads(o, after, tail) then Finished(Panicked) else Onwards(o, v, after)
  {
    var o := out + lead;
    TokenAt(out, lead, key, after);
    if handler(key).Content? {
      ReplaceAtToken(o, key, after, |lead|, handler(key).bytes, tail);
    }
  }

  lemma NotInTail(a: string, b: string, p: string)
    requires Index(a + b, p) == -1
    ensures Index(b, p) == -1
  {
    IndexIsFirst(a + b, p);
    IndexIsFirst(b, p);
    var i := Index(b, p);
    if i >= 0 {
      assert (a + b)[|a| + i..|a| + i + |p|] == b[i..i + |p|];
    }
    assert i >= 0 ==> At(a + b, p, |a| + i);
  }

  lemma SpliceLead(out: string, ps: seq<Piece>, values: Values, tails: nat -> string, n: nat, fuel: nat)
    requires Index(Lead(ps), PREFIX) == -1
    ensures Splice(out, ps, values, tails, n, fuel) == Splice(out + Lead(ps), After(ps), values, tails, n, fuel)
    decreases |ps|
  {
    if ps == [] || ps[0].Tok? {
      assert out + "" == out;
    } else {
      var t, rest := ps[0].text, ps[1..];
      NotInTail(t, Lead(rest), PREFIX);
      SpliceLead(out + t, rest, values, tails, n, fuel);
      Assoc(out, t, Lead(rest));
    }
  }

  lemma TokenStart(ps: seq<Piece>)
    requires ValidKeys(ps)
    ensures ps != [] && ps[0].Tok? ==> |Flat(ps)| > 0 && Flat(ps)[0] == 'H'
  {
    if ps != [] && ps[0].Tok? {
      assert ps[0].key[..|PREFIX|][0] == 'H';
    }
  }

  lemma DropCharsIsDrop(ps: seq<Piece>, n: nat)
    requires n <= |Flat(ps)| && ValidKeys(ps)
    requires forall i :: 0 <= i < n ==> Flat(ps)[i] != 'H'
    ensures Flat(DropChars(ps, n)) == Flat(ps)[n..]
    ensures ValidKeys(DropChars(ps, n))
  {
    TokenStart(ps);
    if ps != [] && n > 0 && ps[0].Lit? {
      var m := |ps[0].text|;
      DropConcat(ps[0].text, Flat(ps[1..]), n);
      if m <= n {
        assert forall i :: 0 <= i < n - m ==> Flat(ps[1..])[i] == Flat(ps)[m + i];
        DropCharsIsDrop(ps[1..], n - m);
      } else {
        var qs := [Lit(ps[0].text[n..])] + ps[1..];
        assert qs[1..] == ps[1..];
      }
    }
  }

  lemma ValidAppend(a: seq<Piece>, b: seq<Piece>)
    requires ValidKeys(a) && ValidKeys(b)
    ensures ValidKeys(a + b)
  {
  }

  /** The outcome of the rewriter that a splicing outcome announces. */
  function Announced(s: Splicing): Expansion
    requires !s.Spurious?
  {
    match s
    case Spliced(bytes) => Done(bytes)
    case Overread => Panicked
    case SpliceFailed => HandlerFailed
    case Unfinished => Running
  }

  lemma ExpandAtToken(source: string, out: string, lead: string, key: string, after: string, handler: Handler,
                      tails: nat -> string, n: nat, fuel: nat)
    requires Index(lead, PREFIX) == -1 && ValidKey(key) && source == out + lead + key + after
    ensures var e, o := Expand(source, |out|, handler, tails, n, fuel), out + lead;
            if fuel == 0 then e == Running else
            match handler(key)
            case HandlerError => e == HandlerFailed
            case Content(v) =>
              if Misreads(o, after, tails(n)) then e == Panicked
              else var next := Onwards(o, v, after);
                   e == Expand(next.source, next.start, handler, tails, n + 1, fuel - 1)
  {
    var e := Expand(source, |out|, handler, tails, n, fuel);
    if fuel == 0 {
      assert source[|out|..] == lead + key + after;
      FirstToken(lead, key, after);
    } else {
      RewriteToken(out, lead, key, after, handler, tails(n));
      ExpandRound(source, |out|, handler, tails, n, fuel, Rewrite(source, |out|, handler, tails(n)), e);
    }
  }

  /** The round of splicing that replaces the token in front. */
  lemma SpliceToken(o: string, key: string, more: seq<Piece>, values: Values, tails: nat -> string, n: nat, fuel: nat)
    requires fuel > 0 && values(key).Some?
    ensures var s, (o', ps) := Splice(o, [Tok(key)] + more, values, tails, n, fuel), AfterToken(o, values(key).value, more);
            s == if Misreads(o, Flat(more), tails(n)) then Overread else Splice(o', ps, values, tails, n + 1, fuel - 1)
  {
    assert ([Tok(key)] + more)[1..] == more;
  }

  /** The rewriter goes on where splicing goes on. */
  lemma OnwardsIsAfterToken(o: string, v: seq<Piece>, more: seq<Piece>)
    requires ValidKeys(v) && ValidKeys(more)
    ensures var (o', ps) := AfterToken(o, v, more);
            Onwards(o, Flat(v), Flat(more)) == Next(o' + Flat(ps), |o'|) && ValidKeys(ps)
  {
    if WrapsToken(o, more) {
      assert forall i :: 0 <= i < 4 ==> Flat(more)[i] == Flat(more)[..4][i] == P_END[i];
      DropCharsIsDrop(more, 4);
      var less := DropChars(more, 4);
      ValidAppend(v, less);
      FlatAppend(v, less);
      Assoc(o[..|o| - 3], Flat(v), Flat(less));
    } else {
      ValidAppend(v, more);
      FlatAppend(v, more);
      Assoc(o, Flat(v), Flat(more));
    }
  }

  /**
    The rewriter refines splicing: on content that flattens pieces it ends as splicing ends, with the same bytes,
    whatever the spare capacity holds, and panics exactly when splicing reads past the end and gets lost there.
   */
  lemma {:induction false} ExpandRefinesSplice(out: string, ps: seq<Piece>, values: Values, tails: nat -> string, n: nat, fuel: nat)
    requires ValidKeys(ps) && ValidValues(values) && !Splice(out, ps, values, tails, n, fuel).Spurious?
    ensures Expand(out + Flat(ps), |out|, HandlerOf(values), tails, n, fuel) == Announced(Splice(out, ps, values, tails, n, fuel))
    decreases fuel, 1
  {
    var lead, rest := Lead(ps), After(ps);
    FlatSplit(ps);
    SpliceLead(out, ps, values, tails, n, fuel);
    if rest == [] {
      RefinesAtEnd(out, lead, values, tails, n, fuel);
      assert out + Flat(ps) == out + lead;
    } else {
      var key, more := rest[0].key, rest[1..];
      assert rest == [Tok(key)] + more;
      RefinesAtToken(out, lead, key, more, values, tails, n, fuel);
      Concat(out, lead, key, Flat(more));
    }
  }

  lemma Concat(a: string, b: string, c: string, d: string)
    ensures a + b + c + d == a + (b + (c + d))
  {
  }

  lemma RefinesAtEnd(out: string, lead: string, values: Values, tails: nat -> string, n: nat, fuel: nat)
    requires Index(lead, PREFIX) == -1
    ensures Expand(out + lead, |out|, HandlerOf(values), tails, n, fuel)
         == Announced(Splice(out + lead, [], values, tails, n, fuel)) == Done(out + lead)
  {
    assert (out + lead)[|out|..] == lead;
    ExpandNothing(out + lead, |out|, HandlerOf(values), tails, n, fuel);
  }

  lemma {:induction false} RefinesAtToken(out: string, lead: string, key: string, more: seq<Piece>, values: Values,
                                          tails: nat -> string, n: nat, fuel: nat)
    requires Index(lead, PREFIX) == -1 && ValidKey(key) && ValidKeys(more) && ValidValues(values)
    requires !Splice(out + lead, [Tok(key)] + more, values, tails, n, fuel).Spurious?
    ensures Expand(out + lead + key + Flat(more), |out|, HandlerOf(values), tails, n, fuel)
         == Announced(Splice(out + lead, [Tok(key)] + more, values, tails, n, fuel))
    decreases fuel, 0
  {
    var o := out + lead;
    var e := Expand(out + lead + key + Flat(more), |out|, HandlerOf(values), tails, n, fuel);
    var s := Splice(o, [Tok(key)] + more, values, tails, n, fuel);
    ExpandAtToken(out + lead + key + Flat(more), out, lead, key, Flat(more), HandlerOf(values), tails, n, fuel);
    if fuel > 0 && values(key).Some? {
      SpliceToken(o, key, more, values, tails, n, fuel);
      if !Misreads(o, Flat(more), tails(n)) {
        var v := values(key).value;
        OnwardsIsAfterToken(o, v, more);
        var (o', ps) := AfterToken(o, v, more);
        RefinesOnwards(Onwards(o, Flat(v), Flat(more)), o', ps, s, values, tails, n, fuel);
      }
    }
  }

  lemma {:induction false} RefinesOnwards(next: Round, out: string, ps: seq<Piece>, s: Splicing, values: Values,
                                          tails: nat -> string, n: nat, fuel: nat)
    requires ValidKeys(ps) && ValidValues(values) && fuel > 0
    requires next == Next(out + Flat(ps), |out|) && s == Splice(out, ps, values, tails, n + 1, fuel - 1) && !s.Spurious?
    ensures Expand(next.source, next.start, HandlerOf(values), tails, n + 1, fuel - 1) == Announced(s)
    decreases fuel - 1, 2
  {
    ExpandRefinesSplice(out, ps, values, tails, n + 1, fuel - 1);
  }
}
