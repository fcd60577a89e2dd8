/** What holds of every shortcode the parser returns, on any token stream, well-formed or not. */
module ShortcodeShape {
  import opened PageTokens
  import opened ShortcodeParser
  import opened ShortcodeRoundTrip

  function CountNested(inner: seq<Inner>): nat
  {
    if inner == [] then 0
    else CountNested(inner[..|inner| - 1]) + if inner[|inner| - 1].InnerShortcode? then 1 else 0
  }

  /** Every nested shortcode carries the number of nested shortcodes before it, at every depth. */
  ghost predicate Numbered(inner: seq<Inner>)
    decreases inner
  {
    inner == [] || (Numbered(inner[..|inner| - 1]) && NumberedPiece(inner[|inner| - 1], CountNested(inner[..|inner| - 1])))
  }

  ghost predicate NumberedPiece(x: Inner, n: nat)
    decreases x
  {
    x.InnerShortcode? ==> x.sc.ordinal == n && Numbered(x.sc.inner)
  }

  lemma {:induction false} NestedNamesAppend(a: seq<Inner>, x: Inner)
    ensures NestedNames(a + [x]) == NestedNames(a) + NamesIn(x)
    decreases |a|
  {
    if a == [] {
      assert NestedNames([x]) == NamesIn(x) + NestedNames([]) == NamesIn(x);
      assert a + [x] == [x];
    } else {
      assert (a + [x])[1..] == a[1..] + [x];
      NestedNamesAppend(a[1..], x);
    }
  }

  lemma NumberedAppend(a: seq<Inner>, x: Inner)
    requires Numbered(a) && NumberedPiece(x, CountNested(a))
    ensures Numbered(a + [x])
    ensures CountNested(a + [x]) == CountNested(a) + if x.InnerShortcode? then 1 else 0
  {
    assert (a + [x])[..|a|] == a;
  }

  ghost predicate SameTag(a: Shortcode, b: Shortcode)
  {
    a.ordinal == b.ordinal && a.indentation == b.indentation
  }

  function TextIn(item: Item): seq<Inner>
  {
    if item.IsText() then [InnerText(item.val)] else []
  }

  /** Each round of the loop leaves the inner list alone or appends one string to it. */
  lemma StepInner(templates: Templates, items: seq<Item>, pos: int, st: LoopState)
    requires -1 <= pos
    ensures match Step(templates, items, pos, st)
            case Stop(Extracted(sc), _) => sc.inner == st.sc.inner && SameTag(sc, st.sc)
            case Goto(_, st') =>
              && SameTag(st'.sc, st.sc) && st'.nestedOrdinal == st.nestedOrdinal
              && st'.sc.inner == st.sc.inner + TextIn(ItemAt(items, pos + 1))
            case _ => true
  {
    assert st.sc.inner + [] == st.sc.inner;
  }

  lemma TextKeepsShape(a: seq<Inner>, item: Item)
    requires Numbered(a)
    ensures var b := a + TextIn(item);
            Numbered(b) && CountNested(b) == CountNested(a) && NestedNames(b) == NestedNames(a)
  {
    if item.IsText() {
      NumberedAppend(a, InnerText(item.val));
      NestedNamesAppend(a, InnerText(item.val));
    } else {
      assert a + [] == a;
    }
  }

  lemma {:induction false} LoopShape(templates: Templates, items: seq<Item>, pos: int, st: LoopState)
    requires -1 <= pos && Numbered(st.sc.inner) && st.nestedOrdinal == CountNested(st.sc.inner)
    requires Loop(templates, items, pos, st).res.Extracted?
    ensures var o := Loop(templates, items, pos, st);
            && SameTag(o.res.sc, st.sc) && Numbered(o.res.sc.inner)
            && NestedNames(st.sc.inner) + o.names == NestedNames(o.res.sc.inner)
    decreases |items| - pos, if st.cnt == 0 then 0 else 2
  {
    StepInner(templates, items, pos, st);
    match Step(templates, items, pos, st) {
      case Stop(res, p) =>
      case Goto(p, st') =>
        TextKeepsShape(st.sc.inner, ItemAt(items, pos + 1));
        LoopShape(templates, items, p, st');
      case Descend =>
        ExtractedShape(templates, items, pos, st.nestedOrdinal);
        var nested := Extract(templates, items, pos, st.nestedOrdinal);
        var x := InnerShortcode(nested.res.sc);
        NumberedAppend(st.sc.inner, x);
        NestedNamesAppend(st.sc.inner, x);
        LoopShape(templates, items, nested.pos, Nested(st, nested.res.sc));
    }
  }

  /**
    On any input: the returned shortcode has the ordinal asked for, its k-th nested shortcode has ordinal k
    (at every depth), and the names registered on the way are exactly the names of its nested shortcodes.
   */
  lemma {:induction false} ExtractedShape(templates: Templates, items: seq<Item>, pos: int, ordinal: nat)
    requires -1 <= pos && Extract(templates, items, pos, ordinal).res.Extracted?
    ensures var o := Extract(templates, items, pos, ordinal);
            && o.res.sc.ordinal == ordinal && o.res.sc.indentation == IndentationAt(items, pos)
            && Numbered(o.res.sc.inner)
            && o.names == NestedNames(o.res.sc.inner)
    decreases |items| - pos, 1
  {
    LoopShape(templates, items, pos, Start(items, pos, ordinal));
  }

  /** The indentation token just before a shortcode is recorded, unless it is the very first token of the page. */
  lemma IndentationIsRecorded(templates: Templates, items: seq<Item>, pos: int, ordinal: nat)
    requires 0 <= pos < |items| && items[pos].typ.TIndentation? && items[pos].val != ""
    requires Extract(templates, items, pos, ordinal).res.Extracted?
    ensures Extract(templates, items, pos, ordinal).res.sc.indentation == items[pos].val <==> pos > 0
  {
    ExtractedShape(templates, items, pos, ordinal);
  }

  // ---------------------------------------------------------------------------------------------
  // The end of the tokens

  /** None of the items behind `pos` up to `end` is an error or the end of the page. */
  ghost predicate GoesOn(items: seq<Item>, pos: int, end: int)
    requires -1 <= pos
  {
    forall i :: pos < i <= end ==> i < |items| && !items[i].IsDone()
  }

  lemma GoesOnTwice(items: seq<Item>, a: int, b: int, c: int)
    requires -1 <= a <= b && GoesOn(items, a, b) && GoesOn(items, b, c)
    ensures GoesOn(items, a, c)
  {
  }

  lemma StepGoesOn(templates: Templates, items: seq<Item>, pos: int, st: LoopState)
    requires -1 <= pos
    ensures match Step(templates, items, pos, st)
            case Stop(res, p) => res.Extracted? ==> GoesOn(items, pos, p)
            case Goto(p, _) => GoesOn(items, pos, p)
            case Descend => true
  {
    var p := pos + 1;
    if p < |items| && items[p].typ.TScClose? {
      assert Consumed(items, p, 1) <= p + 1 && GoesOn(items, p, Consumed(items, p, 1));
      ConsumedGoesOn(items, p, 2);
    }
  }

  lemma {:induction false} ConsumedGoesOn(items: seq<Item>, pos: int, cnt: nat)
    requires 0 <= pos
    ensures GoesOn(items, pos, Consumed(items, pos, cnt))
    decreases cnt
  {
    if cnt > 0 && !ItemAt(items, pos + 1).IsDone() {
      ConsumedGoesOn(items, pos + 1, cnt - 1);
      assert GoesOn(items, pos, pos + 1);
      GoesOnTwice(items, pos, pos + 1, Consumed(items, pos, cnt));
    }
  }

  lemma {:induction false} LoopGoesOn(templates: Templates, items: seq<Item>, pos: int, st: LoopState)
    requires -1 <= pos && Loop(templates, items, pos, st).res.Extracted?
    ensures GoesOn(items, pos, Loop(templates, items, pos, st).pos)
    decreases |items| - pos, if st.cnt == 0 then 0 else 2
  {
    StepGoesOn(templates, items, pos, st);
    match Step(templates, items, pos, st) {
      case Stop(res, p) =>
      case Goto(p, st') =>
        LoopGoesOn(templates, items, p, st');
        GoesOnTwice(items, pos, p, Loop(templates, items, pos, st).pos);
      case Descend =>
        ExtractGoesOn(templates, items, pos, st.nestedOrdinal);
        var nested := Extract(templates, items, pos, st.nestedOrdinal);
        LoopGoesOn(templates, items, nested.pos, Nested(st, nested.res.sc));
        GoesOnTwice(items, pos, nested.pos, Loop(templates, items, pos, st).pos);
    }
  }

  /** On any input: a shortcode that is returned has not taken an error, or the end of the page, with it. */
  lemma {:induction false} ExtractGoesOn(templates: Templates, items: seq<Item>, pos: int, ordinal: nat)
    requires -1 <= pos && Extract(templates, items, pos, ordinal).res.Extracted?
    ensures GoesOn(items, pos, Extract(templates, items, pos, ordinal).pos)
    decreases |items| - pos, 1
  {
    LoopGoesOn(templates, items, pos, Start(items, pos, ordinal));
  }
}
