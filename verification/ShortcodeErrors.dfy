/** What the parser answers for tags that are not well formed. */
module ShortcodeErrors {
  import opened Common
  import opened PageTokens
  import opened ShortcodeParser
  import opened ShortcodeRoundTrip

  /** The loop that parsing enters, as a value. */
  lemma Parses(templates: Templates, items: seq<Item>, pos: int, ordinal: nat) returns (run: Runner)
    requires -1 <= pos
    ensures IsLoop(run, templates, items)
    ensures run(pos, Start(items, pos, ordinal)) == Extract(templates, items, pos, ordinal)
  {
    run := (p, st) => if -1 <= p then Loop(templates, items, p, st) else Outcome(Panicked, p, {});
  }

  predicate SomeArgs(args: Args)
  {
    && (args.PositionalArgs? ==> args.vals != [])
    && (args.NamedArgs? ==> args.pairs != [])
  }

  /** A name without a template is refused at once, whatever follows it. */
  lemma UnknownTemplate(templates: Templates, items: seq<Item>, pos: int, tag: Tag, ordinal: nat)
    requires Follows(items, pos, [Left(tag.markup), NameItem(tag)])
    requires !tag.isInline && tag.name !in templates
    ensures Extract(templates, items, pos, ordinal).res == Failed(TemplateNotFound, None)
  {
    var run := Parses(templates, items, pos, ordinal);
    var toks := [Left(tag.markup), NameItem(tag)];
    FollowsHead(items, pos, toks);
    FollowsHead(items, pos + 1, toks[1..]);
    var st0 := Start(items, pos, ordinal);
    var st1 := LoopState(st0.sc.(doMarkup := tag.markup), 1, 0, false);
    RunGoto(run, templates, items, pos, st0, pos + 1, st1);
    RunStop(run, templates, items, pos + 1, st1, Failed(TemplateNotFound, None), pos + 2);
  }

  /** A tag without a name is refused. */
  lemma MissingName(templates: Templates, items: seq<Item>, pos: int, left: Item, right: Item, ordinal: nat)
    requires Follows(items, pos, [left, right]) && left.IsLeftShortcodeDelim() && right.IsRightShortcodeDelim()
    ensures Extract(templates, items, pos, ordinal).res == Failed(NoName, Some(Start(items, pos, ordinal).sc))
  {
    var run := Parses(templates, items, pos, ordinal);
    FollowsHead(items, pos, [left, right]);
    FollowsHead(items, pos + 1, [left, right][1..]);
    RunStop(run, templates, items, pos, Start(items, pos, ordinal), Failed(NoName, Some(Start(items, pos, ordinal).sc)), pos + 1);
  }

  /** Arguments without a name make the parser panic at the end of the tag: there is no template to ask. */
  lemma ArgumentsWithoutName(templates: Templates, items: seq<Item>, pos: int, left: Item, vals: seq<Arg>, right: Item, ordinal: nat)
    requires left.IsLeftShortcodeDelim() && right.IsRightShortcodeDelim() && vals != []
    requires Follows(items, pos, [left] + (PrintPositional(vals) + [right]))
    ensures Extract(templates, items, pos, ordinal).res == Panicked
  {
    var run := Parses(templates, items, pos, ordinal);
    ArgumentTokens(items, pos, left, vals, right);
    var n, st0 := |PrintPositional(vals)|, Start(items, pos, ordinal);
    var st1 := LoopState(st0.sc.(doMarkup := left.IsShortcodeMarkupDelimiter()), 1, 0, false);
    RunGoto(run, templates, items, pos, st0, pos + 1, st1);
    RunPositional(run, templates, items, pos + 1, st1, [], vals);
    var st2 := WithParams(st1, PositionalSoFar([] + PositionalValues(vals)));
    RunStop(run, templates, items, pos + 1 + n, st2, Panicked, pos + 2 + n);
  }

  lemma ArgumentTokens(items: seq<Item>, pos: int, left: Item, vals: seq<Arg>, right: Item)
    requires vals != [] && right.IsRightShortcodeDelim() && Follows(items, pos, [left] + (PrintPositional(vals) + [right]))
    ensures var toks := PrintPositional(vals);
            && pos + 2 + |toks| < |items| && items[pos + 1] == left && items[pos + 2].typ.TScParam? && items[pos + 2 + |toks|] == right
            && Follows(items, pos + 1, toks)
  {
    var toks := PrintPositional(vals);
    FollowsSplit(items, pos, [left], toks + [right]);
    FollowsHead(items, pos, [left]);
    FollowsSplit(items, pos + 1, toks, [right]);
    FollowsHead(items, pos + 1, toks);
    FollowsHead(items, pos + 1 + |toks|, [right]);
  }

  /** An argument with which the tokens end, or in front of an error, is dropped; the shortcode keeps those before it. */
  lemma LastArgumentIsDropped(templates: Templates, items: seq<Item>, pos: int, tag: Tag, ordinal: nat, vals: seq<Arg>, last: Arg)
    requires !tag.isInline && tag.name in templates && !templates[tag.name].isInner
    requires Follows(items, pos, [Left(tag.markup), NameItem(tag)])
    requires Follows(items, pos + 2, PrintPositional(vals) + PrintPositional([last]))
    requires var end := pos + 4 + |PrintPositional(vals)|; end < |items| && items[end].IsDone()
    ensures Extract(templates, items, pos, ordinal)
         == Outcome(Extracted(Opened(templates, tag, ordinal, IndentationAt(items, pos)).(params := PositionalSoFar(PositionalValues(vals)))),
                    pos + 3 + |PrintPositional(vals)|, {})
  {
    var run := Parses(templates, items, pos, ordinal);
    var toks, end := PrintPositional(vals), PrintPositional([last]);
    var p := pos + 2 + |toks|;
    FollowsSplit(items, pos + 2, toks, end);
    FollowsHead(items, p, end);
    RunOpening(run, templates, items, pos, tag, ordinal);
    var st := LoopState(Opened(templates, tag, ordinal, IndentationAt(items, pos)).(params := NoParams), 1, 0, false);
    RunPositional(run, templates, items, pos + 2, st, [], vals);
    assert [] + PositionalValues(vals) == PositionalValues(vals);
    var st1 := WithParams(st, PositionalSoFar(PositionalValues(vals)));
    RunGoto(run, templates, items, p, st1, p + 1, st1);
    RunStop(run, templates, items, p + 1, st1, Extracted(st1.sc), p + 1);
  }

  /** A shortcode nested in content that cannot be parsed makes the parsing of the outer one fail with the same error. */
  lemma NestedFailure(templates: Templates, items: seq<Item>, pos: int, tag: Tag, ordinal: nat, content: seq<Piece>, error: ExtractError)
    requires SomeArgs(tag.args) && !tag.isInline && tag.name in templates && templates[tag.name].isInner
    requires WellFormedContent(templates, content) && Follows(items, pos, [Left(tag.markup), NameItem(tag)])
    requires Follows(items, pos + 2, PrintArgs(tag.args) + ([Right(tag.markup)] + PrintContent(content)))
    requires var p := pos + 3 + |PrintArgs(tag.args)| + |PrintContent(content)|;
             && p + 2 < |items| && items[p + 1].IsLeftShortcodeDelim()
             && !items[p + 2].IsRightShortcodeDelim() && !items[p + 2].typ.TScClose?
             && var nested := Extract(templates, items, p, Children(content)).res; nested.Failed? && nested.error == error
    ensures Extract(templates, items, pos, ordinal).res
         == Failed(error, Some(Opened(templates, tag, ordinal, IndentationAt(items, pos))
                                 .(inner := MeaningOfContent(templates, content, 0, ""))))
  {
    var run := Parses(templates, items, pos, ordinal);
    var args := PrintArgs(tag.args);
    ArgsThen(items, pos + 2, args, tag.markup, PrintContent(content));
    RunHead(run, templates, items, pos, tag, ordinal);
    var sc := Opened(templates, tag, ordinal, IndentationAt(items, pos));
    RunInside(run, templates, items, pos + 2 + |args|, tag.markup, sc, content);
    FailsBelow(run, templates, items, pos + 3 + |args| + |PrintContent(content)|, Inside(templates, sc, content), error);
  }

  lemma ArgsThen(items: seq<Item>, p: int, args: seq<Item>, markup: bool, inside: seq<Item>)
    requires Follows(items, p, args + ([Right(markup)] + inside))
    ensures Follows(items, p, args) && Follows(items, p + |args|, [Right(markup)] + inside)
    ensures EndsArgs(items, p + 1 + |args|)
  {
    FollowsSplit(items, p, args, [Right(markup)] + inside);
    FollowsHead(items, p + |args|, [Right(markup)] + inside);
  }

  lemma FailsBelow(run: Runner, templates: Templates, items: seq<Item>, q: int, st: LoopState, error: ExtractError)
    requires IsLoop(run, templates, items) && -1 <= q && st.cnt > 0
    requires q + 2 < |items| && items[q + 1].IsLeftShortcodeDelim()
    requires !items[q + 2].IsRightShortcodeDelim() && !items[q + 2].typ.TScClose?
    requires var nested := Extract(templates, items, q, st.nestedOrdinal).res; nested.Failed? && nested.error == error
    ensures run(q, st).res == Failed(error, Some(st.sc))
  {
    assert Step(templates, items, q, st) == Descend;
    assert Point(q, st);
  }

  /** After the name and the arguments of a tag with a template. */
  lemma RunHead(run: Runner, templates: Templates, items: seq<Item>, pos: int, tag: Tag, ordinal: nat)
    requires IsLoop(run, templates, items) && SomeArgs(tag.args)
    requires Follows(items, pos, [Left(tag.markup), NameItem(tag)]) && Follows(items, pos + 2, PrintArgs(tag.args))
    requires EndsArgs(items, pos + 3 + |PrintArgs(tag.args)|)
    requires tag.isInline || tag.name in templates
    ensures run(pos, Start(items, pos, ordinal))
         == run(pos + 2 + |PrintArgs(tag.args)|, LoopState(Opened(templates, tag, ordinal, IndentationAt(items, pos)), 1, 0, false))
  {
    RunOpening(run, templates, items, pos, tag, ordinal);
    var sc := Opened(templates, tag, ordinal, IndentationAt(items, pos));
    var st := LoopState(sc.(params := NoParams), 1, 0, false);
    RunArgs(run, templates, items, pos + 2, st, tag.args);
    assert WithParams(st, MeaningOfArgs(tag.args)) == LoopState(sc, 1, 0, false);
  }

  /** Closing a shortcode whose template does not use .Inner is an error, unless the lexer has one to report itself. */
  lemma ClosedWithoutInner(templates: Templates, items: seq<Item>, pos: int, tag: Tag, ordinal: nat)
    requires SomeArgs(tag.args) && !tag.isInline && tag.name in templates && !templates[tag.name].isInner
    requires Follows(items, pos, [Left(tag.markup), NameItem(tag)])
    requires Follows(items, pos + 2, PrintArgs(tag.args) + [CLOSE])
    requires var p := pos + 3 + |PrintArgs(tag.args)|; p + 1 < |items| && !items[p + 1].typ.TError?
    ensures Extract(templates, items, pos, ordinal).res == Failed(NotInner, None)
  {
    var run := Parses(templates, items, pos, ordinal);
    var args := PrintArgs(tag.args);
    FollowsSplit(items, pos + 2, args, [CLOSE]);
    FollowsHead(items, pos + 2 + |args|, [CLOSE]);
    RunHead(run, templates, items, pos, tag, ordinal);
    var st := LoopState(Opened(templates, tag, ordinal, IndentationAt(items, pos)), 1, 0, false);
    RunStop(run, templates, items, pos + 2 + |args|, st, Failed(NotInner, None), pos + 3 + |args|);
  }

  lemma EndsUnclosed(run: Runner, templates: Templates, items: seq<Item>, p: int, st: LoopState, end: Item)
    requires IsLoop(run, templates, items) && Follows(items, p, [end]) && end.IsDone()
    requires st.sc.NeedsInner() && !st.closed
    ensures run(p, st).res == Unclosed(st.sc, end)
  {
    FollowsHead(items, p, [end]);
    if end.typ.TError? {
      RunStop(run, templates, items, p, st, Extracted(st.sc), p);
    } else {
      RunStop(run, templates, items, p, st, Failed(NotClosed, Some(st.sc)), p + 1);
    }
  }

  /** What becomes of a shortcode that is cut off: at an error of the lexer it is returned, and the error is left to the caller. */
  function Unclosed(sc: Shortcode, end: Item): Extraction
  {
    if end.typ.TError? then Extracted(sc) else Failed(NotClosed, Some(sc))
  }

  /** The loop variables behind the content of a tag. */
  function Inside(templates: Templates, sc: Shortcode, content: seq<Piece>): LoopState
  {
    LoopState(sc.(inner := MeaningOfContent(templates, content, 0, "")), 1 + Children(content), Children(content), false)
  }

  lemma RunInsideOf(run: Runner, templates: Templates, items: seq<Item>, p: int, markup: bool, sc: Shortcode, content: seq<Piece>)
    requires IsLoop(run, templates, items) && p > 0
    requires Follows(items, p, [Right(markup)]) && Follows(items, p + 1, PrintContent(content))
    requires WellFormedContent(templates, content) && sc.NeedsInner() && sc.inner == []
    ensures run(p, LoopState(sc, 1, 0, false)).res == run(p + 1 + |PrintContent(content)|, Inside(templates, sc, content)).res
  {
    var st := LoopState(sc, 1, 0, false);
    FollowsHead(items, p, [Right(markup)]);
    RunRight(run, templates, items, p, st);
    RunContent(run, templates, items, p + 1, st, content);
    var inner := MeaningOfContent(templates, content, 0, "");
    assert [] + inner == inner;
    assert WithInner(st, inner, Children(content)) == Inside(templates, sc, content);
  }

  lemma RunInside(run: Runner, templates: Templates, items: seq<Item>, p: int, markup: bool, sc: Shortcode, content: seq<Piece>)
    requires IsLoop(run, templates, items) && p > 0
    requires Follows(items, p, [Right(markup)] + PrintContent(content))
    requires WellFormedContent(templates, content) && sc.NeedsInner() && sc.inner == []
    ensures run(p, LoopState(sc, 1, 0, false)).res == run(p + 1 + |PrintContent(content)|, Inside(templates, sc, content)).res
  {
    FollowsSplit(items, p, [Right(markup)], PrintContent(content));
    RunInsideOf(run, templates, items, p, markup, sc, content);
  }

  lemma RunUnclosed(run: Runner, templates: Templates, items: seq<Item>, p: int, markup: bool, sc: Shortcode,
                    content: seq<Piece>, end: Item)
    requires IsLoop(run, templates, items) && p > 0
    requires Follows(items, p, [Right(markup)] + (PrintContent(content) + [end])) && end.IsDone()
    requires WellFormedContent(templates, content) && sc.NeedsInner() && sc.inner == []
    ensures run(p, LoopState(sc, 1, 0, false)).res
         == Unclosed(sc.(inner := MeaningOfContent(templates, content, 0, "")), end)
  {
    FollowsSplit(items, p, [Right(markup)], PrintContent(content) + [end]);
    FollowsSplit(items, p + 1, PrintContent(content), [end]);
    RunInsideOf(run, templates, items, p, markup, sc, content);
    EndsUnclosed(run, templates, items, p + 1 + |PrintContent(content)|, Inside(templates, sc, content), end);
  }

  /**
    Content that the end of the page cuts off before the closing tag is an error; what has been read goes with it.
    Where an error of the lexer cuts it off, the shortcode is returned instead, and the error comes next.
   */
  lemma NeverClosed(templates: Templates, items: seq<Item>, pos: int, tag: Tag, ordinal: nat, content: seq<Piece>, end: Item)
    requires SomeArgs(tag.args) && !tag.isInline && tag.name in templates && templates[tag.name].isInner
    requires WellFormedContent(templates, content) && end.IsDone()
    requires Follows(items, pos, [Left(tag.markup), NameItem(tag)])
    requires Follows(items, pos + 2, PrintArgs(tag.args) + ([Right(tag.markup)] + (PrintContent(content) + [end])))
    ensures Extract(templates, items, pos, ordinal).res
         == Unclosed(Opened(templates, tag, ordinal, IndentationAt(items, pos)).(inner := MeaningOfContent(templates, content, 0, "")), end)
  {
    var run := Parses(templates, items, pos, ordinal);
    var args, rest := PrintArgs(tag.args), [Right(tag.markup)] + (PrintContent(content) + [end]);
    FollowsSplit(items, pos + 2, args, rest);
    FollowsHead(items, pos + 2 + |args|, rest);
    RunHead(run, templates, items, pos, tag, ordinal);
    RunUnclosed(run, templates, items, pos + 2 + |args|, tag.markup,
                Opened(templates, tag, ordinal, IndentationAt(items, pos)), content, end);
  }

  /** One round at an argument of the wrong kind. */
  lemma RefusesParam(run: Runner, templates: Templates, items: seq<Item>, p: int, st: LoopState)
    requires IsLoop(run, templates, items) && -1 <= p && p + 2 < |items|
    requires items[p + 1].typ.TScParam? && !items[p + 2].IsDone()
    requires if items[p + 2].typ.TScParamVal? then st.sc.params.Positional? else st.sc.params.Named?
    ensures run(p, st).res == Failed(InvalidParams, Some(st.sc))
  {
    RunStop(run, templates, items, p, st, Failed(InvalidParams, Some(st.sc)), p + 1);
  }

  /** A named argument after positional ones is refused. */
  lemma NamedAfterPositional(templates: Templates, items: seq<Item>, pos: int, tag: Tag, ordinal: nat, vals: seq<Arg>, pair: NamedArg)
    requires vals != [] && (tag.isInline || tag.name in templates)
    requires Follows(items, pos, [Left(tag.markup), NameItem(tag)])
    requires Follows(items, pos + 2, PrintPositional(vals) + PrintNamed([pair]))
    ensures var res := Extract(templates, items, pos, ordinal).res; res.Failed? && res.error == InvalidParams
  {
    var run := Parses(templates, items, pos, ordinal);
    var toks := PrintPositional(vals);
    var p := pos + 2 + |toks|;
    var named := PrintNamed([pair]);
    FollowsSplit(items, pos + 2, toks, named);
    FollowsHead(items, p, named);
    FollowsHead(items, p + 1, named[1..]);
    RunOpening(run, templates, items, pos, tag, ordinal);
    var st := LoopState(Opened(templates, tag, ordinal, IndentationAt(items, pos)).(params := NoParams), 1, 0, false);
    RunPositional(run, templates, items, pos + 2, st, [], vals);
    assert [] + PositionalValues(vals) == PositionalValues(vals) != [];
    var st1 := WithParams(st, PositionalSoFar(PositionalValues(vals)));
    RefusesParam(run, templates, items, p, st1);
  }

  lemma RunNamedThen(run: Runner, templates: Templates, items: seq<Item>, p: int, st: LoopState, pairs: seq<NamedArg>, arg: Arg)
    requires IsLoop(run, templates, items) && pairs != [] && st.sc.params.NoParams?
    requires Follows(items, p, PrintNamed(pairs) + PrintPositional([arg]))
    requires EndsArgs(items, p + 2 + |PrintNamed(pairs)|)
    ensures var res := run(p, st).res; res.Failed? && res.error == InvalidParams
  {
    var toks, last := PrintNamed(pairs), PrintPositional([arg]);
    FollowsSplit(items, p, toks, last);
    FollowsHead(items, p + |toks|, last);
    RunNamed(run, templates, items, p, st, [], pairs);
    assert [] + pairs == pairs;
    RefusesParam(run, templates, items, p + |toks|, WithParams(st, NamedSoFar(pairs)));
  }

  /** And a positional one after named ones. */
  lemma PositionalAfterNamed(templates: Templates, items: seq<Item>, pos: int, tag: Tag, ordinal: nat, pairs: seq<NamedArg>, arg: Arg)
    requires pairs != [] && (tag.isInline || tag.name in templates)
    requires Follows(items, pos, [Left(tag.markup), NameItem(tag)])
    requires Follows(items, pos + 2, PrintNamed(pairs) + PrintPositional([arg]))
    requires EndsArgs(items, pos + 4 + |PrintNamed(pairs)|)
    ensures var res := Extract(templates, items, pos, ordinal).res; res.Failed? && res.error == InvalidParams
  {
    var run := Parses(templates, items, pos, ordinal);
    RunOpening(run, templates, items, pos, tag, ordinal);
    var st := LoopState(Opened(templates, tag, ordinal, IndentationAt(items, pos)).(params := NoParams), 1, 0, false);
    RunNamedThen(run, templates, items, pos + 2, st, pairs, arg);
  }
}
