/** Printing a shortcode tree as the lexer's tokens, and the proof that the parser reads it back. */
module ShortcodeRoundTrip {
  import opened Common
  import opened PageTokens
  import opened ShortcodeParser

  /** A shortcode as an author writes it. */
  datatype Tag = Tag(name: string, isInline: bool, markup: bool, args: Args, body: Body)

  /** An argument keeps its source text next to its typed value. */
  datatype Arg = Arg(text: string, typed: Value)
  datatype NamedArg = NamedArg(key: string, val: Arg)
  datatype Args = NoArgs | PositionalArgs(vals: seq<Arg>) | NamedArgs(pairs: seq<NamedArg>)

  /** Nothing after the opening tag, a self-closing tag, or content up to a closing tag. */
  datatype Body = Open | SelfClosed | Closed(content: seq<Piece>)
  datatype Piece = Text(s: string) | Indent(s: string) | Child(tag: Tag)

  const PLAIN := StringValue("")

  function Left(markup: bool): Item
  {
    Item(if markup then TLeftDelimScWithMarkup else TLeftDelimScNoMarkup, "{{", PLAIN)
  }

  function Right(markup: bool): Item
  {
    Item(if markup then TRightDelimScWithMarkup else TRightDelimScNoMarkup, "}}", PLAIN)
  }

  const CLOSE := Item(TScClose, "/", PLAIN)

  function NameItem(tag: Tag): Item
  {
    Item(if tag.isInline then TScNameInline else TScName, tag.name, PLAIN)
  }

  function PrintPositional(vals: seq<Arg>): seq<Item>
  {
    if vals == [] then [] else [Item(TScParam, vals[0].text, vals[0].typed)] + PrintPositional(vals[1..])
  }

  function PrintNamed(pairs: seq<NamedArg>): seq<Item>
  {
    if pairs == [] then []
    else [Item(TScParam, pairs[0].key, PLAIN), Item(TScParamVal, pairs[0].val.text, pairs[0].val.typed)]
         + PrintNamed(pairs[1..])
  }

  function PrintArgs(args: Args): seq<Item>
  {
    match args
    case NoArgs => []
    case PositionalArgs(vals) => PrintPositional(vals)
    case NamedArgs(pairs) => PrintNamed(pairs)
  }

  function PrintTag(tag: Tag): seq<Item>
    decreases tag
  {
    [Left(tag.markup), NameItem(tag)] + (PrintArgs(tag.args) + PrintBody(tag, tag.body))
  }

  function PrintBody(tag: Tag, body: Body): seq<Item>
    decreases body
  {
    match body
    case Open => [Right(tag.markup)]
    case SelfClosed => [CLOSE, Right(tag.markup)]
    case Closed(content) => [Right(tag.markup)] + (PrintContent(content) + ClosingTag(tag))
  }

  function ClosingTag(tag: Tag): seq<Item>
  {
    [Left(tag.markup), CLOSE, NameItem(tag), Right(tag.markup)]
  }

  function PrintContent(content: seq<Piece>): seq<Item>
    decreases content
  {
    if content == [] then [] else PrintPiece(content[0]) + PrintContent(content[1..])
  }

  function PrintPiece(piece: Piece): seq<Item>
    decreases piece
  {
    match piece
    case Text(s) => [Item(TText, s, PLAIN)]
    case Indent(s) => [Item(TIndentation, s, PLAIN)]
    case Child(tag) => PrintTag(tag)
  }

  /** A tag fits its template: exactly the templates that use .Inner, and inline ones, are closed. */
  ghost predicate WellFormed(templates: Templates, tag: Tag)
    decreases tag
  {
    && (tag.args.PositionalArgs? ==> tag.args.vals != [])
    && (tag.args.NamedArgs? ==> tag.args.pairs != [])
    && (tag.isInline || tag.name in templates)
    && (tag.body.Open? <==> !tag.isInline && !templates[tag.name].isInner)
    && (tag.body.Closed? ==> WellFormedContent(templates, tag.body.content))
  }

  ghost predicate WellFormedContent(templates: Templates, content: seq<Piece>)
    decreases content
  {
    content == [] || (WellFormedPiece(templates, content[0]) && WellFormedContent(templates, content[1..]))
  }

  ghost predicate WellFormedPiece(templates: Templates, piece: Piece)
    decreases piece
  {
    piece.Child? ==> WellFormed(templates, piece.tag)
  }

  function PositionalValues(vals: seq<Arg>): seq<Value>
  {
    if vals == [] then [] else [vals[0].typed] + PositionalValues(vals[1..])
  }

  /** A repeated key keeps its last value. */
  function NamedValues(pairs: seq<NamedArg>): map<string, Value>
  {
    if pairs == [] then map[]
    else NamedValues(pairs[..|pairs| - 1])[pairs[|pairs| - 1].key := pairs[|pairs| - 1].val.typed]
  }

  function MeaningOfArgs(args: Args): Params
  {
    match args
    case NoArgs => NoParams
    case PositionalArgs(vals) => Positional(PositionalValues(vals))
    case NamedArgs(pairs) => Named(NamedValues(pairs))
  }

  /** The shortcode that a tag stands for, given its ordinal and the indentation before it. */
  function Meaning(templates: Templates, tag: Tag, ordinal: nat, indentation: string): Shortcode
    decreases tag
  {
    Shortcode(tag.name, tag.isInline, tag.body.Closed?,
              MeaningOfBody(templates, tag.body), MeaningOfArgs(tag.args), ordinal, indentation, tag.markup,
              if !tag.isInline && tag.name in templates then Some(templates[tag.name]) else None, "")
  }

  function MeaningOfBody(templates: Templates, body: Body): seq<Inner>
    decreases body
  {
    match body
    case Closed(content) => MeaningOfContent(templates, content, 0, "")
    case _ => []
  }

  /** Children are numbered from `ordinal`; `indentation` is the indentation just before `content`. */
  function MeaningOfContent(templates: Templates, content: seq<Piece>, ordinal: nat, indentation: string): seq<Inner>
    decreases content
  {
    if content == [] then [] else
    [MeaningOfPiece(templates, content[0], ordinal, indentation)]
    + MeaningOfContent(templates, content[1..], ordinal + (if content[0].Child? then 1 else 0),
                       if content[0].Indent? then content[0].s else "")
  }

  function MeaningOfPiece(templates: Templates, piece: Piece, ordinal: nat, indentation: string): Inner
    decreases piece
  {
    match piece
    case Text(s) => InnerText(s)
    case Indent(s) => InnerText(s)
    case Child(tag) => InnerShortcode(Meaning(templates, tag, ordinal, indentation))
  }

  /** The tokens `toks` stand at `pos + 1`, just after the cursor. */
  ghost predicate Follows(items: seq<Item>, pos: int, toks: seq<Item>)
  {
    -1 <= pos && pos + 1 + |toks| <= |items| && (forall i :: 0 <= i < |toks| ==> items[pos + 1 + i] == toks[i])
  }

  lemma FollowsSplit(items: seq<Item>, pos: int, a: seq<Item>, b: seq<Item>)
    requires Follows(items, pos, a + b)
    ensures Follows(items, pos, a) && Follows(items, pos + |a|, b)
  {
    assert forall i :: 0 <= i < |a| ==> a[i] == (a + b)[i];
    assert forall i :: 0 <= i < |b| ==> b[i] == (a + b)[|a| + i];
  }

  lemma FollowsHead(items: seq<Item>, pos: int, toks: seq<Item>)
    requires Follows(items, pos, toks) && toks != []
    ensures items[pos + 1] == toks[0] && Follows(items, pos + 1, toks[1..])
  {
    assert forall i :: 0 <= i < |toks[1..]| ==> toks[1..][i] == toks[i + 1];
  }

  /** The parsing loop as a value: its outcome from a cursor and its local variables. */
  type Runner = (int, LoopState) -> Outcome

  /** Mentioning a point of the loop lets `IsLoop` speak about it. */
  ghost predicate Point(pos: int, st: LoopState) { true }

  ghost predicate IsLoop(run: Runner, templates: Templates, items: seq<Item>)
  {
    forall pos, st {:trigger Point(pos, st)} ::
      Point(pos, st) && -1 <= pos ==> run(pos, st) == Loop(templates, items, pos, st)
  }

  lemma RunGoto(run: Runner, templates: Templates, items: seq<Item>, pos: int, st: LoopState, p: int, st': LoopState)
    requires IsLoop(run, templates, items)
    requires -1 <= pos && Step(templates, items, pos, st) == Goto(p, st')
    ensures run(pos, st) == run(p, st')
  {
    assert Point(pos, st) && Point(p, st');
  }

  lemma RunStop(run: Runner, templates: Templates, items: seq<Item>, pos: int, st: LoopState, res: Extraction, p: int)
    requires IsLoop(run, templates, items)
    requires -1 <= pos && Step(templates, items, pos, st) == Stop(res, p)
    ensures run(pos, st) == Outcome(res, p, {})
  {
    assert Point(pos, st);
  }

  /** The loop variables on entry to the parser. */
  function Start(items: seq<Item>, pos: int, ordinal: nat): LoopState
    requires -1 <= pos
  {
    LoopState(NewShortcode(ordinal, IndentationAt(items, pos)), 0, 0, false)
  }

  lemma RunDescend(run: Runner, templates: Templates, items: seq<Item>, pos: int, st: LoopState, child: Shortcode,
                   end: int, names: set<string>)
    requires IsLoop(run, templates, items)
    requires -1 <= pos && pos + 2 < |items| && st.cnt > 0
    requires items[pos + 1].IsLeftShortcodeDelim()
    requires !items[pos + 2].IsRightShortcodeDelim() && !items[pos + 2].typ.TScClose?
    requires run(pos, Start(items, pos, st.nestedOrdinal)) == Outcome(Extracted(child), end, names)
    ensures run(pos, st) == AddNames(names + NamesOf(Extracted(child)), run(end, Nested(st, child)))
  {
    assert Step(templates, items, pos, st) == Descend;
    assert Point(pos, st) && Point(pos, Start(items, pos, st.nestedOrdinal)) && Point(end, Nested(st, child));
    assert Extract(templates, items, pos, st.nestedOrdinal) == Outcome(Extracted(child), end, names);
  }

  /** The loop variables with `params` collected so far. */
  function WithParams(st: LoopState, params: Params): LoopState
  {
    st.(sc := st.sc.(params := params))
  }

  function PositionalSoFar(done: seq<Value>): Params
  {
    if done == [] then NoParams else Positional(done)
  }

  function NamedSoFar(done: seq<NamedArg>): Params
  {
    if done == [] then NoParams else Named(NamedValues(done))
  }

  lemma RunPositionalArg(run: Runner, templates: Templates, items: seq<Item>, pos: int, st: LoopState,
                         done: seq<Value>, v: Value)
    requires IsLoop(run, templates, items)
    requires -1 <= pos && pos + 2 < |items| && items[pos + 1].typ.TScParam? && items[pos + 1].typed == v
    requires !items[pos + 2].IsDone() && !items[pos + 2].typ.TScParamVal?
    requires st.sc.params == PositionalSoFar(done)
    ensures run(pos, st) == run(pos + 1, WithParams(st, PositionalSoFar(done + [v])))
  {
    assert [] + [v] == [v];
    RunGoto(run, templates, items, pos, st, pos + 1, WithParams(st, PositionalSoFar(done + [v])));
  }

  lemma RunNamedArg(run: Runner, templates: Templates, items: seq<Item>, pos: int, st: LoopState,
                    done: seq<NamedArg>, arg: NamedArg)
    requires IsLoop(run, templates, items)
    requires -1 <= pos && pos + 2 < |items| && items[pos + 1].typ.TScParam? && items[pos + 1].val == arg.key
    requires items[pos + 2].typ.TScParamVal? && items[pos + 2].typed == arg.val.typed
    requires st.sc.params == NamedSoFar(done)
    ensures run(pos, st) == run(pos + 2, WithParams(st, NamedSoFar(done + [arg])))
  {
    assert (done + [arg])[..|done|] == done;
    assert done == [] ==> NamedValues(done + [arg]) == map[arg.key := arg.val.typed];
    RunGoto(run, templates, items, pos, st, pos + 2, WithParams(st, NamedSoFar(done + [arg])));
  }

  /** The token after the arguments: it must not be taken for a value of the last one. */
  ghost predicate EndsArgs(items: seq<Item>, end: int)
  {
    0 <= end < |items| && !items[end].IsDone() && !items[end].typ.TScParamVal?
  }

  lemma {:induction false} RunPositional(run: Runner, templates: Templates, items: seq<Item>, pos: int, st: LoopState,
                                         done: seq<Value>, vals: seq<Arg>)
    requires IsLoop(run, templates, items)
    requires Follows(items, pos, PrintPositional(vals)) && EndsArgs(items, pos + 1 + |PrintPositional(vals)|)
    requires st.sc.params == PositionalSoFar(done)
    ensures run(pos, st)
         == run(pos + |PrintPositional(vals)|, WithParams(st, PositionalSoFar(done + PositionalValues(vals))))
    decreases vals
  {
    if vals == [] {
      assert done + [] == done;
    } else {
      var v, rest := vals[0].typed, vals[1..];
      PositionalHead(items, pos, vals);
      RunPositionalArg(run, templates, items, pos, st, done, v);
      RunPositional(run, templates, items, pos + 1, WithParams(st, PositionalSoFar(done + [v])), done + [v], rest);
      Assoc(done, [v], PositionalValues(rest));
    }
  }

  lemma {:induction false} PositionalHead(items: seq<Item>, pos: int, vals: seq<Arg>)
    requires vals != []
    requires Follows(items, pos, PrintPositional(vals)) && EndsArgs(items, pos + 1 + |PrintPositional(vals)|)
    ensures pos + 2 < |items| && items[pos + 1].typ.TScParam? && items[pos + 1].typed == vals[0].typed
    ensures !items[pos + 2].IsDone() && !items[pos + 2].typ.TScParamVal?
    ensures Follows(items, pos + 1, PrintPositional(vals[1..]))
    ensures |PrintPositional(vals)| == 1 + |PrintPositional(vals[1..])|
  {
    var toks := PrintPositional(vals);
    FollowsHead(items, pos, toks);
    assert toks[1..] == PrintPositional(vals[1..]);
    if vals[1..] != [] {
      FollowsHead(items, pos + 1, toks[1..]);
    }
  }

  lemma {:induction false} RunNamed(run: Runner, templates: Templates, items: seq<Item>, pos: int, st: LoopState,
                                    done: seq<NamedArg>, pairs: seq<NamedArg>)
    requires IsLoop(run, templates, items)
    requires Follows(items, pos, PrintNamed(pairs))
    requires st.sc.params == NamedSoFar(done)
    ensures run(pos, st) == run(pos + |PrintNamed(pairs)|, WithParams(st, NamedSoFar(done + pairs)))
    decreases pairs
  {
    if pairs == [] {
      assert done + [] == done;
    } else {
      var toks := PrintNamed(pairs);
      FollowsHead(items, pos, toks);
      FollowsHead(items, pos + 1, toks[1..]);
      assert toks[1..][1..] == PrintNamed(pairs[1..]);
      var done' := done + [pairs[0]];
      RunNamedArg(run, templates, items, pos, st, done, pairs[0]);
      RunNamed(run, templates, items, pos + 2, WithParams(st, NamedSoFar(done')), done', pairs[1..]);
      assert done' + pairs[1..] == done + pairs;
    }
  }

  lemma RunArgs(run: Runner, templates: Templates, items: seq<Item>, pos: int, st: LoopState, args: Args)
    requires IsLoop(run, templates, items)
    requires Follows(items, pos, PrintArgs(args)) && EndsArgs(items, pos + 1 + |PrintArgs(args)|)
    requires st.sc.params.NoParams?
    requires args.PositionalArgs? ==> args.vals != []
    requires args.NamedArgs? ==> args.pairs != []
    ensures run(pos, st) == run(pos + |PrintArgs(args)|, WithParams(st, MeaningOfArgs(args)))
  {
    match args
    case NoArgs =>
    case PositionalArgs(vals) =>
      RunPositional(run, templates, items, pos, st, [], vals);
      assert [] + PositionalValues(vals) == PositionalValues(vals);
    case NamedArgs(pairs) =>
      RunNamed(run, templates, items, pos, st, [], pairs);
      assert [] + pairs == pairs;
  }

  /** The names of the shortcodes nested in `inner`; the handler collects exactly these. */
  function NestedNames(inner: seq<Inner>): set<string>
    decreases inner
  {
    if inner == [] then {} else NamesIn(inner[0]) + NestedNames(inner[1..])
  }

  function NamesIn(x: Inner): set<string>
    decreases x
  {
    match x
    case InnerText(_) => {}
    case InnerShortcode(sc) => NestedNames(sc.inner) + NamesOf(Extracted(sc))
  }

  function Children(content: seq<Piece>): nat
  {
    if content == [] then 0 else (if content[0].Child? then 1 else 0) + Children(content[1..])
  }

  /** The loop variables after `more`, holding `n` nested shortcodes, has been appended. */
  function WithInner(st: LoopState, more: seq<Inner>, n: nat): LoopState
  {
    LoopState(st.sc.(inner := st.sc.inner + more), st.cnt + n, st.nestedOrdinal + n, st.closed)
  }

  lemma RunText(run: Runner, templates: Templates, items: seq<Item>, pos: int, st: LoopState)
    requires IsLoop(run, templates, items)
    requires -1 <= pos && pos + 1 < |items| && items[pos + 1].IsText()
    ensures run(pos, st) == run(pos + 1, WithInner(st, [InnerText(items[pos + 1].val)], 0))
  {
    RunGoto(run, templates, items, pos, st, pos + 1, WithInner(st, [InnerText(items[pos + 1].val)], 0));
  }

  /** Reading back one piece of content. */
  lemma {:induction false} RunPiece(run: Runner, templates: Templates, items: seq<Item>, pos: int, st: LoopState, piece: Piece)
    requires IsLoop(run, templates, items)
    requires Follows(items, pos, PrintPiece(piece)) && pos > 0
    requires WellFormedPiece(templates, piece) && st.cnt > 0
    ensures var x := MeaningOfPiece(templates, piece, st.nestedOrdinal, IndentationAt(items, pos));
            run(pos, st)
            == AddNames(NamesIn(x), run(pos + |PrintPiece(piece)|, WithInner(st, [x], if piece.Child? then 1 else 0)))
    ensures IndentationAt(items, pos + |PrintPiece(piece)|) == if piece.Indent? then piece.s else ""
    decreases piece
  {
    var toks := PrintPiece(piece);
    match piece {
      case Text(s) =>
        FollowsHead(items, pos, toks);
        RunText(run, templates, items, pos, st);
      case Indent(s) =>
        FollowsHead(items, pos, toks);
        RunText(run, templates, items, pos, st);
      case Child(tag) =>
        ReadTag(run, templates, items, pos, tag, st.nestedOrdinal);
        RunChild(run, templates, items, pos, st, tag);
    }
  }

  lemma RunChild(run: Runner, templates: Templates, items: seq<Item>, pos: int, st: LoopState, tag: Tag)
    requires IsLoop(run, templates, items)
    requires Follows(items, pos, PrintTag(tag)) && pos > 0 && st.cnt > 0
    requires var sc := Meaning(templates, tag, st.nestedOrdinal, IndentationAt(items, pos));
             run(pos, Start(items, pos, st.nestedOrdinal))
             == Outcome(Extracted(sc), pos + |PrintTag(tag)|, NestedNames(sc.inner))
    ensures var x := InnerShortcode(Meaning(templates, tag, st.nestedOrdinal, IndentationAt(items, pos)));
            run(pos, st) == AddNames(NamesIn(x), run(pos + |PrintTag(tag)|, WithInner(st, [x], 1)))
    ensures IndentationAt(items, pos + |PrintTag(tag)|) == ""
  {
    var toks := PrintTag(tag);
    LastToken(tag);
    FollowsHead(items, pos, toks);
    FollowsHead(items, pos + 1, toks[1..]);
    var sc := Meaning(templates, tag, st.nestedOrdinal, IndentationAt(items, pos));
    RunDescend(run, templates, items, pos, st, sc, pos + |toks|, NestedNames(sc.inner));
    assert items[pos + 1 + (|toks| - 1)] == toks[|toks| - 1];
    assert Nested(st, sc) == WithInner(st, [InnerShortcode(sc)], 1);
  }

  /** Reading back content: each piece is appended to the inner list, children numbered in order. */
  lemma {:induction false} RunContent(run: Runner, templates: Templates, items: seq<Item>, pos: int, st: LoopState,
                                      content: seq<Piece>)
    requires IsLoop(run, templates, items)
    requires Follows(items, pos, PrintContent(content)) && pos > 0
    requires WellFormedContent(templates, content) && st.cnt > 0
    ensures var more := MeaningOfContent(templates, content, st.nestedOrdinal, IndentationAt(items, pos));
            run(pos, st) == AddNames(NestedNames(more), run(pos + |PrintContent(content)|, WithInner(st, more, Children(content))))
    decreases content
  {
    if content == [] {
      assert WithInner(st, [], 0) == st;
    } else {
      var piece, tail := content[0], content[1..];
      var n := if piece.Child? then 1 else 0;
      var mid := pos + |PrintPiece(piece)|;
      FollowsSplit(items, pos, PrintPiece(piece), PrintContent(tail));
      RunPiece(run, templates, items, pos, st, piece);
      var x := MeaningOfPiece(templates, piece, st.nestedOrdinal, IndentationAt(items, pos));
      RunContent(run, templates, items, mid, WithInner(st, [x], n), tail);
      RunMore(run, templates, pos, mid, mid + |PrintContent(tail)|, st, content, IndentationAt(items, pos), x, n);
    }
  }

  /** From the first piece and the others to all of them. */
  lemma RunMore(run: Runner, templates: Templates, pos: int, mid: int, end: int, st: LoopState, content: seq<Piece>,
                indentation: string, x: Inner, n: nat)
    requires content != [] && n == if content[0].Child? then 1 else 0
    requires x == MeaningOfPiece(templates, content[0], st.nestedOrdinal, indentation)
    requires run(pos, st) == AddNames(NamesIn(x), run(mid, WithInner(st, [x], n)))
    requires var more := MeaningOfContent(templates, content[1..], st.nestedOrdinal + n, if content[0].Indent? then content[0].s else "");
             run(mid, WithInner(st, [x], n))
             == AddNames(NestedNames(more), run(end, WithInner(WithInner(st, [x], n), more, Children(content[1..]))))
    ensures var more := MeaningOfContent(templates, content, st.nestedOrdinal, indentation);
            run(pos, st) == AddNames(NestedNames(more), run(end, WithInner(st, more, Children(content))))
  {
    var more := MeaningOfContent(templates, content[1..], st.nestedOrdinal + n, if content[0].Indent? then content[0].s else "");
    RunCons(run, pos, mid, end, st, x, n, more, Children(content[1..]));
    assert MeaningOfContent(templates, content, st.nestedOrdinal, indentation) == [x] + more;
    assert Children(content) == n + Children(content[1..]);
  }

  lemma RunCons(run: Runner, pos: int, mid: int, end: int, st: LoopState, x: Inner, n: nat, more: seq<Inner>, m: nat)
    requires run(pos, st) == AddNames(NamesIn(x), run(mid, WithInner(st, [x], n)))
    requires run(mid, WithInner(st, [x], n))
          == AddNames(NestedNames(more), run(end, WithInner(WithInner(st, [x], n), more, m)))
    ensures run(pos, st) == AddNames(NestedNames([x] + more), run(end, WithInner(st, [x] + more, n + m)))
  {
    assert st.sc.inner + [x] + more == st.sc.inner + ([x] + more);
    var st' := WithInner(st, [x] + more, n + m);
    assert WithInner(WithInner(st, [x], n), more, m) == st';
    assert ([x] + more)[1..] == more;
    assert NamesIn(x) + (NestedNames(more) + run(end, st').names) == NamesIn(x) + NestedNames(more) + run(end, st').names;
  }

  lemma LastToken(tag: Tag)
    ensures |PrintTag(tag)| > 2 && PrintTag(tag)[|PrintTag(tag)| - 1] == Right(tag.markup)
  {
    var body := PrintBody(tag, tag.body);
    assert body[|body| - 1] == Right(tag.markup);
  }

  /** The shortcode read from the delimiter, the name and the arguments of a tag. */
  function Opened(templates: Templates, tag: Tag, ordinal: nat, indentation: string): Shortcode
  {
    Meaning(templates, tag, ordinal, indentation).(inner := [], isClosing := false)
  }

  lemma RunOpening(run: Runner, templates: Templates, items: seq<Item>, pos: int, tag: Tag, ordinal: nat)
    requires IsLoop(run, templates, items)
    requires Follows(items, pos, [Left(tag.markup), NameItem(tag)]) && pos + 3 < |items|
    requires tag.isInline || tag.name in templates
    ensures run(pos, Start(items, pos, ordinal))
         == run(pos + 2, LoopState(Opened(templates, tag, ordinal, IndentationAt(items, pos)).(params := NoParams), 1, 0, false))
  {
    var head := [Left(tag.markup), NameItem(tag)];
    FollowsHead(items, pos, head);
    FollowsHead(items, pos + 1, head[1..]);
    var st0 := Start(items, pos, ordinal);
    var st1 := LoopState(st0.sc.(doMarkup := tag.markup), 1, 0, false);
    RunGoto(run, templates, items, pos, st0, pos + 1, st1);
    var st2 := LoopState(Opened(templates, tag, ordinal, IndentationAt(items, pos)).(params := NoParams), 1, 0, false);
    RunGoto(run, templates, items, pos + 1, st1, pos + 2, st2);
  }

  lemma RunSelfClosing(run: Runner, templates: Templates, items: seq<Item>, pos: int, st: LoopState, markup: bool)
    requires IsLoop(run, templates, items)
    requires Follows(items, pos, [CLOSE, Right(markup)])
    requires st.sc.isInline || st.sc.NeedsInner()
    ensures run(pos, st) == Outcome(Extracted(st.sc), pos + 2, {})
  {
    var toks := [CLOSE, Right(markup)];
    FollowsHead(items, pos, toks);
    FollowsHead(items, pos + 1, toks[1..]);
    assert Consumed(items, pos + 1, 1) == pos + 2 by {
      assert Consumed(items, pos + 2, 0) == pos + 2;
    }
    RunStop(run, templates, items, pos, st, Extracted(st.sc), pos + 2);
  }

  lemma RunClosing(run: Runner, templates: Templates, items: seq<Item>, pos: int, st: LoopState, tag: Tag)
    requires IsLoop(run, templates, items)
    requires Follows(items, pos, ClosingTag(tag))
    requires st.sc.isInline || st.sc.NeedsInner()
    ensures run(pos, st) == Outcome(Extracted(st.sc.(isClosing := true)), pos + 4, {})
  {
    var toks := ClosingTag(tag);
    FollowsHead(items, pos, toks);
    FollowsHead(items, pos + 1, toks[1..]);
    FollowsHead(items, pos + 2, toks[2..]);
    FollowsHead(items, pos + 3, toks[3..]);
    assert Consumed(items, pos + 2, 2) == pos + 4 by {
      assert Consumed(items, pos + 3, 1) == Consumed(items, pos + 4, 0) == pos + 4;
    }
    RunGoto(run, templates, items, pos, st, pos + 1, st);
    RunStop(run, templates, items, pos + 1, st, Extracted(st.sc.(isClosing := true)), pos + 4);
  }

  lemma RunRight(run: Runner, templates: Templates, items: seq<Item>, pos: int, st: LoopState)
    requires IsLoop(run, templates, items)
    requires -1 <= pos && pos + 1 < |items| && items[pos + 1].IsRightShortcodeDelim()
    requires st.sc.isInline || st.sc.info.Some?
    ensures run(pos, st) == if st.sc.isInline || st.sc.NeedsInner() then run(pos + 1, st)
                            else Outcome(Extracted(st.sc), pos + 1, {})
  {
    if st.sc.isInline || st.sc.NeedsInner() {
      RunGoto(run, templates, items, pos, st, pos + 1, st);
    } else {
      RunStop(run, templates, items, pos, st, Extracted(st.sc), pos + 1);
    }
  }

  lemma {:induction false} RunBody(run: Runner, templates: Templates, items: seq<Item>, pos: int, tag: Tag,
                                   ordinal: nat, indentation: string)
    requires IsLoop(run, templates, items)
    requires Follows(items, pos, PrintBody(tag, tag.body)) && WellFormed(templates, tag) && pos > 0
    ensures var sc := Meaning(templates, tag, ordinal, indentation);
            run(pos, LoopState(Opened(templates, tag, ordinal, indentation), 1, 0, false))
            == Outcome(Extracted(sc), pos + |PrintBody(tag, tag.body)|, NestedNames(sc.inner))
    decreases tag.body
  {
    var body, sc := PrintBody(tag, tag.body), Opened(templates, tag, ordinal, indentation);
    var st := LoopState(sc, 1, 0, false);
    FollowsHead(items, pos, body);
    match tag.body {
      case Open =>
        RunRight(run, templates, items, pos, st);
      case SelfClosed =>
        RunSelfClosing(run, templates, items, pos, st, tag.markup);
      case Closed(content) =>
        var inside, last := PrintContent(content), ClosingTag(tag);
        assert body[1..] == inside + last;
        FollowsSplit(items, pos + 1, inside, last);
        RunRight(run, templates, items, pos, st);
        RunContent(run, templates, items, pos + 1, st, content);
        var inner := MeaningOfContent(templates, content, 0, "");
        assert [] + inner == inner;
        var st' := WithInner(st, inner, Children(content));
        RunClosing(run, templates, items, pos + 1 + |inside|, st', tag);
        assert NestedNames(inner) + {} == NestedNames(inner);
    }
  }

  lemma {:induction false} ReadTag(run: Runner, templates: Templates, items: seq<Item>, pos: int, tag: Tag, ordinal: nat)
    requires IsLoop(run, templates, items)
    requires Follows(items, pos, PrintTag(tag)) && WellFormed(templates, tag)
    ensures var sc := Meaning(templates, tag, ordinal, IndentationAt(items, pos));
            run(pos, Start(items, pos, ordinal))
            == Outcome(Extracted(sc), pos + |PrintTag(tag)|, NestedNames(sc.inner))
    decreases tag
  {
    var args := PrintArgs(tag.args);
    TagParts(items, pos, tag);
    RunOpening(run, templates, items, pos, tag, ordinal);
    var sc := Opened(templates, tag, ordinal, IndentationAt(items, pos));
    var st := LoopState(sc.(params := NoParams), 1, 0, false);
    RunArgs(run, templates, items, pos + 2, st, tag.args);
    assert WithParams(st, MeaningOfArgs(tag.args)) == LoopState(sc, 1, 0, false);
    RunBody(run, templates, items, pos + 2 + |args|, tag, ordinal, IndentationAt(items, pos));
  }

  lemma TagParts(items: seq<Item>, pos: int, tag: Tag)
    requires Follows(items, pos, PrintTag(tag))
    ensures Follows(items, pos, [Left(tag.markup), NameItem(tag)])
    ensures Follows(items, pos + 2, PrintArgs(tag.args))
    ensures Follows(items, pos + 2 + |PrintArgs(tag.args)|, PrintBody(tag, tag.body))
    ensures EndsArgs(items, pos + 3 + |PrintArgs(tag.args)|)
    ensures |PrintTag(tag)| == 2 + |PrintArgs(tag.args)| + |PrintBody(tag, tag.body)|
  {
    var head, args, body := [Left(tag.markup), NameItem(tag)], PrintArgs(tag.args), PrintBody(tag, tag.body);
    FollowsSplit(items, pos, head, args + body);
    FollowsSplit(items, pos + 2, args, body);
    BodyStart(tag);
    FollowsHead(items, pos + 2 + |args|, body);
  }

  lemma BodyStart(tag: Tag)
    ensures var body := PrintBody(tag, tag.body);
            body != [] && (body[0] == CLOSE || body[0] == Right(tag.markup))
  {
  }

  /**
    Parser/printer round trip. Wherever the printed tokens of a well-formed tag stand, and whatever follows them,
    the parser returns the shortcode that the tag means, stops on the tag's last token and
    registers the names of the nested shortcodes.
   */
  lemma RoundTrip(templates: Templates, items: seq<Item>, pos: int, tag: Tag, ordinal: nat)
    requires Follows(items, pos, PrintTag(tag)) && WellFormed(templates, tag)
    ensures var sc := Meaning(templates, tag, ordinal, IndentationAt(items, pos));
            Extract(templates, items, pos, ordinal) == Outcome(Extracted(sc), pos + |PrintTag(tag)|, NestedNames(sc.inner))
  {
    var run: Runner := (p, st) => if -1 <= p then Loop(templates, items, p, st) else Outcome(Panicked, p, {});
    ReadTag(run, templates, items, pos, tag, ordinal);
  }

  /** The names in a tag as its author writes it: its own and those of the tags in its content. */
  function TagNames(tag: Tag): set<string>
    decreases tag
  {
    (if tag.name != "" then {tag.name} else {})
    + match tag.body case Closed(content) => ContentNames(content) case _ => {}
  }

  function ContentNames(content: seq<Piece>): set<string>
    decreases content
  {
    if content == [] then {} else PieceNames(content[0]) + ContentNames(content[1..])
  }

  function PieceNames(piece: Piece): set<string>
    decreases piece
  {
    match piece case Child(tag) => TagNames(tag) case _ => {}
  }

  /** They are the names in the shortcode that the tag stands for. */
  lemma {:induction false} MeaningNames(templates: Templates, tag: Tag, ordinal: nat, indentation: string)
    ensures NamesIn(InnerShortcode(Meaning(templates, tag, ordinal, indentation))) == TagNames(tag)
    decreases tag
  {
    if tag.body.Closed? {
      MeaningContentNames(templates, tag.body.content, 0, "");
    }
  }

  lemma {:induction false} MeaningContentNames(templates: Templates, content: seq<Piece>, ordinal: nat, indentation: string)
    ensures NestedNames(MeaningOfContent(templates, content, ordinal, indentation)) == ContentNames(content)
    decreases content
  {
    if content != [] {
      var n := if content[0].Child? then 1 else 0;
      var next := if content[0].Indent? then content[0].s else "";
      MeaningContentNames(templates, content[1..], ordinal + n, next);
      MeaningPieceNames(templates, content[0], ordinal, indentation);
      var x, more := MeaningOfPiece(templates, content[0], ordinal, indentation), MeaningOfContent(templates, content[1..], ordinal + n, next);
      assert MeaningOfContent(templates, content, ordinal, indentation) == [x] + more;
      assert ([x] + more)[1..] == more;
    }
  }

  lemma {:induction false} MeaningPieceNames(templates: Templates, piece: Piece, ordinal: nat, indentation: string)
    ensures NamesIn(MeaningOfPiece(templates, piece, ordinal, indentation)) == PieceNames(piece)
    decreases piece
  {
    if piece.Child? {
      MeaningNames(templates, piece.tag, ordinal, indentation);
    }
  }
}
