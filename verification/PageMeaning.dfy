/** Whole pages: the tokens of a page are mapped back to its pieces, and rendering splices values in source order. */
module PageMeaning {
  import opened Common
  import opened PageTokens
  import opened ShortcodeParser
  import opened ShortcodeRoundTrip
  import ShortcodeShape
  import opened Placeholders
  import Pages = PageContent
  import Ex = ShortcodeExpansion
  import opened ExpansionRefinement
  import opened ExpansionTrees
  import opened ExpansionMeaning
  import opened ExpansionTermination

  /** A page as its author writes it: markup, the summary divider, ignored tokens and top-level shortcodes. */
  datatype SourcePiece = Markup(item: Item) | Divider | Skipped(item: Item) | Call(tag: Tag)

  ghost predicate WellFormedPage(templates: Templates, page: seq<SourcePiece>)
  {
    forall i :: 0 <= i < |page| ==> WellFormedPiece(templates, page[i])
  }

  ghost predicate WellFormedPiece(templates: Templates, piece: SourcePiece)
  {
    match piece
    case Markup(item) => Pages.IsPlain(item)
    case Divider => true
    case Skipped(item) => item.typ.TIgnore? || item.typ.TFrontMatter?
    case Call(tag) => WellFormed(templates, tag)
  }

  function PrintSource(piece: SourcePiece): seq<Item>
  {
    match piece
    case Markup(item) => [item]
    case Divider => [Item(TLeadSummaryDivider, "<!--more-->", PLAIN)]
    case Skipped(item) => [item]
    case Call(tag) => PrintTag(tag)
  }

  function PrintPage(page: seq<SourcePiece>): seq<Item>
  {
    PrintAll(PrintSource, page)
  }

  /** How a piece is printed. */
  type Printer = SourcePiece -> seq<Item>

  function PrintAll(printer: Printer, page: seq<SourcePiece>): seq<Item>
  {
    if page == [] then [] else printer(page[0]) + PrintAll(printer, page[1..])
  }

  /** The names of the shortcodes in a piece, nested ones included. */
  function SourceNames(piece: SourcePiece): set<string>
  {
    if piece.Call? then TagNames(piece.tag) else {}
  }

  function NamesOfPage(page: seq<SourcePiece>): set<string>
  {
    AllNames(SourceNames, page)
  }

  type Namer = SourcePiece -> set<string>

  function AllNames(namer: Namer, page: seq<SourcePiece>): set<string>
  {
    if page == [] then {} else namer(page[0]) + AllNames(namer, page[1..])
  }

  /** The indentation that the next shortcode sees after `piece`; `first` tells that `piece` opens the page. */
  function IndentationAfter(piece: SourcePiece, first: bool): string
  {
    if piece.Markup? && piece.item.typ.TIndentation? && !first then piece.item.val else ""
  }

  /** The content that one piece stands for, given its ordinal and the indentation before it. */
  type Reading = (SourcePiece, nat, string) -> seq<Pages.ContentItem>

  /** The pieces of a page read one after the other; shortcodes are numbered in order. */
  function ReadPage(reading: Reading, page: seq<SourcePiece>, ordinal: nat, indentation: string, first: bool): seq<Pages.ContentItem>
  {
    if page == [] then [] else
    reading(page[0], ordinal, indentation)
    + ReadPage(reading, page[1..], OrdinalAfter(page[0], ordinal), IndentationAfter(page[0], first), false)
  }

  /** The content that a page stands for. */
  function MeaningOfPage(templates: Templates, pid: nat, page: seq<SourcePiece>): seq<Pages.ContentItem>
  {
    ReadPage(ReadingOf(templates, pid), page, 0, "", true)
  }

  function ReadingOf(templates: Templates, pid: nat): Reading
  {
    (piece, ordinal, indentation) => if 0 <= ordinal then MeaningOfSource(templates, pid, piece, ordinal, indentation) else []
  }

  function OrdinalAfter(piece: SourcePiece, ordinal: nat): nat
  {
    if piece.Call? then ordinal + 1 else ordinal
  }

  function MeaningOfSource(templates: Templates, pid: nat, piece: SourcePiece, ordinal: nat,
                           indentation: string): seq<Pages.ContentItem>
  {
    match piece
    case Markup(item) => [Pages.Bytes(item.val)]
    case Divider => [Pages.Replacement(Pages.SUMMARY_DIVIDER)]
    case Skipped(_) => []
    case Call(tag) =>
      [Pages.Code(Meaning(templates, tag, ordinal, indentation).(
         params := if tag.args.NoArgs? then Positional([]) else MeaningOfArgs(tag.args),
         placeholder := CreateShortcodePlaceholder("s", pid, ordinal)))]
  }

  /** The mapping as a value: its result from a cursor and an ordinal. */
  type Mapper = (int, nat) -> Pages.Mapping

  /** Mentioning a cursor or a piece lets `IsMapper` speak about it. */
  ghost predicate MapPoint(pos: int, ordinal: nat) { true }
  ghost predicate ReadPoint(piece: SourcePiece, ordinal: nat, indentation: string) { true }
  ghost predicate PrintPoint(piece: SourcePiece) { true }

  ghost predicate IsMapper(from: Mapper, reading: Reading, printer: Printer, namer: Namer, templates: Templates, pid: nat, items: seq<Item>)
  {
    && (forall pos, ordinal {:trigger MapPoint(pos, ordinal)} ::
          MapPoint(pos, ordinal) && -1 <= pos ==> from(pos, ordinal) == Pages.MapFrom(templates, pid, items, pos, ordinal))
    && (forall piece, ordinal, indentation {:trigger ReadPoint(piece, ordinal, indentation)} ::
          ReadPoint(piece, ordinal, indentation) ==>
          reading(piece, ordinal, indentation) == MeaningOfSource(templates, pid, piece, ordinal, indentation))
    && (forall piece {:trigger PrintPoint(piece)} ::
          PrintPoint(piece) ==> printer(piece) == PrintSource(piece) && namer(piece) == SourceNames(piece))
  }

  /** Whatever comes behind the page: it is mapped to its content, and the mapping goes on behind it. */
  lemma {:induction false} MapsPage(from: Mapper, reading: Reading, printer: Printer, namer: Namer, templates: Templates, pid: nat, items: seq<Item>,
                                    pos: int, page: seq<SourcePiece>, ordinal: nat)
    requires IsMapper(from, reading, printer, namer, templates, pid, items)
    requires Follows(items, pos, PrintAll(printer, page)) && WellFormedPage(templates, page)
    ensures from(pos, ordinal) == Pages.Resumed(ReadPage(reading, page, ordinal, IndentationAt(items, pos), pos == -1), AllNames(namer, page),
                                                from(pos + |PrintAll(printer, page)|, ordinal + Calls(page)))
    decreases page
  {
    if page == [] {
      ResumedNothing(from(pos, ordinal));
    } else {
      var piece, rest := page[0], page[1..];
      var mid := pos + |printer(piece)|;
      FollowsSplit(items, pos, printer(piece), PrintAll(printer, rest));
      MapsPiece(from, reading, printer, namer, templates, pid, items, pos, piece, ordinal);
      MapsPage(from, reading, printer, namer, templates, pid, items, mid, rest, OrdinalAfter(piece, ordinal));
      Pages.ResumedTwice(reading(piece, ordinal, IndentationAt(items, pos)), namer(piece),
                         ReadPage(reading, rest, OrdinalAfter(piece, ordinal), IndentationAt(items, mid), false), AllNames(namer, rest),
                         from(mid + |PrintAll(printer, rest)|, ordinal + Calls(page)));
    }
  }

  lemma ResumedNothing(m: Pages.Mapping)
    ensures Pages.Resumed([], {}, m) == m
  {
    if m.Mapped? {
      assert [] + m.content == m.content && {} + m.names == m.names;
    }
  }

  /** The number of top-level shortcodes. */
  function Calls(page: seq<SourcePiece>): nat
  {
    if page == [] then 0 else (if page[0].Call? then 1 else 0) + Calls(page[1..])
  }

  lemma MapsPiece(from: Mapper, reading: Reading, printer: Printer, namer: Namer, templates: Templates, pid: nat, items: seq<Item>, pos: int,
                  piece: SourcePiece, ordinal: nat)
    requires IsMapper(from, reading, printer, namer, templates, pid, items)
    requires Follows(items, pos, printer(piece)) && WellFormedPiece(templates, piece)
    ensures printer(piece) != []
    ensures IndentationAt(items, pos + |printer(piece)|) == IndentationAfter(piece, pos == -1)
    ensures from(pos, ordinal) == Pages.Resumed(reading(piece, ordinal, IndentationAt(items, pos)), namer(piece),
                                                from(pos + |printer(piece)|, OrdinalAfter(piece, ordinal)))
  {
    assert PrintPoint(piece);
    OneRoundTrip(templates, pid, items, pos, piece, ordinal);
    assert MapPoint(pos, ordinal) && MapPoint(pos + |printer(piece)|, OrdinalAfter(piece, ordinal));
    assert ReadPoint(piece, ordinal, IndentationAt(items, pos));
  }

  lemma OneRoundTrip(templates: Templates, pid: nat, items: seq<Item>, pos: int, piece: SourcePiece, ordinal: nat)
    requires Follows(items, pos, PrintSource(piece)) && WellFormedPiece(templates, piece)
    ensures PrintSource(piece) != []
    ensures IndentationAt(items, pos + |PrintSource(piece)|) == IndentationAfter(piece, pos == -1)
    ensures var one := Pages.MapOne(templates, pid, items, pos, ordinal);
            && one.Emit? && one.pos == pos + |PrintSource(piece)| && one.ordinal == OrdinalAfter(piece, ordinal)
            && one.content == MeaningOfSource(templates, pid, piece, ordinal, IndentationAt(items, pos))
            && one.names == SourceNames(piece)
  {
    if piece.Call? {
      CallRoundTrip(templates, pid, items, pos, piece.tag, ordinal);
      MeaningNames(templates, piece.tag, ordinal, IndentationAt(items, pos));
    } else {
      FollowsHead(items, pos, PrintSource(piece));
    }
  }

  lemma CallRoundTrip(templates: Templates, pid: nat, items: seq<Item>, pos: int, tag: Tag, ordinal: nat)
    requires Follows(items, pos, PrintTag(tag)) && WellFormed(templates, tag)
    ensures PrintTag(tag) != [] && IndentationAt(items, pos + |PrintTag(tag)|) == ""
    ensures var sc := Meaning(templates, tag, ordinal, IndentationAt(items, pos));
            Pages.MapOne(templates, pid, items, pos, ordinal)
            == Pages.Emit([Pages.Code(Pages.Registered(sc, pid, ordinal))], pos + |PrintTag(tag)|, ordinal + 1, NamesIn(InnerShortcode(sc)))
  {
    var toks := PrintTag(tag);
    LastToken(tag);
    RoundTrip(templates, items, pos, tag, ordinal);
    assert items[pos + 1 + (|toks| - 1)] == toks[|toks| - 1];
    FollowsHead(items, pos, toks);
  }

  /** The printed tokens of a page are mapped to the page, whatever tokens come behind it, and the mapping goes on there. */
  lemma PageThenRest(templates: Templates, pid: nat, page: seq<SourcePiece>, rest: seq<Item>)
    requires WellFormedPage(templates, page) && rest != []
    ensures Pages.MapItems(templates, pid, PrintPage(page) + rest)
         == Pages.Resumed(MeaningOfPage(templates, pid, page), NamesOfPage(page),
                          Pages.MapFrom(templates, pid, PrintPage(page) + rest, |PrintPage(page)| - 1, Calls(page)))
  {
    var items := PrintPage(page) + rest;
    var from, reading, printer, namer := TheMapper(templates, pid, items, page);
    FollowsFirst(PrintAll(printer, page), rest);
    MapsFromStart(from, reading, printer, namer, templates, pid, items, page);
    assert MapPoint(-1, 0) && MapPoint(|PrintAll(printer, page)| - 1, Calls(page));
    MapsItems(templates, pid, items);
  }

  lemma MapsItems(templates: Templates, pid: nat, items: seq<Item>)
    requires items != []
    ensures Pages.MapItems(templates, pid, items) == Pages.MapFrom(templates, pid, items, -1, 0)
  {
  }

  lemma MapsFromStart(from: Mapper, reading: Reading, printer: Printer, namer: Namer, templates: Templates, pid: nat, items: seq<Item>,
                      page: seq<SourcePiece>)
    requires IsMapper(from, reading, printer, namer, templates, pid, items)
    requires Follows(items, -1, PrintAll(printer, page)) && WellFormedPage(templates, page)
    ensures from(-1, 0) == Pages.Resumed(ReadPage(reading, page, 0, "", true), AllNames(namer, page), from(|PrintAll(printer, page)| - 1, Calls(page)))
  {
    MapsPage(from, reading, printer, namer, templates, pid, items, -1, page, 0);
  }

  lemma FollowsFirst(toks: seq<Item>, rest: seq<Item>)
    ensures Follows(toks + rest, -1, toks)
  {
  }

  /** The mapping of a page, and how its pieces are read, printed and named, as values. */
  lemma TheMapper(templates: Templates, pid: nat, items: seq<Item>, page: seq<SourcePiece>)
    returns (from: Mapper, reading: Reading, printer: Printer, namer: Namer)
    ensures IsMapper(from, reading, printer, namer, templates, pid, items)
    ensures ReadPage(reading, page, 0, "", true) == MeaningOfPage(templates, pid, page)
    ensures PrintAll(printer, page) == PrintPage(page) && AllNames(namer, page) == NamesOfPage(page)
  {
    from := (pos, ordinal) =>
      if -1 <= pos && 0 <= ordinal then Pages.MapFrom(templates, pid, items, pos, ordinal) else Pages.Rejected(Pages.TokenError);
    reading, printer, namer := ReadingOf(templates, pid), PrintSource, SourceNames;
  }

  /**
    Mapping the printed tokens of a page gives back the page, with its shortcodes numbered in source order, and
    registers exactly the names of its shortcodes and of those nested in them.
   */
  lemma PageRoundTrip(templates: Templates, pid: nat, page: seq<SourcePiece>, eof: Item)
    requires WellFormedPage(templates, page) && eof.typ.TEOF?
    ensures var m := Pages.MapItems(templates, pid, PrintPage(page) + [eof]);
            m.Mapped? && m.content == MeaningOfPage(templates, pid, page) && m.names == NamesOfPage(page)
  {
    PageThenRest(templates, pid, page, [eof]);
    var items, end := PrintPage(page) + [eof], |PrintPage(page)|;
    assert items[end] == eof;
    MapsEnd(templates, pid, items, end - 1, Calls(page));
    var content := MeaningOfPage(templates, pid, page);
    assert content + [] == content && NamesOfPage(page) + {} == NamesOfPage(page);
  }

  lemma MapsEnd(templates: Templates, pid: nat, items: seq<Item>, pos: int, ordinal: nat)
    requires -1 <= pos && pos + 1 < |items| && items[pos + 1].IsDone()
    ensures Pages.MapFrom(templates, pid, items, pos, ordinal)
         == if items[pos + 1].typ.TError? then Pages.Rejected(Pages.TokenError) else Pages.Mapped([], {})
  {
  }

  /** An error token behind a page rejects it, whatever comes after. */
  lemma RejectedAtError(templates: Templates, pid: nat, page: seq<SourcePiece>, error: Item, any: seq<Item>)
    requires WellFormedPage(templates, page) && error.typ.TError?
    ensures Pages.MapItems(templates, pid, PrintPage(page) + ([error] + any)) == Pages.Rejected(Pages.TokenError)
  {
    PageThenRest(templates, pid, page, [error] + any);
    var items, end := PrintPage(page) + ([error] + any), |PrintPage(page)|;
    assert items[end] == error;
    MapsEnd(templates, pid, items, end - 1, Calls(page));
  }

  /** A shortcode behind a page that cannot be parsed rejects it with the error of that shortcode. */
  lemma RejectedAtShortcode(templates: Templates, pid: nat, page: seq<SourcePiece>, rest: seq<Item>)
    requires WellFormedPage(templates, page) && rest != [] && rest[0].IsLeftShortcodeDelim()
    requires !Extract(templates, PrintPage(page) + rest, |PrintPage(page)| - 1, Calls(page)).res.Extracted?
    ensures var res := Extract(templates, PrintPage(page) + rest, |PrintPage(page)| - 1, Calls(page)).res;
            Pages.MapItems(templates, pid, PrintPage(page) + rest)
            == Pages.Rejected(if res.Failed? then Pages.ShortcodeError(res.error) else Pages.ShortcodePanic)
  {
    PageThenRest(templates, pid, page, rest);
    assert (PrintPage(page) + rest)[|PrintPage(page)|] == rest[0];
  }

  /** The first item behind `pos` that ends the page or is an error, or the error that stands for a missing one, is at `end`. */
  ghost predicate FirstDone(items: seq<Item>, pos: int, end: int)
    requires -1 <= pos
  {
    pos < end && ItemAt(items, end).IsDone() && ShortcodeShape.GoesOn(items, pos, end - 1)
  }

  /**
    On any tokens: no error of the lexer is lost. A page is mapped only when its tokens run without an error to its
    end, and rejected for a token only when they run to an error; shortcodes on the way make no difference.
   */
  lemma {:induction false} ErrorsAreNotLost(templates: Templates, pid: nat, items: seq<Item>, pos: int, ordinal: nat) returns (end: int)
    requires -1 <= pos
    ensures var m := Pages.MapFrom(templates, pid, items, pos, ordinal);
            && (m.Mapped? ==> FirstDone(items, pos, end) && ItemAt(items, end).typ.TEOF?)
            && (m == Pages.Rejected(Pages.TokenError) ==> FirstDone(items, pos, end) && ItemAt(items, end).typ.TError?)
    decreases |items| - pos
  {
    var one := Pages.MapOne(templates, pid, items, pos, ordinal);
    if one.Emit? {
      end := ErrorsAreNotLost(templates, pid, items, one.pos, one.ordinal);
      EmitGoesOn(templates, pid, items, pos, ordinal);
      if Pages.MapFrom(templates, pid, items, pos, ordinal).Mapped? || Pages.MapFrom(templates, pid, items, pos, ordinal).error.TokenError? {
        ShortcodeShape.GoesOnTwice(items, pos, one.pos, end - 1);
      }
    } else {
      end := pos + 1;
    }
  }

  lemma EmitGoesOn(templates: Templates, pid: nat, items: seq<Item>, pos: int, ordinal: nat)
    requires -1 <= pos
    ensures var one := Pages.MapOne(templates, pid, items, pos, ordinal); one.Emit? ==> ShortcodeShape.GoesOn(items, pos, one.pos)
  {
    if ItemAt(items, pos + 1).IsLeftShortcodeDelim() && Extract(templates, items, pos, ordinal).res.Extracted? {
      ShortcodeShape.ExtractGoesOn(templates, items, pos, ordinal);
    }
  }

  /**
    Which shortcodes are rendered before the markup: those written with percent signs, unless their template asks for
    the old behaviour. All others are represented by their placeholder.
   */
  lemma PercentTagsGoInline(templates: Templates, pid: nat, tag: Tag, ordinal: nat, indentation: string, rendered: map<string, Pages.Rendering>)
    requires WellFormed(templates, tag)
    ensures var content := MeaningOfSource(templates, pid, Call(tag), ordinal, indentation);
            && |content| == 1
            && (Pages.GoesInline(content[0]) <==> tag.markup && (tag.isInline || templates[tag.name].version != 1))
            && (!Pages.GoesInline(content[0]) ==>
                  Pages.Lower(content, rendered) == Pages.Lowered(CreateShortcodePlaceholder("s", pid, ordinal), false))
  {
    var content := MeaningOfSource(templates, pid, Call(tag), ordinal, indentation);
    assert content[1..] == [];
    var placeholder := CreateShortcodePlaceholder("s", pid, ordinal);
    assert placeholder + "" == placeholder;
  }

  /** A page has the mark of a manual summary exactly where its author has written the divider. */
  lemma DividerIsKept(templates: Templates, pid: nat, page: seq<SourcePiece>)
    ensures Pages.HasDivider(MeaningOfPage(templates, pid, page)) <==> Divider in page
  {
    ReadingKeepsDivider(templates, pid, page, 0, "", true);
  }

  lemma {:induction false} ReadingKeepsDivider(templates: Templates, pid: nat, page: seq<SourcePiece>, ordinal: nat, indentation: string, first: bool)
    ensures Pages.HasDivider(ReadPage(ReadingOf(templates, pid), page, ordinal, indentation, first)) <==> Divider in page
    decreases page
  {
    if page != [] {
      var piece, rest := page[0], page[1..];
      ReadingKeepsDivider(templates, pid, rest, OrdinalAfter(piece, ordinal), IndentationAfter(piece, first), false);
      var here := ReadingOf(templates, pid)(piece, ordinal, indentation);
      assert here == MeaningOfSource(templates, pid, piece, ordinal, indentation);
      assert Pages.Replacement(Pages.SUMMARY_DIVIDER) in here <==> piece.Divider?;
      assert page == [piece] + rest;
    }
  }

  // ---------------------------------------------------------------------------------------------
  // Numbering, on any tokens

  /** The k-th shortcode has ordinal `ordinal + k` and the placeholder made from it. */
  ghost predicate NumberedFrom(codes: seq<Shortcode>, pid: nat, ordinal: nat)
  {
    forall k :: 0 <= k < |codes| ==>
      codes[k].ordinal == ordinal + k && codes[k].placeholder == CreateShortcodePlaceholder("s", pid, ordinal + k)
  }

  /** The k-th top-level shortcode of any page has ordinal k and the placeholder made from k. */
  lemma {:induction false} TopLevelNumbering(templates: Templates, pid: nat, items: seq<Item>, pos: int, ordinal: nat)
    requires -1 <= pos && Pages.MapFrom(templates, pid, items, pos, ordinal).Mapped?
    ensures NumberedFrom(Pages.Codes(Pages.MapFrom(templates, pid, items, pos, ordinal).content), pid, ordinal)
    decreases |items| - pos
  {
    var one := Pages.MapOne(templates, pid, items, pos, ordinal);
    if one.Emit? {
      TopLevelNumbering(templates, pid, items, one.pos, one.ordinal);
      var rest := Pages.MapFrom(templates, pid, items, one.pos, one.ordinal).content;
      FirstNumber(templates, pid, items, pos, ordinal);
      CodesAhead(one.content, rest);
      NumberedAppend(Pages.Codes(one.content), Pages.Codes(rest), pid, ordinal);
    }
  }

  lemma NumberedAppend(a: seq<Shortcode>, b: seq<Shortcode>, pid: nat, ordinal: nat)
    requires NumberedFrom(a, pid, ordinal) && NumberedFrom(b, pid, ordinal + |a|)
    ensures NumberedFrom(a + b, pid, ordinal)
  {
    forall k | |a| <= k < |a + b|
      ensures (a + b)[k].ordinal == ordinal + k && (a + b)[k].placeholder == CreateShortcodePlaceholder("s", pid, ordinal + k)
    {
      assert (a + b)[k] == b[k - |a|];
    }
  }

  lemma FirstNumber(templates: Templates, pid: nat, items: seq<Item>, pos: int, ordinal: nat)
    requires -1 <= pos
    ensures var one := Pages.MapOne(templates, pid, items, pos, ordinal);
            one.Emit? ==>
              && one.ordinal == ordinal + |Pages.Codes(one.content)|
              && NumberedFrom(Pages.Codes(one.content), pid, ordinal)
  {
    if ItemAt(items, pos + 1).IsLeftShortcodeDelim() && Extract(templates, items, pos, ordinal).res.Extracted? {
      ShortcodeShape.ExtractedShape(templates, items, pos, ordinal);
    }
  }

  lemma CodesAhead(a: seq<Pages.ContentItem>, b: seq<Pages.ContentItem>)
    requires |a| <= 1
    ensures Pages.Codes(a + b) == Pages.Codes(a) + Pages.Codes(b)
  {
    if a == [] {
      assert a + b == b;
    } else {
      assert (a + b)[1..] == b && a[1..] == [];
    }
  }

  /** So no two shortcodes of a page share a placeholder, and each placeholder is a token the rewriter finds whole. */
  lemma PlaceholdersOfPage(templates: Templates, pid: nat, items: seq<Item>)
    requires Pages.MapItems(templates, pid, items).Mapped?
    ensures var codes := Pages.Codes(Pages.MapItems(templates, pid, items).content);
            && (forall i, j :: 0 <= i < |codes| && 0 <= j < |codes| ==>
                  (codes[i].placeholder == codes[j].placeholder <==> i == j))
            && Tokens(codes)
  {
    if items != [] {
      TopLevelNumbering(templates, pid, items, -1, 0);
      NumbersMakeTokens(Pages.Codes(Pages.MapItems(templates, pid, items).content), pid);
    }
  }

  lemma NumbersMakeTokens(codes: seq<Shortcode>, pid: nat)
    requires NumberedFrom(codes, pid, 0)
    ensures Tokens(codes)
    ensures forall i, j :: 0 <= i < |codes| && 0 <= j < |codes| ==>
              (codes[i].placeholder == codes[j].placeholder <==> i == j)
  {
    forall i, j | 0 <= i < |codes| && 0 <= j < |codes|
      ensures codes[i].placeholder == codes[j].placeholder <==> i == j
    {
      PlaceholdersAreDistinct("s", pid, i, "s", pid, j);
    }
    forall i | 0 <= i < |codes| ensures Ex.ValidKey(codes[i].placeholder) && codes[i].placeholder != Pages.TOC {
      PlaceholderIsToken("s", pid, i);
      PlaceholdersAreDistinct("s", pid, i, "TOC", 0, 0);
    }
  }

  // ---------------------------------------------------------------------------------------------
  // Rendering

  /** The rendered content of an HTML page: the lowered text is copied, then its tokens are expanded. */
  function RenderPage(content: seq<Pages.ContentItem>, rendered: map<string, Pages.Rendering>, toc: string,
                      tails: nat -> string, rounds: nat): Ex.Expansion
  {
    match Pages.Lower(content, rendered)
    case Lowered(bytes, _) => Ex.Expand(bytes, 0, Pages.TokenHandler(toc, rendered), tails, 0, rounds)
    case LowerFailed => Ex.HandlerFailed
    case LowerPanicked => Ex.Panicked
  }

  /** Every top-level shortcode has been rendered. */
  ghost predicate AllRendered(codes: seq<Shortcode>, rendered: map<string, Pages.Rendering>)
  {
    forall sc :: sc in codes ==> sc.placeholder in rendered && rendered[sc.placeholder].Rendered?
  }

  /** The placeholders are tokens that the rewriter finds whole, and none of them stands for the table of contents. */
  ghost predicate Tokens(codes: seq<Shortcode>)
  {
    forall sc :: sc in codes ==> Ex.ValidKey(sc.placeholder) && sc.placeholder != Pages.TOC
  }

  /** An item's own text, or the rendering of its shortcode. */
  function ItemText(item: Pages.ContentItem, rendered: map<string, Pages.Rendering>): string
  {
    match item
    case Bytes(val) => val
    case Replacement(val) => val
    case Code(sc) =>
      if sc.placeholder in rendered && rendered[sc.placeholder].Rendered? then rendered[sc.placeholder].bytes else ""
  }

  /** The intended result: the texts of the items in source order. */
  function InSourceOrder(content: seq<Pages.ContentItem>, rendered: map<string, Pages.Rendering>): string
  {
    if content == [] then "" else ItemText(content[0], rendered) + InSourceOrder(content[1..], rendered)
  }

  function LoweredText(content: seq<Pages.ContentItem>, rendered: map<string, Pages.Rendering>): string
  {
    match Pages.Lower(content, rendered) case Lowered(bytes, _) => bytes case _ => ""
  }

  /** A shortcode that is expanded late may directly follow `<p>`, but not with `</p>` or the end of the page right behind it. */
  predicate OutsideParagraphs(out: string, content: seq<Pages.ContentItem>, rendered: map<string, Pages.Rendering>)
    decreases content
  {
    content == [] ||
    (&& (content[0].Code? && content[0].sc.InsertPlaceholder() && EndsWith(out, Ex.P_START) ==>
           var behind := LoweredText(content[1..], rendered); |behind| >= 4 && !HasPrefix(behind, Ex.P_END))
     && OutsideParagraphs(out + ItemText(content[0], rendered), content[1..], rendered))
  }

  function ValuesOf(toc: string, rendered: map<string, Pages.Rendering>): Ex.Values
  {
    token =>
      if token == Pages.TOC then Some([Ex.Lit(toc)])
      else if token in rendered && rendered[token].Rendered? then Some([Ex.Lit(rendered[token].bytes)])
      else None
  }

  function TreeOf(item: Pages.ContentItem, rendered: map<string, Pages.Rendering>): Tree
  {
    if item.Code? && item.sc.InsertPlaceholder()
    then Node(item.sc.placeholder, [Leaf(ItemText(item, rendered))])
    else Leaf(ItemText(item, rendered))
  }

  function Trees(content: seq<Pages.ContentItem>, rendered: map<string, Pages.Rendering>): seq<Tree>
  {
    if content == [] then [] else [TreeOf(content[0], rendered)] + Trees(content[1..], rendered)
  }

  lemma TreeFacts(item: Pages.ContentItem, rendered: map<string, Pages.Rendering>, toc: string)
    requires item.Code? ==> AllRendered([item.sc], rendered) && Tokens([item.sc])
    ensures var t := TreeOf(item, rendered);
            && TextOf(t) == ItemText(item, rendered) && NodesOf(t) <= 1
            && UnfoldsOne(t, ValuesOf(toc, rendered))
            && (t.Node? ==> Ex.ValidKey(t.key) && Nodes(t.kids) == 0)
            && Pages.LowerItem(item, rendered).Lowered?
            && Pages.LowerItem(item, rendered).bytes == if t.Node? then t.key else t.text
  {
    if item.Code? {
      assert item.sc in [item.sc];
    }
    var text := ItemText(item, rendered);
    var kids := [Leaf(text)];
    assert kids[1..] == [];
    assert FullText(kids) == text + FullText([]) == text;
    assert Nodes(kids) == NodesOf(Leaf(text)) + Nodes([]) == 0;
    assert Roots(kids) == [Ex.Lit(text)];
  }

  /** A tree in front of trees that stay outside paragraphs. */
  lemma UnwrappedAhead(out: string, text: string, key: string, isNode: bool, ts: seq<Tree>)
    requires Unwrapped(out + text, ts)
    requires isNode && EndsWith(out, Ex.P_START) ==> !Ex.WrapsToken(out, Roots(ts)) && !Ex.ReadsPastEnd(out, Roots(ts))
    ensures Unwrapped(out, [if isNode then Node(key, [Leaf(text)]) else Leaf(text)] + ts)
  {
    var leaf := [Leaf(text)] + ts;
    assert leaf[1..] == ts && Onward(out, leaf) == (out + text, ts);
    assert Unwrapped(out, leaf);
    if isNode {
      var node := [Node(key, [Leaf(text)])] + ts;
      assert node[1..] == ts && Onward(out, node) == (out, leaf);
    }
  }

  lemma {:induction false} PageTrees(content: seq<Pages.ContentItem>, rendered: map<string, Pages.Rendering>,
                                     toc: string, out: string)
    requires AllRendered(Pages.Codes(content), rendered) && Tokens(Pages.Codes(content))
    ensures var ts := Trees(content, rendered);
            && FullText(ts) == InSourceOrder(content, rendered) && Nodes(ts) <= |content|
            && Unfolds(ts, ValuesOf(toc, rendered)) && PlainValues(ts)
            && Pages.Lower(content, rendered).Lowered? && Pages.Lower(content, rendered).bytes == Ex.Flat(Roots(ts))
            && (OutsideParagraphs(out, content, rendered) ==> Unwrapped(out, ts))
    decreases content
  {
    if content != [] {
      var item, rest := content[0], content[1..];
      CodesSplit(item, rest, rendered);
      TreeFacts(item, rendered, toc);
      PageTrees(rest, rendered, toc, out + ItemText(item, rendered));
      var t, ts := TreeOf(item, rendered), Trees(rest, rendered);
      TreesAhead(t, ts);
      if OutsideParagraphs(out, content, rendered) {
        UnwrappedAhead(out, ItemText(item, rendered), if t.Node? then t.key else "", t.Node?, ts);
      }
    }
  }

  lemma CodesSplit(item: Pages.ContentItem, rest: seq<Pages.ContentItem>, rendered: map<string, Pages.Rendering>)
    requires var codes := (if item.Code? then [item.sc] else []) + Pages.Codes(rest); AllRendered(codes, rendered) && Tokens(codes)
    ensures item.Code? ==> AllRendered([item.sc], rendered) && Tokens([item.sc])
    ensures AllRendered(Pages.Codes(rest), rendered) && Tokens(Pages.Codes(rest))
  {
  }

  lemma TreesAhead(t: Tree, ts: seq<Tree>)
    ensures ([t] + ts)[1..] == ts
    ensures Ex.Flat(Roots([t] + ts)) == (if t.Node? then t.key else t.text) + Ex.Flat(Roots(ts))
  {
    var ps := Roots([t] + ts);
    assert ps[1..] == Roots(ts);
  }

  /** The rewriter only asks its handler, so handlers that answer alike give the same result. */
  lemma {:induction false} SameHandler(source: string, start: nat, f: Ex.Handler, g: Ex.Handler, tails: nat -> string,
                                       n: nat, fuel: nat)
    requires start <= |source| && forall token :: f(token) == g(token)
    ensures Ex.Expand(source, start, f, tails, n, fuel) == Ex.Expand(source, start, g, tails, n, fuel)
    decreases fuel
  {
    if fuel > 0 {
      var r := Ex.Rewrite(source, start, f, tails(n));
      assert r == Ex.Rewrite(source, start, g, tails(n));
      if r.Next? {
        SameHandler(r.source, r.start, f, g, tails, n + 1, fuel - 1);
      }
    }
  }

  lemma ValuesAreTokens(toc: string, rendered: map<string, Pages.Rendering>)
    ensures Ex.ValidValues(ValuesOf(toc, rendered))
  {
    var values := ValuesOf(toc, rendered);
    forall key | values(key).Some? ensures Ex.ValidKeys(values(key).value) {
    }
  }

  /** Rendering a page expands the pieces of its content, with the rendered shortcodes as the values of their tokens. */
  lemma RenderExpandsPieces(content: seq<Pages.ContentItem>, rendered: map<string, Pages.Rendering>, toc: string,
                            tails: nat -> string, rounds: nat)
    requires AllRendered(Pages.Codes(content), rendered) && Tokens(Pages.Codes(content))
    ensures RenderPage(content, rendered, toc, tails, rounds)
         == Ex.Expand(Ex.Flat(Roots(Trees(content, rendered))), 0, Ex.HandlerOf(ValuesOf(toc, rendered)), tails, 0, rounds)
  {
    var values := ValuesOf(toc, rendered);
    PageTrees(content, rendered, toc, "");
    forall token ensures Pages.TokenHandler(toc, rendered)(token) == Ex.HandlerOf(values)(token) {
      PlainValue(token, toc, rendered);
    }
    SameHandler(Ex.Flat(Roots(Trees(content, rendered))), 0, Pages.TokenHandler(toc, rendered), Ex.HandlerOf(values), tails, 0, rounds);
  }

  /**
    The rewriter refines splicing for a whole page: where splicing meets no stray prefix, lowering and expanding ends as
    splicing the renderings in source order, for every spare capacity.
   */
  lemma RenderingRefinesSplicing(content: seq<Pages.ContentItem>, rendered: map<string, Pages.Rendering>, toc: string,
                                 tails: nat -> string, rounds: nat)
    requires AllRendered(Pages.Codes(content), rendered) && Tokens(Pages.Codes(content))
    requires !Ex.Splice("", Roots(Trees(content, rendered)), ValuesOf(toc, rendered), tails, 0, rounds).Spurious?
    ensures RenderPage(content, rendered, toc, tails, rounds)
         == Announced(Ex.Splice("", Roots(Trees(content, rendered)), ValuesOf(toc, rendered), tails, 0, rounds))
  {
    var ts := Trees(content, rendered);
    RenderExpandsPieces(content, rendered, toc, tails, rounds);
    PageTrees(content, rendered, toc, "");
    PlainKeysAreValid(ts);
    ValuesAreTokens(toc, rendered);
    ExpandRefinesSplice("", Roots(ts), ValuesOf(toc, rendered), tails, 0, rounds);
    assert "" + Ex.Flat(Roots(ts)) == Ex.Flat(Roots(ts));
  }

  /** The last placeholder follows `<p>`, and fewer than four bytes stand behind it. */
  predicate EndsInParagraph(content: seq<Pages.ContentItem>, rendered: map<string, Pages.Rendering>)
  {
    match AtLast("", Trees(content, rendered))
    case None => false
    case Some(last) => EndsWith(last.0, Ex.P_START) && |last.1| < 4
  }

  /**
    Meaning preservation for any page. Lowering its content to text with placeholders and expanding these gives the
    texts and renderings in source order, without the paragraphs that wrap exactly one placeholder; or it panics, when
    the wrap test does for the spare capacity that it meets.
   */
  lemma RenderingOutcome(content: seq<Pages.ContentItem>, rendered: map<string, Pages.Rendering>, toc: string,
                         tails: nat -> string, rounds: nat)
    requires AllRendered(Pages.Codes(content), rendered) && Tokens(Pages.Codes(content))
    requires Quiet("", Trees(content, rendered)) && rounds >= |content|
    ensures RenderPage(content, rendered, toc, tails, rounds)
         == if Panics("", Trees(content, rendered), tails, 0) then Ex.Panicked else Ex.Done(Rendered("", Trees(content, rendered)))
  {
    var ts := Trees(content, rendered);
    PageTrees(content, rendered, toc, "");
    ValuesAreTokens(toc, rendered);
    PlainKeysAreValid(ts);
    RenderExpandsPieces(content, rendered, toc, tails, rounds);
    RewriterOutcome(ts, ValuesOf(toc, rendered), tails, rounds);
  }

  /** So the result is the same for every spare capacity if and only if the page does not end in a paragraph that is cut short. */
  lemma RenderingIsSplicing(content: seq<Pages.ContentItem>, rendered: map<string, Pages.Rendering>, toc: string, rounds: nat)
    requires AllRendered(Pages.Codes(content), rendered) && Tokens(Pages.Codes(content))
    requires Quiet("", Trees(content, rendered)) && rounds >= |content|
    ensures (forall tails :: RenderPage(content, rendered, toc, tails, rounds) == Ex.Done(Rendered("", Trees(content, rendered))))
       <==> !EndsInParagraph(content, rendered)
  {
    var ts := Trees(content, rendered);
    PageTrees(content, rendered, toc, "");
    OnlyLastIsCramped("", ts);
    if Cramped("", ts) {
      PanicsIfCramped("", ts, NoSpare, 0);
      RenderingOutcome(content, rendered, toc, NoSpare, rounds);
    } else {
      forall tails ensures RenderPage(content, rendered, toc, tails, rounds) == Ex.Done(Rendered("", ts)) {
        PanicsIfCramped("", ts, tails, 0);
        RenderingOutcome(content, rendered, toc, tails, rounds);
      }
    }
  }

  /**
    Where no placeholder stands alone in a paragraph or cramped at the end, the result is exactly the texts and
    renderings in source order: each rendering at the place of its shortcode, and the text between them unchanged.
   */
  lemma RenderingInSourceOrder(content: seq<Pages.ContentItem>, rendered: map<string, Pages.Rendering>, toc: string,
                               tails: nat -> string, rounds: nat)
    requires AllRendered(Pages.Codes(content), rendered) && Tokens(Pages.Codes(content))
    requires OutsideParagraphs("", content, rendered) && rounds >= |content|
    requires !Occurs(InSourceOrder(content, rendered), Ex.PREFIX)
    ensures RenderPage(content, rendered, toc, tails, rounds) == Ex.Done(InSourceOrder(content, rendered))
  {
    var ts := Trees(content, rendered);
    RenderExpandsPieces(content, rendered, toc, tails, rounds);
    PageTrees(content, rendered, toc, "");
    PlainKeysAreValid(ts);
    ValuesAreTokens(toc, rendered);
    PlainIsQuiet("", ts);
    UnwrappedMeaning(ts, ValuesOf(toc, rendered), tails, rounds);
  }

  lemma PlainValue(token: string, toc: string, rendered: map<string, Pages.Rendering>)
    ensures Pages.TokenHandler(toc, rendered)(token) == Ex.HandlerOf(ValuesOf(toc, rendered))(token)
  {
    var v := ValuesOf(toc, rendered)(token);
    if v.Some? {
      assert Ex.Flat(v.value) == v.value[0].text + Ex.Flat(v.value[1..]) == v.value[0].text;
    }
  }

  /** From the tokens of a well-formed page to its rendered content. */
  lemma SourcePageRenders(templates: Templates, pid: nat, page: seq<SourcePiece>, eof: Item,
                          rendered: map<string, Pages.Rendering>, toc: string, rounds: nat)
    requires WellFormedPage(templates, page) && eof.typ.TEOF?
    requires var content := MeaningOfPage(templates, pid, page);
             AllRendered(Pages.Codes(content), rendered) && Quiet("", Trees(content, rendered)) && rounds >= |content|
    ensures var m, content := Pages.MapItems(templates, pid, PrintPage(page) + [eof]), MeaningOfPage(templates, pid, page);
            && m.Mapped? && m.content == content
            && ((forall tails :: RenderPage(m.content, rendered, toc, tails, rounds) == Ex.Done(Rendered("", Trees(content, rendered))))
                <==> !EndsInParagraph(content, rendered))
            && (OutsideParagraphs("", content, rendered) ==>
                  Rendered("", Trees(content, rendered)) == InSourceOrder(content, rendered) && !EndsInParagraph(content, rendered))
  {
    var items, content := PrintPage(page) + [eof], MeaningOfPage(templates, pid, page);
    PageRoundTrip(templates, pid, page, eof);
    PlaceholdersOfPage(templates, pid, items);
    RenderingIsSplicing(content, rendered, toc, rounds);
    PageTrees(content, rendered, toc, "");
    if OutsideParagraphs("", content, rendered) {
      UnwrappedText("", Trees(content, rendered));
      OnlyLastIsCramped("", Trees(content, rendered));
      assert "" + InSourceOrder(content, rendered) == InSourceOrder(content, rendered);
    }
  }

  /** The texts of a page and the renderings of its shortcodes hold no placeholder prefix and end in no part of one. */
  ghost predicate CleanTexts(content: seq<Pages.ContentItem>, rendered: map<string, Pages.Rendering>)
  {
    forall i :: 0 <= i < |content| ==> Clean(ItemText(content[i], rendered))
  }

  lemma {:induction false} CleanPageTrees(content: seq<Pages.ContentItem>, rendered: map<string, Pages.Rendering>)
    requires CleanTexts(content, rendered)
    ensures CleanTrees(Trees(content, rendered))
    decreases content
  {
    if content != [] {
      CleanPageTrees(content[1..], rendered);
      var t := TreeOf(content[0], rendered);
      assert t.Node? ==> t.kids[1..] == [] && CleanTree(t.kids[0]) && CleanTrees(t.kids);
      assert CleanTree(t);
      assert ([t] + Trees(content[1..], rendered))[1..] == Trees(content[1..], rendered);
    }
  }

  /**
    From the tokens of a well-formed page of clean texts to its rendered content: for every spare capacity it is the
    finished page, in which no placeholder prefix is left, unless the page ends in a paragraph that is cut short.
   */
  lemma CleanPageRenders(templates: Templates, pid: nat, page: seq<SourcePiece>, eof: Item,
                         rendered: map<string, Pages.Rendering>, toc: string, rounds: nat)
    requires WellFormedPage(templates, page) && eof.typ.TEOF?
    requires var content := MeaningOfPage(templates, pid, page);
             AllRendered(Pages.Codes(content), rendered) && CleanTexts(content, rendered) && rounds >= |content|
    ensures var m, content := Pages.MapItems(templates, pid, PrintPage(page) + [eof]), MeaningOfPage(templates, pid, page);
            && m.Mapped? && m.content == content && m.names == NamesOfPage(page)
            && !Occurs(Rendered("", Trees(content, rendered)), Ex.PREFIX)
            && ((forall tails :: RenderPage(m.content, rendered, toc, tails, rounds) == Ex.Done(Rendered("", Trees(content, rendered))))
                <==> !EndsInParagraph(content, rendered))
  {
    var content := MeaningOfPage(templates, pid, page);
    CleanPageTrees(content, rendered);
    CleanEmpty();
    CleanWalk("", Trees(content, rendered));
    PageRoundTrip(templates, pid, page, eof);
    SourcePageRenders(templates, pid, page, eof, rendered, toc, rounds);
  }

  // ---------------------------------------------------------------------------------------------
  // Renderings that hold placeholders themselves

  /** The renderings cut into text and tokens: of other shortcodes, and of the table of contents. */
  type Parts = map<string, seq<Ex.Piece>>

  ghost predicate CutsUp(rendered: map<string, Pages.Rendering>, toc: string, parts: Parts, tocParts: seq<Ex.Piece>)
  {
    && Ex.Flat(tocParts) == toc && Ex.ValidKeys(tocParts)
    && (forall key :: key in rendered && rendered[key].Rendered? ==>
          key in parts && Ex.Flat(parts[key]) == rendered[key].bytes && Ex.ValidKeys(parts[key]))
  }

  function NestedValues(rendered: map<string, Pages.Rendering>, parts: Parts, tocParts: seq<Ex.Piece>): Ex.Values
  {
    token =>
      if token == Pages.TOC then Some(tocParts)
      else if token in rendered && rendered[token].Rendered? && token in parts then Some(parts[token])
      else None
  }

  function ItemPieces(item: Pages.ContentItem, parts: Parts): seq<Ex.Piece>
  {
    match item
    case Bytes(val) => [Ex.Lit(val)]
    case Replacement(val) => [Ex.Lit(val)]
    case Code(sc) =>
      if sc.InsertPlaceholder() then [Ex.Tok(sc.placeholder)]
      else if sc.placeholder in parts then parts[sc.placeholder]
      else []
  }

  function ContentPieces(content: seq<Pages.ContentItem>, parts: Parts): seq<Ex.Piece>
  {
    if content == [] then [] else ItemPieces(content[0], parts) + ContentPieces(content[1..], parts)
  }

  lemma ItemIsPieces(item: Pages.ContentItem, rendered: map<string, Pages.Rendering>, toc: string, parts: Parts, tocParts: seq<Ex.Piece>)
    requires CutsUp(rendered, toc, parts, tocParts) && (item.Code? ==> AllRendered([item.sc], rendered) && Tokens([item.sc]))
    ensures Pages.LowerItem(item, rendered).Lowered? && Ex.ValidKeys(ItemPieces(item, parts))
    ensures Pages.LowerItem(item, rendered).bytes == Ex.Flat(ItemPieces(item, parts))
  {
    if item.Code? {
      assert item.sc in [item.sc];
    }
    if !item.Code? || item.sc.InsertPlaceholder() {
      var ps := ItemPieces(item, parts);
      assert ps[1..] == [] && Ex.Flat(ps) == Ex.Source(ps[0]) + Ex.Flat([]);
    }
  }

  lemma {:induction false} ContentIsPieces(content: seq<Pages.ContentItem>, rendered: map<string, Pages.Rendering>, toc: string,
                                           parts: Parts, tocParts: seq<Ex.Piece>)
    requires CutsUp(rendered, toc, parts, tocParts)
    requires AllRendered(Pages.Codes(content), rendered) && Tokens(Pages.Codes(content))
    ensures Pages.Lower(content, rendered).Lowered? && Ex.ValidKeys(ContentPieces(content, parts))
    ensures Pages.Lower(content, rendered).bytes == Ex.Flat(ContentPieces(content, parts))
    decreases content
  {
    if content != [] {
      CodesSplit(content[0], content[1..], rendered);
      ItemIsPieces(content[0], rendered, toc, parts, tocParts);
      ContentIsPieces(content[1..], rendered, toc, parts, tocParts);
      FlatAppend(ItemPieces(content[0], parts), ContentPieces(content[1..], parts));
    }
  }

  /**
    The same for renderings that hold placeholders, of shortcodes or of the table of contents, as long as these unfold
    into a finite tree: the page becomes its text with every placeholder fully replaced, or the wrap test panics.
   */
  lemma NestedRenderingOutcome(content: seq<Pages.ContentItem>, rendered: map<string, Pages.Rendering>, toc: string,
                               parts: Parts, tocParts: seq<Ex.Piece>, ts: seq<Tree>, tails: nat -> string, rounds: nat)
    requires AllRendered(Pages.Codes(content), rendered) && Tokens(Pages.Codes(content))
    requires CutsUp(rendered, toc, parts, tocParts)
    requires Roots(ts) == ContentPieces(content, parts) && Unfolds(ts, NestedValues(rendered, parts, tocParts))
    requires Quiet("", ts) && rounds >= Nodes(ts)
    ensures RenderPage(content, rendered, toc, tails, rounds)
         == if Panics("", ts, tails, 0) then Ex.Panicked else Ex.Done(Rendered("", ts))
  {
    var values := NestedValues(rendered, parts, tocParts);
    ContentIsPieces(content, rendered, toc, parts, tocParts);
    forall token ensures Pages.TokenHandler(toc, rendered)(token) == Ex.HandlerOf(values)(token) {
    }
    SameHandler(Ex.Flat(Roots(ts)), 0, Pages.TokenHandler(toc, rendered), Ex.HandlerOf(values), tails, 0, rounds);
    RewriterOutcome(ts, values, tails, rounds);
  }
}
