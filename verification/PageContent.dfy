/** From page tokens to rendered content: hugolib/page__content.go. */
module PageContent {
  import opened Common
  import opened PageTokens
  import opened ShortcodeParser
  import opened ShortcodeExpansion
  import opened Placeholders

  const SUMMARY_DIVIDER := "\n\nHUGOMORE42\n\n"

  datatype ContentItem = Bytes(val: string) | Replacement(val: string) | Code(sc: Shortcode)

  datatype PageError = ShortcodeError(error: ExtractError) | TokenError | ShortcodePanic

  datatype Mapping = Mapped(content: seq<ContentItem>, names: set<string>) | Rejected(error: PageError)

  /** A top-level shortcode is numbered within the page, and its number names its placeholder. */
  function Registered(sc: Shortcode, pid: nat, ordinal: nat): Shortcode
  {
    sc.(params := if sc.params.NoParams? then Positional([]) else sc.params,
        placeholder := CreateShortcodePlaceholder("s", pid, ordinal))
  }

  predicate IsPlain(item: Item)
  {
    !item.typ.TIgnore? && !item.typ.TFrontMatter? && !item.typ.TLeadSummaryDivider?
    && !item.IsLeftShortcodeDelim() && !item.IsDone()
  }

  /** What the mapping does with the next token or shortcode. */
  datatype Stride = End | Reject(error: PageError) | Emit(content: seq<ContentItem>, pos: int, ordinal: nat, names: set<string>)

  function MapOne(templates: Templates, pid: nat, items: seq<Item>, pos: int, ordinal: nat): (r: Stride)
    requires -1 <= pos
    ensures r.Emit? ==> pos < r.pos && pos + 1 < |items|
    ensures r.Emit? ==> if r.content != [] && r.content[0].Code? then r.ordinal == ordinal + 1 else r.ordinal == ordinal
    ensures r.Emit? ==> |r.content| <= 1
  {
    var p := pos + 1;
    var it := ItemAt(items, p);
    if it.typ.TError? then Reject(TokenError)
    else if it.typ.TEOF? then End
    else if it.typ.TIgnore? || it.typ.TFrontMatter? then Emit([], p, ordinal, {})
    else if it.typ.TLeadSummaryDivider? then Emit([Replacement(SUMMARY_DIVIDER)], p, ordinal, {})
    else if it.IsLeftShortcodeDelim() then
      var o := Extract(templates, items, pos, ordinal);
      match o.res
      case Extracted(sc) => Emit([Code(Registered(sc, pid, ordinal))], o.pos, ordinal + 1, o.names + NamesOf(o.res))
      case Failed(err, _) => Reject(ShortcodeError(err))
      case Panicked => Reject(ShortcodePanic)
    else Emit([Bytes(it.val)], p, ordinal, {})
  }

  /** The content items of the page from the cursor on. */
  function MapFrom(templates: Templates, pid: nat, items: seq<Item>, pos: int, ordinal: nat): Mapping
    requires -1 <= pos
    decreases |items| - pos
  {
    match MapOne(templates, pid, items, pos, ordinal)
    case End => Mapped([], {})
    case Reject(error) => Rejected(error)
    case Emit(content, p, next, names) => Resumed(content, names, MapFrom(templates, pid, items, p, next))
  }

  /** The mapping of the whole, from the content and names of a part and the mapping of the rest. */
  function Resumed(content: seq<ContentItem>, names: set<string>, rest: Mapping): Mapping
  {
    match rest case Mapped(more, others) => Mapped(content + more, names + others) case Rejected(_) => rest
  }

  function MapItems(templates: Templates, pid: nat, items: seq<Item>): Mapping
  {
    if items == [] then Mapped([], {}) else MapFrom(templates, pid, items, -1, 0)
  }

  function Codes(content: seq<ContentItem>): seq<Shortcode>
  {
    if content == [] then []
    else (if content[0].Code? then [content[0].sc] else []) + Codes(content[1..])
  }

  lemma CodesAppend(a: seq<ContentItem>, x: ContentItem)
    ensures Codes(a + [x]) == Codes(a) + if x.Code? then [x.sc] else []
  {
    if a == [] {
      assert a + [x] == [x];
      assert [x][1..] == [];
    } else {
      assert (a + [x])[1..] == a[1..] + [x];
      CodesAppend(a[1..], x);
    }
  }

  /** A page's parsed content. */
  class ContentParseInfo {
    const pid: nat
    const itemsStep1: seq<Item>
    var itemsStep2: seq<ContentItem>
    var hasSummaryDivider: bool
    var hasNonMarkdownShortcode: bool

    constructor (pid: nat, items: seq<Item>)
      ensures this.pid == pid && itemsStep1 == items && itemsStep2 == []
      ensures !hasSummaryDivider && !hasNonMarkdownShortcode
    {
      this.pid, itemsStep1 := pid, items;
      itemsStep2, hasSummaryDivider, hasNonMarkdownShortcode := [], false, false;
    }

    method AddBytes(item: Item)
      modifies this`itemsStep2
      ensures itemsStep2 == old(itemsStep2) + [Bytes(item.val)]
    {
      itemsStep2 := itemsStep2 + [Bytes(item.val)];
    }

    method AddReplacement(val: string)
      modifies this`itemsStep2
      ensures itemsStep2 == old(itemsStep2) + [Replacement(val)]
    {
      itemsStep2 := itemsStep2 + [Replacement(val)];
    }

    method AddShortcode(s: Shortcode)
      modifies this`itemsStep2, this`hasNonMarkdownShortcode
      ensures itemsStep2 == old(itemsStep2) + [Code(s)]
      ensures hasNonMarkdownShortcode == (old(hasNonMarkdownShortcode) || s.InsertPlaceholder())
    {
      itemsStep2 := itemsStep2 + [Code(s)];
      if s.InsertPlaceholder() {
        hasNonMarkdownShortcode := true;
      }
    }

    /** Parses, numbers and registers the shortcode in front of the cursor. */
    method MapShortcode(s: ShortcodeHandler, iter: Iterator, ordinal: nat) returns (error: Option<PageError>)
      requires iter.Valid()
      modifies this`itemsStep2, this`hasNonMarkdownShortcode, s, iter
      ensures iter.Valid()
      ensures var o := Extract(s.templates, iter.items, old(iter.lastPos), ordinal);
              match o.res
              case Failed(err, _) => error == Some(ShortcodeError(err))
              case Panicked => error == Some(ShortcodePanic)
              case Extracted(extracted) =>
                var sc := Registered(extracted, pid, ordinal);
                && error == None && iter.lastPos == o.pos
                && itemsStep2 == old(itemsStep2) + [Code(sc)] && s.shortcodes == old(s.shortcodes) + [sc]
                && s.nameSet == old(s.nameSet) + (o.names + NamesOf(o.res))
                && hasNonMarkdownShortcode == (old(hasNonMarkdownShortcode) || sc.InsertPlaceholder())
    {
      var res := s.ExtractShortcode(ordinal, 0, iter);
      if res.Failed? { return Some(ShortcodeError(res.error)); }
      if res.Panicked? { return Some(ShortcodePanic); }
      var currShortcode := res.sc;
      if currShortcode.name != "" {
        s.AddName(currShortcode.name);
      }
      if currShortcode.params.NoParams? {
        currShortcode := currShortcode.(params := Positional([]));
      }
      currShortcode := currShortcode.(placeholder := CreateShortcodePlaceholder("s", pid, ordinal));
      s.shortcodes := s.shortcodes + [currShortcode];
      AddShortcode(currShortcode);
      return None;
    }

    /** One round of the loop: an item is added to the content, or the mapping ends. */
    method MapItem(s: ShortcodeHandler, iter: Iterator, ordinal: nat) returns (r: Taken)
      requires iter.Valid()
      modifies this, s, iter
      ensures iter.Valid()
      ensures var one := MapOne(s.templates, pid, iter.items, old(iter.lastPos), ordinal);
              && (one.Reject? ==> r == Refused(one.error))
              && (one.End? ==>
                    && r == Ended && itemsStep2 == old(itemsStep2) && s.nameSet == old(s.nameSet)
                    && s.shortcodes == old(s.shortcodes) && hasNonMarkdownShortcode == old(hasNonMarkdownShortcode))
              && (one.Emit? ==>
                    && r == Added(one.ordinal) && iter.lastPos == one.pos
                    && itemsStep2 == old(itemsStep2) + one.content && s.nameSet == old(s.nameSet) + one.names
                    && s.shortcodes == old(s.shortcodes) + Codes(one.content)
                    && hasNonMarkdownShortcode == (old(hasNonMarkdownShortcode) || NeedsExpansion(Codes(one.content)))
                    && hasSummaryDivider == (old(hasSummaryDivider) || HasDivider(one.content)))
              && (one.End? ==> hasSummaryDivider == old(hasSummaryDivider))
    {
      var it := iter.Next();
      if it.typ.TIgnore? {
      } else if it.typ.TFrontMatter? {
      } else if it.typ.TLeadSummaryDivider? {
        hasSummaryDivider := true;
        AddReplacement(SUMMARY_DIVIDER);
      } else if it.IsLeftShortcodeDelim() {
        iter.Backup();
        var failure := MapShortcode(s, iter, ordinal);
        if failure.Some? { return Refused(failure.value); }
        OneCode(s.shortcodes[|s.shortcodes| - 1]);
        return Added(ordinal + 1);
      } else if it.typ.TEOF? {
        return Ended;
      } else if it.typ.TError? {
        return Refused(TokenError);
      } else {
        AddBytes(it);
      }
      return Added(ordinal);
    }

    /** Maps the tokens to content items; shortcodes are parsed, numbered and registered with the handler. */
    method MapItemsAfterFrontMatter(s: ShortcodeHandler) returns (error: Option<PageError>)
      requires itemsStep2 == [] && !hasNonMarkdownShortcode && !hasSummaryDivider && s.shortcodes == []
      modifies this, s
      ensures match MapItems(s.templates, pid, itemsStep1)
              case Rejected(e) => error == Some(e)
              case Mapped(content, names) =>
                && error == None && itemsStep2 == content && s.nameSet == old(s.nameSet) + names
                && s.shortcodes == Codes(content)
                && hasNonMarkdownShortcode == NeedsExpansion(Codes(content))
                && hasSummaryDivider == HasDivider(content)
    {
      if |itemsStep1| == 0 {
        return None;
      }
      var iter := new Iterator(itemsStep1);
      var ordinal := 0;
      ghost var goal := MapItems(s.templates, pid, itemsStep1);
      ghost var added: set<string> := {};
      while true
        invariant iter.Valid() && iter.items == itemsStep1 && fresh(iter)
        invariant s.nameSet == old(s.nameSet) + added && s.shortcodes == Codes(itemsStep2)
        invariant hasNonMarkdownShortcode == NeedsExpansion(s.shortcodes) && hasSummaryDivider == HasDivider(itemsStep2)
        invariant goal == Resumed(itemsStep2, added, MapFrom(s.templates, pid, itemsStep1, iter.lastPos, ordinal))
        decreases |itemsStep1| - iter.lastPos
      {
        ghost var stride := MapOne(s.templates, pid, itemsStep1, iter.lastPos, ordinal);
        MapFromOne(s.templates, pid, itemsStep1, iter.lastPos, ordinal, itemsStep2, added, stride, goal);
        var taken := MapItem(s, iter, ordinal);
        match taken {
          case Refused(e) => return Some(e);
          case Ended => return None;
          case Added(next) =>
            ordinal := next;
            added := added + stride.names;
        }
      }
    }
  }

  /** What one round of the mapping loop reports. */
  datatype Taken = Added(ordinal: nat) | Ended | Refused(error: PageError)

  lemma OneCode(sc: Shortcode)
    ensures Codes([Code(sc)]) == [sc]
  {
    assert [Code(sc)][1..] == [];
  }

  lemma MapFromOne(templates: Templates, pid: nat, items: seq<Item>, pos: int, ordinal: nat,
                   content: seq<ContentItem>, names: set<string>, stride: Stride, goal: Mapping)
    requires -1 <= pos && stride == MapOne(templates, pid, items, pos, ordinal)
    requires goal == Resumed(content, names, MapFrom(templates, pid, items, pos, ordinal))
    ensures stride.Reject? ==> goal == Rejected(stride.error)
    ensures stride.End? ==> goal == Mapped(content, names)
    ensures stride.Emit? ==>
      && goal == Resumed(content + stride.content, names + stride.names, MapFrom(templates, pid, items, stride.pos, stride.ordinal))
      && Codes(content + stride.content) == Codes(content) + Codes(stride.content)
      && NeedsExpansion(Codes(content + stride.content)) == (NeedsExpansion(Codes(content)) || NeedsExpansion(Codes(stride.content)))
  {
    if stride.End? {
      assert content + [] == content && names + {} == names;
    } else if stride.Emit? {
      var more := stride.content;
      ResumedTwice(content, names, more, stride.names, MapFrom(templates, pid, items, stride.pos, stride.ordinal));
      if more != [] {
        assert more == [more[0]];
        CodesAppend(content, more[0]);
        CodesAppend([], more[0]);
        assert [] + more == more;
      } else {
        assert content + more == content;
      }
      NeedsEither(Codes(content), Codes(more));
    }
  }

  lemma NeedsEither(a: seq<Shortcode>, b: seq<Shortcode>)
    ensures NeedsExpansion(a + b) == (NeedsExpansion(a) || NeedsExpansion(b))
  {
    if NeedsExpansion(a) || NeedsExpansion(b) {
      var sc :| (sc in a || sc in b) && sc.InsertPlaceholder();
      assert sc in a + b;
    }
  }

  /** The content holds the mark of a manual summary. */
  predicate HasDivider(content: seq<ContentItem>)
  {
    Replacement(SUMMARY_DIVIDER) in content
  }

  predicate NeedsExpansion(codes: seq<Shortcode>)
  {
    exists sc :: sc in codes && sc.InsertPlaceholder()
  }

  lemma ResumedTwice(a: seq<ContentItem>, n: set<string>, b: seq<ContentItem>, m: set<string>, rest: Mapping)
    ensures Resumed(a, n, Resumed(b, m, rest)) == Resumed(a + b, n + m, rest)
  {
    if rest.Mapped? {
      assert a + (b + rest.content) == a + b + rest.content;
      assert n + (m + rest.names) == n + m + rest.names;
    }
  }

  // ---------------------------------------------------------------------------------------------
  // Lowering to text for the markup renderer

  datatype Rendering = Rendered(bytes: string, hasVariants: bool) | RenderError
  datatype Lowering = Lowered(bytes: string, hasVariants: bool) | LowerFailed | LowerPanicked

  function LowerItem(item: ContentItem, rendered: map<string, Rendering>): Lowering
  {
    match item
    case Bytes(val) => Lowered(val, false)
    case Replacement(val) => Lowered(val, false)
    case Code(sc) =>
      if sc.InsertPlaceholder() then Lowered(sc.placeholder, false)
      else if sc.placeholder !in rendered then LowerPanicked
      else match rendered[sc.placeholder]
        case RenderError => LowerFailed
        case Rendered(bytes, more) => Lowered(bytes, more)
  }

  function Join(first: Lowering, rest: Lowering): Lowering
  {
    if !first.Lowered? then first
    else if !rest.Lowered? then rest
    else Lowered(first.bytes + rest.bytes, first.hasVariants || rest.hasVariants)
  }

  function Lower(content: seq<ContentItem>, rendered: map<string, Rendering>): Lowering
  {
    if content == [] then Lowered("", false)
    else Join(LowerItem(content[0], rendered), Lower(content[1..], rendered))
  }

  /** A shortcode that goes into the text as it is rendered. */
  predicate GoesInline(item: ContentItem)
  {
    item.Code? && !item.sc.InsertPlaceholder()
  }

  predicate NotRendered(item: ContentItem, rendered: map<string, Rendering>)
  {
    GoesInline(item) && item.sc.placeholder !in rendered
  }

  predicate FailsToRender(item: ContentItem, rendered: map<string, Rendering>)
  {
    GoesInline(item) && item.sc.placeholder in rendered && rendered[item.sc.placeholder].RenderError?
  }

  predicate HasVariants(item: ContentItem, rendered: map<string, Rendering>)
  {
    && GoesInline(item) && item.sc.placeholder in rendered && rendered[item.sc.placeholder].Rendered?
    && rendered[item.sc.placeholder].hasVariants
  }

  /** The `i`-th item is the first that stops the lowering. */
  ghost predicate StopsAt(content: seq<ContentItem>, rendered: map<string, Rendering>, i: nat)
  {
    && i < |content| && (NotRendered(content[i], rendered) || FailsToRender(content[i], rendered))
    && forall j :: 0 <= j < i ==> !NotRendered(content[j], rendered) && !FailsToRender(content[j], rendered)
  }

  /**
    When the lowering stops: at the first shortcode to go into the text that has no rendering, where it panics, or
    whose rendering failed, where it fails. Otherwise it has variants if and only if one of those renderings has.
   */
  lemma {:induction false} LowerStops(content: seq<ContentItem>, rendered: map<string, Rendering>)
    ensures Lower(content, rendered).LowerPanicked?
       <==> exists i: nat :: StopsAt(content, rendered, i) && NotRendered(content[i], rendered)
    ensures Lower(content, rendered).LowerFailed?
       <==> exists i: nat :: StopsAt(content, rendered, i) && FailsToRender(content[i], rendered)
    ensures Lower(content, rendered).Lowered? ==>
      (Lower(content, rendered).hasVariants <==> exists i: nat :: i < |content| && HasVariants(content[i], rendered))
  {
    if content != [] {
      var item, rest := content[0], content[1..];
      LowerStops(rest, rendered);
      if NotRendered(item, rendered) || FailsToRender(item, rendered) {
        assert StopsAt(content, rendered, 0);
        assert forall i: nat :: StopsAt(content, rendered, i) ==> i == 0;
      } else {
        forall i: nat ensures StopsAt(content, rendered, i + 1) <==> StopsAt(rest, rendered, i) {
          LaterStop(content, rendered, i);
        }
        forall i: nat | StopsAt(content, rendered, i) ensures i > 0 && StopsAt(rest, rendered, i - 1) {
          assert i - 1 + 1 == i;
        }
        if i: nat :| i < |rest| && HasVariants(rest[i], rendered) {
          assert HasVariants(content[i + 1], rendered);
        }
      }
    }
  }

  lemma LaterStop(content: seq<ContentItem>, rendered: map<string, Rendering>, i: nat)
    requires content != [] && !NotRendered(content[0], rendered) && !FailsToRender(content[0], rendered)
    ensures StopsAt(content, rendered, i + 1) <==> StopsAt(content[1..], rendered, i)
  {
    var rest := content[1..];
    assert forall j :: 0 <= j < |rest| ==> rest[j] == content[j + 1];
    if StopsAt(rest, rendered, i) {
      forall j | 0 <= j < i + 1 ensures !NotRendered(content[j], rendered) && !FailsToRender(content[j], rendered) {
        assert j == 0 || content[j] == rest[j - 1];
      }
    }
  }

  lemma JoinThree(a: Lowering, b: Lowering, c: Lowering)
    ensures Join(a, Join(b, c)) == Join(Join(a, b), c)
  {
    if a.Lowered? && b.Lowered? && c.Lowered? {
      assert a.bytes + (b.bytes + c.bytes) == a.bytes + b.bytes + c.bytes;
    }
  }

  /** The text handed to the markup renderer: rendered shortcodes or their placeholders, between the other items. */
  method ContentToRender(content: seq<ContentItem>, rendered: map<string, Rendering>) returns (r: Lowering)
    ensures r == Lower(content, rendered)
  {
    var c, hasVariants := "", false;
    ghost var goal := Lower(content, rendered);
    for i := 0 to |content|
      invariant goal == Join(Lowered(c, hasVariants), Lower(content[i..], rendered))
    {
      var it := content[i];
      assert content[i..] == [it] + content[i + 1..];
      JoinThree(Lowered(c, hasVariants), LowerItem(it, rendered), Lower(content[i + 1..], rendered));
      if it.Code? && !it.sc.InsertPlaceholder() {
        if it.sc.placeholder !in rendered { return LowerPanicked; }
        var rendering := rendered[it.sc.placeholder];
        if rendering.RenderError? { return LowerFailed; }
        hasVariants := hasVariants || rendering.hasVariants;
        c := c + rendering.bytes;
      } else {
        c := c + if it.Code? then it.sc.placeholder else it.val;
      }
    }
    return Lowered(c, hasVariants);
  }

  /** The placeholder of the table of contents. */
  const TOC := CreateShortcodePlaceholder("TOC", 0, 0)

  /** The token handler of the page: an unknown token is a Go panic, here a failing handler like a rendering error. */
  function TokenHandler(toc: string, rendered: map<string, Rendering>): Handler
  {
    token =>
      if token == TOC then Content(toc)
      else if token in rendered && rendered[token].Rendered? then Content(rendered[token].bytes)
      else HandlerError
  }
}
