/** The recursive shortcode parser: `extractShortcode` of hugolib/shortcode.go. */
module ShortcodeParser {
  import opened Common
  import opened PageTokens

  /** What the parser needs to know about a shortcode template. */
  datatype Info = Info(isInner: bool, version: int)

  datatype Params = NoParams | Positional(vals: seq<Value>) | Named(named: map<string, Value>)

  datatype Inner = InnerText(text: string) | InnerShortcode(sc: Shortcode)

  datatype Shortcode = Shortcode(
    name: string, isInline: bool, isClosing: bool, inner: seq<Inner>, params: Params,
    ordinal: nat, indentation: string, doMarkup: bool, info: Option<Info>, placeholder: string)
  {
    predicate NeedsInner() { info.Some? && info.value.isInner }

    function ConfigVersion(): int { if info.None? then 2 else info.value.version }

    predicate InsertPlaceholder() { !doMarkup || ConfigVersion() == 1 }
  }

  type Templates = map<string, Info>

  datatype ExtractError = NoName | NotInner | TemplateNotFound | InvalidParams | NotClosed

  /** `Panicked` is a Go run-time panic: a nil template or a peek past the last item. */
  datatype Extraction =
    | Extracted(sc: Shortcode)
    | Failed(error: ExtractError, partial: Option<Shortcode>)
    | Panicked

  /** The result, the cursor and the names registered with the handler along the way. */
  datatype Outcome = Outcome(res: Extraction, pos: int, names: set<string>)

  /** The local variables of the parsing loop. */
  datatype LoopState = LoopState(sc: Shortcode, cnt: nat, nestedOrdinal: nat, closed: bool)

  function NewShortcode(ordinal: nat, indentation: string): Shortcode
  {
    Shortcode("", false, false, [], NoParams, ordinal, indentation, false, None, "")
  }

  function IndentationAt(items: seq<Item>, pos: int): string
    requires -1 <= pos
  {
    if pos > 0 && ItemAt(items, pos).typ.TIndentation? then ItemAt(items, pos).val else ""
  }

  function NamesOf(r: Extraction): set<string>
  {
    match r
    case Extracted(sc) => if sc.name != "" then {sc.name} else {}
    case Failed(_, Some(sc)) => if sc.name != "" then {sc.name} else {}
    case _ => {}
  }

  /** Parsing one shortcode with the cursor standing just before it. */
  function Extract(templates: Templates, items: seq<Item>, pos: int, ordinal: nat): (o: Outcome)
    requires -1 <= pos
    ensures o.res.Extracted? ==> pos <= o.pos
    ensures o.res.Extracted? && pos + 1 < |items| && !items[pos + 1].IsDone() ==> pos < o.pos
    decreases |items| - pos, 1
  {
    var sc := NewShortcode(ordinal, IndentationAt(items, pos));
    Loop(templates, items, pos, LoopState(sc, 0, 0, false))
  }

  /** What one round of the parsing loop does. */
  datatype Round =
    | Stop(res: Extraction, pos: int)
    | Goto(pos: int, st: LoopState)
    | Descend

  function Advance(pos: int, st: LoopState, sc: Shortcode): Round
  {
    Goto(pos, st.(sc := sc))
  }

  function OnParam(items: seq<Item>, p: int, st: LoopState): Round
    requires 0 <= p < |items|
  {
    var item, sc := items[p], st.sc;
    match PeekAt(items, p)
    case None => Stop(Panicked, p)
    case Some(next) =>
      if next.IsDone() then Goto(p, st)
      else if next.typ.TScParamVal? then
        match AddNamed(sc.params, item.val, next.typed)
        case None => Stop(Failed(InvalidParams, Some(sc)), p)
        case Some(params) => Advance(p + 1, st, sc.(params := params))
      else
        match AddPositional(sc.params, item.typed)
        case None => Stop(Failed(InvalidParams, Some(sc)), p)
        case Some(params) => Advance(p, st, sc.(params := params))
  }

  function OnClose(items: seq<Item>, p: int, st: LoopState): Round
    requires 0 <= p < |items|
  {
    var sc := st.sc;
    match PeekAt(items, p)
    case None => Stop(Panicked, p)
    case Some(next) =>
      if !sc.isInline && !sc.NeedsInner() then
        if next.typ.TError? then Goto(p, st.(closed := true)) else Stop(Failed(NotInner, None), p)
      else if next.IsRightShortcodeDelim() then Stop(Extracted(sc), Consumed(items, p, 1))
      else Stop(Extracted(sc.(isClosing := true)), Consumed(items, p, 2))
  }

  function OnLeftDelim(items: seq<Item>, p: int, st: LoopState): Round
    requires 0 <= p < |items|
  {
    match PeekAt(items, p)
    case None => Stop(Panicked, p)
    case Some(next) =>
      if next.IsRightShortcodeDelim() then Stop(Failed(NoName, Some(st.sc)), p)
      else if next.typ.TScClose? then Goto(p, st)
      else if st.cnt > 0 then Descend
      else Goto(p, st.(sc := st.sc.(doMarkup := items[p].IsShortcodeMarkupDelimiter()), cnt := 1))
  }

  /** One round: the item after the cursor `pos` decides. */
  function Step(templates: Templates, items: seq<Item>, pos: int, st: LoopState): (r: Round)
    requires -1 <= pos
    ensures r.Goto? ==> pos < r.pos && pos + 1 < |items|
    ensures r.Descend? ==> st.cnt > 0 && pos + 1 < |items| && !items[pos + 1].IsDone()
    ensures r.Stop? && r.res.Extracted? ==> pos <= r.pos
    ensures r.Stop? && r.res.Extracted? && pos + 1 < |items| && !items[pos + 1].IsDone() ==> pos < r.pos
  {
    var p := pos + 1;
    var item, sc := ItemAt(items, p), st.sc;
    if item.IsDone() then
      if !item.typ.TError? && !st.closed && sc.NeedsInner() then Stop(Failed(NotClosed, Some(sc)), p)
      else Stop(Extracted(sc), pos)
    else if item.IsLeftShortcodeDelim() then OnLeftDelim(items, p, st)
    else if item.IsRightShortcodeDelim() then
      if !sc.isInline && sc.info.None? then Stop(Panicked, p)
      else if !sc.isInline && !sc.info.value.isInner then Stop(Extracted(sc), p)
      else Goto(p, st)
    else if item.typ.TScClose? then OnClose(items, p, st)
    else if item.IsText() then Advance(p, st, sc.(inner := sc.inner + [InnerText(item.val)]))
    else if item.typ.TScName? then
      if item.val !in templates then Stop(Failed(TemplateNotFound, None), p)
      else Advance(p, st, sc.(name := item.val, info := Some(templates[item.val])))
    else if item.typ.TScNameInline? then Advance(p, st, sc.(name := item.val, isInline := true))
    else if item.typ.TScParam? then OnParam(items, p, st)
    else Goto(p, st)
  }

  /** The parsing loop from a given cursor and given values of its variables. */
  function Loop(templates: Templates, items: seq<Item>, pos: int, st: LoopState): (o: Outcome)
    requires -1 <= pos
    ensures o.res.Extracted? ==> pos <= o.pos
    ensures o.res.Extracted? && pos + 1 < |items| && !items[pos + 1].IsDone() ==> pos < o.pos
    decreases |items| - pos, if st.cnt == 0 then 0 else 2
  {
    match Step(templates, items, pos, st)
    case Stop(res, p) => Outcome(res, p, {})
    case Goto(p, st') => Loop(templates, items, p, st')
    case Descend =>
      var nested := Extract(templates, items, pos, st.nestedOrdinal);
      var names := nested.names + NamesOf(nested.res);
      match nested.res
      case Extracted(child) =>
        AddNames(names, Loop(templates, items, nested.pos, Nested(st, child)))
      case Failed(err, _) => Outcome(Failed(err, Some(st.sc)), nested.pos, names)
      case Panicked => Outcome(Panicked, nested.pos, names)
  }

  function AddNames(names: set<string>, o: Outcome): Outcome
  {
    o.(names := names + o.names)
  }

  lemma AddNamesTwice(a: set<string>, b: set<string>, o: Outcome)
    ensures AddNames(a, AddNames(b, o)) == AddNames(a + b, o)
  {
    assert a + (b + o.names) == a + b + o.names;
  }

  /** The loop variables after a nested shortcode has been parsed. */
  function Nested(st: LoopState, child: Shortcode): LoopState
  {
    LoopState(st.sc.(inner := st.sc.inner + [InnerShortcode(child)]), st.cnt + 1, st.nestedOrdinal + 1, st.closed)
  }

  function AddNamed(params: Params, key: string, val: Value): Option<Params>
  {
    match params
    case NoParams => Some(Named(map[key := val]))
    case Named(m) => Some(Named(m[key := val]))
    case Positional(_) => None
  }

  function AddPositional(params: Params, val: Value): Option<Params>
  {
    match params
    case NoParams => Some(Positional([val]))
    case Positional(vals) => Some(Positional(vals + [val]))
    case Named(_) => None
  }

  /** The per-page handler: it collects the names of the shortcodes it has seen. */
  class ShortcodeHandler {
    const templates: Templates
    var nameSet: set<string>
    var shortcodes: seq<Shortcode>

    constructor (templates: Templates)
      ensures this.templates == templates && nameSet == {} && shortcodes == []
    {
      this.templates := templates;
      nameSet, shortcodes := {}, [];
    }

    method AddName(name: string)
      modifies this`nameSet
      ensures nameSet == old(nameSet) + {name}
    {
      nameSet := nameSet + {name};
    }

    /** One item of the switch in the loop; nested shortcodes are left to the caller. */
    method ParseItem(st: LoopState, pt: Iterator) returns (r: Round)
      requires pt.Valid()
      modifies pt
      ensures pt.Valid()
      ensures r == Step(templates, pt.items, old(pt.lastPos), st)
      ensures match r
              case Stop(res, p) => res.Extracted? ==> pt.lastPos == p
              case Goto(p, _) => pt.lastPos == p
              case Descend => pt.lastPos == old(pt.lastPos)
    {
      var sc := st.sc;
      var currItem := pt.Next();
      if currItem.IsDone() {
        if !currItem.typ.TError? {
          if !st.closed && sc.NeedsInner() {
            return Stop(Failed(NotClosed, Some(sc)), pt.lastPos);
          }
        }
        pt.Backup();
        return Stop(Extracted(sc), pt.lastPos);
      } else if currItem.IsLeftShortcodeDelim() {
        var next := pt.Peek();
        if next.None? { return Stop(Panicked, pt.lastPos); }
        if next.value.IsRightShortcodeDelim() { return Stop(Failed(NoName, Some(sc)), pt.lastPos); }
        if next.value.typ.TScClose? { return Goto(pt.lastPos, st); }
        if st.cnt > 0 {
          pt.Backup();
          return Descend;
        }
        sc := sc.(doMarkup := currItem.IsShortcodeMarkupDelimiter());
        return Goto(pt.lastPos, st.(sc := sc, cnt := 1));
      } else if currItem.IsRightShortcodeDelim() {
        if !sc.isInline {
          if sc.info.None? { return Stop(Panicked, pt.lastPos); }
          if !sc.info.value.isInner { return Stop(Extracted(sc), pt.lastPos); }
        }
        return Goto(pt.lastPos, st);
      } else if currItem.typ.TScClose? {
        r := ParseClose(st, pt);
      } else if currItem.IsText() {
        sc := sc.(inner := sc.inner + [InnerText(currItem.val)]);
        return Goto(pt.lastPos, st.(sc := sc));
      } else if currItem.typ.TScName? {
        sc := sc.(name := currItem.val);
        if sc.name !in templates { return Stop(Failed(TemplateNotFound, None), pt.lastPos); }
        sc := sc.(info := Some(templates[sc.name]));
        return Goto(pt.lastPos, st.(sc := sc));
      } else if currItem.typ.TScNameInline? {
        sc := sc.(name := currItem.val, isInline := true);
        return Goto(pt.lastPos, st.(sc := sc));
      } else if currItem.typ.TScParam? {
        r := ParseParam(st, currItem, pt);
      } else {
        return Goto(pt.lastPos, st);
      }
    }

    method ParseClose(st: LoopState, pt: Iterator) returns (r: Round)
      requires pt.Valid() && 0 <= pt.lastPos < |pt.items|
      modifies pt
      ensures pt.Valid()
      ensures r == OnClose(pt.items, old(pt.lastPos), st)
      ensures r.Stop? && r.res.Extracted? ==> pt.lastPos == r.pos
      ensures r.Goto? ==> pt.lastPos == r.pos
    {
      var sc := st.sc;
      var next := pt.Peek();
      if next.None? { return Stop(Panicked, pt.lastPos); }
      if !sc.isInline {
        if !sc.NeedsInner() {
          if next.value.typ.TError? { return Goto(pt.lastPos, st.(closed := true)); }
          return Stop(Failed(NotInner, None), pt.lastPos);
        }
      }
      if next.value.IsRightShortcodeDelim() {
        pt.Consume(1);
      } else {
        sc := sc.(isClosing := true);
        pt.Consume(2);
      }
      return Stop(Extracted(sc), pt.lastPos);
    }

    method ParseParam(st: LoopState, currItem: Item, pt: Iterator) returns (r: Round)
      requires pt.Valid() && 0 <= pt.lastPos < |pt.items| && pt.items[pt.lastPos] == currItem
      modifies pt
      ensures pt.Valid()
      ensures r == OnParam(pt.items, old(pt.lastPos), st)
      ensures r.Goto? ==> pt.lastPos == r.pos
    {
      var sc := st.sc;
      var next := pt.Peek();
      if next.None? { return Stop(Panicked, pt.lastPos); }
      if next.value.IsDone() { return Goto(pt.lastPos, st); }
      var params;
      if next.value.typ.TScParamVal? {
        params := AddNamed(sc.params, currItem.val, next.value.typed);
        if params.None? { return Stop(Failed(InvalidParams, Some(sc)), pt.lastPos); }
        var _ := pt.Next();
      } else {
        params := AddPositional(sc.params, currItem.typed);
        if params.None? { return Stop(Failed(InvalidParams, Some(sc)), pt.lastPos); }
      }
      sc := sc.(params := params.value);
      return Goto(pt.lastPos, st.(sc := sc));
    }

    /** A new shortcode, with the indentation in front of it, for which the cursor goes back and forth once. */
    method StartShortcode(ordinal: nat, pt: Iterator) returns (sc: Shortcode)
      requires pt.Valid()
      modifies pt
      ensures pt.Valid() && pt.lastPos == old(pt.lastPos)
      ensures sc == NewShortcode(ordinal, IndentationAt(pt.items, pt.lastPos))
    {
      sc := NewShortcode(ordinal, "");
      if pt.lastPos > 0 {
        pt.Backup();
        var item := pt.Next();
        if item.typ.TIndentation? {
          sc := sc.(indentation := item.val);
        }
      }
    }

    /** The parser itself: a loop over the cursor that calls itself for nested shortcodes. */
    method ExtractShortcode(ordinal: nat, level: nat, pt: Iterator) returns (res: Extraction)
      requires pt.Valid()
      modifies this`nameSet, pt
      ensures pt.Valid()
      ensures var o := Extract(templates, pt.items, old(pt.lastPos), ordinal);
              res == o.res && nameSet == old(nameSet) + o.names && (res.Extracted? ==> pt.lastPos == o.pos)
      decreases |pt.items| - pt.lastPos, 0
    {
      var sc := StartShortcode(ordinal, pt);
      var st := LoopState(sc, 0, 0, false);
      ghost var o := Extract(templates, pt.items, pt.lastPos, ordinal);
      ghost var added: set<string> := {};
      while true
        invariant pt.Valid() && old(pt.lastPos) <= pt.lastPos
        invariant st.cnt > 0 ==> old(pt.lastPos) < pt.lastPos
        invariant nameSet == old(nameSet) + added
        invariant o == AddNames(added, Loop(templates, pt.items, pt.lastPos, st))
        decreases |pt.items| - pt.lastPos
      {
        var round := ParseItem(st, pt);
        match round
        case Stop(r, _) =>
          return r;
        case Goto(_, st') =>
          st := st';
        case Descend =>
          ghost var n := Extract(templates, pt.items, pt.lastPos, st.nestedOrdinal);
          var nested := ExtractShortcode(st.nestedOrdinal, level + 1, pt);
          var child := if nested.Extracted? then Some(nested.sc) else if nested.Failed? then nested.partial else None;
          if child.Some? && child.value.name != "" {
            AddName(child.value.name);
          }
          ghost var before := added;
          added := added + (n.names + NamesOf(n.res));
          match nested
          case Extracted(nestedSc) =>
            st := Nested(st, nestedSc);
            AddNamesTwice(before, n.names + NamesOf(n.res), Loop(templates, pt.items, pt.lastPos, st));
          case Failed(err, _) =>
            return Failed(err, Some(st.sc));
          case Panicked =>
            return Panicked;
      }
    }
  }
}
