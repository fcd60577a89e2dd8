/** The tokens that the page lexer hands to the shortcode compiler, and a cursor over them. */
module PageTokens {
  import opened Common

  /** The item types of the page lexer. */
  datatype ItemType =
    | TError | TEOF
    | TLeadSummaryDivider | TFrontMatter | TIgnore
    | TLeftDelimScNoMarkup | TRightDelimScNoMarkup
    | TLeftDelimScWithMarkup | TRightDelimScWithMarkup
    | TScClose | TScName | TScNameInline | TScParam | TScParamVal
    | TIndentation | TText

  /** A parameter value as the lexer types it. */
  datatype Value = StringValue(s: string) | BoolValue(b: bool) | IntValue(i: int) | FloatValue(r: real)

  /** One token: `val` is its text in the source, `typed` its typed reading. */
  datatype Item = Item(typ: ItemType, val: string, typed: Value) {
    predicate IsText() { typ.TText? || typ.TIndentation? }
    predicate IsLeftShortcodeDelim() { typ.TLeftDelimScWithMarkup? || typ.TLeftDelimScNoMarkup? }
    predicate IsRightShortcodeDelim() { typ.TRightDelimScWithMarkup? || typ.TRightDelimScNoMarkup? }
    predicate IsShortcodeMarkupDelimiter() { typ.TLeftDelimScWithMarkup? || typ.TRightDelimScWithMarkup? }
    predicate IsDone() { typ.TError? || typ.TEOF? }
  }

  const ERR_INDEX_OUT_OF_BOUNDS := Item(TError, "", StringValue(""))

  /** The item at `pos`, or the error item when the cursor has run past the end. */
  function ItemAt(items: seq<Item>, pos: int): Item
    requires -1 <= pos
  {
    if 0 <= pos < |items| then items[pos] else ERR_INDEX_OUT_OF_BOUNDS
  }

  /** The lexer's iterator; `lastPos` is the index of the item returned last. */
  class Iterator {
    const items: seq<Item>
    var lastPos: int

    ghost predicate Valid()
      reads this
    {
      -1 <= lastPos
    }

    constructor (items: seq<Item>)
      ensures Valid() && this.items == items && lastPos == -1
    {
      this.items := items;
      lastPos := -1;
    }

    method Next() returns (item: Item)
      requires Valid()
      modifies this
      ensures Valid() && lastPos == old(lastPos) + 1
      ensures item == ItemAt(items, lastPos)
    {
      lastPos := lastPos + 1;
      item := if lastPos < |items| then items[lastPos] else ERR_INDEX_OUT_OF_BOUNDS;
    }

    method Backup()
      requires Valid() && 0 <= lastPos
      modifies this
      ensures Valid() && lastPos == old(lastPos) - 1
    {
      lastPos := lastPos - 1;
    }

    /** Indexing past the last item is a Go panic, reported here as `None`. */
    method Peek() returns (item: Option<Item>)
      requires Valid()
      ensures item == PeekAt(items, lastPos)
    {
      item := if lastPos + 1 < |items| then Some(items[lastPos + 1]) else None;
    }

    /** Advances over up to `cnt` items, stopping in front of an error or the end. */
    method Consume(cnt: nat)
      requires Valid()
      modifies this
      ensures Valid() && lastPos == Consumed(items, old(lastPos), cnt)
    {
      var i := 0;
      while i < cnt
        invariant 0 <= i <= cnt && Valid()
        invariant Consumed(items, lastPos, cnt - i) == Consumed(items, old(lastPos), cnt)
      {
        var token := Next();
        if token.IsDone() {
          Backup();
          break;
        }
        i := i + 1;
      }
    }
  }

  function PeekAt(items: seq<Item>, pos: int): Option<Item>
    requires -1 <= pos
  {
    if pos + 1 < |items| then Some(items[pos + 1]) else None
  }

  /** Where a cursor at `pos` stands after consuming `cnt` items. */
  function Consumed(items: seq<Item>, pos: int, cnt: nat): (r: int)
    requires -1 <= pos
    ensures pos <= r <= pos + cnt
    decreases cnt
  {
    if cnt == 0 || ItemAt(items, pos + 1).IsDone() then pos else Consumed(items, pos + 1, cnt - 1)
  }
}
