/** Placeholders, and the rewriter that replaces them by rendered content. */
module ShortcodeExpansion {
  import opened Common

  const PREFIX := "HAHAHUGOSHORTCODE"
  const POST := "HBHB"
  const P_START := "<p>"
  const P_END := "</p>"

  /** What the token handler answers. */
  datatype Reply = Content(bytes: string) | HandlerError

  datatype Expansion = Done(bytes: string) | MissingEnd | HandlerFailed | Panicked | Running

  /** What the test for a wrapping paragraph finds around a token. */
  datatype Wrap = Wrapped | Bare | OutOfRange

  /**
    The test reads the four bytes after the token. When the token ends less than four bytes before the end
    of the content, Go lets the slice expression reach into the spare capacity of the slice, here `tail`:
    bytes that `append` left there. Beyond the capacity, or when the content would have to be cut after its end,
    it panics.
   */
  function WrapTest(source: string, k: nat, j: nat, end: nat, tail: string): Wrap
    requires j <= end <= |source|
  {
    if !(j >= 3 && source[j - 3..j] == P_START) then Bare
    else if !(k + 4 < |source|) then Bare
    else if end + 4 > |source| + |tail| then OutOfRange
    else if (source + tail)[end..end + 4] != P_END then Bare
    else if end + 4 > |source| then OutOfRange
    else Wrapped
  }

  type Handler = string -> Reply

  /** What one round of the rewriter does with the next token. */
  datatype Round = Finished(result: Expansion) | Next(source: string, start: nat)

  function Rewrite(source: string, start: nat, handler: Handler, tail: string): (r: Round)
    requires start <= |source|
    ensures r.Next? ==> r.start <= |r.source|
  {
    var k := Index(source[start..], PREFIX);
    if k == -1 then Finished(Done(source))
    else
      var j := start + k;
      var postIdx := Index(source[j..], POST);
      if postIdx < 0 then Finished(MissingEnd)
      else
        var end := j + postIdx + 4;
        match handler(source[j..end])
        case HandlerError => Finished(HandlerFailed)
        case Content(newVal) => Replace(source, k, j, end, newVal, tail)
  }

  /** The token at `source[j..end]` gives way to `newVal`. */
  function Replace(source: string, k: nat, j: nat, end: nat, newVal: string, tail: string): (r: Round)
    requires j <= end <= |source|
    ensures r.Next? ==> r.start <= |r.source|
  {
    match WrapTest(source, k, j, end, tail)
    case OutOfRange => Finished(Panicked)
    case Wrapped => Next(source[..j - 3] + newVal + source[end + 4..], j - 3)
    case Bare => Next(source[..j] + newVal + source[end..], j)
  }

  /**
    The rewriter from offset `start` on. `tails(n)` is the spare capacity met in round `n`;
    `fuel` bounds the number of rounds, and `Running` says that the bound was reached.
   */
  function Expand(source: string, start: nat, handler: Handler, tails: nat -> string, n: nat, fuel: nat): Expansion
    requires start <= |source|
    decreases fuel
  {
    if fuel == 0 then
      if Index(source[start..], PREFIX) == -1 then Done(source) else Running
    else
      match Rewrite(source, start, handler, tails(n))
      case Finished(result) => result
      case Next(source', start') => Expand(source', start', handler, tails, n + 1, fuel - 1)
  }

  /** One round: the token found at `start + k` is replaced by what the handler makes of it. */
  method ReplaceToken(source: string, start: nat, k: nat, handler: Handler, tail: string) returns (r: Round)
    requires start <= |source| && k == Index(source[start..], PREFIX)
    ensures r == Rewrite(source, start, handler, tail)
  {
    var j := start + k;
    var postIdx := Index(source[j..], POST);
    if postIdx < 0 { return Finished(MissingEnd); }
    var end := j + postIdx + 4;
    var newVal := handler(source[j..end]);
    if newVal.HandlerError? { return Finished(HandlerFailed); }
    match WrapTest(source, k, j, end, tail) {
      case OutOfRange => return Finished(Panicked);
      case Wrapped => j, end := j - 3, end + 4;
      case Bare =>
    }
    return Next(source[..j] + newVal.bytes + source[end..], j);
  }

  /** The rewriter as a value: its result from a content, a start, a round and a bound. */
  type Expander = (string, nat, nat, nat) -> Expansion

  /** Mentioning a round lets `IsExpander` speak about it. */
  ghost predicate RoundPoint(source: string, start: nat, n: nat, fuel: nat) { true }

  ghost predicate IsExpander(expand: Expander, handler: Handler, tails: nat -> string)
  {
    forall source: string, start: nat, n: nat, fuel: nat {:trigger RoundPoint(source, start, n, fuel)} ::
      RoundPoint(source, start, n, fuel) && start <= |source| ==>
      expand(source, start, n, fuel) == Expand(source, start, handler, tails, n, fuel)
  }

  lemma TheExpander(content: string, handler: Handler, tails: nat -> string, rounds: nat) returns (expand: Expander)
    ensures IsExpander(expand, handler, tails)
    ensures expand(content, 0, 0, rounds) == Expand(content, 0, handler, tails, 0, rounds)
  {
    expand := (source, start, n, fuel) =>
      if 0 <= start <= |source| && 0 <= n && 0 <= fuel then Expand(source, start, handler, tails, n, fuel) else Running;
  }

  /** The rewriter itself: a loop that replaces the content and moves the start until no token is left. */
  method ExpandShortcodeTokens(content: string, handler: Handler, tails: nat -> string, rounds: nat) returns (r: Expansion)
    ensures r == Expand(content, 0, handler, tails, 0, rounds)
  {
    ghost var expand := TheExpander(content, handler, tails, rounds);
    r := Rounds(content, handler, tails, rounds, expand);
  }

  method Rounds(content: string, handler: Handler, tails: nat -> string, rounds: nat, ghost expand: Expander) returns (r: Expansion)
    requires IsExpander(expand, handler, tails)
    ensures r == expand(content, 0, 0, rounds)
  {
    var source, start, n := content, 0, 0;
    assert source[0..] == source;
    var k := Index(source, PREFIX);
    while k != -1
      invariant 0 <= start <= |source| && 0 <= n <= rounds
      invariant k == Index(source[start..], PREFIX)
      invariant expand(source, start, n, rounds - n) == expand(content, 0, 0, rounds)
      decreases rounds - n
    {
      if n == rounds {
        BoundedOf(expand, source, start, handler, tails, n);
        return Running;
      }
      var round := ReplaceToken(source, start, k, handler, tails(n));
      RoundOf(expand, source, start, handler, tails, n, rounds - n, round);
      match round {
        case Finished(result) => return result;
        case Next(source', start') => source, start := source', start';
      }
      n := n + 1;
      k := Index(source[start..], PREFIX);
    }
    NothingOf(expand, source, start, handler, tails, n, rounds - n);
    return Done(source);
  }

  lemma RoundOf(expand: Expander, source: string, start: nat, handler: Handler, tails: nat -> string, n: nat, fuel: nat, round: Round)
    requires IsExpander(expand, handler, tails)
    requires start <= |source| && fuel > 0 && round == Rewrite(source, start, handler, tails(n))
    ensures match round
            case Finished(result) => result == expand(source, start, n, fuel)
            case Next(source', start') => expand(source', start', n + 1, fuel - 1) == expand(source, start, n, fuel)
  {
    assert RoundPoint(source, start, n, fuel);
    assert round.Next? ==> RoundPoint(round.source, round.start, n + 1, fuel - 1);
  }

  lemma BoundedOf(expand: Expander, source: string, start: nat, handler: Handler, tails: nat -> string, n: nat)
    requires IsExpander(expand, handler, tails) && start <= |source| && Index(source[start..], PREFIX) != -1
    ensures expand(source, start, n, 0) == Running
  {
    assert RoundPoint(source, start, n, 0);
  }

  lemma NothingOf(expand: Expander, source: string, start: nat, handler: Handler, tails: nat -> string, n: nat, fuel: nat)
    requires IsExpander(expand, handler, tails) && start <= |source| && Index(source[start..], PREFIX) == -1
    ensures expand(source, start, n, fuel) == Done(source)
  {
    assert RoundPoint(source, start, n, fuel);
  }

  lemma ExpandRound(source: string, start: nat, handler: Handler, tails: nat -> string, n: nat, fuel: nat, round: Round, r: Expansion)
    requires start <= |source| && fuel > 0 && round == Rewrite(source, start, handler, tails(n))
    requires Expand(source, start, handler, tails, n, fuel) == r
    ensures match round
            case Finished(result) => result == r
            case Next(source', start') => Expand(source', start', handler, tails, n + 1, fuel - 1) == r
  {
  }

  lemma ExpandNothing(source: string, start: nat, handler: Handler, tails: nat -> string, n: nat, fuel: nat)
    requires start <= |source| && Index(source[start..], PREFIX) == -1
    ensures Expand(source, start, handler, tails, n, fuel) == Done(source)
  {
  }

  /** The bound `k + 4 < len(source)` never decides: a token is longer than four bytes. */
  lemma GuardAlwaysHolds(source: string, start: nat)
    requires start <= |source|
    ensures var k := Index(source[start..], PREFIX); k >= 0 ==> k + 4 < |source|
  {
  }

  /**
    The test panics exactly when a token that follows `<p>` ends less than four bytes before the end of the content
    and either the capacity ends there too or the bytes up to four, spare ones included, spell `</p>`.
   */
  lemma WrapTestPanics(source: string, start: nat, end: nat, tail: string)
    requires start <= |source| && Index(source[start..], PREFIX) >= 0
    requires start + Index(source[start..], PREFIX) <= end <= |source|
    ensures var k := Index(source[start..], PREFIX);
            WrapTest(source, k, start + k, end, tail).OutOfRange? <==>
            && EndsWith(source[..start + k], P_START)
            && end + 4 > |source|
            && (end + 4 > |source| + |tail| || (source + tail)[end..end + 4] == P_END)
  {
    GuardAlwaysHolds(source, start);
    var j := start + Index(source[start..], PREFIX);
    if j >= 3 {
      assert source[..j][j - 3..] == source[j - 3..j];
    }
  }

  // ---------------------------------------------------------------------------------------------
  // Content as a list of literal text and tokens

  datatype Piece = Lit(text: string) | Tok(key: string)

  function Flat(ps: seq<Piece>): string
  {
    if ps == [] then "" else Source(ps[0]) + Flat(ps[1..])
  }

  function Source(p: Piece): string
  {
    match p case Lit(t) => t case Tok(key) => key
  }

  /** A token starts with the prefix and ends with the first end mark in it. */
  predicate ValidKey(key: string)
  {
    |key| >= |PREFIX| + |POST| && key[..|PREFIX|] == PREFIX && Index(key, POST) == |key| - |POST|
  }

  ghost predicate ValidKeys(ps: seq<Piece>)
  {
    forall i :: 0 <= i < |ps| && ps[i].Tok? ==> ValidKey(ps[i].key)
  }

  /** What each token stands for, as pieces; `None` is a failing handler. */
  type Values = string -> Option<seq<Piece>>

  ghost predicate ValidValues(values: Values)
  {
    forall key :: values(key).Some? ==> ValidKeys(values(key).value)
  }

  function HandlerOf(values: Values): Handler
  {
    key => match values(key) case None => HandlerError case Some(ps) => Content(Flat(ps))
  }

  /** The text before the first token. */
  function Lead(ps: seq<Piece>): string
  {
    if ps == [] || ps[0].Tok? then "" else ps[0].text + Lead(ps[1..])
  }

  /** Removes `n` characters from the front; only literal text is cut. */
  function DropChars(ps: seq<Piece>, n: nat): seq<Piece>
  {
    if ps == [] || n == 0 || ps[0].Tok? then ps
    else if |ps[0].text| <= n then DropChars(ps[1..], n - |ps[0].text|)
    else [Lit(ps[0].text[n..])] + ps[1..]
  }

  /** `Overread`: the wrap test reads past the end and panics. `Spurious`: literal text contains the token prefix. */
  datatype Splicing = Spliced(bytes: string) | Overread | Spurious | SpliceFailed | Unfinished

  /** A token follows `<p>` with less than four bytes after it. */
  predicate ReadsPastEnd(out: string, rest: seq<Piece>)
  {
    EndsWith(out, P_START) && |Flat(rest)| < 4
  }

  /** And the test panics: the capacity ends there too, or the bytes up to four, spare ones included, spell `</p>`. */
  predicate Misreads(out: string, after: string, tail: string)
  {
    && EndsWith(out, P_START) && |after| < 4
    && (|after| + |tail| < 4 || (after + tail)[..4] == P_END)
  }

  predicate WrapsToken(out: string, rest: seq<Piece>)
  {
    EndsWith(out, P_START) && HasPrefix(Flat(rest), P_END)
  }

  /** The finished output and the pieces to come once a token between `out` and `rest` has given way to `v`. */
  function AfterToken(out: string, v: seq<Piece>, rest: seq<Piece>): (string, seq<Piece>)
  {
    if WrapsToken(out, rest) then (out[..|out| - 3], v + DropChars(rest, 4)) else (out, v + rest)
  }

  /**
    The intended result, computed on pieces without searching: text is kept, a token is replaced by its value in place,
    and a paragraph that wraps exactly one token disappears. `out` is the finished output; `tails(n)` is the spare
    capacity met in round `n`.
   */
  function Splice(out: string, ps: seq<Piece>, values: Values, tails: nat -> string, n: nat, fuel: nat): Splicing
    decreases fuel, |ps|
  {
    if Index(Lead(ps), PREFIX) >= 0 then Spurious
    else if ps == [] then Spliced(out)
    else match ps[0]
      case Lit(t) => Splice(out + t, ps[1..], values, tails, n, fuel)
      case Tok(key) =>
        if fuel == 0 then Unfinished
        else if values(key).None? then SpliceFailed
        else if Misreads(out, Flat(ps[1..]), tails(n)) then Overread
        else
          var (out', ps') := AfterToken(out, values(key).value, ps[1..]);
          Splice(out', ps', values, tails, n + 1, fuel - 1)
  }
}
