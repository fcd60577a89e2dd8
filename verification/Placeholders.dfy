/** `createShortcodePlaceholder`: its results are well-delimited tokens, and different shortcodes get different ones. */
module Placeholders {
  import opened Common
  import opened ShortcodeExpansion

  function DigitChar(d: nat): char
    requires d < 10
  {
    '0' + d as char
  }

  /** Decimal notation, as `strconv` prints it. */
  function Decimal(n: nat): string
  {
    if n < 10 then [DigitChar(n)] else Decimal(n / 10) + [DigitChar(n % 10)]
  }

  function CreateShortcodePlaceholder(sid: string, id: nat, ordinal: nat): string
  {
    PREFIX + Decimal(id) + sid + Decimal(ordinal) + POST
  }

  predicate IsDigit(c: char) { '0' <= c <= '9' }

  ghost predicate All(p: char -> bool, s: string)
  {
    forall i :: 0 <= i < |s| ==> p(s[i])
  }

  /** The reading of a digit string. */
  function ReadDecimal(s: string): int
  {
    if s == "" then 0 else 10 * ReadDecimal(s[..|s| - 1]) + (s[|s| - 1] as int - '0' as int)
  }

  lemma ReadBack(n: nat)
    ensures All(IsDigit, Decimal(n)) && Decimal(n) != "" && ReadDecimal(Decimal(n)) == n
  {
    var s := Decimal(n);
    assert n >= 10 ==> s[..|s| - 1] == Decimal(n / 10);
    assert n < 10 ==> s[..|s| - 1] == "";
  }

  /** A longest run of `p` characters is determined by the whole string. */
  lemma RunIsUnique(p: char -> bool, a: string, x: string, b: string, y: string)
    requires a + x == b + y && All(p, a) && All(p, b)
    requires x != "" && !p(x[0]) && y != "" && !p(y[0])
    ensures a == b && x == y
  {
    var s := a + x;
    assert s[|a|] == x[0] && s[|b|] == y[0];
    assert forall i :: 0 <= i < |a| ==> s[i] == a[i];
    assert forall i :: 0 <= i < |b| ==> s[i] == b[i];
    assert |a| == |b|;
    assert s[..|a|] == a && s[..|b|] == b && s[|a|..] == x && s[|b|..] == y;
  }

  /** The kinds of identifiers in use, "s" and "TOC": letters only, and none of them a B. */
  predicate ValidSid(sid: string)
  {
    sid != "" && forall i :: 0 <= i < |sid| ==> !IsDigit(sid[i]) && sid[i] != 'B'
  }

  /** A placeholder determines the kind, the page and the ordinal it was made from. */
  lemma PlaceholdersAreDistinct(sid: string, id: nat, ordinal: nat, sid': string, id': nat, ordinal': nat)
    requires ValidSid(sid) && ValidSid(sid')
    ensures CreateShortcodePlaceholder(sid, id, ordinal) == CreateShortcodePlaceholder(sid', id', ordinal')
       <==> sid == sid' && id == id' && ordinal == ordinal'
  {
    if CreateShortcodePlaceholder(sid, id, ordinal) == CreateShortcodePlaceholder(sid', id', ordinal') {
      var d, d', o, o' := Decimal(id), Decimal(id'), Decimal(ordinal), Decimal(ordinal');
      ReadBack(id); ReadBack(id'); ReadBack(ordinal); ReadBack(ordinal');
      Parts(sid, id, ordinal);
      Parts(sid', id', ordinal');
      Peel(d + (sid + o), d' + (sid' + o'));
      RunIsUnique(IsDigit, d, sid + o, d', sid' + o');
      RunIsUnique(c => !IsDigit(c), sid, o, sid', o');
    }
  }

  lemma Parts(sid: string, id: nat, ordinal: nat)
    ensures CreateShortcodePlaceholder(sid, id, ordinal) == PREFIX + (Decimal(id) + (sid + Decimal(ordinal))) + POST
  {
  }

  lemma Peel(a: string, b: string)
    requires PREFIX + a + POST == PREFIX + b + POST
    ensures a == b
  {
    var s := PREFIX + a + POST;
    assert s[|PREFIX|..|s| - |POST|] == a;
    assert (PREFIX + b + POST)[|PREFIX|..|s| - |POST|] == b;
  }

  lemma NoEndMark(s: string, i: int)
    requires 0 <= i && i + |POST| <= |s| && s[i + 1] != 'B'
    ensures !At(s, POST, i)
  {
    assert s[i..i + |POST|][1] == s[i + 1];
    assert POST[1] == 'B';
  }

  /** A placeholder starts with the prefix and ends at the first end mark in it, so the rewriter finds it whole. */
  lemma PlaceholderIsToken(sid: string, id: nat, ordinal: nat)
    requires ValidSid(sid)
    ensures ValidKey(CreateShortcodePlaceholder(sid, id, ordinal))
  {
    var d, o := Decimal(id), Decimal(ordinal);
    ReadBack(id); ReadBack(ordinal);
    var body := PREFIX + d + sid + o;
    var key := body + POST;
    forall i | 0 <= i < |body| ensures key[i] != 'B' {
      if i < |PREFIX| {
        assert key[i] == PREFIX[i];
      }
    }
    assert key[|body|..] == POST;
    forall i | 0 <= i < |body| ensures !At(key, POST, i) {
      if i + 1 < |body| {
        NoEndMark(key, i);
      } else {
        assert key[i + 1] == POST[0] == 'H';
        if i + |POST| <= |key| {
          NoEndMark(key, i);
        }
      }
    }
    assert key[|body|..|body| + |POST|] == POST;
    IndexIs(key, POST, |body|);
    assert key[..|PREFIX|] == PREFIX;
  }
}
