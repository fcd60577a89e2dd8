/** The string order of compare/compare_strings.go, on ASCII strings. */
module CompareStrings {
  /** The code points below utf8.RuneSelf, each of which is one byte. */
  type Ascii = c: int | 0 <= c < 128

  const UPPER_A: int := 65
  const UPPER_Z: int := 90
  const LOWER_A: int := 97
  const LOWER_Z: int := 122

  function Lower(c: Ascii): Ascii
  {
    if UPPER_A <= c <= UPPER_Z then c + LOWER_A - UPPER_A else c
  }

  function Lowered(s: seq<Ascii>): seq<Ascii>
  {
    seq(|s|, i requires 0 <= i < |s| => Lower(s[i]))
  }

  const UPPER := "ABCDEFGHIJKLMNOPQRSTUVWXYZ"
  const LOWER := "abcdefghijklmnopqrstuvwxyz"

  /** The letters go to their small counterparts, everything else stays. */
  lemma LowerOnLetters(c: Ascii)
    ensures forall k :: 0 <= k < 26 && c == UPPER[k] as int ==> Lower(c) == LOWER[k] as int
    ensures (forall k :: 0 <= k < 26 ==> c != UPPER[k] as int) ==> Lower(c) == c
  {
    assert forall k :: 0 <= k < 26 ==> UPPER[k] as int == UPPER_A + k && LOWER[k] as int == LOWER_A + k;
    assert UPPER_A <= c <= UPPER_Z ==> c == UPPER[c - UPPER_A] as int;
  }

  /** Byte-wise lexicographic comparison. */
  function Lex(s: seq<Ascii>, t: seq<Ascii>): (r: int)
    ensures r in {-1, 0, 1}
  {
    if s == [] && t == [] then 0
    else if s == [] then -1
    else if t == [] then 1
    else if s[0] < t[0] then -1
    else if t[0] < s[0] then 1
    else Lex(s[1..], t[1..])
  }

  /** `s` comes before `t`: it is a proper prefix, or smaller at the first place where they differ. */
  ghost predicate Precedes(s: seq<Ascii>, t: seq<Ascii>)
  {
    exists k :: 0 <= k <= |s| && k <= |t| && s[..k] == t[..k] && FirstDifference(s, t, k)
  }

  predicate FirstDifference(s: seq<Ascii>, t: seq<Ascii>, k: nat)
    requires k <= |s| && k <= |t|
  {
    k < |t| && (k == |s| || s[k] < t[k])
  }

  lemma {:induction false} LexIsLexicographic(s: seq<Ascii>, t: seq<Ascii>)
    ensures Lex(s, t) == -1 <==> Precedes(s, t)
    ensures Lex(s, t) == 1 <==> Precedes(t, s)
    ensures Lex(s, t) == 0 <==> s == t
  {
    LexIsBefore(s, t);
    LexIsBefore(t, s);
    LexFlips(s, t);
    LexZero(s, t);
  }

  lemma {:induction false} LexFlips(s: seq<Ascii>, t: seq<Ascii>)
    ensures Lex(t, s) == -Lex(s, t)
  {
    if s != [] && t != [] {
      LexFlips(s[1..], t[1..]);
    }
  }

  lemma {:induction false} LexZero(s: seq<Ascii>, t: seq<Ascii>)
    ensures Lex(s, t) == 0 <==> s == t
  {
    if s != [] && t != [] {
      LexZero(s[1..], t[1..]);
      assert s == [s[0]] + s[1..] && t == [t[0]] + t[1..];
    }
  }

  lemma {:induction false} LexIsBefore(s: seq<Ascii>, t: seq<Ascii>)
    ensures Lex(s, t) == -1 <==> Precedes(s, t)
  {
    if s == [] || t == [] {
      assert t != [] ==> s[..0] == t[..0] && (s == [] ==> FirstDifference(s, t, 0));
    } else {
      LexIsBefore(s[1..], t[1..]);
      if s[0] < t[0] {
        assert s[..0] == t[..0] && FirstDifference(s, t, 0);
      } else if s[0] == t[0] && Lex(s, t) == -1 {
        var k :| 0 <= k <= |s[1..]| && k <= |t[1..]| && s[1..][..k] == t[1..][..k] && FirstDifference(s[1..], t[1..], k);
        assert s[..k + 1] == [s[0]] + s[1..][..k] && t[..k + 1] == [t[0]] + t[1..][..k];
        assert FirstDifference(s, t, k + 1);
      }
      if Precedes(s, t) {
        var k :| 0 <= k <= |s| && k <= |t| && s[..k] == t[..k] && FirstDifference(s, t, k);
        if k > 0 {
          assert s[..k][0] == t[..k][0];
          assert s[1..][..k - 1] == s[..k][1..] && t[1..][..k - 1] == t[..k][1..];
          assert FirstDifference(s[1..], t[1..], k - 1);
        }
      }
    }
  }

  lemma {:induction false} LexTransitive(s: seq<Ascii>, t: seq<Ascii>, u: seq<Ascii>)
    requires Lex(s, t) <= 0 && Lex(t, u) <= 0
    ensures Lex(s, u) <= 0
    ensures Lex(s, u) == 0 ==> Lex(s, t) == 0 && Lex(t, u) == 0
  {
    if s != [] && t != [] && u != [] && s[0] == t[0] == u[0] {
      LexTransitive(s[1..], t[1..], u[1..]);
    }
  }

  lemma LoweredTail(s: seq<Ascii>)
    requires s != []
    ensures Lowered(s) != [] && Lowered(s)[0] == Lower(s[0]) && Lowered(s)[1..] == Lowered(s[1..])
  {}

  /** Simple case folding of the code points that the loop visits: K and S have a third form outside ASCII. */
  function SimpleFold(r: int): int
  {
    if UPPER_A <= r <= UPPER_Z then r + LOWER_A - UPPER_A
    else if r == 107 then 0x212A
    else if r == 115 then 0x17F
    else if r == 0x212A then 75
    else if r == 0x17F then 83
    else if LOWER_A <= r <= LOWER_Z then r - (LOWER_A - UPPER_A)
    else r
  }

  /** The fold-aware comparison: it equals comparing the lower-cased strings, for all its swapping of runes and signs. */
  method CompareFold(s0: seq<Ascii>, t0: seq<Ascii>) returns (r: int)
    ensures r == Lex(Lowered(s0), Lowered(t0))
  {
    var s, t := s0, t0;
    while s != [] && t != []
      invariant Lex(Lowered(s0), Lowered(t0)) == Lex(Lowered(s), Lowered(t))
      decreases |s|
    {
      LoweredTail(s);
      LoweredTail(t);
      var sr, tr: Ascii := s[0], t[0];
      s, t := s[1..], t[1..];
      if tr == sr {
        continue;
      }
      var c := 1;
      if tr < sr {
        tr, sr := sr, tr;
        c := -c;
      }
      if UPPER_A <= sr <= UPPER_Z {
        if tr <= UPPER_Z {
          return -c;
        }
        var diff := tr - (sr + LOWER_A - UPPER_A);
        if diff == 0 {
          continue;
        }
        if diff < 0 {
          return c;
        }
        return -c;
      }
      var f := SimpleFold(sr);
      while f != sr && f < tr
        invariant f == SimpleFold(sr) || f == sr
        decreases f != sr
      {
        f := SimpleFold(f);
      }
      if f == tr {
        continue;
      }
      return -c;
    }
    if s == [] && t == [] {
      return 0;
    }
    if s == [] {
      return -1;
    }
    return 1;
  }

  /** The order of the source: by the lower-cased strings, ties broken by the bytes. */
  function Order(s: seq<Ascii>, t: seq<Ascii>): int
  {
    if Lex(Lowered(s), Lowered(t)) == 0 then Lex(s, t) else Lex(Lowered(s), Lowered(t))
  }

  method Strings(s: seq<Ascii>, t: seq<Ascii>) returns (r: int)
    ensures r == Order(s, t)
  {
    var c := CompareFold(s, t);
    if c == 0 {
      return Lex(s, t);
    }
    return c;
  }

  method LessStrings(s: seq<Ascii>, t: seq<Ascii>) returns (less: bool)
    ensures less <==> Order(s, t) == -1
    ensures less <==> Precedes(Lowered(s), Lowered(t)) || (Lowered(s) == Lowered(t) && Precedes(s, t))
  {
    LexIsLexicographic(s, t);
    LexIsLexicographic(Lowered(s), Lowered(t));
    var r := Strings(s, t);
    less := r < 0;
  }

  /** Zero is answered for equal strings only, and swapping the arguments swaps the sign. */
  lemma OrderIsAntisymmetric(s: seq<Ascii>, t: seq<Ascii>)
    ensures Order(s, t) == 0 <==> s == t
    ensures Order(t, s) == -Order(s, t)
  {
    LexFlips(s, t);
    LexFlips(Lowered(s), Lowered(t));
    LexZero(s, t);
    LexZero(Lowered(s), Lowered(t));
  }

  lemma OrderIsTransitive(s: seq<Ascii>, t: seq<Ascii>, u: seq<Ascii>)
    requires Order(s, t) <= 0 && Order(t, u) <= 0
    ensures Order(s, u) <= 0
  {
    var ls, lt, lu := Lowered(s), Lowered(t), Lowered(u);
    LexTransitive(ls, lt, lu);
    LexZero(ls, lt);
    LexZero(lt, lu);
    if Lex(ls, lu) == 0 {
      LexTransitive(s, t, u);
    }
  }

  /** Strings that differ in case only stand together: what sorts between two of them is a case variant too. */
  lemma CaseVariantsAreAdjacent(s: seq<Ascii>, t: seq<Ascii>, u: seq<Ascii>)
    requires Lowered(s) == Lowered(u) && Order(s, t) <= 0 && Order(t, u) <= 0
    ensures Lowered(t) == Lowered(s)
  {
    LexZero(Lowered(s), Lowered(u));
    LexTransitive(Lowered(s), Lowered(t), Lowered(u));
    LexZero(Lowered(s), Lowered(t));
  }
}
