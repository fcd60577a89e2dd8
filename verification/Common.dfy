/** Small vocabulary shared by the other modules: optional values and searching in strings. */
module Common {

  datatype Option<+T> = None | Some(value: T)

  /** `p` occurs in `s` at offset `i`. */
  predicate At(s: string, p: string, i: int)
  {
    0 <= i && i + |p| <= |s| && s[i..i + |p|] == p
  }

  ghost predicate Occurs(s: string, p: string)
  {
    exists i :: At(s, p, i)
  }

  predicate HasPrefix(s: string, p: string)
  {
    |p| <= |s| && s[..|p|] == p
  }

  predicate EndsWith(s: string, p: string)
  {
    |p| <= |s| && s[|s| - |p|..] == p
  }

  /** Go's `bytes.Index`: the offset of the first occurrence of `p` in `s`, or -1. */
  function Index(s: string, p: string): (k: int)
    ensures k == -1 || 0 <= k <= |s| - |p|
  {
    IndexFrom(s, p, 0)
  }

  function IndexFrom(s: string, p: string, from: nat): (k: int)
    ensures k == -1 || from <= k <= |s| - |p|
    decreases |s| - from
  {
    if from + |p| > |s| then -1
    else if At(s, p, from) then from
    else if from == |s| then -1
    else IndexFrom(s, p, from + 1)
  }

  lemma IndexFromIsFirst(s: string, p: string, from: nat)
    ensures var k := IndexFrom(s, p, from);
            && (k >= 0 ==> At(s, p, k))
            && (forall i :: from <= i && At(s, p, i) ==> 0 <= k <= i)
    decreases |s| - from
  {
    if from < |s| {
      IndexFromIsFirst(s, p, from + 1);
    }
  }

  /** `Index` finds an occurrence when there is one, and none starts before it. */
  lemma IndexIsFirst(s: string, p: string)
    ensures var k := Index(s, p);
            && (k >= 0 ==> At(s, p, k))
            && (forall i :: At(s, p, i) ==> 0 <= k <= i)
  {
    IndexFromIsFirst(s, p, 0);
  }

  lemma IndexIs(s: string, p: string, k: nat)
    requires At(s, p, k)
    requires forall i :: 0 <= i < k ==> !At(s, p, i)
    ensures Index(s, p) == k
  {
    IndexIsFirst(s, p);
    assert Index(s, p) <= k;
  }

  lemma IndexNone(s: string, p: string)
    ensures Index(s, p) == -1 <==> !Occurs(s, p)
  {
    IndexIsFirst(s, p);
  }

  /** What occurs in a part of a string occurs in the string. */
  lemma OccursInSlice(s: string, a: nat, b: nat, p: string)
    requires a <= b <= |s|
    ensures Occurs(s[a..b], p) ==> Occurs(s, p)
  {
    if i :| At(s[a..b], p, i) {
      var j := a + i;
      var x, y := s[a..b][i..i + |p|], s[j..j + |p|];
      assert forall k :: 0 <= k < |p| ==> x[k] == y[k];
      assert At(s, p, j);
    }
  }

  lemma Assoc<T>(a: seq<T>, b: seq<T>, c: seq<T>)
    ensures a + (b + c) == a + b + c
  {
  }

  lemma DropConcat<T>(a: seq<T>, b: seq<T>, n: nat)
    requires n <= |a| + |b|
    ensures (a + b)[n..] == if n <= |a| then a[n..] + b else b[n - |a|..]
  {
  }
}
