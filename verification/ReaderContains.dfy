/** The sliding-window search of helpers/general.go; bytes are characters, as elsewhere in the model. */
module ReaderContains {
  import opened Common

  /** A reader over a finite stream. */
  class Reader {
    var rest: string

    constructor (stream: string)
      ensures rest == stream
    {
      rest := stream;
    }

    /** io.ReadAtLeast with the whole of buf[lo..hi] as minimum: an error is returned exactly when it is not filled. */
    method ReadFull(buf: array<char>, lo: nat, hi: nat) returns (n: nat, err: bool)
      requires lo <= hi <= buf.Length
      modifies this, buf
      ensures n == if |old(rest)| < hi - lo then |old(rest)| else hi - lo
      ensures err <==> n < hi - lo
      ensures rest == old(rest)[n..]
      ensures buf[..] == old(buf[..lo]) + old(rest)[..n] + old(buf[lo + n..])
    {
      n := if |rest| < hi - lo then |rest| else hi - lo;
      for i := 0 to n
        invariant rest == old(rest)
        invariant buf[..lo] == old(buf[..lo])
        invariant buf[lo..lo + i] == rest[..i]
        invariant buf[lo + i..] == old(buf[lo + i..])
      {
        buf[lo + i] := rest[i];
      }
      rest := rest[n..];
      err := n < hi - lo;
    }
  }

  function Zeros(n: nat): string
  {
    seq(n, i => '\0')
  }

  /** What the buffer holds after the first read into its first half. */
  function FirstWindow(stream: string, half: nat): string
  {
    var n := if |stream| < half then |stream| else half;
    stream[..n] + Zeros(2 * half - n)
  }

  /** What remains of `n` bytes after reading whole halves: the remainder of the division. */
  function Remainder(n: nat, half: nat): (r: nat)
    requires half > 0
    ensures r < half && r <= n
  {
    if n < half then n else Remainder(n - half, half)
  }

  lemma {:induction false} RemainderOfLonger(n: nat, half: nat)
    requires 0 < half <= n
    ensures n - Remainder(n, half) >= half
  {
    if n - half >= half {
      RemainderOfLonger(n - half, half);
    }
  }

  /** `pos` is a whole number of halves. */
  predicate Aligned(pos: nat, half: nat)
    requires half > 0
  {
    pos == 0 || (pos >= half && Aligned(pos - half, half))
  }

  lemma {:induction false} RemainderPastAligned(pos: nat, half: nat, n: nat)
    requires n < half && Aligned(pos, half)
    ensures Remainder(pos + n, half) == n
  {
    if pos > 0 {
      RemainderPastAligned(pos - half, half, n);
    }
  }

  /** What the buffer holds after a last read that came up short: the end of its second half is left over. */
  function LastWindow(stream: string, half: nat): string
    requires 0 < half <= |stream|
  {
    RemainderOfLonger(|stream|, half);
    WindowAt(stream, half, |stream| - Remainder(|stream|, half))
  }

  /** The buffer after reading on from `pos`, where the full reads ended. */
  function WindowAt(stream: string, half: nat, pos: nat): string
    requires 0 < half <= pos <= |stream| && |stream| - pos < half
  {
    var before := stream[pos - half..pos];
    before + stream[pos..] + (if pos == half then Zeros(half - (|stream| - pos)) else before[|stream| - pos..])
  }

  /** One of the windows that the buffer goes through holds the pattern although it may not be in the stream. */
  ghost predicate InSomeWindow(stream: string, p: string, half: nat)
    requires half > 0
  {
    || Occurs(FirstWindow(stream, half), p)
    || (half <= |stream| && Remainder(|stream|, half) > 0 && Occurs(LastWindow(stream, half), p))
  }

  /** Windows that overlap by more than the pattern, less one, miss nothing. */
  lemma Overlap(s: string, a: nat, b: nat, c: nat, p: string)
    requires a <= b <= c <= |s| && |p| <= b - a
    requires !Occurs(s[..b], p) && !Occurs(s[a..c], p)
    ensures !Occurs(s[..c], p)
  {
    forall i ensures !At(s[..c], p, i) {
      if 0 <= i && i + |p| <= b {
        assert !At(s[..b], p, i);
        assert s[..b][i..i + |p|] == s[..c][i..i + |p|];
      } else if a <= i && i + |p| <= c {
        assert !At(s[a..c], p, i - a);
        assert s[a..c][i - a..i - a + |p|] == s[..c][i..i + |p|];
      }
    }
  }

  lemma OccursInPrefixContra(s: string, t: string, p: string)
    requires !Occurs(s + t, p)
    ensures !Occurs(s, p)
  {
    forall i ensures !At(s, p, i) {
      assert !At(s + t, p, i);
      assert 0 <= i && i + |p| <= |s| ==> (s + t)[i..i + |p|] == s[i..i + |p|];
    }
  }

  /** The buffer after full reads up to `pos`. */
  ghost predicate Filled(buf: string, stream: string, half: nat, pos: nat)
    requires half > 0 && pos <= |stream|
  {
    && Aligned(pos, half)
    && (pos == 0 ==> buf == Zeros(2 * half))
    && (pos == half ==> buf == stream[..half] + Zeros(half))
    && (pos > half ==> pos >= 2 * half && buf == stream[pos - 2 * half..pos])
  }

  /** The first read fills the first half of the buffer. */
  method FirstFill(r: Reader, buf: array<char>, half: nat) returns (n: nat, err: bool)
    requires half > 0 && buf.Length == 2 * half && buf[..] == Zeros(2 * half)
    modifies r, buf
    ensures err <==> n < half
    ensures n <= |old(r.rest)| && r.rest == old(r.rest)[n..]
    ensures Window(buf[..], old(r.rest), half, 0, n)
  {
    n, err := r.ReadFull(buf, 0, half);
    assert Zeros(2 * half)[n..] == Zeros(2 * half - n);
  }

  /** The later ones shift it left, from the third round on, and fill its second half. */
  method Refill(r: Reader, buf: array<char>, half: nat, i: nat, ghost stream: string, ghost pos: nat) returns (n: nat, err: bool)
    requires 0 < half <= pos <= |stream| && buf.Length == 2 * half && i > 1 && (i == 2 <==> pos == half)
    requires r.rest == stream[pos..] && Filled(buf[..], stream, half, pos)
    modifies r, buf
    ensures err <==> n < half
    ensures pos + n <= |stream| && r.rest == stream[pos + n..]
    ensures Window(buf[..], stream, half, pos, n)
  {
    if i != 2 {
      Shift(buf, half);
    }
    ghost var before, tail := buf[..half], buf[half..];
    assert before == stream[pos - half..pos];
    assert tail == if pos == half then Zeros(half) else before;
    n, err := r.ReadFull(buf, half, 2 * half);
    assert buf[..] == before + stream[pos..pos + n] + tail[n..];
    ReadIsWindow(before, tail, stream, half, pos, n);
  }

  lemma ReadIsWindow(before: string, tail: string, stream: string, half: nat, pos: nat, n: nat)
    requires 0 < half <= pos <= |stream| && before == stream[pos - half..pos]
    requires tail == if pos == half then Zeros(half) else before
    requires n == if |stream| - pos < half then |stream| - pos else half
    ensures Window(before + stream[pos..pos + n] + tail[n..], stream, half, pos, n)
  {
    if n < half {
      assert stream[pos..pos + n] == stream[pos..];
      assert Zeros(half)[n..] == Zeros(half - n);
    } else {
      assert tail[n..] == "";
      assert before + stream[pos..pos + half] == stream[pos - half..pos + half];
    }
  }

  method Shift(buf: array<char>, half: nat)
    requires buf.Length == 2 * half
    modifies buf
    ensures buf[..half] == buf[half..] == old(buf[half..])
  {
    forall k | 0 <= k < half {
      buf[k] := buf[half + k];
    }
  }

  /** The buffer after a read at `pos`, which got `n` bytes. */
  ghost predicate Window(buf: string, stream: string, half: nat, pos: nat, n: nat)
    requires half > 0 && pos <= |stream|
  {
    && n == (if |stream| - pos < half then |stream| - pos else half)
    && (pos == 0 ==> buf == FirstWindow(stream, half))
    && (pos > 0 ==> pos >= half)
    && (pos > 0 && n < half ==> buf == WindowAt(stream, half, pos))
    && (pos > 0 && n == half ==> buf == stream[pos - half..pos + half])
  }

  lemma FoundIsRight(buf: string, stream: string, p: string, half: nat, pos: nat, n: nat)
    requires half == 2 * |p| > 0 && pos <= |stream| && Aligned(pos, half) && Window(buf, stream, half, pos, n)
    requires n > 0 && Occurs(buf, p)
    ensures stream != "" && (Occurs(stream, p) || InSomeWindow(stream, p, half))
  {
    if pos > 0 {
      if n < half {
        RemainderPastAligned(pos, half, n);
      } else {
        OccursInSlice(stream, pos - half, pos + half, p);
      }
    }
  }

  lemma NotFoundYet(buf: string, stream: string, p: string, half: nat, pos: nat)
    requires half == 2 * |p| > 0 && pos + half <= |stream| && Aligned(pos, half)
    requires Window(buf, stream, half, pos, half) && !Occurs(buf, p) && !Occurs(stream[..pos], p)
    ensures !Occurs(stream[..pos + half], p)
    ensures Filled(buf, stream, half, pos + half)
  {
    if pos == 0 {
      OccursInPrefixContra(stream[..half], Zeros(half), p);
    } else {
      Overlap(stream, pos - half, pos, pos + half, p);
    }
  }

  lemma NotFoundIsRight(buf: string, stream: string, p: string, half: nat, pos: nat, n: nat)
    requires half == 2 * |p| > 0 && pos <= |stream| && Aligned(pos, half) && Window(buf, stream, half, pos, n) && n < half
    requires n > 0 ==> !Occurs(buf, p)
    requires !Occurs(stream[..pos], p)
    requires pos > 0 ==> !Occurs(FirstWindow(stream, half), p)
    ensures stream == "" || !(Occurs(stream, p) || InSomeWindow(stream, p, half))
  {
    RemainderPastAligned(pos, half, n);
    if n == 0 {
      assert stream[..pos] == stream;
    } else if pos == 0 {
      assert stream[..n] == stream;
      OccursInPrefixContra(stream, Zeros(2 * half - n), p);
    } else {
      var left := if pos == half then Zeros(half - n) else stream[pos - half..pos][n..];
      assert stream[pos - half..] == stream[pos - half..pos] + stream[pos..];
      OccursInPrefixContra(stream[pos - half..], left, p);
      assert stream[pos - half..|stream|] == stream[pos - half..];
      Overlap(stream, pos - half, pos, |stream|, p);
      assert stream[..|stream|] == stream;
    }
  }

  /** What the search answers for a stream. */
  ghost predicate Shown(stream: string, p: string, half: nat)
    requires half > 0
  {
    stream != "" && (Occurs(stream, p) || InSomeWindow(stream, p, half))
  }

  /** The state between two rounds: `pos` bytes have been read in whole halves, without finding the pattern. */
  ghost predicate Unfinished(buf: string, stream: string, p: string, half: nat, i: nat, pos: nat)
  {
    && half == 2 * |p| > 0 && pos <= |stream|
    && (i == 0 <==> pos == 0) && (i == 1 <==> pos == half)
    && Filled(buf, stream, half, pos)
    && !Occurs(stream[..pos], p)
    && (i > 0 ==> !Occurs(FirstWindow(stream, half), p))
  }

  lemma NothingRead(buf: string, stream: string, p: string, half: nat)
    requires half == 2 * |p| > 0 && buf == Zeros(2 * half)
    ensures Unfinished(buf, stream, p, half, 0, 0)
  {}

  /** One round of the loop: a read, and a look at the buffer if it brought anything. */
  method Round(r: Reader, buf: array<char>, half: nat, i: nat, p: string, ghost stream: string, ghost pos: nat)
    returns (found: bool, err: bool)
    requires half == 2 * |p| > 0 && buf.Length == 2 * half && i > 0
    requires Unfinished(buf[..], stream, p, half, i - 1, pos) && r.rest == stream[pos..]
    modifies r, buf
    ensures found ==> Shown(stream, p, half)
    ensures !found && err ==> !Shown(stream, p, half)
    ensures !found && !err ==>
      && pos + half <= |stream| && r.rest == stream[pos + half..]
      && Unfinished(buf[..], stream, p, half, i, pos + half)
  {
    var n: nat;
    if i == 1 {
      n, err := FirstFill(r, buf, half);
    } else {
      n, err := Refill(r, buf, half, i, stream, pos);
    }
    ghost var window := buf[..];
    IndexNone(window, p);
    found := n > 0 && Index(buf[..], p) >= 0;
    if found {
      FoundIsRight(window, stream, p, half, pos, n);
    } else if err {
      NotFoundIsRight(window, stream, p, half, pos, n);
    } else {
      NotFoundYet(window, stream, p, half, pos);
    }
  }

  /**
    Whether the pattern occurs in what `r` still has to give. Exactly: it occurs in the stream, or in the first
    window with the zeros behind it, or in the last window with the left-over bytes behind it.
   */
  method Contains(r: Reader?, p: string) returns (found: bool)
    modifies r
    ensures r == null || p == "" ==> !found
    ensures r != null && p != "" ==>
      (found <==> old(r.rest) != "" && (Occurs(old(r.rest), p) || InSomeWindow(old(r.rest), p, 2 * |p|)))
  {
    if r == null || p == "" {
      return false;
    }
    ghost var stream, pos: nat := r.rest, 0;
    var bufflen := |p| * 4;
    var half := bufflen / 2;
    var buf := new char[bufflen](_ => '\0');
    NothingRead(buf[..], stream, p, half);
    var i, err := 0, false;
    while true
      invariant Unfinished(buf[..], stream, p, half, i, pos) && r.rest == stream[pos..]
      decreases |r.rest|
    {
      i := i + 1;
      found, err := Round(r, buf, half, i, p, stream, pos);
      if found {
        return true;
      }
      if err {
        break;
      }
      pos := pos + half;
    }
    return false;
  }

  /** The buffer shows no pattern that is not there when the reads come out even and the pattern has no zero byte. */
  lemma EvenReadsAreExact(stream: string, p: string)
    requires p != "" && '\0' !in p && Remainder(|stream|, 2 * |p|) == 0
    ensures InSomeWindow(stream, p, 2 * |p|) ==> Occurs(stream, p)
  {
    var half := 2 * |p|;
    var n := if |stream| < half then |stream| else half;
    var first := FirstWindow(stream, half);
    if Occurs(first, p) {
      var i :| At(first, p, i);
      assert first[i..i + |p|][|p| - 1] == first[i + |p| - 1];
      assert i + |p| <= n;
      assert first[i..i + |p|] == stream[i..i + |p|];
      assert At(stream, p, i);
    }
  }

  /** Otherwise it can: the zeros behind a short stream count as part of it. */
  lemma PaddingIsFound()
    ensures InSomeWindow("a", "\0", 2) && !Occurs("a", "\0")
  {
    var first := FirstWindow("a", 2);
    assert At(first, "\0", 1);
    forall k ensures !At("a", "\0", k) {
      if k == 0 {
        assert "a"[0..1][0] == 'a';
      }
    }
  }

  /** And so do the bytes left over behind a short last read. */
  lemma LeftoversAreFound()
    ensures InSomeWindow("abcdefghi", "if", 4) && !Occurs("abcdefghi", "if")
  {
    var stream := "abcdefghi";
    assert Remainder(9, 4) == Remainder(5, 4) == 1;
    var last := LastWindow(stream, 4);
    assert last == "efgh" + "i" + "fgh";
    assert At(last, "if", 4);
    forall k ensures !At(stream, "if", k) {
      if 0 <= k < 8 {
        assert stream[k..k + 2][0] == stream[k] != 'i';
      }
    }
  }
}
