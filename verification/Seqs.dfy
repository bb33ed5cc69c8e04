/** Small facts about sequences and strings and an Option type, shared by the other modules. */
module Seqs {
  datatype Option<+T> = None | Some(value: T)

  lemma Middle<T>(a: seq<T>, b: seq<T>, c: seq<T>)
    ensures (a + b + c)[|a|..|a| + |b|] == b
    ensures (a + b + c)[..|a|] == a
    ensures (a + b + c)[|a| + |b|..] == c
    ensures (a + b + c)[|a|..] == b + c
  {
  }

  predicate HasPrefix(s: string, p: string) {
    p <= s
  }

  /** The bytes of a file after writing `b` at offset `at` over what is there. */
  function Overwrite<T>(f: seq<T>, at: nat, b: seq<T>): (r: seq<T>)
    requires at + |b| <= |f|
    ensures |r| == |f|
  {
    f[..at] + b + f[at + |b|..]
  }

  lemma OverwriteMiddle<T>(a: seq<T>, b: seq<T>, c: seq<T>, b': seq<T>)
    requires |b'| == |b|
    ensures Overwrite(a + b + c, |a|, b') == a + b' + c
  {
    Middle(a, b, c);
  }

  /** The images of the elements of `s`, one after another. */
  function Flat<S, T>(f: S -> seq<T>, s: seq<S>): seq<T> {
    if s == [] then [] else Flat(f, s[..|s| - 1]) + f(s[|s| - 1])
  }

  lemma {:induction false} FlatConcat<S, T>(f: S -> seq<T>, a: seq<S>, b: seq<S>)
    ensures Flat(f, a + b) == Flat(f, a) + Flat(f, b)
  {
    if b == [] {
      assert a + b == a;
    } else {
      assert (a + b)[..|a + b| - 1] == a + b[..|b| - 1];
      FlatConcat(f, a, b[..|b| - 1]);
    }
  }

  lemma FlatTake<S, T>(f: S -> seq<T>, s: seq<S>, k: nat)
    requires k < |s|
    ensures Flat(f, s[..k + 1]) == Flat(f, s[..k]) + f(s[k])
  {
    assert s[..k + 1][..k] == s[..k];
  }

  /** The image of element k, with what stands before and after it. */
  lemma FlatSplit<S, T>(f: S -> seq<T>, s: seq<S>, k: nat)
    requires k < |s|
    ensures Flat(f, s) == Flat(f, s[..k]) + f(s[k]) + Flat(f, s[k + 1..])
  {
    assert s == s[..k + 1] + s[k + 1..];
    FlatConcat(f, s[..k + 1], s[k + 1..]);
    FlatTake(f, s, k);
  }

  lemma {:induction false} FlatLonger<S, T>(f: S -> seq<T>, g: S -> seq<T>, s: seq<S>)
    requires forall x :: x in s ==> |f(x)| >= |g(x)|
    ensures |Flat(f, s)| >= |Flat(g, s)|
  {
    if s != [] {
      FlatLonger(f, g, s[..|s| - 1]);
    }
  }

  /** When one map never gives less than another, the flattened images agree only if
      the maps agree on every element. */
  lemma {:induction false} FlatEqual<S, T>(f: S -> seq<T>, g: S -> seq<T>, s: seq<S>)
    requires forall x :: x in s ==> |f(x)| >= |g(x)|
    ensures Flat(f, s) == Flat(g, s) <==> forall x :: x in s ==> f(x) == g(x)
  {
    if s != [] {
      var n := |s| - 1;
      FlatEqual(f, g, s[..n]);
      FlatLonger(f, g, s[..n]);
      assert forall x :: x in s <==> x in s[..n] || x == s[n];
      var a, b, c, d := Flat(f, s[..n]), f(s[n]), Flat(g, s[..n]), g(s[n]);
      if a + b == c + d {
        assert |a| == |c|;
        assert (a + b)[..|a|] == a && (c + d)[..|c|] == c;
        assert (a + b)[|a|..] == b && (c + d)[|c|..] == d;
      }
    }
  }

  /** Flattening the images of flattened images. */
  lemma {:induction false} FlatFlat<R, S, T>(f: S -> seq<T>, g: R -> seq<S>, h: R -> seq<T>, s: seq<R>)
    requires forall x :: x in s ==> h(x) == Flat(f, g(x))
    ensures Flat(f, Flat(g, s)) == Flat(h, s)
  {
    if s != [] {
      FlatFlat(f, g, h, s[..|s| - 1]);
      FlatConcat(f, Flat(g, s[..|s| - 1]), g(s[|s| - 1]));
    }
  }

  /** Images of the same lengths flatten to the same length. */
  lemma {:induction false} FlatLengths<S, T>(f: S -> seq<T>, s: seq<S>, t: seq<S>)
    requires |s| == |t|
    requires forall i :: 0 <= i < |s| ==> |f(s[i])| == |f(t[i])|
    ensures |Flat(f, s)| == |Flat(f, t)|
  {
    if s != [] {
      FlatLengths(f, s[..|s| - 1], t[..|t| - 1]);
    }
  }

  lemma SliceSlice<T>(f: seq<T>, at: nat, n: nat, i: nat, k: nat)
    requires at + n <= |f| && i + k <= n
    ensures f[at..at + n][i..i + k] == f[at + i..at + i + k]
  {
    var s, t := f[at..at + n][i..i + k], f[at + i..at + i + k];
    assert |s| == |t| == k;
    forall j | 0 <= j < k
      ensures s[j] == t[j]
    {
      assert s[j] == f[at..at + n][i + j] == f[at + (i + j)];
      assert t[j] == f[(at + i) + j];
    }
    assert s == t;
  }

  /** Where an element of the images comes from. */
  lemma {:induction false} FlatFrom<S, T>(f: S -> seq<T>, s: seq<S>, x: T)
    requires x in Flat(f, s)
    ensures exists k :: 0 <= k < |s| && x in f(s[k])
  {
    var n := |s| - 1;
    if x in f(s[n]) {
    } else {
      FlatFrom(f, s[..n], x);
      var k :| 0 <= k < n && x in f(s[..n][k]);
      assert s[..n][k] == s[k];
    }
  }

  /** Maps that agree position by position flatten to the same. */
  lemma {:induction false} FlatSame<R, S, T>(f: R -> seq<T>, s: seq<R>, g: S -> seq<T>, t: seq<S>)
    requires |s| == |t|
    requires forall i :: 0 <= i < |s| ==> f(s[i]) == g(t[i])
    ensures Flat(f, s) == Flat(g, t)
  {
    if s != [] {
      FlatSame(f, s[..|s| - 1], g, t[..|t| - 1]);
    }
  }

  function ToUpper(c: char): char {
    if 'a' <= c <= 'z' then (c as int - 32) as char else c
  }

  /** A C string, which ends at its first NUL, in upper case. */
  function UpperCase(s: string): string {
    if s == "" || s[0] == '\0' then "" else [ToUpper(s[0])] + UpperCase(s[1..])
  }

  lemma {:induction false} UpperStays(s: string)
    requires forall k :: 0 <= k < |s| ==> s[k] != '\0' && !('a' <= s[k] <= 'z')
    ensures UpperCase(s) == s
  {
    if s != "" {
      UpperStays(s[1..]);
      assert s == [s[0]] + s[1..];
    }
  }
}
