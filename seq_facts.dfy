/**
 * Facts about sequences of any element type, used to rearrange byte and
 * word sequences without looking at their elements.
 */
module SeqFacts {
  lemma TakeOneMore<T>(s: seq<T>, i: nat)
    requires i < |s|
    ensures s[..i + 1] == s[..i] + [s[i]]
  {
  }

  lemma TakeAppend<T>(a: seq<T>, b: seq<T>)
    ensures (a + b)[..|a|] == a && (a + b)[|a|..] == b
  {
  }

  lemma EmptyAppend<T>(a: seq<T>)
    ensures [] + a == a
  {
  }

  lemma Pair<T>(x: T, y: T)
    ensures [x] + [y] == [x, y]
  {
  }

  lemma Associative<T>(a: seq<T>, b: seq<T>, c: seq<T>)
    ensures a + (b + c) == (a + b) + c
  {
  }

  /** Overwriting the last |x| elements of `a + z` with `x` gives `a + x`. */
  lemma ReplaceSuffix<T>(a: seq<T>, z: seq<T>, x: seq<T>)
    requires |z| == |x|
    ensures (a + z)[..|a|] + x + (a + z)[|a| + |z|..] == a + x
  {
    assert (a + z)[..|a|] == a;
    assert (a + z)[|a| + |z|..] == [];
  }

  /** Overwriting the first |x| elements of `z` with `x`. */
  lemma ReplacePrefix<T>(z: seq<T>, x: seq<T>)
    requires |x| <= |z|
    ensures z[..0] + x + z[|x|..] == x + z[|x|..]
  {
    assert z[..0] == [];
  }

  lemma Overwrite<T>(s: seq<T>, i: nat, x: T)
    requires i < |s|
    ensures s[i := x] == s[..i] + [x] + s[i + 1..]
  {
  }

  lemma AppendSlices<T>(a: seq<T>, b: seq<T>, k: nat)
    requires k <= |a|
    ensures (a + b)[..k] == a[..k] && (a + b)[k..] == a[k..] + b
  {
  }

  lemma TakeDrop<T>(s: seq<T>, k: nat)
    requires k <= |s|
    ensures s[..k] + s[k..] == s
  {
  }

  lemma CancelLeft<T>(a: seq<T>, b: seq<T>, c: seq<T>)
    ensures a + b == a + c <==> b == c
  {
    if a + b == a + c {
      assert b == (a + b)[|a|..] == (a + c)[|a|..] == c;
    }
  }

  lemma AppendEmpty<T>(a: seq<T>)
    ensures a + [] == a
  {
  }

  lemma Regroup<T>(a: seq<T>, b: seq<T>, c: seq<T>, d: seq<T>, e: seq<T>)
    ensures (a + b) + c + d + e == a + (b + c + d + e)
  {
  }

  lemma SingletonEquality<T>(x: T, y: T)
    ensures [x] == [y] <==> x == y
  {
    if [x] == [y] {
      assert x == [x][0] == [y][0] == y;
    }
  }

  lemma PairEquality<T>(x0: T, x1: T, y0: T, y1: T)
    ensures [x0, x1] == [y0, y1] <==> x0 == y0 && x1 == y1
  {
    if [x0, x1] == [y0, y1] {
      assert x0 == [x0, x1][0] == [y0, y1][0] == y0;
      assert x1 == [x0, x1][1] == [y0, y1][1] == y1;
    }
  }

  /** `a + (z0 + z1) + e`, cut after `a + z0`. */
  lemma SplitMiddle<T>(a: seq<T>, z0: seq<T>, z1: seq<T>, e: seq<T>)
    ensures (a + (z0 + z1) + e)[..|a| + |z0|] == a + z0
    ensures (a + (z0 + z1) + e)[|a| + |z0|..] == z1 + e
  {
  }
}
