/**
 * The credential-list routines of the vault: the name order used to keep the
 * in-memory list of passwords sorted, the insertion sort that establishes that
 * order, and the binary search that answers "is this name already stored?".
 *
 * The Rust code works on a `&mut Vec<Password>` (sort) and a `&[Password]`
 * (contains). A mutable borrow cannot be aliased, so the vector is modelled as
 * a sequence value: `Sort` receives the old contents and returns the new ones,
 * and inside it the vector is a local sequence that `remove` and `insert`
 * reassign exactly as the Rust calls rearrange the vector.
 */
module Algo {

  /** A stored credential. Only `name` takes part in ordering and lookup. */
  datatype Password = Password(name: string, account: string, cyphertext: seq<bv8>)

  // ---------------------------------------------------------------------------
  // The name order
  // ---------------------------------------------------------------------------

  /**
   * `After(l, r)` holds when `l` comes strictly after `r` in lexicographic
   * order of characters (compared by code point). This is the meaning of the
   * Rust `alphabetical(lhs, rhs)`: read both strings in step; if `l` runs out
   * first it is not greater, if `r` runs out first `l` is greater, and
   * otherwise the first differing character decides.
   */
  function After(l: string, r: string): bool
  {
    if |l| == 0 then false
    else if |r| == 0 then true
    else if l[0] > r[0] then true
    else if l[0] < r[0] then false
    else After(l[1..], r[1..])
  }

  /** Lexicographic "strictly greater", stated without recursion. */
  ghost predicate LexGreater(l: string, r: string)
  {
    || (exists k :: 0 <= k < |l| && k < |r| && l[..k] == r[..k] && l[k] > r[k])
    || (|r| < |l| && l[..|r|] == r)
  }

  /** Equal first characters: the comparison moves on to the tails. */
  lemma LexGreaterTail(l: string, r: string)
    requires |l| > 0 && |r| > 0 && l[0] == r[0]
    ensures LexGreater(l, r) ==> LexGreater(l[1..], r[1..])
  {
    var l', r' := l[1..], r[1..];
    if LexGreater(l, r) {
      if exists k :: 0 <= k < |l| && k < |r| && l[..k] == r[..k] && l[k] > r[k] {
        var k :| 0 <= k < |l| && k < |r| && l[..k] == r[..k] && l[k] > r[k];
        assert k != 0;
        assert l'[..k - 1] == l[..k][1..] && r'[..k - 1] == r[..k][1..];
        assert l'[k - 1] > r'[k - 1];
      } else {
        assert l'[..|r'|] == l[..|r|][1..];
      }
    }
  }

  /** Equal first characters: a greater tail makes a greater string. */
  lemma LexGreaterCons(l: string, r: string)
    requires |l| > 0 && |r| > 0 && l[0] == r[0]
    ensures LexGreater(l[1..], r[1..]) ==> LexGreater(l, r)
  {
    var l', r' := l[1..], r[1..];
    if LexGreater(l', r') {
      if exists k :: 0 <= k < |l'| && k < |r'| && l'[..k] == r'[..k] && l'[k] > r'[k] {
        var k :| 0 <= k < |l'| && k < |r'| && l'[..k] == r'[..k] && l'[k] > r'[k];
        assert l[..k + 1] == [l[0]] + l'[..k] && r[..k + 1] == [r[0]] + r'[..k];
        assert l[k + 1] > r[k + 1];
      } else {
        assert l[..|r|] == [l[0]] + l'[..|r'|] && r == [r[0]] + r';
      }
    }
  }

  /** Different first characters decide the comparison. */
  lemma LexGreaterHead(l: string, r: string)
    requires |l| > 0 && |r| > 0 && l[0] != r[0]
    ensures LexGreater(l, r) <==> l[0] > r[0]
  {
    if l[0] > r[0] {
      assert l[..0] == r[..0];
    }
  }

  /** `After` is exactly lexicographic "strictly greater", in both directions. */
  lemma {:induction false} AfterIsLexGreater(l: string, r: string)
    ensures After(l, r) <==> LexGreater(l, r)
  {
    if |l| == 0 {
      assert !LexGreater(l, r);
    } else if |r| == 0 {
      assert l[..|r|] == r;
    } else if l[0] != r[0] {
      LexGreaterHead(l, r);
    } else {
      AfterIsLexGreater(l[1..], r[1..]);
      LexGreaterTail(l, r);
      LexGreaterCons(l, r);
    }
  }

  /** No string comes after itself. */
  lemma {:induction false} AfterIrreflexive(s: string)
    ensures !After(s, s)
  {
    if |s| > 0 {
      AfterIrreflexive(s[1..]);
    }
  }

  /** `After` is asymmetric. */
  lemma {:induction false} AfterAsymmetric(l: string, r: string)
    ensures After(l, r) ==> !After(r, l)
  {
    if |l| > 0 && |r| > 0 && l[0] == r[0] {
      AfterAsymmetric(l[1..], r[1..]);
    }
  }

  /** `After` is transitive. */
  lemma {:induction false} AfterTransitive(a: string, b: string, c: string)
    requires After(a, b) && After(b, c)
    ensures After(a, c)
  {
    if |c| > 0 && a[0] == b[0] == c[0] {
      AfterTransitive(a[1..], b[1..], c[1..]);
    }
  }

  /** Two different strings are always ordered one way or the other. */
  lemma {:induction false} AfterTotal(l: string, r: string)
    requires l != r
    ensures After(l, r) || After(r, l)
  {
    if |l| > 0 && |r| > 0 && l[0] == r[0] {
      assert l == [l[0]] + l[1..] && r == [r[0]] + r[1..];
      AfterTotal(l[1..], r[1..]);
    }
  }

  /** "Not after", the order `sort` establishes, is transitive. */
  lemma NotAfterTransitive(a: string, b: string, c: string)
    requires !After(a, b) && !After(b, c)
    ensures !After(a, c)
  {
    if a != b && b != c {
      AfterTotal(a, b);
      AfterTotal(b, c);
      AfterTransitive(c, b, a);
      AfterAsymmetric(c, a);
    }
  }

  /**
   * The loop of the Rust `alphabetical`, advancing two character iterators in
   * step; the result is the recursive `After`.
   */
  method Alphabetical(lhs: string, rhs: string) returns (greater: bool)
    ensures greater == After(lhs, rhs)
  {
    var i := 0;
    while true
      invariant 0 <= i <= |lhs| && i <= |rhs|
      invariant After(lhs[i..], rhs[i..]) == After(lhs, rhs)
      decreases |lhs| - i
    {
      if i == |lhs| {
        return false;
      }
      if i == |rhs| {
        return true;
      }
      var l, r := lhs[i], rhs[i];
      if l > r {
        return true;
      } else if l < r {
        return false;
      }
      assert lhs[i..][1..] == lhs[i + 1..] && rhs[i..][1..] == rhs[i + 1..];
      i := i + 1;
    }
  }

  // ---------------------------------------------------------------------------
  // Sortedness
  // ---------------------------------------------------------------------------

  /** No adjacent pair is out of order: what `sort` promises. */
  predicate SortedByName(s: seq<Password>)
  {
    forall k :: 0 <= k < |s| - 1 ==> !After(s[k].name, s[k + 1].name)
  }

  /** No pair at all is out of order. */
  predicate Ordered(s: seq<Password>)
  {
    forall a, b :: 0 <= a < b < |s| ==> !After(s[a].name, s[b].name)
  }

  /** Adjacent order implies order of every pair, by transitivity. */
  lemma {:induction false} SortedIsOrdered(s: seq<Password>)
    requires SortedByName(s)
    ensures Ordered(s)
  {
    if |s| > 1 {
      var t := s[1..];
      assert SortedByName(t) by {
        forall k | 0 <= k < |t| - 1 ensures !After(t[k].name, t[k + 1].name) {
          assert t[k] == s[k + 1] && t[k + 1] == s[k + 2];
        }
      }
      SortedIsOrdered(t);
      forall a, b | 0 <= a < b < |s| ensures !After(s[a].name, s[b].name) {
        if a == 0 && b > 1 {
          assert s[b] == t[b - 1] && s[1] == t[0];
          NotAfterTransitive(s[0].name, s[1].name, s[b].name);
        } else if a > 0 {
          assert s[a] == t[a - 1] && s[b] == t[b - 1];
        }
      }
    }
  }

  /**
   * Putting `x` at position `at` of an ordered sequence keeps it ordered when
   * everything before `at` is not after `x` and `x` is not after the element
   * it is placed in front of.
   */
  lemma InsertKeepsOrder(prefix: seq<Password>, x: Password, at: nat)
    requires at <= |prefix|
    requires Ordered(prefix)
    requires forall k :: 0 <= k < at ==> !After(prefix[k].name, x.name)
    requires at < |prefix| ==> !After(x.name, prefix[at].name)
    ensures Ordered(prefix[..at] + [x] + prefix[at..])
  {
    var s := prefix[..at] + [x] + prefix[at..];
    forall a, b | 0 <= a < b < |s| ensures !After(s[a].name, s[b].name) {
      if b < at || a > at || (a < at && b > at) {
        assert s[a] == prefix[if a < at then a else a - 1];
        assert s[b] == prefix[if b < at then b else b - 1];
      } else if b == at {
        assert s[a] == prefix[a] && s[b] == x;
      } else if a == at && b - 1 == at {
        assert s[b] == prefix[at];
      } else {
        assert s[a] == x && s[b] == prefix[b - 1];
        NotAfterTransitive(x.name, prefix[at].name, prefix[b - 1].name);
      }
    }
  }

  // ---------------------------------------------------------------------------
  // Insertion sort
  // ---------------------------------------------------------------------------

  /**
   * `Vec::remove(i)` followed by `Vec::insert(j, _)` of the removed entry, for
   * `j <= i`, moves the entry at `i` to `j` and shifts `j..i` up by one; the
   * entries after `i` stay where they were and nothing is lost or duplicated.
   */
  lemma RemoveThenInsert(s: seq<Password>, i: nat, j: nat, t: seq<Password>)
    requires j <= i < |s|
    requires t == (s[..i] + s[i + 1..])[..j] + [s[i]] + (s[..i] + s[i + 1..])[j..]
    ensures |t| == |s|
    ensures t[..i + 1] == s[..j] + [s[i]] + s[j..i]
    ensures t[i + 1..] == s[i + 1..]
    ensures multiset(t) == multiset(s)
  {
    var removed := s[..i] + s[i + 1..];
    assert removed[..j] == s[..j];
    assert removed[j..] == s[j..i] + s[i + 1..];
    assert t == s[..j] + [s[i]] + s[j..i] + s[i + 1..];
    assert s == s[..j] + s[j..i] + [s[i]] + s[i + 1..];
  }

  /**
   * The one move `sort` makes per outer step: the entry `x` that follows the
   * already ordered `prefix` is moved in front of `prefix[j]`.
   */
  lemma MoveIntoPlace(previous: seq<Password>, prefix: seq<Password>, x: Password, i: nat, j: nat, s: seq<Password>)
    requires j < i == |prefix| < |previous|
    requires previous[..i + 1] == prefix + [x]
    requires s == (previous[..i] + previous[i + 1..])[..j] + [previous[i]]
                  + (previous[..i] + previous[i + 1..])[j..]
    ensures |s| == |previous|
    ensures s[..i + 1] == prefix[..j] + [x] + prefix[j..]
    ensures s[i + 1..] == previous[i + 1..]
    ensures multiset(s) == multiset(previous)
  {
    RemoveThenInsert(previous, i, j, s);
    assert previous[i] == (prefix + [x])[i] == x;
    assert previous[..j] == (prefix + [x])[..j] == prefix[..j];
    assert previous[j..i] == (prefix + [x])[j..i] == prefix[j..];
  }

  /**
   * The Rust `sort`: for every `i`, scan `j` over `0..i`; whenever the entry
   * at `j` comes after the entry currently at `i`, remove the entry at `i` and
   * insert it at `j`. The result has the same entries, each as often as
   * before, in non-decreasing name order.
   */
  method Sort(list: seq<Password>) returns (sorted: seq<Password>)
    ensures |sorted| == |list|
    ensures multiset(sorted) == multiset(list)
    ensures SortedByName(sorted)
    ensures Ordered(sorted)
  {
    var s := list;
    var len := |s|;
    for i := 0 to len
      invariant |s| == len
      invariant multiset(s) == multiset(list)
      invariant Ordered(s[..i])
    {
      ghost var before := s;
      ghost var prefix, x := s[..i], s[i];
      // `at` is where the entry that started at `i` currently stands
      ghost var at := i;
      assert before[..i + 1] == prefix[..at] + [x] + prefix[at..];
      for j := 0 to i
        invariant |s| == len
        invariant multiset(s) == multiset(list)
        invariant 0 <= at <= i
        invariant s[..i + 1] == prefix[..at] + [x] + prefix[at..]
        invariant s[i + 1..] == before[i + 1..]
        invariant forall k :: 0 <= k < at && k < j ==> !After(prefix[k].name, x.name)
        invariant at < i ==> at < j && !After(x.name, prefix[at].name)
      {
        ShiftedEntries(s, prefix, x, i, j, at);
        var greater := Alphabetical(s[j].name, s[i].name);
        if greater {
          var password := s[i];
          ghost var previous := s;
          s := s[..i] + s[i + 1..];           // list.remove(i)
          s := s[..j] + [password] + s[j..];  // list.insert(j, password)
          MoveIntoPlace(previous, prefix, x, i, j, s);
          AfterAsymmetric(prefix[j].name, x.name);
          at := j;
        }
      }
      InsertKeepsOrder(prefix, x, at);
    }
    assert s[..len] == s;
    sorted := s;
  }

  /**
   * What the inner loop of `Sort` compares: before the entry from `i` has
   * moved, `prefix[j]` with that entry; once it has moved to `at < j`, the
   * shifted `prefix[j - 1]` with the largest entry of `prefix`, which never
   * triggers another move.
   */
  lemma ShiftedEntries(s: seq<Password>, prefix: seq<Password>, x: Password, i: nat, j: nat, at: nat)
    requires j < i == |prefix| < |s| && at <= i
    requires s[..i + 1] == prefix[..at] + [x] + prefix[at..]
    requires Ordered(prefix)
    requires at < i ==> at < j
    ensures at == i ==> s[j] == prefix[j] && s[i] == x
    ensures at < i ==> !After(s[j].name, s[i].name)
  {
    assert s[j] == s[..i + 1][j] && s[i] == s[..i + 1][i];
    if at < i {
      assert s[j] == prefix[j - 1] && s[i] == prefix[i - 1];
      assert !After(prefix[j - 1].name, prefix[i - 1].name);
    }
  }

  // ---------------------------------------------------------------------------
  // Binary search
  // ---------------------------------------------------------------------------

  /**
   * The Rust `contains`, as written: a binary search between an exclusive
   * `lhs` and an exclusive `rhs` that gives up as soon as the midpoint equals
   * `lhs`. Index 0 is never inspected. A `true` answer is always backed by a
   * stored entry of that name at index 1 or later; on a list in name order
   * the answer is exactly whether such an entry exists.
   */
  method Contains(name: string, list: seq<Password>) returns (found: bool)
    ensures |list| == 0 ==> !found
    ensures found ==> exists k :: 1 <= k < |list| && list[k].name == name
    ensures Ordered(list) ==>
              (found <==> exists k :: 1 <= k < |list| && list[k].name == name)
  {
    var lhs, rhs := 0, |list|;
    while true
      invariant 0 <= lhs <= rhs <= |list|
      invariant Ordered(list) ==>
                  forall k :: 1 <= k < |list| && list[k].name == name ==> lhs < k < rhs
      decreases rhs - lhs
    {
      var middle := (rhs - lhs) / 2 + lhs;
      if middle == lhs {
        return false;
      }
      var element := list[middle];
      if name == element.name {
        return true;
      }
      var greater := Alphabetical(name, element.name);
      if greater {
        forall k | 1 <= k <= middle && list[k].name == name && Ordered(list)
          ensures false
        {
        }
        lhs := middle;
      } else {
        forall k | middle <= k < |list| && list[k].name == name && Ordered(list)
          ensures false
        {
          if k != middle {
            AfterTotal(name, element.name);
          }
        }
        rhs := middle;
      }
    }
  }

  /**
   * The search the Rust `contains` evidently intends: a half-open range
   * `lhs..rhs` that still includes index 0. On a list in name order it finds
   * a name exactly when some entry carries it.
   */
  method ContainsFixed(name: string, list: seq<Password>) returns (found: bool)
    ensures found ==> exists k :: 0 <= k < |list| && list[k].name == name
    ensures Ordered(list) ==>
              (found <==> exists k :: 0 <= k < |list| && list[k].name == name)
  {
    var lhs, rhs := 0, |list|;
    while lhs < rhs
      invariant 0 <= lhs <= rhs <= |list|
      invariant Ordered(list) ==>
                  forall k :: 0 <= k < |list| && list[k].name == name ==> lhs <= k < rhs
    {
      var middle := (rhs - lhs) / 2 + lhs;
      var element := list[middle];
      if name == element.name {
        return true;
      }
      var greater := Alphabetical(name, element.name);
      if greater {
        forall k | 0 <= k <= middle && list[k].name == name && Ordered(list)
          ensures false
        {
        }
        lhs := middle + 1;
      } else {
        forall k | middle <= k < |list| && list[k].name == name && Ordered(list)
          ensures false
        {
          if k != middle {
            AfterTotal(name, element.name);
          }
        }
        rhs := middle;
      }
    }
    return false;
  }

  /**
   * A one-entry list whose only entry is named "a": the search as written
   * answers `false`, the corrected search answers `true`.
   */
  method ContainsMissesFirstEntry() returns (list: seq<Password>, asWritten: bool, corrected: bool)
    ensures |list| == 1 && list[0].name == "a"
    ensures !asWritten && corrected
  {
    list := [Password("a", "", [])];
    asWritten := Contains("a", list);
    corrected := ContainsFixed("a", list);
  }
}
