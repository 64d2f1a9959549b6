/**
 * The ordering Rust's `Ord for str` uses, and `Vec::sort` over it.
 *
 * Rust compares strings byte by byte; since UTF-8 preserves the order of
 * code points, that is the lexicographic order on characters defined here.
 */
module StrOrder {

  /** `a <= b` in lexicographic order: a prefix comes first. */
  predicate Leq(a: string, b: string)
    decreases |a|
  {
    |a| == 0 || (|b| > 0 && (a[0] < b[0] || (a[0] == b[0] && Leq(a[1..], b[1..]))))
  }

  lemma {:induction false} LeqReflexive(a: string)
    ensures Leq(a, a)
    decreases |a|
  {
    if |a| > 0 {
      LeqReflexive(a[1..]);
    }
  }

  lemma {:induction false} LeqTotal(a: string, b: string)
    ensures Leq(a, b) || Leq(b, a)
    decreases |a|
  {
    if |a| > 0 && |b| > 0 && a[0] == b[0] {
      LeqTotal(a[1..], b[1..]);
    }
  }

  lemma {:induction false} LeqTransitive(a: string, b: string, c: string)
    requires Leq(a, b) && Leq(b, c)
    ensures Leq(a, c)
    decreases |a|
  {
    if |a| > 0 && a[0] == b[0] && b[0] == c[0] {
      LeqTransitive(a[1..], b[1..], c[1..]);
    }
  }

  lemma {:induction false} LeqAntisymmetric(a: string, b: string)
    requires Leq(a, b) && Leq(b, a)
    ensures a == b
    decreases |a|
  {
    if |a| > 0 {
      LeqAntisymmetric(a[1..], b[1..]);
      assert a == [a[0]] + a[1..] && b == [b[0]] + b[1..];
    }
  }

  /** Every element is at most every later one. */
  ghost predicate Sorted(s: seq<string>) {
    forall i, j :: 0 <= i < j < |s| ==> Leq(s[i], s[j])
  }

  /** The first element of a sorted sequence is its least, the last its greatest. */
  lemma SortedEnds(s: seq<string>)
    requires Sorted(s) && |s| >= 1
    ensures forall e :: e in s ==> Leq(s[0], e) && Leq(e, s[|s| - 1])
  {
    forall e | e in s ensures Leq(s[0], e) && Leq(e, s[|s| - 1]) {
      var j :| 0 <= j < |s| && s[j] == e;
      if j == 0 || j == |s| - 1 { LeqReflexive(e); }
    }
  }

  /** Places `x` into the sorted `s` before the first element not below it. */
  function InsertName(x: string, s: seq<string>): (r: seq<string>)
    requires Sorted(s)
    ensures multiset(r) == multiset(s) + multiset{x}
    ensures Sorted(r)
    decreases |s|
  {
    if |s| == 0 then [x]
    else if Leq(x, s[0]) then
      assert forall e | e in s :: Leq(x, e) by {
        SortedEnds(s);
        forall e | e in s ensures Leq(x, e) { LeqTransitive(x, s[0], e); }
      }
      SortedPrepend(x, s);
      [x] + s
    else
      var rest := InsertName(x, s[1..]);
      assert forall e | e in rest :: Leq(s[0], e) by {
        LeqTotal(x, s[0]);
        SortedEnds(s);
        forall e | e in rest ensures Leq(s[0], e) {
          assert e in multiset(rest);
          if e != x {
            assert e in multiset(s[1..]);
            assert e in s[1..];
          }
        }
      }
      SortedPrepend(s[0], rest);
      assert s == [s[0]] + s[1..];
      [s[0]] + rest
  }

  /** Putting a lower bound of a sorted sequence in front keeps it sorted. */
  lemma SortedPrepend(y: string, s: seq<string>)
    requires Sorted(s)
    requires forall e | e in s :: Leq(y, e)
    ensures Sorted([y] + s)
  {
    forall i, j | 0 <= i < j < |s| + 1 ensures Leq(([y] + s)[i], ([y] + s)[j]) {
      if i == 0 { assert s[j - 1] in s; }
    }
  }

  /** `names.sort()`: an ascending permutation of `names`. */
  function SortNames(names: seq<string>): (r: seq<string>)
    ensures multiset(r) == multiset(names)
    ensures Sorted(r)
    decreases |names|
  {
    if |names| == 0 then []
    else
      assert names == [names[0]] + names[1..];
      InsertName(names[0], SortNames(names[1..]))
  }

  /** The first element of a sorted sequence is at most anything it holds. */
  lemma SortedHeadLeast(s: seq<string>, x: string)
    requires Sorted(s) && x in multiset(s)
    ensures Leq(s[0], x)
  {
    var j :| 0 <= j < |s| && s[j] == x;
    if j == 0 { LeqReflexive(x); }
  }

  lemma TailMultiset(s: seq<string>)
    requires |s| > 0
    ensures multiset(s[1..]) == multiset(s) - multiset{s[0]}
  {
    assert s == [s[0]] + s[1..];
  }

  /**
   * Two ascending arrangements of the same names are equal, so any correct
   * sort (Rust's included) gives the result of SortNames.
   */
  lemma {:induction false} SortedPermutationUnique(a: seq<string>, b: seq<string>)
    requires Sorted(a) && Sorted(b)
    requires multiset(a) == multiset(b)
    ensures a == b
    decreases |a|
  {
    if |a| == 0 {
      assert |b| == |multiset(b)| == 0;
    } else {
      SortedHeadsEqual(a, b);
      TailMultiset(a);
      TailMultiset(b);
      SortedTail(a);
      SortedTail(b);
      SortedPermutationUnique(a[1..], b[1..]);
      assert a == [a[0]] + a[1..] && b == [b[0]] + b[1..];
    }
  }

  /** Two non-empty ascending arrangements of the same names start with the same name. */
  lemma SortedHeadsEqual(a: seq<string>, b: seq<string>)
    requires Sorted(a) && Sorted(b) && |a| > 0
    requires multiset(a) == multiset(b)
    ensures |b| > 0 && a[0] == b[0]
  {
    assert a[0] in multiset(b);
    assert b[0] in multiset(a);
    SortedHeadLeast(a, b[0]);
    SortedHeadLeast(b, a[0]);
    LeqAntisymmetric(a[0], b[0]);
  }

  lemma SortedTail(s: seq<string>)
    requires Sorted(s) && |s| > 0
    ensures Sorted(s[1..])
  {
    forall i, j | 0 <= i < j < |s[1..]| ensures Leq(s[1..][i], s[1..][j]) {
      assert s[1..][i] == s[i + 1] && s[1..][j] == s[j + 1];
    }
  }
}
