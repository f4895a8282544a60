/**
 * `list(set(xs))` as the scanners use it: the order Python's set iteration
 * gives is not specified, so the model keeps first occurrences and its
 * contract promises only the set of elements and the absence of repeats.
 */
module Collections {

  /** `[f(x) for x in xs]` */
  function MapSeq<A, B>(xs: seq<A>, f: A -> B): (r: seq<B>)
    ensures |r| == |xs| && forall i :: 0 <= i < |xs| ==> r[i] == f(xs[i])
  {
    seq(|xs|, i requires 0 <= i < |xs| => f(xs[i]))
  }

  /** No element occurs twice. */
  predicate NoDup<T(==)>(xs: seq<T>) {
    forall i, j :: 0 <= i < j < |xs| ==> xs[i] != xs[j]
  }

  /** `list(set(xs))`: the same elements, each once. */
  function Distinct<T(==,!new)>(xs: seq<T>): (r: seq<T>)
    ensures forall x :: x in r <==> x in xs
    ensures NoDup(r)
    ensures |r| <= |xs|
    decreases |xs|
  {
    if |xs| == 0 then []
    else
      var init := xs[..|xs| - 1];
      var last := xs[|xs| - 1];
      var rest := Distinct(init);
      assert xs == init + [last];
      if last in rest then rest else rest + [last]
  }

  /** A repeat-free list is left as it is. */
  lemma {:induction false} DistinctOfNoDup<T(!new)>(xs: seq<T>)
    requires NoDup(xs)
    ensures Distinct(xs) == xs
    decreases |xs|
  {
    if |xs| > 0 {
      var init := xs[..|xs| - 1];
      assert NoDup(init);
      DistinctOfNoDup(init);
      assert xs[|xs| - 1] !in init;
      assert xs == init + [xs[|xs| - 1]];
    }
  }

  /** `a` is `b` with some elements left out, the rest in their order. */
  predicate IsSubsequence<T(==)>(a: seq<T>, b: seq<T>)
    decreases |b|
  {
    |a| == 0 || (|b| > 0 && ((a[0] == b[0] && IsSubsequence(a[1..], b[1..])) || IsSubsequence(a, b[1..])))
  }

  /** Every element of a subsequence is an element of the whole. */
  lemma {:induction false} SubsequenceMembers<T>(a: seq<T>, b: seq<T>)
    requires IsSubsequence(a, b)
    ensures forall x :: x in a ==> x in b
    decreases |b|
  {
    if |a| > 0 {
      if a[0] == b[0] && IsSubsequence(a[1..], b[1..]) {
        SubsequenceMembers(a[1..], b[1..]);
        assert forall x :: x in a ==> x == a[0] || x in a[1..];
      } else {
        SubsequenceMembers(a, b[1..]);
      }
    }
  }

  /** Two repeat-free lists with no element in common join into a repeat-free list. */
  lemma NoDupAppend<T>(a: seq<T>, b: seq<T>)
    requires NoDup(a) && NoDup(b)
    requires forall x :: x in a ==> x !in b
    ensures NoDup(a + b)
  {
    var c := a + b;
    forall i, j | 0 <= i < j < |c|
      ensures c[i] != c[j]
    {
      if i < |a| && |a| <= j {
        assert c[i] in a && c[j] in b;
      }
    }
  }

  /** Leaving elements out of a repeat-free list cannot create a repeat. */
  lemma {:induction false} SubsequenceNoDup<T>(a: seq<T>, b: seq<T>)
    requires IsSubsequence(a, b) && NoDup(b)
    ensures NoDup(a)
    decreases |b|
  {
    if |a| > 0 {
      assert NoDup(b[1..]);
      if a[0] == b[0] && IsSubsequence(a[1..], b[1..]) {
        SubsequenceNoDup(a[1..], b[1..]);
        SubsequenceMembers(a[1..], b[1..]);
        assert b[0] !in b[1..];
        assert forall j :: 0 < j < |a| ==> a[j] == a[1..][j - 1];
      } else {
        SubsequenceNoDup(a, b[1..]);
      }
    }
  }

  /**
   * The position of the first element of `xs` that `hit` accepts, or `|xs|`
   * when there is none: a `for ... if ...: break` loop.
   */
  function FirstWhere<T>(xs: seq<T>, hit: T -> bool): (k: nat)
    ensures k <= |xs|
    ensures forall j :: 0 <= j < k ==> !hit(xs[j])
    ensures k < |xs| ==> hit(xs[k])
    decreases |xs|
  {
    if |xs| == 0 || hit(xs[0]) then 0 else 1 + FirstWhere(xs[1..], hit)
  }

  /** The search finds an element exactly when the list holds one that `hit` accepts. */
  lemma FirstWhereFinds<T>(xs: seq<T>, hit: T -> bool)
    ensures FirstWhere(xs, hit) < |xs| <==> exists x :: x in xs && hit(x)
  {
    if exists x :: x in xs && hit(x) {
      var x :| x in xs && hit(x);
      var i :| 0 <= i < |xs| && xs[i] == x;
      assert hit(xs[i]);
    }
  }
}
