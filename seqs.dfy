/** Sequence operations the controllers and document methods use:
    `[...new Set(s)]`, `s.filter(y => y !== x)`, `s.includes(x)` and
    `xs.filter(x => !ys.includes(x))`. */
module Seqs {
  /** No element occurs twice. */
  predicate NoDup<T(==,!new)>(s: seq<T>) {
    forall i, j :: 0 <= i < j < |s| ==> s[i] != s[j]
  }

  /** `[...new Set(s)]`: the first occurrence of every element, in order. */
  function Dedup<T(==,!new)>(s: seq<T>): (r: seq<T>)
    ensures NoDup(r)
    ensures forall x :: x in r <==> x in s
    ensures |r| <= |s|
  {
    if s == [] then []
    else
      var p := Dedup(s[..|s| - 1]);
      var last := s[|s| - 1];
      assert s == s[..|s| - 1] + [last];
      if last in s[..|s| - 1] then p else p + [last]
  }

  /** A sequence without repetitions is its own de-duplication. */
  lemma {:induction false} DedupOfNoDup<T(!new)>(s: seq<T>)
    requires NoDup(s)
    ensures Dedup(s) == s
  {
    if s != [] {
      var q := s[..|s| - 1];
      assert NoDup(q);
      DedupOfNoDup(q);
      assert s[|s| - 1] !in q;
      assert s == q + [s[|s| - 1]];
    }
  }

  /** A sequence has at least as many elements as distinct ones, and
      exactly as many when none repeats. */
  lemma {:induction false} DistinctCount<T(!new)>(s: seq<T>)
    ensures |set x | x in s| <= |s|
    ensures |set x | x in s| == |s| <==> NoDup(s)
  {
    if s != [] {
      var q, last := s[..|s| - 1], s[|s| - 1];
      DistinctCount(q);
      assert s == q + [last];
      assert (set x | x in s) == (set x | x in q) + {last};
      if last in q {
        assert (set x | x in s) == (set x | x in q);
        var j :| 0 <= j < |q| && q[j] == last;
        assert s[j] == s[|s| - 1];
      } else {
        assert NoDup(s) <==> NoDup(q);
      }
    }
  }

  /** `s.filter(y => y !== x)` */
  function Without<T(==,!new)>(s: seq<T>, x: T): (r: seq<T>)
    ensures forall y :: multiset(r)[y] == if y == x then 0 else multiset(s)[y]
    ensures |r| <= |s|
  {
    if s == [] then []
    else
      assert s == [s[0]] + s[1..];
      if s[0] == x then Without(s[1..], x) else [s[0]] + Without(s[1..], x)
  }

  /** `if (!s.includes(x)) s.push(x)` */
  function AddIfAbsent<T(==,!new)>(s: seq<T>, x: T): (r: seq<T>)
    ensures x in r
    ensures x in s ==> r == s
    ensures x !in s ==> r == s + [x]
  {
    if x in s then s else s + [x]
  }

  /** Adding keeps a sequence free of repetitions. */
  lemma AddIfAbsentNoDup<T(!new)>(s: seq<T>, x: T)
    requires NoDup(s)
    ensures NoDup(AddIfAbsent(s, x))
  {
  }

  /** Adding then removing is the same as removing: the added element was
      either present already or is taken out again. */
  lemma {:induction false} WithoutAfterAdd<T(!new)>(s: seq<T>, x: T)
    ensures Without(AddIfAbsent(s, x), x) == Without(s, x)
  {
    if x !in s {
      WithoutAppend(s, [x], x);
      assert Without([x], x) == [];
      assert Without(s, x) + [] == Without(s, x);
    }
  }

  lemma {:induction false} WithoutAppend<T(!new)>(a: seq<T>, b: seq<T>, x: T)
    ensures Without(a + b, x) == Without(a, x) + Without(b, x)
  {
    if a == [] {
      assert a + b == b;
    } else {
      assert (a + b)[1..] == a[1..] + b;
      WithoutAppend(a[1..], b, x);
    }
  }

  /** `xs.filter(x => !ys.includes(x))`: the elements of `xs` that `ys`
      lacks, in order. */
  function Except<T(==,!new)>(xs: seq<T>, ys: seq<T>): (r: seq<T>)
    ensures forall x :: x in r <==> x in xs && x !in ys
    ensures |r| <= |xs|
  {
    if xs == [] then []
    else
      assert xs == [xs[0]] + xs[1..];
      (if xs[0] in ys then [] else [xs[0]]) + Except(xs[1..], ys)
  }
}
