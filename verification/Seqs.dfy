/** Sequence vocabulary shared by the other modules. */
module Seqs {

  /** The newest `n` elements of `s`, as `slice(-n)` returns them. */
  function LastN<T>(s: seq<T>, n: nat): (r: seq<T>)
    ensures |r| == if |s| <= n then |s| else n
  {
    if |s| <= n then s else s[|s| - n..]
  }

  /** The first `n` elements of `s`. */
  function FirstN<T>(s: seq<T>, n: nat): (r: seq<T>)
    ensures |r| == if |s| <= n then |s| else n
  {
    if |s| <= n then s else s[..n]
  }

  /** `slice(from, to)`. */
  function Slice<T>(s: seq<T>, from: nat, to: nat): (r: seq<T>)
    requires to <= |s|
    ensures |r| == if to <= from then 0 else to - from
  {
    if to <= from then [] else Slice(s, from, to - 1) + [s[to - 1]]
  }

  lemma {:induction false} SliceJoin<T>(s: seq<T>, a: nat, b: nat, c: nat)
    requires a <= b <= c <= |s|
    ensures Slice(s, a, b) + Slice(s, b, c) == Slice(s, a, c)
  {
    if b == c {
      AppendNothing(Slice(s, a, b));
    } else {
      SliceJoin(s, a, b, c - 1);
      AppendAssociative(Slice(s, a, b), Slice(s, b, c - 1), [s[c - 1]]);
    }
  }

  lemma {:induction false} SliceFromStart<T>(s: seq<T>, n: nat)
    requires n <= |s|
    ensures Slice(s, 0, n) == s[..n]
  {
    if n > 0 {
      SliceFromStart(s, n - 1);
    }
  }

  /** A bounded queue fed one element at a time always holds the newest elements of all it was fed. */
  lemma LastNPush<T>(s: seq<T>, e: T, n: nat)
    requires n > 0
    ensures LastN(LastN(s, n) + [e], n) == LastN(s + [e], n)
  {
  }

  lemma LastNSuffix<T>(a: seq<T>, b: seq<T>, n: nat)
    ensures |b| >= n ==> LastN(a + b, n) == LastN(b, n)
    ensures |b| < n ==> LastN(a + b, n) == LastN(a, n - |b|) + b
  {
  }

  lemma AppendAssociative<T>(a: seq<T>, b: seq<T>, c: seq<T>)
    ensures a + (b + c) == a + b + c
  {
  }

  lemma AppendNothing<T>(a: seq<T>)
    ensures a + [] == a && [] + a == a
  {
  }

  lemma TakeTake<T>(s: seq<T>, n: nat, m: nat)
    requires m <= n <= |s|
    ensures s[..n][..m] == s[..m]
  {
  }

  lemma SlicePush<T>(s: seq<T>, a: nat, b: nat)
    requires a <= b < |s|
    ensures s[a..b + 1] == s[a..b] + [s[b]]
  {
  }

  lemma InitOfPush<T>(a: seq<T>, x: T)
    ensures (a + [x])[..|a|] == a && (a + [x])[|a|] == x && (a + [x])[..|a + [x]| - 1] == a
  {
  }

  lemma InitLast<T>(s: seq<T>)
    requires s != []
    ensures s == s[..|s| - 1] + [s[|s| - 1]]
  {
  }

  /** An appended sequence, seen from its last element: what a fold over it unfolds to. */
  lemma AppendFromLast<T>(a: seq<T>, b: seq<T>)
    requires b != []
    ensures (a + b)[..|a + b| - 1] == a + b[..|b| - 1] && (a + b)[|a + b| - 1] == b[|b| - 1]
  {
  }

  lemma TailOfCons<T>(x: T, a: seq<T>)
    ensures ([x] + a)[1..] == a && ([x] + a)[0] == x
  {
  }

  predicate Distinct<T(==)>(s: seq<T>) {
    s == [] || (s[|s| - 1] !in s[..|s| - 1] && Distinct(s[..|s| - 1]))
  }

  lemma {:induction false} DistinctAt<T>(s: seq<T>, i: nat, j: nat)
    requires Distinct(s) && i < j < |s|
    ensures s[i] != s[j]
  {
    var front := s[..|s| - 1];
    if j < |s| - 1 {
      DistinctAt(front, i, j);
    } else {
      assert front[i] == s[i];
    }
  }

  function Filter<T>(p: T -> bool, s: seq<T>): (r: seq<T>)
    ensures |r| <= |s|
  {
    if s == [] then []
    else
      var front, x := Filter(p, s[..|s| - 1]), s[|s| - 1];
      if p(x) then front + [x] else front
  }

  lemma FilterPush<T>(p: T -> bool, s: seq<T>, x: T)
    ensures Filter(p, s + [x]) == if p(x) then Filter(p, s) + [x] else Filter(p, s)
  {
    InitOfPush(s, x);
  }

  lemma {:induction false} FilterMember<T>(p: T -> bool, s: seq<T>, x: T)
    ensures x in Filter(p, s) <==> x in s && p(x)
  {
    if s != [] {
      FilterMember(p, s[..|s| - 1], x);
      assert s == s[..|s| - 1] + [s[|s| - 1]];
    }
  }

  lemma FilterOne<T>(p: T -> bool, x: T)
    ensures Filter(p, [x]) == if p(x) then [x] else []
  {
    assert [x][..0] == [];
  }

  lemma {:induction false} FilterAppend<T>(p: T -> bool, a: seq<T>, b: seq<T>)
    ensures Filter(p, a + b) == Filter(p, a) + Filter(p, b)
    decreases |b|
  {
    if b == [] {
      AppendNothing(a);
      AppendNothing(Filter(p, a));
    } else {
      var front, x := b[..|b| - 1], b[|b| - 1];
      FilterAppend(p, a, front);
      assert b == front + [x];
      AppendAssociative(a, front, [x]);
      FilterPush(p, a + front, x);
      AppendAssociative(Filter(p, a), Filter(p, front), [x]);
    }
  }

  lemma {:induction false} FilterAll<T>(p: T -> bool, s: seq<T>)
    requires forall x :: x in s ==> p(x)
    ensures Filter(p, s) == s
  {
    if s != [] {
      FilterAll(p, s[..|s| - 1]);
    }
  }

  function Reverse<T>(s: seq<T>): (r: seq<T>)
    ensures |r| == |s|
    ensures forall i :: 0 <= i < |s| ==> r[i] == s[|s| - 1 - i]
  {
    seq(|s|, i requires 0 <= i < |s| => s[|s| - 1 - i])
  }

  lemma ReversePush<T>(s: seq<T>, x: T)
    ensures Reverse(s + [x]) == [x] + Reverse(s)
    ensures Reverse([x] + s) == Reverse(s) + [x]
  {
  }

  lemma ReverseFirst<T>(s: seq<T>, n: nat)
    ensures Reverse(FirstN(s, n)) == LastN(Reverse(s), n)
  {
  }

  function Flatten<T>(parts: seq<seq<T>>): seq<T> {
    if parts == [] then [] else Flatten(parts[..|parts| - 1]) + parts[|parts| - 1]
  }

  function FlatMap<A, B>(f: A -> seq<B>, s: seq<A>): seq<B> {
    if s == [] then [] else FlatMap(f, s[..|s| - 1]) + f(s[|s| - 1])
  }

  function Sum(s: seq<int>): int {
    if s == [] then 0 else Sum(s[..|s| - 1]) + s[|s| - 1]
  }

  datatype Option<+T> = None | Some(value: T)
}
