/** Sequence facts used throughout. */
module Seqs {

  function Flatten<T>(parts: seq<seq<T>>): seq<T> {
    if parts == [] then [] else Flatten(parts[..|parts| - 1]) + parts[|parts| - 1]
  }

  lemma FlattenSnoc<T>(parts: seq<seq<T>>, p: seq<T>)
    ensures Flatten(parts + [p]) == Flatten(parts) + p
  {
    assert (parts + [p])[..|parts|] == parts;
  }

  lemma FlattenNext<T>(parts: seq<seq<T>>, n: nat)
    requires n < |parts|
    ensures Flatten(parts[..n + 1]) == Flatten(parts[..n]) + parts[n]
  {
    assert parts[..n + 1] == parts[..n] + [parts[n]];
    FlattenSnoc(parts[..n], parts[n]);
  }

  lemma {:induction false} FlattenPrefix<T>(parts: seq<seq<T>>, n: nat)
    requires n <= |parts|
    ensures Flatten(parts[..n]) <= Flatten(parts)
    decreases |parts| - n
  {
    if n == |parts| {
      assert parts[..n] == parts;
    } else {
      FlattenNext(parts, n);
      FlattenPrefix(parts, n + 1);
    }
  }

  lemma FlattenPart<T>(parts: seq<seq<T>>, n: nat, part: seq<T>)
    requires n < |parts| && part <= parts[n]
    ensures Flatten(parts[..n]) + part <= Flatten(parts)
  {
    FlattenNext(parts, n);
    FlattenPrefix(parts, n + 1);
  }

  lemma {:induction false} FlattenMember<T>(parts: seq<seq<T>>, x: T)
    ensures x in Flatten(parts) <==> exists i :: 0 <= i < |parts| && x in parts[i]
  {
    if parts != [] {
      var n := |parts| - 1;
      var head := parts[..n];
      FlattenMember(head, x);
      if x in Flatten(head) {
        var i :| 0 <= i < |head| && x in head[i];
        assert x in parts[i];
      }
      if i :| 0 <= i < |parts| && x in parts[i] {
        assert i < n ==> x in head[i];
      }
    }
  }

  lemma {:induction false} FlattenLonger<T>(a: seq<seq<T>>, b: seq<seq<T>>)
    requires |a| == |b| && forall i :: 0 <= i < |a| ==> |a[i]| >= |b[i]|
    ensures |Flatten(a)| >= |Flatten(b)|
    ensures (exists i :: 0 <= i < |a| && |a[i]| > |b[i]|) ==> |Flatten(a)| > |Flatten(b)|
  {
    if a != [] {
      var n := |a| - 1;
      FlattenLonger(a[..n], b[..n]);
      if i :| 0 <= i < |a| && |a[i]| > |b[i]| {
        assert i < n ==> |a[..n][i]| > |b[..n][i]|;
      }
    }
  }

  /** Parts that only ever shrink keep their concatenation exactly when none does. */
  lemma FlattenSameIff<T>(a: seq<seq<T>>, b: seq<seq<T>>)
    requires |a| == |b| && forall i :: 0 <= i < |a| ==> a[i] == b[i] || |a[i]| > |b[i]|
    ensures Flatten(a) == Flatten(b) <==> forall i :: 0 <= i < |a| ==> a[i] == b[i]
  {
    FlattenLonger(a, b);
    if forall i :: 0 <= i < |a| ==> a[i] == b[i] {
      assert a == b;
    } else {
      var i :| 0 <= i < |a| && a[i] != b[i];
      assert |a[i]| > |b[i]|;
    }
  }

  /** The parts `f` gives for each element, end to end. */
  function FlatMap<T, U>(f: T -> seq<U>, s: seq<T>): seq<U> {
    if s == [] then [] else FlatMap(f, s[..|s| - 1]) + f(s[|s| - 1])
  }

  lemma {:induction false} FlatMapConcat<T, U>(f: T -> seq<U>, a: seq<T>, b: seq<T>)
    ensures FlatMap(f, a + b) == FlatMap(f, a) + FlatMap(f, b)
  {
    if b == [] {
      assert a + b == a;
    } else {
      assert (a + b)[..|a + b| - 1] == a + b[..|b| - 1];
      FlatMapConcat(f, a, b[..|b| - 1]);
    }
  }

  lemma FlatMapOne<T, U>(f: T -> seq<U>, x: T)
    ensures FlatMap(f, [x]) == f(x)
  {
    assert [x][..0] == [];
    assert FlatMap(f, [x]) == [] + f(x);
  }

  lemma {:induction false} FlatMapMember<T, U>(f: T -> seq<U>, s: seq<T>, u: U)
    ensures u in FlatMap(f, s) <==> exists i :: 0 <= i < |s| && u in f(s[i])
  {
    if s != [] {
      var n := |s| - 1;
      FlatMapMember(f, s[..n], u);
      if i :| 0 <= i < |s| && u in f(s[i]) {
        assert i < n ==> u in f(s[..n][i]);
      }
      if i :| 0 <= i < |s[..n]| && u in f(s[..n][i]) {
        assert u in f(s[i]);
      }
    }
  }

  lemma Assoc<T>(a: seq<T>, b: seq<T>, c: seq<T>)
    ensures (a + b) + c == a + (b + c)
  {
  }

  lemma PrefixTransitive<T>(a: seq<T>, b: seq<T>, c: seq<T>)
    requires a <= b && b <= c
    ensures a <= c
  {
  }

  lemma {:induction false} PrefixChain<T>(parts: seq<seq<T>>, k: nat, i: nat)
    requires k <= i < |parts| && forall n :: 0 < n < |parts| ==> parts[n - 1] <= parts[n]
    ensures parts[k] <= parts[i]
    decreases i
  {
    if k < i {
      PrefixChain(parts, k, i - 1);
      PrefixTransitive(parts[k], parts[i - 1], parts[i]);
    }
  }

  /** `order` visits every position below `n` exactly once. */
  ghost predicate IsPermutation(order: seq<nat>, n: nat) {
    && |order| == n
    && (forall i :: 0 <= i < n ==> order[i] < n)
    && (forall i, j :: 0 <= i < j < n ==> order[i] != order[j])
    && (forall p :: 0 <= p < n ==> p in order)
  }

  /** `a` is `b` with some elements left out. */
  ghost predicate Subsequence<T(!new)>(a: seq<T>, b: seq<T>) {
    a == [] || (b != [] && (Subsequence(a, b[..|b| - 1])
      || (a[|a| - 1] == b[|b| - 1] && Subsequence(a[..|a| - 1], b[..|b| - 1]))))
  }

  lemma {:induction false} SubsequenceAppend<T(!new)>(a: seq<T>, b: seq<T>, x: seq<T>)
    requires Subsequence(a, b)
    ensures Subsequence(a, b + x) && Subsequence(a + x, b + x)
  {
    if x == [] {
      assert b + x == b && a + x == a;
    } else {
      var n := |x| - 1;
      SubsequenceAppend(a, b, x[..n]);
      assert (b + x)[..|b + x| - 1] == b + x[..n] && (a + x)[..|a + x| - 1] == a + x[..n];
    }
  }

  /** Emptying some parts leaves a subsequence. */
  lemma {:induction false} FlattenSubsequence<T(!new)>(a: seq<seq<T>>, b: seq<seq<T>>)
    requires |a| == |b| && forall i :: 0 <= i < |a| ==> a[i] == [] || a[i] == b[i]
    ensures Subsequence(Flatten(a), Flatten(b))
  {
    if a != [] {
      var n := |a| - 1;
      FlattenSubsequence(a[..n], b[..n]);
      SubsequenceAppend(Flatten(a[..n]), Flatten(b[..n]), b[n]);
      if a[n] == [] { assert Flatten(a[..n]) + a[n] == Flatten(a[..n]); }
    }
  }

  lemma {:induction false} FlattenConcat<T>(a: seq<seq<T>>, b: seq<seq<T>>)
    ensures Flatten(a + b) == Flatten(a) + Flatten(b)
  {
    if b == [] {
      assert a + b == a;
    } else {
      assert (a + b)[..|a + b| - 1] == a + b[..|b| - 1];
      FlattenConcat(a, b[..|b| - 1]);
    }
  }

  function Without<T>(s: seq<T>, i: nat): seq<T>
    requires i < |s|
  {
    s[..i] + s[i + 1..]
  }

  lemma MiddleOut<T>(a: seq<T>, b: seq<T>, c: seq<T>)
    ensures multiset(a + b + c) == multiset(a + c) + multiset(b)
  {
    assert multiset(a + b + c) == multiset(a) + multiset(b) + multiset(c);
    assert multiset(a + c) == multiset(a) + multiset(c);
  }

  lemma WithoutMultiset<T>(s: seq<T>, i: nat)
    requires i < |s|
    ensures multiset(Without(s, i)) == multiset(s) - multiset{s[i]}
  {
    assert s == s[..i] + [s[i]] + s[i + 1..];
  }

  /** What two parts of a sequence's elements each hold is at two places of it. */
  lemma TwoPlaces<T>(all: seq<T>, some: seq<T>, others: seq<T>, p: T, q: T) returns (k: nat, l: nat)
    requires multiset(all) == multiset(some) + multiset(others) && p in some && q in others
    ensures k < |all| && l < |all| && k != l && all[k] == p && all[l] == q
  {
    assert p in multiset(some) && q in multiset(others) && p in multiset(all);
    k :| 0 <= k < |all| && all[k] == p;
    WithoutMultiset(all, k);
    assert q in multiset(Without(all, k));
    l := PlaceIn(Without(all, k), q);
    l := if l < k then l else l + 1;
  }

  lemma PlaceIn<T>(s: seq<T>, x: T) returns (i: nat)
    requires x in multiset(s)
    ensures i < |s| && s[i] == x
  {
    i :| 0 <= i < |s| && s[i] == x;
  }

  lemma SplitAt<T>(s: seq<T>, i: nat)
    requires i < |s|
    ensures s == s[..i + 1] + s[i + 1..]
  {
  }

  lemma FlattenAt<T>(parts: seq<seq<T>>, i: nat)
    requires i < |parts|
    ensures Flatten(parts) == Flatten(parts[..i]) + parts[i] + Flatten(parts[i + 1..])
  {
    SplitAt(parts, i);
    FlattenNext(parts, i);
    FlattenConcat(parts[..i + 1], parts[i + 1..]);
  }

  /** Taking one part out takes exactly its elements out. */
  lemma FlattenWithout<T>(parts: seq<seq<T>>, i: nat)
    requires i < |parts|
    ensures multiset(Flatten(parts)) == multiset(Flatten(Without(parts, i))) + multiset(parts[i])
  {
    FlattenAt(parts, i);
    FlattenConcat(parts[..i], parts[i + 1..]);
    MiddleOut(Flatten(parts[..i]), parts[i], Flatten(parts[i + 1..]));
  }

  // ---------- sums over a sequence ----------

  function SumBy<T>(f: T -> nat, s: seq<T>): nat {
    if s == [] then 0 else SumBy(f, s[..|s| - 1]) + f(s[|s| - 1])
  }

  lemma SumSnoc<T>(f: T -> nat, s: seq<T>, x: T)
    ensures SumBy(f, s + [x]) == SumBy(f, s) + f(x)
  {
    assert (s + [x])[..|s|] == s;
  }

  lemma {:induction false} SumUpdate<T>(f: T -> nat, s: seq<T>, i: nat, x: T)
    requires i < |s|
    ensures SumBy(f, s[i := x]) + f(s[i]) == SumBy(f, s) + f(x)
  {
    var n := |s| - 1;
    if i == n {
      assert s[i := x][..n] == s[..n];
    } else {
      SumUpdate(f, s[..n], i, x);
      assert s[i := x][..n] == s[..n][i := x];
    }
  }

  lemma {:induction false} SumPositive<T>(f: T -> nat, s: seq<T>)
    ensures SumBy(f, s) > 0 <==> exists i :: 0 <= i < |s| && f(s[i]) > 0
  {
    if s != [] {
      var n := |s| - 1;
      SumPositive(f, s[..n]);
      if i :| 0 <= i < |s| && f(s[i]) > 0 {
        assert i < n ==> f(s[..n][i]) > 0;
      }
      if i :| 0 <= i < n && f(s[..n][i]) > 0 {
        assert f(s[i]) > 0;
      }
    }
  }

  lemma {:induction false} SumConstant<T>(f: T -> nat, s: seq<T>, c: nat)
    requires forall i :: 0 <= i < |s| ==> f(s[i]) == c
    ensures SumBy(f, s) == |s| * c
  {
    if s != [] {
      SumConstant(f, s[..|s| - 1], c);
    }
  }
}
