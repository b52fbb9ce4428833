/** Reading positions of a sequence.

    NumPy hands back positions, and a heap's items are rows that stand at positions of the
    stream. Reading a sequence in any order of its positions permutes it, what is read off
    distinct positions is part of it, and every part of it stands at distinct positions. */
module Picking {
  import opened Ordering

  function Range(n: nat): (r: seq<nat>)
    ensures |r| == n && forall i :: 0 <= i < n ==> r[i] == i
  {
    seq(n, i => i)
  }

  predicate Within(at: seq<nat>, n: nat) {
    forall i :: 0 <= i < |at| ==> at[i] < n
  }

  function Pull<T>(s: seq<T>, at: seq<nat>): (r: seq<T>)
    requires Within(at, |s|)
    ensures |r| == |at| && forall i :: 0 <= i < |at| ==> r[i] == s[at[i]]
  {
    seq(|at|, i requires 0 <= i < |at| => s[at[i]])
  }

  function Without<T>(s: seq<T>, p: nat): (r: seq<T>)
    requires p < |s|
    ensures |r| == |s| - 1 && forall i :: 0 <= i < |r| ==> r[i] == if i < p then s[i] else s[i + 1]
  {
    s[..p] + s[p + 1..]
  }

  lemma PullRemove<T>(s: seq<T>, at: seq<nat>, p: nat)
    requires p < |at| && Within(at, |s|)
    ensures Within(Without(at, p), |s|)
    ensures multiset(Pull(s, at)) == multiset(Pull(s, Without(at, p))) + multiset{s[at[p]]}
  {
    RemoveOne(Pull(s, at), p);
    assert Without(Pull(s, at), p) == Pull(s, Without(at, p));
  }

  lemma {:induction false} PullMultiset<T>(s: seq<T>, a: seq<nat>, b: seq<nat>)
    requires multiset(a) == multiset(b)
    requires Within(a, |s|) && Within(b, |s|)
    ensures multiset(Pull(s, a)) == multiset(Pull(s, b))
    decreases |a|
  {
    assert |a| == |multiset(a)| == |multiset(b)| == |b|;
    if a != [] {
      assert a[0] in multiset(b);
      var p :| 0 <= p < |b| && b[p] == a[0];
      RemoveOne(a, 0);
      RemoveOne(b, p);
      CancelOne(multiset(Without(a, 0)), multiset(Without(b, p)), a[0]);
      PullRemove(s, a, 0);
      PullRemove(s, b, p);
      PullMultiset(s, Without(a, 0), Without(b, p));
    }
  }

  /** Reading a sequence in any order of its positions permutes it. */
  lemma PullPermutes<T>(s: seq<T>, order: seq<nat>)
    requires |order| == |s| && multiset(order) == multiset(Range(|s|))
    requires Within(order, |s|)
    ensures multiset(Pull(s, order)) == multiset(s)
  {
    PullMultiset(s, order, Range(|s|));
    assert Pull(s, Range(|s|)) == s;
  }

  /** Distinct positions below `n`. */
  ghost predicate Picks(at: seq<nat>, n: nat) {
    Within(at, n) && forall i, j :: 0 <= i < j < |at| ==> at[i] != at[j]
  }

  lemma {:induction false} DistinctCount(at: seq<nat>, x: nat)
    requires forall i, j :: 0 <= i < j < |at| ==> at[i] != at[j]
    ensures multiset(at)[x] == if x in at then 1 else 0
  {
    if at != [] {
      var n := |at| - 1;
      DistinctCount(at[..n], x);
      assert at == at[..n] + [at[n]];
      assert at[n] !in at[..n];
      assert x in at <==> x in at[..n] || x == at[n];
    }
  }

  /** The positions below `m` that were not picked. */
  lemma {:induction false} Missed(at: seq<nat>, n: nat, m: nat) returns (rest: seq<nat>)
    requires Picks(at, n) && m <= n
    ensures Picks(rest, m) && forall x: nat :: x in rest <==> x < m && x !in at
  {
    rest := [];
    if m > 0 {
      rest := Missed(at, n, m - 1);
      if m - 1 !in at {
        rest := rest + [m - 1];
      }
    }
  }

  lemma CompletedDistinct(at: seq<nat>, rest: seq<nat>, n: nat)
    requires Picks(at, n) && Picks(rest, n) && forall x: nat :: x in rest <==> x < n && x !in at
    ensures Picks(at + rest, n) && forall x: nat :: x in at + rest <==> x < n
  {
    var order := at + rest;
    forall i, j | 0 <= i < j < |order|
      ensures order[i] != order[j]
    {
      if i < |at| <= j {
        assert order[i] in at && order[j] in rest;
      }
    }
  }

  lemma CompletedRange(order: seq<nat>, n: nat)
    requires Picks(order, n) && forall x: nat :: x in order <==> x < n
    ensures |order| == n && multiset(order) == multiset(Range(n))
  {
    forall x: nat
      ensures multiset(order)[x] == multiset(Range(n))[x]
    {
      DistinctCount(order, x);
      DistinctCount(Range(n), x);
      assert x < n ==> Range(n)[x] == x;
    }
    SameCounts(multiset(order), multiset(Range(n)));
    assert |order| == |multiset(order)| && n == |multiset(Range(n))|;
  }

  lemma SameCounts(a: multiset<nat>, b: multiset<nat>)
    requires forall x: nat :: a[x] == b[x]
    ensures a == b
  {
    assert forall x :: a[x] == b[x];
  }

  /** Positions picked and positions missed share out the sequence. */
  lemma Shared<T>(s: seq<T>, at: seq<nat>) returns (rest: seq<nat>)
    requires Picks(at, |s|)
    ensures Picks(rest, |s|) && forall x: nat :: x in rest <==> x < |s| && x !in at
    ensures multiset(Pull(s, at)) + multiset(Pull(s, rest)) == multiset(s)
  {
    rest := Missed(at, |s|, |s|);
    CompletedDistinct(at, rest, |s|);
    CompletedRange(at + rest, |s|);
    PullPermutes(s, at + rest);
    assert Pull(s, at + rest) == Pull(s, at) + Pull(s, rest);
  }

  /** Part of a collection stands at distinct positions of it. */
  lemma {:induction false} PartIsPicked<T>(part: seq<T>, s: seq<T>) returns (at: seq<nat>)
    requires multiset(part) <= multiset(s)
    ensures Picks(at, |s|) && Pull(s, at) == part
  {
    at := [];
    if part != [] {
      var n := |part| - 1;
      assert part == part[..n] + [part[n]];
      at := PartIsPicked(part[..n], s);
      var p := Unpicked(s, at, part[n]);
      at := at + [p];
    }
  }

  lemma Unpicked<T>(s: seq<T>, at: seq<nat>, x: T) returns (p: nat)
    requires Picks(at, |s|) && multiset(Pull(s, at))[x] < multiset(s)[x]
    ensures p < |s| && p !in at && s[p] == x
  {
    var rest := Shared(s, at);
    assert x in multiset(Pull(s, rest));
    var i :| 0 <= i < |rest| && Pull(s, rest)[i] == x;
    p := rest[i];
    assert p in rest;
  }
}
