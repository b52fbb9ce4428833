/** Sorting of real numbers.

    `sorted(values)` and `sorted(values, reverse=True)` of the measurement scripts are
    modelled by insertion sort. `SortedUnique` pins them down: a list has only one ordered
    permutation, so any other sort gives the same result. `PartDominated` compares the
    sorted order of a part with that of the whole. */
module Ordering {

  predicate Descending(s: seq<real>) {
    forall i, j :: 0 <= i < j < |s| ==> s[i] >= s[j]
  }

  predicate Ascending(s: seq<real>) {
    forall i, j :: 0 <= i < j < |s| ==> s[i] <= s[j]
  }

  function InsertDesc(x: real, s: seq<real>): (r: seq<real>)
    ensures |r| == |s| + 1
  {
    if s == [] then [x]
    else if x >= s[0] then [x] + s
    else [s[0]] + InsertDesc(x, s[1..])
  }

  lemma {:induction false} InsertDescAdds(x: real, s: seq<real>)
    ensures multiset(InsertDesc(x, s)) == multiset(s) + multiset{x}
  {
    if s != [] && x < s[0] {
      InsertDescAdds(x, s[1..]);
      assert s == [s[0]] + s[1..];
    }
  }

  lemma {:induction false} InsertDescOrders(x: real, s: seq<real>)
    requires Descending(s)
    ensures Descending(InsertDesc(x, s))
    ensures forall i :: 0 <= i <= |s| ==> InsertDesc(x, s)[i] == x || InsertDesc(x, s)[i] in s
  {
    if s != [] && x < s[0] {
      InsertDescOrders(x, s[1..]);
    }
  }

  function SortDesc(s: seq<real>): (r: seq<real>)
    ensures |r| == |s| && Descending(r) && multiset(r) == multiset(s)
  {
    if s == [] then []
    else
      assert s == [s[0]] + s[1..];
      InsertDescAdds(s[0], SortDesc(s[1..]));
      InsertDescOrders(s[0], SortDesc(s[1..]));
      InsertDesc(s[0], SortDesc(s[1..]))
  }

  function Reverse<T>(s: seq<T>): (r: seq<T>)
    ensures |r| == |s| && forall i :: 0 <= i < |s| ==> r[i] == s[|s| - 1 - i]
    ensures multiset(r) == multiset(s)
  {
    if s == [] then []
    else
      assert s == [s[0]] + s[1..];
      Reverse(s[1..]) + [s[0]]
  }

  function SortAsc(s: seq<real>): (r: seq<real>)
    ensures |r| == |s| && Ascending(r) && multiset(r) == multiset(s)
  {
    Reverse(SortDesc(s))
  }

  /** Only one descending sequence has a given multiset of elements. */
  lemma {:induction false} SortedUnique(a: seq<real>, b: seq<real>)
    requires Descending(a) && Descending(b) && multiset(a) == multiset(b)
    ensures a == b
  {
    assert |a| == |multiset(a)| == |multiset(b)| == |b|;
    if a != [] {
      SameMaximum(a, b);
      assert a == [a[0]] + a[1..] && b == [b[0]] + b[1..];
      assert multiset(a[1..]) == multiset(a) - multiset{a[0]};
      assert multiset(b[1..]) == multiset(b) - multiset{b[0]};
      SortedUnique(a[1..], b[1..]);
    }
  }

  lemma SameMaximum(a: seq<real>, b: seq<real>)
    requires Descending(a) && Descending(b) && multiset(a) == multiset(b) && a != [] && b != []
    ensures a[0] == b[0]
  {
    assert a[0] in multiset(b) && b[0] in multiset(a);
  }

  lemma SortMember(s: seq<real>, i: nat)
    requires i < |s|
    ensures SortDesc(s)[i] in s
  {
    assert SortDesc(s)[i] in multiset(SortDesc(s));
  }

  lemma RemoveOne<T>(s: seq<T>, p: nat)
    requires p < |s|
    ensures multiset(s) == multiset(s[..p] + s[p + 1..]) + multiset{s[p]}
  {
    assert s == s[..p] + [s[p]] + s[p + 1..];
  }

  lemma CancelOne<T>(a: multiset<T>, b: multiset<T>, x: T)
    requires a + multiset{x} == b + multiset{x}
    ensures a == b
  {
    assert a == (a + multiset{x}) - multiset{x};
    assert b == (b + multiset{x}) - multiset{x};
  }

  lemma SortOfSorted(s: seq<real>, t: seq<real>)
    requires multiset(s) == multiset(t)
    ensures SortDesc(s) == SortDesc(t)
  {
    SortedUnique(SortDesc(s), SortDesc(t));
  }

  /** Inserting never lowers the value at a rank. */
  lemma {:induction false} InsertDominates(x: real, s: seq<real>, i: nat)
    requires Descending(s) && i < |s|
    ensures InsertDesc(x, s)[i] >= s[i]
  {
    if x >= s[0] {
      assert i == 0 || ([x] + s)[i] == s[i - 1];
    } else if i > 0 {
      InsertDominates(x, s[1..], i - 1);
    }
  }

  /** Adding elements never lowers the value at a rank. */
  lemma {:induction false} SortDominates(a: seq<real>, c: seq<real>, i: nat)
    requires i < |c|
    ensures SortDesc(a + c)[i] >= SortDesc(c)[i]
  {
    if a == [] {
      assert a + c == c;
    } else {
      assert (a + c)[1..] == a[1..] + c;
      SortDominates(a[1..], c, i);
      InsertDominates(a[0], SortDesc(a[1..] + c), i);
    }
  }

  /** Rank by rank, part of a collection stays below the whole. */
  lemma PartDominated(part: seq<real>, left: seq<real>, whole: seq<real>)
    requires multiset(part) + multiset(left) == multiset(whole)
    ensures |part| <= |whole| && forall i :: 0 <= i < |part| ==> SortDesc(part)[i] <= SortDesc(whole)[i]
  {
    assert |multiset(whole)| == |whole| && |multiset(part)| == |part|;
    SortOfSorted(left + part, whole);
    forall i | 0 <= i < |part| ensures SortDesc(part)[i] <= SortDesc(whole)[i] {
      SortDominates(left, part, i);
    }
  }
}
