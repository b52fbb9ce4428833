/** The nearest-rank percentile, written three ways in three scripts. Arithmetic is
    exact here; the sources round the result to three digits afterwards. */
module Percentile {
  import opened Basics
  import opened Ordering

  function Ceil(x: real): int { -((-x).Floor) }

  function Clamp(i: int, n: nat): (r: nat)
    requires n > 0
    ensures r < n
  {
    if i < 0 then 0 else if i >= n then n - 1 else i
  }

  /** Search benchmark: `int(pct / 100 * n + 0.999999) - 1`, clamped. `int` truncates. */
  function RunIndex(n: nat, pct: int): nat
    requires n > 0
  {
    var x := pct as real / 100.0 * n as real + 0.999999;
    Clamp((if x >= 0.0 then x.Floor else Ceil(x)) - 1, n)
  }

  /** Body-cap benchmark: `ceil(pct / 100 * n) - 1`, clamped. */
  function BodyCapIndex(n: nat, pct: int): nat
    requires n > 0
  {
    Clamp(Ceil(pct as real / 100.0 * n as real) - 1, n)
  }

  /** Performance gate: `ceil(n * pct / 100) - 1`, bounded below only. */
  function GateIndex(n: nat, pct: int): nat {
    var index := Ceil((n * pct) as real / 100.0) - 1;
    if index < 0 then 0 else index
  }

  function RunPercentile(values: seq<real>, pct: int): real {
    if values == [] then 0.0
    else if |values| == 1 then values[0]
    else SortAsc(values)[RunIndex(|values|, pct)]
  }

  function BodyCapPercentile(values: seq<real>, pct: int): real {
    if values == [] then 0.0 else SortAsc(values)[BodyCapIndex(|values|, pct)]
  }

  /** None where the source has no value to give: no samples, or an index past the end. */
  function GatePercentile(values: seq<real>, pct: int): Option<real> {
    if GateIndex(|values|, pct) >= |values| then None else Some(SortAsc(values)[GateIndex(|values|, pct)])
  }

  /** `ceil(n * pct / 100)` in whole numbers. */
  function Rank(n: nat, pct: nat): nat { (n * pct + 99) / 100 }

  // ----- the three index computations agree -----

  lemma CeilIsRank(n: nat, pct: nat)
    ensures Ceil((n * pct) as real / 100.0) == Rank(n, pct)
    ensures pct as real / 100.0 * n as real == (n * pct) as real / 100.0
  {
    CeilDiv(n * pct);
    ProductReal(n, pct);
  }

  lemma ProductReal(n: nat, pct: nat)
    ensures pct as real / 100.0 * n as real == (n * pct) as real / 100.0
  {
    assert (n * pct) as real == n as real * pct as real;
  }

  lemma CeilDiv(m: nat)
    ensures Ceil(m as real / 100.0) == (m + 99) / 100
    ensures (m as real / 100.0 + 0.999999).Floor == (m + 99) / 100
  {
    var q, r := m / 100, m % 100;
    assert m as real == 100.0 * q as real + r as real;
    assert m as real / 100.0 == q as real + r as real / 100.0;
  }

  lemma RankBounds(n: nat, pct: nat)
    requires pct <= 100
    ensures Rank(n, pct) <= n
    ensures n > 0 && pct > 0 ==> Rank(n, pct) >= 1
  {
    assert n * pct <= n * 100;
    assert n > 0 && pct > 0 ==> n * pct >= 1;
  }

  function RankIndex(n: nat, pct: nat): nat {
    if Rank(n, pct) == 0 then 0 else Rank(n, pct) - 1
  }

  lemma IndexesAgree(n: nat, pct: nat)
    requires n > 0 && pct <= 100
    ensures RankIndex(n, pct) < n
    ensures RunIndex(n, pct) == BodyCapIndex(n, pct) == GateIndex(n, pct) == RankIndex(n, pct)
  {
    CeilIsRank(n, pct);
    CeilDiv(n * pct);
    RankBounds(n, pct);
  }

  lemma OneValue(values: seq<real>)
    requires |values| == 1
    ensures SortAsc(values) == values
  {
    assert values[0] in multiset(SortAsc(values));
  }

  /** For every sample and every whole percentage from 0 to 100 the three forms give the
      same value, the one at the nearest rank. */
  lemma FormsAgree(values: seq<real>, pct: nat)
    requires values != [] && pct <= 100
    ensures RankIndex(|values|, pct) < |values|
    ensures var v := SortAsc(values)[RankIndex(|values|, pct)];
            RunPercentile(values, pct) == v && BodyCapPercentile(values, pct) == v && GatePercentile(values, pct) == Some(v)
  {
    IndexesAgree(|values|, pct);
    if |values| == 1 {
      OneValue(values);
    }
  }

  /** Outside that range only the gate's form can fail, and exactly above 100. */
  lemma GateFailsIff(values: seq<real>, pct: int)
    ensures GatePercentile(values, pct) == None <==> values == [] || pct > 100
  {
    if values != [] {
      GateIndexFits(|values|, pct);
    }
  }

  lemma GateIndexFits(n: nat, pct: int)
    requires n > 0
    ensures GateIndex(n, pct) < n <==> pct <= 100
  {
    if pct < 0 {
      assert n * pct <= 0;
    } else {
      CeilIsRank(n, pct);
      if pct <= 100 {
        RankBounds(n, pct);
      } else {
        RankAbove(n, pct);
      }
    }
  }

  lemma RankAbove(n: nat, pct: nat)
    requires n > 0 && pct > 100
    ensures Rank(n, pct) > n
  {
    assert n * pct >= n * 101;
  }

  // ----- what the chosen value is -----

  function CountUpTo(s: seq<real>, v: real): nat {
    if s == [] then 0 else (if s[0] <= v then 1 else 0) + CountUpTo(s[1..], v)
  }

  lemma {:induction false} CountInsert(x: real, s: seq<real>, v: real)
    ensures CountUpTo(InsertDesc(x, s), v) == (if x <= v then 1 else 0) + CountUpTo(s, v)
  {
    if s == [] || x >= s[0] {
      assert ([x] + s)[1..] == s;
    } else {
      CountInsert(x, s[1..], v);
    }
  }

  lemma {:induction false} CountSorted(s: seq<real>, v: real)
    ensures CountUpTo(SortDesc(s), v) == CountUpTo(s, v)
  {
    if s != [] {
      CountSorted(s[1..], v);
      CountInsert(s[0], SortDesc(s[1..]), v);
    }
  }

  /** In a descending list the elements not above `v` are a tail. */
  lemma {:induction false} CountTail(s: seq<real>, v: real, cut: nat)
    requires Descending(s) && cut <= |s|
    requires forall i :: 0 <= i < cut ==> s[i] > v
    requires forall i :: cut <= i < |s| ==> s[i] <= v
    ensures CountUpTo(s, v) == |s| - cut
  {
    if s != [] {
      CountTail(s[1..], v, if cut == 0 then 0 else cut - 1);
    }
  }

  function Cut(s: seq<real>, v: real): (c: nat)
    requires Descending(s)
    ensures c <= |s|
    ensures forall i :: 0 <= i < c ==> s[i] > v
    ensures forall i :: c <= i < |s| ==> s[i] <= v
  {
    if s == [] || s[0] <= v then 0 else 1 + Cut(s[1..], v)
  }

  /** The value at position `at` of the sorted sample has at least `at + 1` values not
      above it, and no smaller sample value has. */
  lemma LeastWithRank(values: seq<real>, at: nat)
    requires at < |values|
    ensures var v := SortAsc(values)[at];
            && v in values
            && CountUpTo(values, v) >= at + 1
            && forall w :: w in values && CountUpTo(values, w) >= at + 1 ==> v <= w
  {
    var desc, p := SortDesc(values), |values| - 1 - at;
    var v := desc[p];
    assert SortAsc(values)[at] == v;
    SortMember(values, p);
    CountSorted(values, v);
    CountFrom(desc, p, v);
    forall w | w in values && CountUpTo(values, w) >= at + 1 ensures v <= w {
      CountSorted(values, w);
      CountFrom(desc, p, w);
    }
  }

  /** In a descending list, at least `|s| - p` elements are not above `w` exactly when
      the element at `p` is not. */
  lemma CountFrom(s: seq<real>, p: nat, w: real)
    requires Descending(s) && p < |s|
    ensures CountUpTo(s, w) >= |s| - p <==> s[p] <= w
  {
    CountTail(s, w, Cut(s, w));
  }

  /** The nearest-rank law: the chosen value is the least sample value that at least
      `ceil(n * pct / 100)` samples do not exceed. */
  lemma NearestRankLaw(values: seq<real>, pct: nat)
    requires values != [] && pct <= 100
    ensures var v := RunPercentile(values, pct); var rank := Rank(|values|, pct);
            && v in values
            && CountUpTo(values, v) >= rank
            && forall w :: w in values && CountUpTo(values, w) >= rank ==> v <= w
  {
    FormsAgree(values, pct);
    IndexesAgree(|values|, pct);
    LeastOfRank(values, Rank(|values|, pct));
  }

  /** A rank of 0 asks for nothing, and the least value is taken. */
  lemma LeastOfRank(values: seq<real>, rank: nat)
    requires values != [] && rank <= |values|
    ensures var v := SortAsc(values)[if rank == 0 then 0 else rank - 1];
            && v in values
            && CountUpTo(values, v) >= rank
            && forall w :: w in values && CountUpTo(values, w) >= rank ==> v <= w
  {
    if rank == 0 {
      LeastWithRank(values, 0);
      forall w | w in values ensures SortAsc(values)[0] <= w {
        LeastIsFirst(values, w);
      }
    } else {
      LeastWithRank(values, rank - 1);
    }
  }

  lemma LeastIsFirst(values: seq<real>, w: real)
    requires w in values
    ensures SortAsc(values)[0] <= w
  {
    assert w in multiset(SortAsc(values));
  }
}
