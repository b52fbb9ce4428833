/** Exactly when nDCG stays within [0, 1]: for truths that differ and a relevance that is
    equality, a condition on the gains, the cut and the ideal that is met if and only if
    every list of predictions scores within the interval. */
module NdcgRange {
  import opened Basics
  import opened Ordering
  import opened Metrics

  /** A prediction is relevant to the truth it equals. */
  ghost function Equality<T>(): Relevance<T, T> { (p: T, t: T) => p == t }

  ghost predicate DistinctBodies<T>(truths: seq<Truth<T>>) {
    forall i, j :: 0 <= i < j < |truths| ==> truths[i].body != truths[j].body
  }

  /** Distinct positions of a list of length `n`. */
  predicate IsOrder(order: seq<nat>, n: nat) {
    && (forall i :: 0 <= i < |order| ==> order[i] < n)
    && (forall i, j :: 0 <= i < j < |order| ==> order[i] != order[j])
  }

  function BodiesAt<T>(truths: seq<Truth<T>>, order: seq<nat>): (r: seq<T>)
    requires IsOrder(order, |truths|)
    ensures |r| == |order|
  {
    seq(|order|, i requires 0 <= i < |order| => truths[order[i]].body)
  }

  function GainsAt<T>(truths: seq<Truth<T>>, order: seq<nat>): (r: seq<real>)
    requires IsOrder(order, |truths|)
    ensures |r| == |order|
  {
    seq(|order|, i requires 0 <= i < |order| => truths[order[i]].gain)
  }

  // ----- answering chosen truths -----

  lemma AnswerOne<T>(truths: seq<Truth<T>>, used: set<nat>, j: nat)
    requires DistinctBodies(truths) && j < |truths| && j !in used && truths[j].gain > -1.0
    ensures Best(truths[j].body, truths, Equality(), used, |truths|) == Some(j)
  {
    BestIsBest(truths[j].body, truths, Equality(), used, |truths|);
    assert forall i :: 0 <= i < |truths| && i != j ==> truths[i].body != truths[j].body;
    assert Candidate(truths[j].body, truths, Equality<T>(), used, j);
    assert IsBest(truths[j].body, truths, Equality(), used, |truths|, Some(j));
  }

  /** Answering truths that can win, each once, collects exactly their gains in order. */
  lemma {:induction false} Answers<T>(truths: seq<Truth<T>>, order: seq<nat>, used: set<nat>)
    requires DistinctBodies(truths) && IsOrder(order, |truths|)
    requires forall i :: 0 <= i < |order| ==> order[i] !in used && truths[order[i]].gain > -1.0
    ensures Collected(BodiesAt(truths, order), truths, Equality(), used) == GainsAt(truths, order)
    decreases |order|
  {
    if order != [] {
      var first, more := order[0], order[1..];
      AnswerOne(truths, used, first);
      Answers(truths, more, used + {first});
      assert BodiesAt(truths, order)[1..] == BodiesAt(truths, more);
      assert GainsAt(truths, order) == [truths[first].gain] + GainsAt(truths, more);
    }
  }

  // ----- sorting positions -----

  /** `order` sorts `g` in descending order. */
  ghost predicate Sorts(order: seq<nat>, g: seq<real>) {
    && |order| == |g| && IsOrder(order, |g|)
    && forall i :: 0 <= i < |g| ==> g[order[i]] == SortDesc(g)[i]
  }

  function Placed<X>(s: seq<X>, p: nat, x: X): (r: seq<X>)
    requires p <= |s|
    ensures |r| == |s| + 1 && r[p] == x
    ensures forall i :: 0 <= i < p ==> r[i] == s[i]
    ensures forall i :: p < i <= |s| ==> r[i] == s[i - 1]
  {
    s[..p] + [x] + s[p..]
  }

  /** Where insertion puts a new element. */
  lemma {:induction false} InsertPlace(x: real, s: seq<real>) returns (p: nat)
    ensures p <= |s| && InsertDesc(x, s) == Placed(s, p, x)
  {
    if s == [] || x >= s[0] {
      p := 0;
    } else {
      var q := InsertPlace(x, s[1..]);
      p := q + 1;
      assert s[..p] == [s[0]] + s[1..][..q];
    }
  }

  function Shifted(order: seq<nat>): (r: seq<nat>)
    ensures |r| == |order| && forall i :: 0 <= i < |r| ==> r[i] == order[i] + 1
  {
    seq(|order|, i requires 0 <= i < |order| => order[i] + 1)
  }

  lemma PlacedOrder(order: seq<nat>, p: nat, n: nat)
    requires IsOrder(order, n) && p <= |order|
    ensures IsOrder(Placed(Shifted(order), p, 0), n + 1)
  {
    var r := Placed(Shifted(order), p, 0);
    forall i, j | 0 <= i < j < |r|
      ensures r[i] != r[j]
    {
      assert r[i] == 0 <==> i == p;
      assert r[j] == 0 <==> j == p;
      if i != p && j != p {
        var i', j' := if i < p then i else i - 1, if j < p then j else j - 1;
        assert r[i] == order[i'] + 1 && r[j] == order[j'] + 1 && i' < j';
      }
    }
  }

  lemma PlacedValues(order: seq<nat>, p: nat, g: seq<real>)
    requires g != [] && Sorts(order, g[1..]) && p <= |order| && SortDesc(g) == Placed(SortDesc(g[1..]), p, g[0])
    ensures forall i :: 0 <= i < |g| ==>
              Placed(Shifted(order), p, 0)[i] < |g| && g[Placed(Shifted(order), p, 0)[i]] == SortDesc(g)[i]
  {
    var r := Placed(Shifted(order), p, 0);
    forall i | 0 <= i < |g|
      ensures r[i] < |g| && g[r[i]] == SortDesc(g)[i]
    {
      if i != p {
        var i' := if i < p then i else i - 1;
        assert r[i] == order[i'] + 1 && g[order[i'] + 1] == g[1..][order[i']];
      }
    }
  }

  lemma {:induction false} SortOrder(g: seq<real>) returns (order: seq<nat>)
    ensures Sorts(order, g)
  {
    if g == [] {
      order := [];
    } else {
      var tail := SortOrder(g[1..]);
      var p := InsertPlace(g[0], SortDesc(g[1..]));
      order := Placed(Shifted(tail), p, 0);
      PlacedOrder(tail, p, |g| - 1);
      PlacedValues(tail, p, g);
    }
  }

  // ----- discounted sums -----

  lemma {:induction false} DiscountedConcat(a: seq<real>, b: seq<real>, d: Discount, rank: nat)
    ensures Discounted(a + b, d, rank) == Discounted(a, d, rank) + Discounted(b, d, rank + |a|)
  {
    if a == [] {
      assert a + b == b;
    } else {
      assert (a + b)[1..] == a[1..] + b;
      DiscountedConcat(a[1..], b, d, rank + 1);
    }
  }

  lemma {:induction false} LossesSum(s: seq<real>, w: nat -> real, rank: nat)
    requires IsWeight(w) && forall i :: 0 <= i < |s| ==> s[i] < 0.0
    ensures s != [] ==> Discounted(s, Weighted(w), rank) < 0.0
    ensures s == [] ==> Discounted(s, Weighted(w), rank) == 0.0
  {
    if s != [] {
      LossesSum(s[1..], w, rank + 1);
      ScaleUp(s[0], 0.0, w(rank));
    }
  }

  lemma QuotientOutside(a: real, b: real)
    requires b != 0.0
    ensures b > 0.0 ==> (0.0 <= a / b <= 1.0 <==> 0.0 <= a <= b)
    ensures b < 0.0 ==> (0.0 <= a / b <= 1.0 <==> b <= a <= 0.0)
  {
    var q := a / b;
    assert q * b == a;
    Scaled(q, b);
  }

  lemma Scaled(q: real, b: real)
    ensures b > 0.0 ==> (0.0 <= q <= 1.0 <==> 0.0 <= q * b <= b)
    ensures b < 0.0 ==> (0.0 <= q <= 1.0 <==> b <= q * b <= 0.0)
  {
  }

  // ----- one answer alone -----

  ghost function Score<T>(preds: seq<T>, truths: seq<Truth<T>>, k: int, w: nat -> real): real {
    Dcg(preds, truths, k, Equality(), Weighted(w))
  }

  /** Answering truths that can win, each once, scores their gains in that order. */
  lemma AnswersScore<T>(truths: seq<Truth<T>>, order: seq<nat>, gains: seq<real>, k: int, w: nat -> real)
    requires DistinctBodies(truths) && IsOrder(order, |truths|) && |order| == |gains| <= k
    requires forall i :: 0 <= i < |order| ==> truths[order[i]].gain == gains[i] > -1.0
    ensures Score(BodiesAt(truths, order), truths, k, w) == Discounted(gains, Weighted(w), 1)
  {
    Answers(truths, order, {});
    assert Slice(BodiesAt(truths, order), k) == BodiesAt(truths, order);
    assert GainsAt(truths, order) == gains;
  }

  /** Answering one truth alone scores its gain at the first rank. */
  lemma OneAlone<T>(truths: seq<Truth<T>>, j: nat, k: int, w: nat -> real)
    requires DistinctBodies(truths) && j < |truths| && truths[j].gain > -1.0 && k > 0 && IsWeight(w)
    ensures truths[j].gain < 0.0 ==> Score([truths[j].body], truths, k, w) < 0.0
    ensures truths[j].gain > 0.0 ==> Score([truths[j].body], truths, k, w) > 0.0
  {
    AnswersScore(truths, [j], [truths[j].gain] + [], k, w);
    assert BodiesAt(truths, [j]) == [truths[j].body];
    DiscountedCons(truths[j].gain, [], Weighted(w), 1);
    if truths[j].gain < 0.0 {
      ScaleUp(truths[j].gain, 0.0, w(1));
    } else if truths[j].gain > 0.0 {
      ScaleUp(0.0, truths[j].gain, w(1));
    }
  }

  // ----- all truths above a bound, in order -----

  /** The elements above a bound lead a descending list. */
  function Leading(s: seq<real>, above: real -> bool): (m: nat)
    ensures m <= |s| && (forall i :: 0 <= i < m ==> above(s[i])) && (m < |s| ==> !above(s[m]))
  {
    if s == [] || !above(s[0]) then 0 else 1 + Leading(s[1..], above)
  }

  /** Answering the first `m` truths of the sorted order scores the first `m` sorted gains. */
  lemma LeadingScore<T>(truths: seq<Truth<T>>, order: seq<nat>, m: nat, k: int, w: nat -> real)
    requires DistinctBodies(truths) && Sorts(order, Gains(truths)) && m <= |truths| && m <= k
    requires forall i :: 0 <= i < m ==> SortDesc(Gains(truths))[i] > -1.0
    ensures IsOrder(order[..m], |truths|)
    ensures Score(BodiesAt(truths, order[..m]), truths, k, w)
         == Discounted(SortDesc(Gains(truths))[..m], Weighted(w), 1)
  {
    SortedGains(truths, order);
    AnswersScore(truths, order[..m], SortDesc(Gains(truths))[..m], k, w);
  }

  lemma SortedGains<T>(truths: seq<Truth<T>>, order: seq<nat>)
    requires Sorts(order, Gains(truths))
    ensures forall i :: 0 <= i < |truths| ==> truths[order[i]].gain == SortDesc(Gains(truths))[i]
  {
  }

  /** Losses at the end lower a discounted sum. */
  lemma LossesBehind(s: seq<real>, m: nat, w: nat -> real)
    requires IsWeight(w) && m < |s| && forall i :: m <= i < |s| ==> s[i] < 0.0
    ensures Discounted(s, Weighted(w), 1) < Discounted(s[..m], Weighted(w), 1)
  {
    assert s == s[..m] + s[m..];
    DiscountedConcat(s[..m], s[m..], Weighted(w), 1);
    LossesSum(s[m..], w, 1 + m);
  }

  /** Where the losses of a cut begin. */
  lemma LossesBegin(s: seq<real>, k: int) returns (m: nat)
    requires Descending(s) && k > 0 && !NonNegative(Slice(s, k))
    ensures m < |Slice(s, k)| && m <= k && Slice(s, k)[..m] == s[..m]
    ensures forall i :: 0 <= i < m ==> s[i] >= 0.0
    ensures forall i :: m <= i < |Slice(s, k)| ==> Slice(s, k)[i] < 0.0
  {
    m := Leading(s, x => x >= 0.0);
    var i :| 0 <= i < |Slice(s, k)| && Slice(s, k)[i] < 0.0;
    assert m <= i;
  }

  /** If a negative gain lies within the ideal cut, answering the non-negative truths in
      order beats the ideal. */
  lemma LossInCut<T>(truths: seq<Truth<T>>, k: int, w: nat -> real) returns (preds: seq<T>)
    requires DistinctBodies(truths) && k > 0 && IsWeight(w)
    requires !NonNegative(Slice(SortDesc(Gains(truths)), k))
    ensures Score(preds, truths, k, w) > IdealDcg(truths, k, Weighted(w))
  {
    var sorted := SortDesc(Gains(truths));
    var order := SortOrder(Gains(truths));
    var m := LossesBegin(sorted, k);
    LeadingScore(truths, order, m, k, w);
    LossesBehind(Slice(sorted, k), m, w);
    preds := BodiesAt(truths, order[..m]);
  }

  // ----- a positive ideal -----

  /** Every list of predictions scores within the interval. */
  ghost predicate AllInRange<T(!new)>(truths: seq<Truth<T>>, k: int, w: nat -> real) {
    forall preds: seq<T> :: 0.0 <= Ndcg(preds, truths, k, Equality(), Weighted(w)) <= 1.0
  }

  lemma RangeOfScore<T>(preds: seq<T>, truths: seq<Truth<T>>, k: int, w: nat -> real)
    requires k > 0 && truths != []
    ensures var ideal, n := IdealDcg(truths, k, Weighted(w)), Ndcg(preds, truths, k, Equality(), Weighted(w));
            && (ideal == 0.0 ==> n == 0.0)
            && (ideal > 0.0 ==> (0.0 <= n <= 1.0 <==> 0.0 <= Score(preds, truths, k, w) <= ideal))
            && (ideal < 0.0 ==> (0.0 <= n <= 1.0 <==> ideal <= Score(preds, truths, k, w) <= 0.0))
  {
    var ideal := IdealDcg(truths, k, Weighted(w));
    if ideal != 0.0 {
      QuotientOutside(Score(preds, truths, k, w), ideal);
    }
  }

  lemma SafeIsInRange<T(!new)>(truths: seq<Truth<T>>, k: int, w: nat -> real)
    requires IsWeight(w) && UnitSafe(Gains(truths), k)
    ensures AllInRange(truths, k, w)
  {
    WeightedIsDiscount(w);
    forall preds: seq<T>
      ensures 0.0 <= Ndcg(preds, truths, k, Equality(), Weighted(w)) <= 1.0
    {
      NdcgInUnitInterval(preds, truths, k, Equality(), Weighted(w));
    }
  }

  /** With a positive ideal, all lists of predictions score within [0, 1] exactly when no
      negative gain can win a match and none lies within the ideal cut. */
  lemma PositiveIdealIff<T(!new)>(truths: seq<Truth<T>>, k: int, w: nat -> real)
    requires IsWeight(w) && DistinctBodies(truths) && k > 0 && IdealDcg(truths, k, Weighted(w)) > 0.0
    ensures AllInRange(truths, k, w) <==> UnitSafe(Gains(truths), k)
  {
    assert truths != [];
    if UnitSafe(Gains(truths), k) {
      SafeIsInRange(truths, k, w);
    } else if !NoWinningLoss(Gains(truths)) {
      var j :| 0 <= j < |truths| && -1.0 < Gains(truths)[j] < 0.0;
      OneAlone(truths, j, k, w);
      RangeOfScore([truths[j].body], truths, k, w);
    } else {
      var preds := LossInCut(truths, k, w);
      RangeOfScore(preds, truths, k, w);
    }
  }

  // ----- a negative ideal -----

  /** The gains that can win a match. */
  function Winnable(g: seq<real>): seq<real> {
    if g == [] then [] else (if g[0] > -1.0 then [g[0]] else []) + Winnable(g[1..])
  }

  function Neg(s: seq<real>): (r: seq<real>)
    ensures |r| == |s|
  {
    if s == [] then [] else [-s[0]] + Neg(s[1..])
  }

  lemma {:induction false} NegElements(s: seq<real>)
    ensures forall i :: 0 <= i < |s| ==> Neg(s)[i] == -s[i]
  {
    if s != [] {
      NegElements(s[1..]);
    }
  }

  lemma ConsCount<T>(x: T, s: seq<T>, y: T)
    ensures multiset([x] + s)[y] == multiset(s)[y] + if x == y then 1 else 0
  {
  }

  lemma {:induction false} WinnableCount(g: seq<real>, x: real)
    ensures multiset(Winnable(g))[x] == if x > -1.0 then multiset(g)[x] else 0
  {
    if g != [] {
      WinnableCount(g[1..], x);
      assert g == [g[0]] + g[1..];
      ConsCount(g[0], g[1..], x);
      ConsCount(g[0], Winnable(g[1..]), x);
      assert [] + Winnable(g[1..]) == Winnable(g[1..]);
    }
  }

  /** Element by element. */
  function Mapped<T>(s: seq<T>, f: T -> T): seq<T> {
    if s == [] then [] else [f(s[0])] + Mapped(s[1..], f)
  }

  lemma {:induction false} MappedCount<T(!new)>(s: seq<T>, f: T -> T, x: T)
    requires forall y :: f(f(y)) == y
    ensures multiset(Mapped(s, f))[x] == multiset(s)[f(x)]
  {
    if s != [] {
      MappedCount(s[1..], f, x);
      assert s == [s[0]] + s[1..];
      ConsCount(s[0], s[1..], f(x));
      ConsCount(f(s[0]), Mapped(s[1..], f), x);
    }
  }

  function Negation(): real -> real { (y: real) => -y }

  lemma {:induction false} NegMapped(s: seq<real>)
    ensures Neg(s) == Mapped(s, Negation())
  {
    if s != [] {
      NegMapped(s[1..]);
    }
  }

  lemma NegCount(s: seq<real>, x: real)
    ensures multiset(Neg(s))[x] == multiset(s)[-x]
  {
    NegMapped(s);
    MappedCount(s, Negation(), x);
  }

  lemma {:induction false} NegDiscounted(s: seq<real>, w: nat -> real, rank: nat)
    ensures Discounted(Neg(s), Weighted(w), rank) == -Discounted(s, Weighted(w), rank)
  {
    if s != [] {
      NegDiscounted(s[1..], w, rank + 1);
      assert Neg(s)[1..] == Neg(s[1..]);
      NegProduct(s[0], w(rank));
    }
  }

  lemma NegProduct(x: real, y: real)
    ensures (-x) * y == -(x * y)
  {
  }

  lemma {:induction false} NegGapped(full: seq<real>, compact: seq<real>)
    requires Gapped(full, compact)
    ensures Gapped(Neg(full), Neg(compact))
    decreases |full|
  {
    if full != [] {
      assert Neg(full)[1..] == Neg(full[1..]);
      if full[0] == 0.0 && Gapped(full[1..], compact) {
        NegGapped(full[1..], compact);
      } else {
        NegGapped(full[1..], compact[1..]);
        assert Neg(compact)[1..] == Neg(compact[1..]);
      }
    }
  }

  /** Ascending order is the descending order of the negated list. */
  lemma NegSort(s: seq<real>)
    ensures Neg(SortAsc(s)) == SortDesc(Neg(s))
  {
    forall x
      ensures multiset(Neg(SortAsc(s)))[x] == multiset(SortDesc(Neg(s)))[x]
    {
      NegCount(SortAsc(s), x);
      NegCount(s, x);
    }
    NegElements(SortAsc(s));
    SortedUnique(Neg(SortAsc(s)), SortDesc(Neg(s)));
  }

  lemma NegSlice(s: seq<real>, k: int)
    requires k > 0
    ensures Neg(Slice(s, k)) == Slice(Neg(s), k)
  {
    NegElements(s);
    NegElements(Slice(s, k));
  }

  /** The gains matched and some left over make up the gains that can win. */
  lemma MatchedAmongWinnable<P, T>(top: seq<P>, truths: seq<Truth<T>>, rel: Relevance<P, T>) returns (left: seq<real>)
    ensures multiset(Matched(top, truths, rel, {})) + multiset(left) == multiset(Winnable(Gains(truths)))
  {
    var matched := Matched(top, truths, rel, {});
    MatchedWithoutReuse(top, truths, rel, {});
    MatchedWins(top, truths, rel, {});
    AllAvailable(truths, |truths|);
    assert Gains(truths)[..|truths|] == Gains(truths);
    var unspent := Unspent(truths, Spent(top, truths, rel, {}), |truths|);
    left := Winnable(unspent);
    WinnableParts(matched, unspent, Gains(truths));
  }

  lemma WinnableParts(part: seq<real>, rest: seq<real>, whole: seq<real>)
    requires multiset(part) + multiset(rest) == multiset(whole) && forall x <- part :: x > -1.0
    ensures multiset(part) + multiset(Winnable(rest)) == multiset(Winnable(whole))
  {
    forall x
      ensures (multiset(part) + multiset(Winnable(rest)))[x] == multiset(Winnable(whole))[x]
    {
      WinnableCount(rest, x);
      WinnableCount(whole, x);
      assert (multiset(part) + multiset(rest))[x] == multiset(whole)[x];
      assert multiset(part)[x] > 0 ==> x in part;
    }
  }

  lemma NegPart(part: seq<real>, left: seq<real>, whole: seq<real>)
    requires multiset(part) + multiset(left) == multiset(whole)
    ensures multiset(Neg(part)) + multiset(Neg(left)) == multiset(Neg(whole))
  {
    forall x
      ensures (multiset(Neg(part)) + multiset(Neg(left)))[x] == multiset(Neg(whole))[x]
    {
      NegCount(part, x);
      NegCount(left, x);
      NegCount(whole, x);
      assert (multiset(part) + multiset(left))[-x] == multiset(whole)[-x];
    }
  }

  /** The least any answer can score when no gain is positive. */
  function Worst(g: seq<real>, k: int, w: nat -> real): real {
    Discounted(Slice(SortAsc(Winnable(g)), k), Weighted(w), 1)
  }

  predicate NonPositive(g: seq<real>) {
    forall i :: 0 <= i < |g| ==> g[i] <= 0.0
  }

  lemma NegWorst(g: seq<real>, k: int, w: nat -> real)
    requires k > 0
    ensures Discounted(Slice(SortDesc(Neg(Winnable(g))), k), Weighted(w), 1) == -Worst(g, k, w)
  {
    NegSort(Winnable(g));
    NegSlice(SortAsc(Winnable(g)), k);
    NegDiscounted(Slice(SortAsc(Winnable(g)), k), w, 1);
  }

  lemma NegNonNegative(s: seq<real>, g: seq<real>)
    requires NonPositive(g) && forall x <- s :: x in g
    ensures NonNegative(Neg(s))
  {
    NegElements(s);
    forall i | 0 <= i < |s|
      ensures Neg(s)[i] >= 0.0
    {
      assert s[i] in s;
    }
  }

  lemma SortedNonNegative(s: seq<real>, k: int)
    requires NonNegative(s)
    ensures NonNegative(Slice(SortDesc(s), k))
  {
    forall i | 0 <= i < |s|
      ensures SortDesc(s)[i] >= 0.0
    {
      SortMember(s, i);
    }
  }

  lemma {:induction false} WinnableWithin(g: seq<real>)
    ensures forall x <- Winnable(g) :: x in g && x > -1.0
  {
    if g != [] {
      WinnableWithin(g[1..]);
    }
  }

  lemma WinnableNonPositive(g: seq<real>)
    requires NonPositive(g)
    ensures NonPositive(Winnable(g))
  {
    WinnableWithin(g);
    var s := Winnable(g);
    forall i | 0 <= i < |s|
      ensures s[i] <= 0.0
    {
      assert s[i] in s;
    }
  }

  /** What greedy matching collects scores between nothing and the matched losses together. */
  lemma NegScore<P, T>(top: seq<P>, truths: seq<Truth<T>>, rel: Relevance<P, T>, w: nat -> real)
    requires IsWeight(w) && NonPositive(Gains(truths))
    ensures -Discounted(Neg(Matched(top, truths, rel, {})), Weighted(w), 1)
         <= Discounted(Collected(top, truths, rel, {}), Weighted(w), 1) <= 0.0
  {
    var full, matched := Collected(top, truths, rel, {}), Matched(top, truths, rel, {});
    WeightedIsDiscount(w);
    CollectedGapped(top, truths, rel, {});
    NegGapped(full, matched);
    MatchedWins(top, truths, rel, {});
    NegNonNegative(matched, Gains(truths));
    NegDiscounted(full, w, 1);
    GapsCost(Neg(full), Neg(matched), Weighted(w), 1);
  }

  /** Without positive gains no answer scores above zero or below the worst. */
  lemma WorstBounds<P, T>(preds: seq<P>, truths: seq<Truth<T>>, k: int, rel: Relevance<P, T>, w: nat -> real)
    requires IsWeight(w) && k > 0 && NonPositive(Gains(truths))
    ensures Worst(Gains(truths), k, w) <= Dcg(preds, truths, k, rel, Weighted(w)) <= 0.0
  {
    var top := Slice(preds, k);
    NegScore(top, truths, rel, w);
    var left := MatchedAmongWinnable(top, truths, rel);
    WinnableNonPositive(Gains(truths));
    WorstOfPart(Matched(top, truths, rel, {}), left, Winnable(Gains(truths)), k, w);
    NegWorst(Gains(truths), k, w);
  }

  lemma WorstOfPart(part: seq<real>, left: seq<real>, whole: seq<real>, k: int, w: nat -> real)
    requires IsWeight(w) && |part| <= k && multiset(part) + multiset(left) == multiset(whole)
    requires NonPositive(whole)
    ensures Discounted(Neg(part), Weighted(w), 1) <= Discounted(Slice(SortDesc(Neg(whole)), k), Weighted(w), 1)
  {
    WeightedIsDiscount(w);
    NegPart(part, left, whole);
    NegNonNegative(whole, whole);
    SortedNonNegative(Neg(whole), k);
    PartScoresLess(Neg(part), Neg(left), Neg(whole), k, Weighted(w));
  }

  /** Part of a collection of gains never scores more than the best `k` of the whole. */
  lemma PartScoresLess(part: seq<real>, left: seq<real>, whole: seq<real>, k: int, d: Discount)
    requires IsDiscount(d) && |part| <= k && multiset(part) + multiset(left) == multiset(whole)
    requires NonNegative(Slice(SortDesc(whole), k))
    ensures Discounted(part, d, 1) <= Discounted(Slice(SortDesc(whole), k), d, 1)
  {
    SortingGains(part, d, 1);
    PartDominated(part, left, whole);
    DominatedGains(SortDesc(part), Slice(SortDesc(whole), k), d, 1);
  }

  /** The winnable gains lead the sorted list. */
  lemma WinnableLead(head: seq<real>, tail: seq<real>, g: seq<real>)
    requires Descending(head) && multiset(head + tail) == multiset(g)
    requires (forall y <- head :: y > -1.0) && (forall y <- tail :: y <= -1.0)
    ensures head == SortDesc(Winnable(g))
  {
    forall x
      ensures multiset(head)[x] == multiset(Winnable(g))[x]
    {
      WinnableCount(g, x);
      SplitCount(head, tail, x);
    }
    SortedUnique(head, SortDesc(Winnable(g)));
  }

  lemma WinnableSorted(g: seq<real>) returns (m: nat)
    ensures m <= |g| && SortDesc(g)[..m] == SortDesc(Winnable(g)) && |Winnable(g)| == m
    ensures forall i :: 0 <= i < m ==> SortDesc(g)[i] > -1.0
  {
    var s := SortDesc(g);
    m := Leading(s, x => x > -1.0);
    SplitSorted(s, m);
    WinnableLead(s[..m], s[m..], g);
  }

  lemma SplitSorted(s: seq<real>, m: nat)
    requires Descending(s) && m <= |s| && (forall i :: 0 <= i < m ==> s[i] > -1.0) && (m < |s| ==> s[m] <= -1.0)
    ensures s[..m] + s[m..] == s && Descending(s[..m])
    ensures (forall y <- s[..m] :: y > -1.0) && (forall y <- s[m..] :: y <= -1.0)
  {
  }

  lemma SplitCount(head: seq<real>, tail: seq<real>, x: real)
    requires (forall y <- head :: y > -1.0) && (forall y <- tail :: y <= -1.0)
    ensures multiset(head)[x] == if x > -1.0 then multiset(head + tail)[x] else 0
  {
    assert multiset(head + tail)[x] == multiset(head)[x] + multiset(tail)[x];
    assert multiset(head)[x] > 0 ==> x in head;
    assert multiset(tail)[x] > 0 ==> x in tail;
  }

  lemma ReverseOrder(order: seq<nat>, m: nat, n: nat, size: nat)
    requires IsOrder(order, size) && n <= m <= |order|
    ensures IsOrder(Reverse(order[..m])[..n], size)
  {
  }

  lemma ReverseGains<T>(truths: seq<Truth<T>>, order: seq<nat>, m: nat, n: nat, gains: seq<real>)
    requires IsOrder(order, |truths|) && n <= m <= |order| && |gains| == m
    requires forall i :: 0 <= i < m ==> truths[order[i]].gain == gains[i] > -1.0
    ensures IsOrder(Reverse(order[..m])[..n], |truths|)
    ensures forall i :: 0 <= i < n ==>
              truths[Reverse(order[..m])[..n][i]].gain == Reverse(gains)[..n][i] && Reverse(gains)[..n][i] > -1.0
  {
    ReverseOrder(order, m, n, |truths|);
    forall i | 0 <= i < n
      ensures truths[Reverse(order[..m])[..n][i]].gain == Reverse(gains)[..n][i] && Reverse(gains)[..n][i] > -1.0
    {
      ReverseAt(order, m, n, i);
      ReverseAt(gains, m, n, i);
      assert gains[..m] == gains;
    }
  }

  lemma ReverseAt<T>(s: seq<T>, m: nat, n: nat, i: nat)
    requires i < n <= m <= |s|
    ensures Reverse(s[..m])[..n][i] == s[m - 1 - i]
  {
  }

  lemma AnswerReversed<T>(truths: seq<Truth<T>>, order: seq<nat>, gains: seq<real>, k: int, w: nat -> real)
    returns (preds: seq<T>)
    requires DistinctBodies(truths) && IsOrder(order, |truths|) && |gains| <= |order| && k > 0
    requires forall i :: 0 <= i < |gains| ==> truths[order[i]].gain == gains[i] > -1.0
    ensures Score(preds, truths, k, w) == Discounted(Slice(Reverse(gains), k), Weighted(w), 1)
  {
    var m := |gains|;
    var n := if m <= k then m else k;
    ReverseGains(truths, order, m, n, gains);
    var answered := Reverse(order[..m])[..n];
    assert Slice(Reverse(gains), k) == Reverse(gains)[..n];
    AnswersScore(truths, answered, Reverse(gains)[..n], k, w);
    preds := BodiesAt(truths, answered);
  }

  /** Answering the truths that can win, the worst first, scores the worst. */
  lemma WorstAttained<T>(truths: seq<Truth<T>>, k: int, w: nat -> real) returns (preds: seq<T>)
    requires DistinctBodies(truths) && k > 0
    ensures Score(preds, truths, k, w) == Worst(Gains(truths), k, w)
  {
    var order := SortOrder(Gains(truths));
    SortedGains(truths, order);
    var m := WinnableSorted(Gains(truths));
    preds := AnswerReversed(truths, order, SortDesc(Gains(truths))[..m], k, w);
  }

  /** With a negative ideal, all lists of predictions score within [0, 1] exactly when no
      gain is positive and even the worst answer is no worse than the ideal. */
  lemma NegativeIdealIff<T(!new)>(truths: seq<Truth<T>>, k: int, w: nat -> real)
    requires IsWeight(w) && DistinctBodies(truths) && k > 0 && IdealDcg(truths, k, Weighted(w)) < 0.0
    ensures AllInRange(truths, k, w) <==>
            NonPositive(Gains(truths)) && Worst(Gains(truths), k, w) >= IdealDcg(truths, k, Weighted(w))
  {
    assert truths != [];
    if !NonPositive(Gains(truths)) {
      var j :| 0 <= j < |truths| && Gains(truths)[j] > 0.0;
      OneAlone(truths, j, k, w);
      RangeOfScore([truths[j].body], truths, k, w);
    } else if Worst(Gains(truths), k, w) < IdealDcg(truths, k, Weighted(w)) {
      var preds := WorstAttained(truths, k, w);
      RangeOfScore(preds, truths, k, w);
    } else {
      forall preds: seq<T>
        ensures 0.0 <= Ndcg(preds, truths, k, Equality(), Weighted(w)) <= 1.0
      {
        WorstBounds(preds, truths, k, Equality(), w);
        RangeOfScore(preds, truths, k, w);
      }
    }
  }

  // ----- every case -----

  /** What a caller can check before scoring. */
  ghost predicate RangeGuard(g: seq<real>, k: int, ideal: real, w: nat -> real) {
    || k <= 0 || ideal == 0.0
    || (ideal > 0.0 && UnitSafe(g, k))
    || (ideal < 0.0 && NonPositive(g) && Worst(g, k, w) >= ideal)
  }

  /** nDCG stays within [0, 1] for every list of predictions if and only if the guard holds. */
  lemma NdcgRangeIff<T(!new)>(truths: seq<Truth<T>>, k: int, w: nat -> real)
    requires IsWeight(w) && DistinctBodies(truths)
    ensures AllInRange(truths, k, w) <==> RangeGuard(Gains(truths), k, IdealDcg(truths, k, Weighted(w)), w)
  {
    var ideal := IdealDcg(truths, k, Weighted(w));
    if k > 0 {
      if ideal > 0.0 {
        PositiveIdealIff(truths, k, w);
      } else if ideal < 0.0 {
        NegativeIdealIff(truths, k, w);
      }
    }
  }
}
