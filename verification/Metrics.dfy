/** Retrieval metrics over ranked predictions and graded ground truths. Relevance is any
    predicate, and what a gain is worth at a rank any function with the laws of
    `IsDiscount`, such as the gain times `1 / log2(rank + 1)`. */
module Metrics {
  import opened Basics
  import opened Ordering

  /** A ground-truth row with its `relevance` (1.0 when absent in the JSON). */
  datatype Truth<T> = Truth(body: T, gain: real)

  type Relevance<!P, !T> = (P, T) -> bool

  /** Python's `s[:k]`, negative `k` included. */
  function Slice<T>(s: seq<T>, k: int): (r: seq<T>)
    ensures r <= s
    ensures k >= 0 ==> |r| <= k
  {
    if k >= |s| then s else if k >= 0 then s[..k] else if -k >= |s| then [] else s[..|s| + k]
  }

  // ----- matching -----

  predicate Candidate<P, T>(p: P, truths: seq<Truth<T>>, rel: Relevance<P, T>, used: set<nat>, i: nat)
    requires i < |truths|
  {
    i !in used && rel(p, truths[i].body) && truths[i].gain > -1.0
  }

  /** The answer `best_matching_truth_index` owes: the first unused relevant truth of
      greatest gain, where gains of -1 or less never win. */
  ghost predicate IsBest<P, T>(p: P, truths: seq<Truth<T>>, rel: Relevance<P, T>, used: set<nat>, n: nat, best: Option<nat>)
    requires n <= |truths|
  {
    match best
    case None => forall i :: 0 <= i < n ==> !Candidate(p, truths, rel, used, i)
    case Some(b) =>
      && b < n && Candidate(p, truths, rel, used, b)
      && (forall i :: 0 <= i < n && Candidate(p, truths, rel, used, i) ==> truths[i].gain <= truths[b].gain)
      && (forall i :: 0 <= i < b && Candidate(p, truths, rel, used, i) ==> truths[i].gain < truths[b].gain)
  }

  method BestMatchingTruthIndex<P, T>(p: P, truths: seq<Truth<T>>, rel: Relevance<P, T>, used: set<nat>)
    returns (best: Option<nat>)
    ensures IsBest(p, truths, rel, used, |truths|, best)
    ensures best == Best(p, truths, rel, used, |truths|)
  {
    best := None;
    var bestGain := -1.0;
    for i := 0 to |truths|
      invariant IsBest(p, truths, rel, used, i, best)
      invariant bestGain == match best case None => -1.0 case Some(b) => truths[b].gain
    {
      if i in used || !rel(p, truths[i].body) {
        continue;
      }
      var gain := truths[i].gain;
      if gain > bestGain {
        bestGain, best := gain, Some(i);
      }
    }
    BestIsBest(p, truths, rel, used, |truths|);
  }

  function Best<P, T>(p: P, truths: seq<Truth<T>>, rel: Relevance<P, T>, used: set<nat>, n: nat): (best: Option<nat>)
    requires n <= |truths|
    ensures best.Some? ==> best.value < n
  {
    if n == 0 then None
    else
      var b := Best(p, truths, rel, used, n - 1);
      if Candidate(p, truths, rel, used, n - 1) && (b.None? || truths[n - 1].gain > truths[b.value].gain)
      then Some(n - 1) else b
  }

  lemma {:induction false} BestIsBest<P, T>(p: P, truths: seq<Truth<T>>, rel: Relevance<P, T>, used: set<nat>, n: nat)
    requires n <= |truths|
    ensures IsBest(p, truths, rel, used, n, Best(p, truths, rel, used, n))
    ensures forall other :: IsBest(p, truths, rel, used, n, other) ==> other == Best(p, truths, rel, used, n)
  {
    if n > 0 {
      BestIsBest(p, truths, rel, used, n - 1);
    }
  }

  // ----- discounted gain -----

  /** What a gain is worth at a rank. */
  type Discount = (real, nat) -> real

  /** A positive gain is worth something, a larger gain more, a later rank less; and moving
      the larger of two gains forward never loses. */
  ghost predicate IsDiscount(d: Discount) {
    && (forall r: nat :: d(0.0, r) == 0.0)
    && (forall g, r: nat :: g > 0.0 ==> d(g, r) > 0.0)
    && (forall a, b, r: nat :: a <= b ==> d(a, r) <= d(b, r))
    && (forall g, r: nat, later: nat :: g >= 0.0 && r <= later ==> d(g, later) <= d(g, r))
    && (forall a, b, r: nat, later: nat {:trigger d(a, r), d(b, later), d(b, r), d(a, later)} ::
          a <= b && r <= later ==> d(a, r) + d(b, later) <= d(b, r) + d(a, later))
  }

  ghost predicate IsWeight(w: nat -> real) {
    && (forall r: nat :: w(r) > 0.0)
    && (forall r: nat, later: nat :: r <= later ==> w(later) <= w(r))
  }

  function Weighted(w: nat -> real): Discount { (g: real, r: nat) => g * w(r) }

  /** The gain times a positive non-increasing weight is a discount. */
  lemma WeightedIsDiscount(w: nat -> real)
    requires IsWeight(w)
    ensures IsDiscount(Weighted(w))
  {
    WeightedGrows(w);
    WeightedFades(w);
    WeightedExchanges(w);
  }

  lemma WeightedGrows(w: nat -> real)
    requires IsWeight(w)
    ensures var d := Weighted(w);
            && (forall r: nat :: d(0.0, r) == 0.0)
            && (forall g, r: nat :: g > 0.0 ==> d(g, r) > 0.0)
            && (forall a, b, r: nat :: a <= b ==> d(a, r) <= d(b, r))
  {
    forall a, b, r: nat | a <= b
      ensures Weighted(w)(a, r) <= Weighted(w)(b, r)
    {
      ScaleUp(a, b, w(r));
    }
    forall g, r: nat | g > 0.0
      ensures Weighted(w)(g, r) > 0.0
    {
      ScaleUp(0.0, g, w(r));
    }
  }

  lemma WeightedFades(w: nat -> real)
    requires IsWeight(w)
    ensures var d := Weighted(w);
            forall g, r: nat, later: nat :: g >= 0.0 && r <= later ==> d(g, later) <= d(g, r)
  {
    forall g, r: nat, later: nat | g >= 0.0 && r <= later
      ensures Weighted(w)(g, later) <= Weighted(w)(g, r)
    {
      Exchange(0.0, g, w(r), w(later));
    }
  }

  lemma WeightedExchanges(w: nat -> real)
    requires IsWeight(w)
    ensures var d := Weighted(w);
            forall a, b, r: nat, later: nat {:trigger d(a, r), d(b, later), d(b, r), d(a, later)} ::
              a <= b && r <= later ==> d(a, r) + d(b, later) <= d(b, r) + d(a, later)
  {
    var d := Weighted(w);
    forall a, b, r: nat, later: nat {:trigger d(a, r), d(b, later), d(b, r), d(a, later)} | a <= b && r <= later
      ensures d(a, r) + d(b, later) <= d(b, r) + d(a, later)
    {
      Exchange(a, b, w(r), w(later));
    }
  }

  lemma ScaleUp(a: real, b: real, w: real)
    requires a <= b && w > 0.0
    ensures a * w <= b * w && (a < b ==> a * w < b * w)
  {
  }

  lemma Exchange(a: real, b: real, w: real, v: real)
    requires a <= b && v <= w
    ensures a * w + b * v <= b * w + a * v
  {
    var x, y := b - a, w - v;
    NonNegativeProduct(x, y);
    Expand(a, b, w, v);
  }

  lemma NonNegativeProduct(x: real, y: real)
    requires x >= 0.0 && y >= 0.0
    ensures x * y >= 0.0
  {
  }

  lemma Expand(a: real, b: real, w: real, v: real)
    ensures (b - a) * (w - v) == b * w - b * v - a * w + a * v
  {
  }

  /** The gains greedy matching collects, one entry per prediction, 0 for a miss. */
  function Collected<P, T>(preds: seq<P>, truths: seq<Truth<T>>, rel: Relevance<P, T>, used: set<nat>): (g: seq<real>)
    ensures |g| == |preds|
  {
    if preds == [] then []
    else
      match Best(preds[0], truths, rel, used, |truths|)
      case None => [0.0] + Collected(preds[1..], truths, rel, used)
      case Some(b) => [truths[b].gain] + Collected(preds[1..], truths, rel, used + {b})
  }

  /** Sum of `gains[i]` discounted at ranks `rank`, `rank + 1`, ... */
  function Discounted(gains: seq<real>, d: Discount, rank: nat): real {
    if gains == [] then 0.0 else d(gains[0], rank) + Discounted(gains[1..], d, rank + 1)
  }

  lemma DiscountedCons(x: real, g: seq<real>, d: Discount, rank: nat)
    ensures Discounted([x] + g, d, rank) == d(x, rank) + Discounted(g, d, rank + 1)
  {
    assert ([x] + g)[1..] == g;
  }

  method DcgAtK<P, T>(preds: seq<P>, truths: seq<Truth<T>>, k: int, rel: Relevance<P, T>, d: Discount) returns (dcg: real)
    requires IsDiscount(d)
    ensures dcg == Discounted(Collected(Slice(preds, k), truths, rel, {}), d, 1)
  {
    dcg := 0.0;
    var used: set<nat> := {};
    var top := Slice(preds, k);
    for i := 0 to |top|
      invariant dcg + Discounted(Collected(top[i..], truths, rel, used), d, i + 1)
                == Discounted(Collected(top, truths, rel, {}), d, 1)
    {
      var rank := i + 1;
      CollectOne(top, i, truths, rel, used, d);
      var found := BestMatchingTruthIndex(top[i], truths, rel, used);
      if found == None {
        continue;
      }
      used := used + {found.value};
      var gain := truths[found.value].gain;
      dcg := dcg + d(gain, rank);
    }
  }

  lemma CollectOne<P, T>(top: seq<P>, i: nat, truths: seq<Truth<T>>, rel: Relevance<P, T>, used: set<nat>, d: Discount)
    requires i < |top| && IsDiscount(d)
    ensures var found := Best(top[i], truths, rel, used, |truths|);
            Discounted(Collected(top[i..], truths, rel, used), d, i + 1)
            == match found
               case None => Discounted(Collected(top[i + 1..], truths, rel, used), d, i + 2)
               case Some(b) =>
                 d(truths[b].gain, i + 1) + Discounted(Collected(top[i + 1..], truths, rel, used + {b}), d, i + 2)
  {
    assert top[i..][0] == top[i] && top[i..][1..] == top[i + 1..];
    match Best(top[i], truths, rel, used, |truths|)
    case None => DiscountedCons(0.0, Collected(top[i + 1..], truths, rel, used), d, i + 1);
    case Some(b) => DiscountedCons(truths[b].gain, Collected(top[i + 1..], truths, rel, used + {b}), d, i + 1);
  }

  function Gains<T>(truths: seq<Truth<T>>): (g: seq<real>)
    ensures |g| == |truths| && forall i :: 0 <= i < |g| ==> g[i] == truths[i].gain
  {
    seq(|truths|, i requires 0 <= i < |truths| => truths[i].gain)
  }

  function IdealDcg<T>(truths: seq<Truth<T>>, k: int, d: Discount): real {
    Discounted(Slice(SortDesc(Gains(truths)), k), d, 1)
  }

  function Dcg<P, T>(preds: seq<P>, truths: seq<Truth<T>>, k: int, rel: Relevance<P, T>, d: Discount): real {
    Discounted(Collected(Slice(preds, k), truths, rel, {}), d, 1)
  }

  function Ndcg<P, T>(preds: seq<P>, truths: seq<Truth<T>>, k: int, rel: Relevance<P, T>, d: Discount): real {
    if truths == [] || k <= 0 || IdealDcg(truths, k, d) == 0.0 then 0.0
    else Dcg(preds, truths, k, rel, d) / IdealDcg(truths, k, d)
  }

  /** No truth has a negative relevance. */
  predicate NonNegative(g: seq<real>) {
    forall i :: 0 <= i < |g| ==> g[i] >= 0.0
  }

  /** A gain that can win a match, one above -1, is not negative. */
  predicate NoWinningLoss(g: seq<real>) {
    forall i :: 0 <= i < |g| ==> g[i] <= -1.0 || g[i] >= 0.0
  }

  /** No negative gain can win a match, and none lies within the ideal cut. */
  predicate UnitSafe(g: seq<real>, k: int) {
    NoWinningLoss(g) && NonNegative(Slice(SortDesc(g), k))
  }

  method NdcgAtK<P, T>(preds: seq<P>, truths: seq<Truth<T>>, k: int, rel: Relevance<P, T>, d: Discount) returns (r: real)
    requires IsDiscount(d)
    ensures r == Ndcg(preds, truths, k, rel, d)
    ensures UnitSafe(Gains(truths), k) ==> 0.0 <= r <= 1.0
  {
    if truths == [] || k <= 0 {
      return 0.0;
    }
    var dcg := DcgAtK(preds, truths, k, rel, d);
    var ideal := IdealDcg(truths, k, d);
    if UnitSafe(Gains(truths), k) {
      NdcgInUnitInterval(preds, truths, k, rel, d);
    }
    if ideal == 0.0 {
      return 0.0;
    }
    return dcg / ideal;
  }

  // ----- greedy gain never exceeds ideal gain -----

  /** The gains greedy matching collects, misses left out. */
  function Matched<P, T>(preds: seq<P>, truths: seq<Truth<T>>, rel: Relevance<P, T>, used: set<nat>): (g: seq<real>)
    ensures |g| <= |preds|
  {
    if preds == [] then []
    else
      match Best(preds[0], truths, rel, used, |truths|)
      case None => Matched(preds[1..], truths, rel, used)
      case Some(b) => [truths[b].gain] + Matched(preds[1..], truths, rel, used + {b})
  }

  /** The truths greedy matching has used once all predictions are placed. */
  function Spent<P, T>(preds: seq<P>, truths: seq<Truth<T>>, rel: Relevance<P, T>, used: set<nat>): set<nat> {
    if preds == [] then used
    else
      match Best(preds[0], truths, rel, used, |truths|)
      case None => Spent(preds[1..], truths, rel, used)
      case Some(b) => Spent(preds[1..], truths, rel, used + {b})
  }

  /** The gains still on offer among the first `n` truths. */
  function Available<T>(truths: seq<Truth<T>>, used: set<nat>, n: nat): multiset<real>
    requires n <= |truths|
  {
    if n == 0 then multiset{}
    else if n - 1 in used then Available(truths, used, n - 1)
    else Available(truths, used, n - 1) + multiset{truths[n - 1].gain}
  }

  lemma {:induction false} AvailableUnchanged<T>(truths: seq<Truth<T>>, used: set<nat>, b: nat, n: nat)
    requires n <= |truths| && n <= b
    ensures Available(truths, used, n) == Available(truths, used + {b}, n)
  {
    if n > 0 {
      AvailableUnchanged(truths, used, b, n - 1);
    }
  }

  lemma {:induction false} AvailableSpendAt<T>(truths: seq<Truth<T>>, used: set<nat>, b: nat, n: nat, x: real)
    requires b < n <= |truths| && b !in used
    ensures Available(truths, used, n)[x]
         == Available(truths, used + {b}, n)[x] + if truths[b].gain == x then 1 else 0
  {
    if n - 1 == b {
      AvailableUnchanged(truths, used, b, n - 1);
    } else {
      AvailableSpendAt(truths, used, b, n - 1, x);
    }
  }

  lemma AvailableSpend<T>(truths: seq<Truth<T>>, used: set<nat>, b: nat, n: nat)
    requires b < n <= |truths| && b !in used
    ensures Available(truths, used, n) == Available(truths, used + {b}, n) + multiset{truths[b].gain}
  {
    var all, less := Available(truths, used, n), Available(truths, used + {b}, n);
    forall x
      ensures all[x] == (less + multiset{truths[b].gain})[x]
    {
      AvailableSpendAt(truths, used, b, n, x);
    }
  }

  /** No truth is used twice: what is matched and what is left make up what was on offer. */
  lemma {:induction false} MatchedWithoutReuse<P, T>(preds: seq<P>, truths: seq<Truth<T>>, rel: Relevance<P, T>,
                                                     used: set<nat>)
    ensures multiset(Matched(preds, truths, rel, used)) + Available(truths, Spent(preds, truths, rel, used), |truths|)
            == Available(truths, used, |truths|)
    decreases |preds|
  {
    if preds != [] {
      BestIsBest(preds[0], truths, rel, used, |truths|);
      match Best(preds[0], truths, rel, used, |truths|)
      case None => MatchedWithoutReuse(preds[1..], truths, rel, used);
      case Some(b) =>
        MatchedWithoutReuse(preds[1..], truths, rel, used + {b});
        AvailableSpend(truths, used, b, |truths|);
    }
  }

  lemma {:induction false} AllAvailable<T>(truths: seq<Truth<T>>, n: nat)
    requires n <= |truths|
    ensures Available(truths, {}, n) == multiset(Gains(truths)[..n])
  {
    if n > 0 {
      AllAvailable(truths, n - 1);
      assert Gains(truths)[..n] == Gains(truths)[..n - 1] + [truths[n - 1].gain];
    }
  }

  /** `full` is `compact` with zeros put in. */
  predicate Gapped(full: seq<real>, compact: seq<real>) {
    if full == [] then compact == []
    else
      || (full[0] == 0.0 && Gapped(full[1..], compact))
      || (compact != [] && full[0] == compact[0] && Gapped(full[1..], compact[1..]))
  }

  lemma {:induction false} CollectedGapped<P, T>(preds: seq<P>, truths: seq<Truth<T>>, rel: Relevance<P, T>, used: set<nat>)
    ensures Gapped(Collected(preds, truths, rel, used), Matched(preds, truths, rel, used))
    decreases |preds|
  {
    if preds != [] {
      match Best(preds[0], truths, rel, used, |truths|)
      case None =>
        CollectedGapped(preds[1..], truths, rel, used);
        assert Collected(preds, truths, rel, used)[1..] == Collected(preds[1..], truths, rel, used);
      case Some(b) =>
        CollectedGapped(preds[1..], truths, rel, used + {b});
        assert Collected(preds, truths, rel, used)[1..] == Collected(preds[1..], truths, rel, used + {b});
        assert Matched(preds, truths, rel, used)[1..] == Matched(preds[1..], truths, rel, used + {b});
    }
  }

  /** Every matched gain is one that can win. */
  lemma {:induction false} MatchedWins<P, T>(preds: seq<P>, truths: seq<Truth<T>>, rel: Relevance<P, T>, used: set<nat>)
    ensures forall g <- Matched(preds, truths, rel, used) :: g > -1.0 && g in Gains(truths)
    decreases |preds|
  {
    if preds != [] {
      BestIsBest(preds[0], truths, rel, used, |truths|);
      match Best(preds[0], truths, rel, used, |truths|)
      case None => MatchedWins(preds[1..], truths, rel, used);
      case Some(b) =>
        MatchedWins(preds[1..], truths, rel, used + {b});
        assert Gains(truths)[b] == truths[b].gain;
    }
  }

  /** A gap only pushes later gains to cheaper ranks. */
  lemma {:induction false} GapsCost(full: seq<real>, compact: seq<real>, d: Discount, rank: nat)
    requires IsDiscount(d) && Gapped(full, compact) && NonNegative(compact)
    ensures 0.0 <= Discounted(full, d, rank) <= Discounted(compact, d, rank)
    decreases |full|
  {
    if full != [] {
      assert d(0.0, rank) == 0.0;
      if full[0] == 0.0 && Gapped(full[1..], compact) {
        GapsCost(full[1..], compact, d, rank + 1);
        LaterIsCheaper(compact, d, rank);
      } else {
        GapsCost(full[1..], compact[1..], d, rank + 1);
        assert d(0.0, rank) <= d(full[0], rank);
      }
    }
  }

  /** A miss never raises DCG. */
  lemma MissesCost<P, T>(preds: seq<P>, truths: seq<Truth<T>>, rel: Relevance<P, T>, used: set<nat>,
                         d: Discount, rank: nat)
    requires IsDiscount(d) && NoWinningLoss(Gains(truths))
    ensures 0.0 <= Discounted(Collected(preds, truths, rel, used), d, rank)
                <= Discounted(Matched(preds, truths, rel, used), d, rank)
    ensures NonNegative(Matched(preds, truths, rel, used))
  {
    CollectedGapped(preds, truths, rel, used);
    MatchedWins(preds, truths, rel, used);
    var matched := Matched(preds, truths, rel, used);
    forall i | 0 <= i < |matched|
      ensures matched[i] >= 0.0
    {
      assert matched[i] in matched;
    }
    GapsCost(Collected(preds, truths, rel, used), matched, d, rank);
  }

  lemma {:induction false} LaterIsCheaper(g: seq<real>, d: Discount, rank: nat)
    requires IsDiscount(d) && NonNegative(g)
    ensures Discounted(g, d, rank + 1) <= Discounted(g, d, rank)
  {
    if g != [] {
      LaterIsCheaper(g[1..], d, rank + 1);
      assert d(g[0], rank + 1) <= d(g[0], rank);
    }
  }

  /** Moving an element to its place in a descending list never loses gain. */
  lemma {:induction false} InsertGains(x: real, s: seq<real>, d: Discount, rank: nat)
    requires IsDiscount(d)
    ensures d(x, rank) + Discounted(s, d, rank + 1) <= Discounted(InsertDesc(x, s), d, rank)
  {
    if s != [] && x < s[0] {
      InsertGains(x, s[1..], d, rank + 1);
      assert d(x, rank) + d(s[0], rank + 1) <= d(s[0], rank) + d(x, rank + 1);
    }
  }

  /** Rearrangement: descending order is the best order. */
  lemma {:induction false} SortingGains(s: seq<real>, d: Discount, rank: nat)
    requires IsDiscount(d)
    ensures Discounted(s, d, rank) <= Discounted(SortDesc(s), d, rank)
  {
    if s != [] {
      SortingGains(s[1..], d, rank + 1);
      InsertGains(s[0], SortDesc(s[1..]), d, rank);
    }
  }

  lemma {:induction false} DominatedGains(a: seq<real>, b: seq<real>, d: Discount, rank: nat)
    requires IsDiscount(d) && |a| <= |b| && NonNegative(b)
    requires forall i :: 0 <= i < |a| ==> a[i] <= b[i]
    ensures Discounted(a, d, rank) <= Discounted(b, d, rank)
  {
    if b != [] {
      if a == [] {
        DominatedGains(a, b[1..], d, rank + 1);
        assert d(0.0, rank) <= d(b[0], rank);
      } else {
        DominatedGains(a[1..], b[1..], d, rank + 1);
        assert d(a[0], rank) <= d(b[0], rank);
      }
    }
  }

  /** Greedy DCG is non-negative and never exceeds the ideal DCG. */
  lemma DcgAtMostIdeal<P, T>(preds: seq<P>, truths: seq<Truth<T>>, k: int, rel: Relevance<P, T>, d: Discount)
    requires IsDiscount(d) && UnitSafe(Gains(truths), k) && k > 0
    ensures 0.0 <= Dcg(preds, truths, k, rel, d) <= IdealDcg(truths, k, d)
  {
    var top := Slice(preds, k);
    var matched := Matched(top, truths, rel, {});
    MissesCost(top, truths, rel, {}, d, 1);
    SortingGains(matched, d, 1);
    MatchedDominated(top, truths, rel);
    DominatedGains(SortDesc(matched), Slice(SortDesc(Gains(truths)), k), d, 1);
  }

  /** Rank by rank, the matched gains in order stay below the ideal gains. */
  lemma MatchedDominated<P, T>(top: seq<P>, truths: seq<Truth<T>>, rel: Relevance<P, T>)
    ensures var matched := Matched(top, truths, rel, {});
            |matched| <= |truths| && forall i :: 0 <= i < |matched| ==> SortDesc(matched)[i] <= SortDesc(Gains(truths))[i]
  {
    MatchedWithoutReuse(top, truths, rel, {});
    AllAvailable(truths, |truths|);
    assert Gains(truths)[..|truths|] == Gains(truths);
    var left := Unspent(truths, Spent(top, truths, rel, {}), |truths|);
    PartDominated(Matched(top, truths, rel, {}), left, Gains(truths));
  }

  function Unspent<T>(truths: seq<Truth<T>>, used: set<nat>, n: nat): (s: seq<real>)
    requires n <= |truths|
    ensures multiset(s) == Available(truths, used, n)
  {
    if n == 0 then []
    else if n - 1 in used then Unspent(truths, used, n - 1)
    else Unspent(truths, used, n - 1) + [truths[n - 1].gain]
  }

  lemma NonNegativeIsSafe<T>(truths: seq<Truth<T>>, k: int)
    requires NonNegative(Gains(truths))
    ensures UnitSafe(Gains(truths), k)
  {
    forall i | 0 <= i < |truths| ensures SortDesc(Gains(truths))[i] >= 0.0 {
      SortMember(Gains(truths), i);
    }
  }

  lemma NdcgInUnitInterval<P, T>(preds: seq<P>, truths: seq<Truth<T>>, k: int, rel: Relevance<P, T>, d: Discount)
    requires IsDiscount(d) && UnitSafe(Gains(truths), k)
    ensures 0.0 <= Ndcg(preds, truths, k, rel, d) <= 1.0
  {
    if k > 0 && IdealDcg(truths, k, d) != 0.0 {
      DcgAtMostIdeal(preds, truths, k, rel, d);
      QuotientBound(Dcg(preds, truths, k, rel, d), IdealDcg(truths, k, d));
    }
  }

  lemma QuotientBound(a: real, b: real)
    requires 0.0 <= a <= b && b != 0.0
    ensures 0.0 <= a / b <= 1.0
  {
  }

  /** The bound needs a guard: one unmatched negative truth within the cut lowers the ideal
      below what answering the other one earns, under every weight. */
  lemma NegativeGainBreaksBound(w: nat -> real)
    requires IsWeight(w)
    ensures Ndcg([0], [Truth(0, 1.0), Truth(1, -0.5)], 2, (p: int, t: int) => p == t, Weighted(w)) > 1.0
  {
    var rel := (p: int, t: int) => p == t;
    var truths := [Truth(0, 1.0), Truth(1, -0.5)];
    IdealOfTwo(truths, Weighted(w));
    assert w(2) <= w(1) && w(2) > 0.0;
    NegativeGainNdcg(truths, rel, Weighted(w));
  }

  lemma NegativeGainNdcg(truths: seq<Truth<int>>, rel: Relevance<int, int>, d: Discount)
    requires truths == [Truth(0, 1.0), Truth(1, -0.5)] && rel == ((p: int, t: int) => p == t)
    requires 0.0 < IdealDcg(truths, 2, d) < d(1.0, 1)
    ensures Ndcg([0], truths, 2, rel, d) > 1.0
  {
    NegativeGainDcg(truths, rel, d);
    QuotientAbove(d(1.0, 1), IdealDcg(truths, 2, d));
  }

  lemma NegativeGainDcg(truths: seq<Truth<int>>, rel: Relevance<int, int>, d: Discount)
    requires truths == [Truth(0, 1.0), Truth(1, -0.5)] && rel == ((p: int, t: int) => p == t)
    ensures Dcg([0], truths, 2, rel, d) == d(1.0, 1)
  {
    BestIsBest(0, truths, rel, {}, 2);
    assert IsBest(0, truths, rel, {}, 2, Some(0));
    assert Collected([0], truths, rel, {}) == [1.0] + Collected([], truths, rel, {0}) == [1.0] + [];
    DiscountedCons(1.0, [], d, 1);
  }

  lemma SortTwo(a: real, b: real)
    requires a >= b
    ensures SortDesc([a, b]) == [a] + [b]
  {
    assert [a, b][1..] == [b] && [b][1..] == [];
    assert InsertDesc(b, []) == [b];
  }

  lemma IdealOfTwo(truths: seq<Truth<int>>, d: Discount)
    requires truths == [Truth(0, 1.0), Truth(1, -0.5)]
    ensures IdealDcg(truths, 2, d) == d(1.0, 1) + d(-0.5, 2)
  {
    assert Gains(truths) == [1.0, -0.5];
    SortTwo(1.0, -0.5);
    DiscountedCons(1.0, [-0.5], d, 1);
    DiscountedCons(-0.5, [], d, 2);
    assert [-0.5] + [] == [-0.5];
  }

  lemma QuotientAbove(a: real, b: real)
    requires 0.0 < b < a
    ensures a / b > 1.0
  {
  }

  /** The bound is attained: answering each truth once, in descending gain, scores 1. */
  lemma PerfectRankingScoresOne<P, T>(preds: seq<P>, truths: seq<Truth<T>>, k: int, rel: Relevance<P, T>, d: Discount)
    requires NonNegative(Gains(truths)) && Descending(Gains(truths)) && |preds| == |truths|
    requires forall i, j :: 0 <= i < |preds| && 0 <= j < |truths| ==> (rel(preds[i], truths[j].body) <==> i == j)
    requires k > 0 && IdealDcg(truths, k, d) != 0.0
    ensures Ndcg(preds, truths, k, rel, d) == 1.0
  {
    PerfectDcg(preds, truths, k, rel, d);
    QuotientOne(IdealDcg(truths, k, d));
  }

  lemma PerfectDcg<P, T>(preds: seq<P>, truths: seq<Truth<T>>, k: int, rel: Relevance<P, T>, d: Discount)
    requires NonNegative(Gains(truths)) && Descending(Gains(truths)) && |preds| == |truths|
    requires forall i, j :: 0 <= i < |preds| && 0 <= j < |truths| ==> (rel(preds[i], truths[j].body) <==> i == j)
    requires k > 0
    ensures Dcg(preds, truths, k, rel, d) == IdealDcg(truths, k, d)
  {
    SortedUnique(Gains(truths), SortDesc(Gains(truths)));
    PerfectCollects(Slice(preds, k), truths, rel, 0);
    PerfectCut(preds, Gains(truths), k);
  }

  lemma PerfectCut<P>(preds: seq<P>, gains: seq<real>, k: int)
    requires |preds| == |gains| && k > 0
    ensures gains[0..0 + |Slice(preds, k)|] == Slice(gains, k)
  {
  }

  lemma QuotientOne(a: real)
    requires a != 0.0
    ensures a / a == 1.0
  {
  }

  function Upto(n: nat): (r: set<nat>)
    ensures forall x: nat :: x in r <==> x < n
  {
    if n == 0 then {} else Upto(n - 1) + {n - 1}
  }

  lemma {:induction false} PerfectCollects<P, T>(preds: seq<P>, truths: seq<Truth<T>>, rel: Relevance<P, T>, from: nat)
    requires NonNegative(Gains(truths)) && from + |preds| <= |truths|
    requires forall i, j :: 0 <= i < |preds| && 0 <= j < |truths| ==> (rel(preds[i], truths[j].body) <==> from + i == j)
    ensures Collected(preds, truths, rel, Upto(from)) == Gains(truths)[from..from + |preds|]
    decreases |preds|
  {
    if preds != [] {
      PerfectMatch(preds[0], truths, rel, from);
      assert Upto(from + 1) == Upto(from) + {from};
      PerfectCollects(preds[1..], truths, rel, from + 1);
    }
  }

  lemma PerfectMatch<P, T>(p: P, truths: seq<Truth<T>>, rel: Relevance<P, T>, from: nat)
    requires NonNegative(Gains(truths)) && from < |truths|
    requires forall j :: 0 <= j < |truths| ==> (rel(p, truths[j].body) <==> from == j)
    ensures Best(p, truths, rel, Upto(from), |truths|) == Some(from)
  {
    BestIsBest(p, truths, rel, Upto(from), |truths|);
    assert Gains(truths)[from] >= 0.0;
    assert Candidate(p, truths, rel, Upto(from), from);
    assert IsBest(p, truths, rel, Upto(from), |truths|, Some(from));
  }

  // ----- recall, precision and reciprocal rank -----

  ghost predicate Hits<P, T>(p: P, truths: seq<Truth<T>>, rel: Relevance<P, T>) {
    exists j :: 0 <= j < |truths| && rel(p, truths[j].body)
  }

  /** Some prediction is relevant to some truth. */
  ghost predicate AnyHit<P, T>(top: seq<P>, truths: seq<Truth<T>>, rel: Relevance<P, T>) {
    exists i :: 0 <= i < |top| && Hits(top[i], truths, rel)
  }

  /** Some prediction is relevant to truth `j`. */
  ghost predicate Reached<P, T>(top: seq<P>, truths: seq<Truth<T>>, rel: Relevance<P, T>, j: nat)
    requires j < |truths|
  {
    exists i :: 0 <= i < |top| && rel(top[i], truths[j].body)
  }

  method IsRelevant<P, T>(p: P, truths: seq<Truth<T>>, rel: Relevance<P, T>) returns (r: bool)
    ensures r <==> Hits(p, truths, rel)
  {
    for j := 0 to |truths|
      invariant forall i :: 0 <= i < j ==> !rel(p, truths[i].body)
    {
      if rel(p, truths[j].body) {
        return true;
      }
    }
    return false;
  }

  ghost function Covered<P, T>(top: seq<P>, truths: seq<Truth<T>>, rel: Relevance<P, T>): set<nat> {
    set j | j in Upto(|truths|) && Reached(top, truths, rel, j)
  }

  method CoveredTruthIndexes<P, T>(preds: seq<P>, truths: seq<Truth<T>>, k: int, rel: Relevance<P, T>)
    returns (covered: set<nat>)
    ensures covered == Covered(Slice(preds, k), truths, rel)
  {
    covered := {};
    var top := Slice(preds, k);
    for i := 0 to |top|
      invariant forall j: nat :: j in covered <==> j < |truths| && Reached(top[..i], truths, rel, j)
    {
      for j := 0 to |truths|
        invariant forall g: nat :: g in covered <==>
          || (g < |truths| && Reached(top[..i], truths, rel, g))
          || (g < j && rel(top[i], truths[g].body))
      {
        if rel(top[i], truths[j].body) {
          covered := covered + {j};
        }
      }
      ReachedSnoc(top, truths, rel, i);
    }
    assert top[..|top|] == top;
  }

  lemma ReachedSnoc<P, T>(top: seq<P>, truths: seq<Truth<T>>, rel: Relevance<P, T>, i: nat)
    requires i < |top|
    ensures forall j :: 0 <= j < |truths| ==>
      (Reached(top[..i + 1], truths, rel, j) <==> Reached(top[..i], truths, rel, j) || rel(top[i], truths[j].body))
  {
    forall j | 0 <= j < |truths|
      ensures Reached(top[..i + 1], truths, rel, j) <==> Reached(top[..i], truths, rel, j) || rel(top[i], truths[j].body)
    {
      if h :| 0 <= h < i && rel(top[..i][h], truths[j].body) {
        assert rel(top[..i + 1][h], truths[j].body);
      }
      if rel(top[i], truths[j].body) {
        assert rel(top[..i + 1][i], truths[j].body);
      }
    }
  }

  method RecallAtK<P, T>(preds: seq<P>, truths: seq<Truth<T>>, k: int, rel: Relevance<P, T>) returns (r: real)
    ensures truths != [] ==> r == |Covered(Slice(preds, k), truths, rel)| as real / |truths| as real
    ensures 0.0 <= r <= 1.0
    ensures r > 0.0 <==> AnyHit(Slice(preds, k), truths, rel)
    ensures r == 1.0 <==> truths != [] && forall j :: 0 <= j < |truths| ==> Reached(Slice(preds, k), truths, rel, j)
  {
    if truths == [] {
      return 0.0;
    }
    var covered := CoveredTruthIndexes(preds, truths, k, rel);
    r := |covered| as real / |truths| as real;
    RecallBounds(Slice(preds, k), truths, rel);
  }

  lemma RecallBounds<P, T>(top: seq<P>, truths: seq<Truth<T>>, rel: Relevance<P, T>)
    requires truths != []
    ensures var r := |Covered(top, truths, rel)| as real / |truths| as real;
            && 0.0 <= r <= 1.0
            && (r > 0.0 <==> AnyHit(top, truths, rel))
            && (r == 1.0 <==> forall j :: 0 <= j < |truths| ==> Reached(top, truths, rel, j))
  {
    var covered := Covered(top, truths, rel);
    UptoSize(|truths|);
    SubsetSize(covered, Upto(|truths|));
    RatioBounds(|covered|, |truths|);
    CoveredNonEmpty(top, truths, rel);
    assert forall j :: 0 <= j < |truths| ==> (Reached(top, truths, rel, j) <==> j in covered);
    assert covered == Upto(|truths|) <==> forall j :: 0 <= j < |truths| ==> Reached(top, truths, rel, j);
  }

  lemma CoveredNonEmpty<P, T>(top: seq<P>, truths: seq<Truth<T>>, rel: Relevance<P, T>)
    ensures Covered(top, truths, rel) != {} <==> AnyHit(top, truths, rel)
  {
    var covered := Covered(top, truths, rel);
    if AnyHit(top, truths, rel) {
      var i :| 0 <= i < |top| && Hits(top[i], truths, rel);
      var j :| 0 <= j < |truths| && rel(top[i], truths[j].body);
      assert Reached(top, truths, rel, j) && j in covered;
    }
    if covered != {} {
      var j :| j in covered;
      var i :| 0 <= i < |top| && rel(top[i], truths[j].body);
      assert Hits(top[i], truths, rel);
    }
  }

  lemma RatioBounds(a: nat, b: nat)
    requires a <= b && b > 0
    ensures var r := a as real / b as real; 0.0 <= r <= 1.0 && (r > 0.0 <==> a > 0) && (r == 1.0 <==> a == b)
  {
  }

  lemma {:induction false} UptoSize(n: nat)
    ensures |Upto(n)| == n
  {
    if n > 0 {
      UptoSize(n - 1);
    }
  }

  lemma SubsetSize(a: set<nat>, b: set<nat>)
    requires a <= b
    ensures |a| <= |b| && (|a| == |b| ==> a == b)
  {
    assert b == a + (b - a);
  }

  /** How many predictions hit. */
  ghost function HitCount<P, T>(top: seq<P>, truths: seq<Truth<T>>, rel: Relevance<P, T>): nat {
    if top == [] then 0
    else HitCount(top[..|top| - 1], truths, rel) + if Hits(top[|top| - 1], truths, rel) then 1 else 0
  }

  lemma {:induction false} HitCountBounds<P, T>(top: seq<P>, truths: seq<Truth<T>>, rel: Relevance<P, T>)
    ensures HitCount(top, truths, rel) <= |top|
    ensures HitCount(top, truths, rel) > 0 <==> AnyHit(top, truths, rel)
    ensures HitCount(top, truths, rel) == |top| <==> forall i :: 0 <= i < |top| ==> Hits(top[i], truths, rel)
  {
    if top != [] {
      var last := |top| - 1;
      HitCountBounds(top[..last], truths, rel);
      assert forall i :: 0 <= i < last ==> top[..last][i] == top[i];
    }
  }

  method PrecisionAtK<P, T>(preds: seq<P>, truths: seq<Truth<T>>, k: int, rel: Relevance<P, T>) returns (r: real)
    ensures k > 0 ==> r == HitCount(Slice(preds, k), truths, rel) as real / k as real
    ensures 0.0 <= r <= 1.0
    ensures k > 0 ==> (r > 0.0 <==> AnyHit(Slice(preds, k), truths, rel))
    ensures k > 0 ==> (r == 1.0 <==> |preds| >= k && forall i :: 0 <= i < k ==> Hits(preds[i], truths, rel))
  {
    if k <= 0 {
      return 0.0;
    }
    var relevant: nat, top := 0, Slice(preds, k);
    for i := 0 to |top|
      invariant relevant == HitCount(top[..i], truths, rel)
    {
      assert top[..i + 1][..i] == top[..i];
      var hit := IsRelevant(top[i], truths, rel);
      if hit {
        relevant := relevant + 1;
      }
    }
    assert top[..|top|] == top;
    HitCountBounds(top, truths, rel);
    RatioBounds(relevant, k);
    r := relevant as real / k as real;
  }

  ghost predicate FirstHit<P, T>(top: seq<P>, truths: seq<Truth<T>>, rel: Relevance<P, T>, i: int) {
    0 <= i < |top| && Hits(top[i], truths, rel) && forall h :: 0 <= h < i ==> !Hits(top[h], truths, rel)
  }

  method MrrAtK<P, T>(preds: seq<P>, truths: seq<Truth<T>>, k: int, rel: Relevance<P, T>) returns (r: real)
    ensures 0.0 <= r <= 1.0
    ensures r > 0.0 <==> AnyHit(Slice(preds, k), truths, rel)
    ensures forall i :: FirstHit(Slice(preds, k), truths, rel, i) ==> r == 1.0 / (i + 1) as real
  {
    var top := Slice(preds, k);
    for i := 0 to |top|
      invariant forall h :: 0 <= h < i ==> !Hits(top[h], truths, rel)
    {
      var hit := IsRelevant(top[i], truths, rel);
      if hit {
        RatioBounds(1, i + 1);
        return 1.0 / (i + 1) as real;
      }
    }
    return 0.0;
  }

  /** With positive gains, nDCG is positive exactly when some prediction within the cut
      is relevant: the same condition as for recall, precision and reciprocal rank. */
  lemma NdcgPositiveIffHit<P, T>(preds: seq<P>, truths: seq<Truth<T>>, k: int, rel: Relevance<P, T>, d: Discount)
    requires IsDiscount(d) && k > 0 && forall i :: 0 <= i < |truths| ==> truths[i].gain > 0.0
    ensures Ndcg(preds, truths, k, rel, d) > 0.0
            <==> AnyHit(Slice(preds, k), truths, rel)
  {
    var top := Slice(preds, k);
    assert NonNegative(Gains(truths));
    DcgPositiveIffHit(top, truths, rel, d, 1);
    if truths != [] {
      NonNegativeIsSafe(truths, k);
      DcgAtMostIdeal(preds, truths, k, rel, d);
      NdcgSign(preds, truths, k, rel, d);
    }
  }

  lemma NdcgSign<P, T>(preds: seq<P>, truths: seq<Truth<T>>, k: int, rel: Relevance<P, T>, d: Discount)
    requires truths != [] && k > 0 && 0.0 <= Dcg(preds, truths, k, rel, d) <= IdealDcg(truths, k, d)
    ensures Ndcg(preds, truths, k, rel, d) > 0.0 <==> Dcg(preds, truths, k, rel, d) > 0.0
  {
    var dcg, ideal := Dcg(preds, truths, k, rel, d), IdealDcg(truths, k, d);
    if ideal != 0.0 {
      if dcg > 0.0 {
        QuotientPositive(dcg, ideal);
      } else {
        QuotientZero(ideal);
      }
    }
  }

  lemma QuotientZero(b: real)
    requires b != 0.0
    ensures 0.0 / b == 0.0
  {
  }

  lemma QuotientPositive(a: real, b: real)
    requires a > 0.0 && b > 0.0
    ensures a / b > 0.0
  {
  }

  lemma {:induction false} DcgPositiveIffHit<P, T>(top: seq<P>, truths: seq<Truth<T>>, rel: Relevance<P, T>,
                                                   d: Discount, rank: nat)
    requires IsDiscount(d) && forall i :: 0 <= i < |truths| ==> truths[i].gain > 0.0
    ensures Discounted(Collected(top, truths, rel, {}), d, rank) > 0.0
            <==> AnyHit(top, truths, rel)
    decreases |top|
  {
    if top != [] {
      BestIsBest(top[0], truths, rel, {}, |truths|);
      match Best(top[0], truths, rel, {}, |truths|)
      case None =>
        forall j | 0 <= j < |truths| ensures !rel(top[0], truths[j].body) {
          assert !Candidate(top[0], truths, rel, {}, j);
        }
        DcgPositiveIffHit(top[1..], truths, rel, d, rank + 1);
        DiscountedCons(0.0, Collected(top[1..], truths, rel, {}), d, rank);
        HitLater(top, truths, rel);
      case Some(b) =>
        assert rel(top[0], truths[b].body) && Hits(top[0], truths, rel);
        MissesCost(top[1..], truths, rel, {b}, d, rank + 1);
        assert {} + {b} == {b};
        DiscountedCons(truths[b].gain, Collected(top[1..], truths, rel, {b}), d, rank);
        assert d(truths[b].gain, rank) > 0.0;
    }
  }

  lemma HitLater<P, T>(top: seq<P>, truths: seq<Truth<T>>, rel: Relevance<P, T>)
    requires top != [] && !Hits(top[0], truths, rel)
    ensures AnyHit(top, truths, rel) <==> AnyHit(top[1..], truths, rel)
  {
    if i :| 0 <= i < |top| && Hits(top[i], truths, rel) {
      assert top[1..][i - 1] == top[i];
    }
  }
}
