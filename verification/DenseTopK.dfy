/** The chunked dense top-k: rows stream in and are scored a chunk at a time, the `k` best
    of each chunk are offered to a bounded min-heap per query, and the heap must end up with
    the `k` best of the whole stream, whatever the chunk size and however ties are cut. */
module DenseTopK {
  import opened Ordering
  import opened Picking

  datatype Row<V> = Row(file: string, text: string, vector: V)

  /** What the heap stores; Python compares these tuples left to right. */
  datatype Item = Item(score: real, serial: nat, file: string, text: string)

  /** An item without its serial: a scored row. */
  datatype Scored = Scored(score: real, file: string, text: string)

  function Take(s: seq<real>, k: nat): (r: seq<real>) {
    if |s| <= k then s else s[..k]
  }

  // ----- the heap -----
  // heapq is used only through its minimum, its push and its replace. The heap is
  // kept here as a list, greatest item first, so the source's heap[0] is the last
  // element, and sorting it in reverse for the report is the identity.

  /** Tuple order. Serials are unique, so file and text are never compared. */
  predicate Before(a: Item, b: Item) {
    a.score < b.score || (a.score == b.score && a.serial < b.serial)
  }

  function Insert(heap: seq<Item>, item: Item): seq<Item> {
    if heap == [] || Before(heap[0], item) then [item] + heap else [heap[0]] + Insert(heap[1..], item)
  }

  /** One candidate meets one heap: push while there is room, otherwise replace the
      minimum if the candidate beats it. */
  function Offer(heap: seq<Item>, item: Item, k: nat): seq<Item>
    requires k >= 1
  {
    if |heap| < k then Insert(heap, item)
    else if item.score > heap[|heap| - 1].score then Insert(heap[..|heap| - 1], item)
    else heap
  }

  function Scores(heap: seq<Item>): (r: seq<real>)
    ensures |r| == |heap|
  {
    seq(|heap|, i requires 0 <= i < |heap| => heap[i].score)
  }

  function Bare(item: Item): Scored {
    Scored(item.score, item.file, item.text)
  }

  function Rows(heap: seq<Item>): (r: seq<Scored>)
    ensures |r| == |heap|
  {
    seq(|heap|, i requires 0 <= i < |heap| => Bare(heap[i]))
  }

  // ----- list algebra of "the best k" -----

  /** Sort and take: the reference the streaming pass is measured against. */
  function Best(s: seq<real>, k: nat): (r: seq<real>) {
    Take(SortDesc(s), k)
  }

  lemma {:induction false} TakeInsert(x: real, s: seq<real>, k: nat)
    ensures Take(InsertDesc(x, Take(s, k)), k) == Take(InsertDesc(x, s), k)
  {
    if k > 0 && |s| > k && x < s[0] {
      TakeInsert(x, s[1..], k - 1);
      assert Take(s, k)[1..] == Take(s[1..], k - 1);
      ConsTake(s[0], InsertDesc(x, Take(s[1..], k - 1)), k);
      ConsTake(s[0], InsertDesc(x, s[1..]), k);
    }
  }

  lemma ConsTake(x: real, s: seq<real>, k: nat)
    requires k > 0
    ensures Take([x] + s, k) == [x] + Take(s, k - 1)
  {
  }

  /** An element no larger than the k-th best is lost. */
  lemma {:induction false} TakeInsertLow(x: real, s: seq<real>)
    requires s != [] && Descending(s) && x <= s[|s| - 1]
    ensures Take(InsertDesc(x, s), |s|) == s
  {
    if x >= s[0] {
      assert forall i :: 0 <= i < |s| ==> s[i] == x;
      assert ([x] + s)[..|s|] == s;
    } else {
      if |s| > 1 {
        TakeInsertLow(x, s[1..]);
      }
      ConsTake(s[0], InsertDesc(x, s[1..]), |s|);
    }
  }

  /** An element larger than the minimum pushes the minimum out. */
  lemma {:induction false} TakeInsertHigh(x: real, s: seq<real>)
    requires s != [] && Descending(s) && x > s[|s| - 1]
    ensures Take(InsertDesc(x, s), |s|) == InsertDesc(x, s[..|s| - 1])
  {
    if x < s[0] {
      TakeInsertHigh(x, s[1..]);
      ConsTake(s[0], InsertDesc(x, s[1..]), |s|);
      assert s[1..][..|s| - 2] == s[..|s| - 1][1..];
    } else {
      assert ([x] + s)[..|s|] == [x] + s[..|s| - 1];
    }
  }

  /** The best k is maintained one element at a time. */
  lemma BestSnoc(s: seq<real>, x: real, k: nat)
    ensures Best(s + [x], k) == Take(InsertDesc(x, Best(s, k)), k)
  {
    InsertDescAdds(x, SortDesc(s));
    InsertDescOrders(x, SortDesc(s));
    SortedUnique(SortDesc(s + [x]), InsertDesc(x, SortDesc(s)));
    TakeInsert(x, SortDesc(s), k);
  }

  /** The k-th best of a list is no lower than what k of its elements are no lower than. */
  lemma KthBest(a: seq<real>, c: seq<real>, x: real, k: nat)
    requires |c| >= k >= 1 && forall i :: 0 <= i < |c| ==> x <= c[i]
    ensures SortDesc(a + c)[k - 1] >= x
  {
    SortedAtLeast(c, x, k - 1);
    SortDominates(a, c, k - 1);
  }

  lemma SortedAtLeast(c: seq<real>, x: real, i: nat)
    requires i < |c| && forall j :: 0 <= j < |c| ==> x <= c[j]
    ensures SortDesc(c)[i] >= x
  {
    SortMember(c, i);
    var j :| 0 <= j < |c| && c[j] == SortDesc(c)[i];
  }

  lemma TakeDescends(s: seq<real>, k: nat)
    requires Descending(s) && |s| >= k >= 1
    ensures |Take(s, k)| == k && Descending(Take(s, k)) && Take(s, k)[k - 1] == s[k - 1]
  {
  }

  /** An element dominated by k others never reaches the best k. */
  lemma BestIgnores(a: seq<real>, c: seq<real>, x: real, k: nat)
    requires |c| >= k >= 1 && forall i :: 0 <= i < |c| ==> x <= c[i]
    ensures Best(a + c + [x], k) == Best(a + c, k)
  {
    BestSnoc(a + c, x, k);
    KthBest(a, c, x, k);
    TakeDescends(SortDesc(a + c), k);
    TakeInsertLow(x, Best(a + c, k));
  }

  lemma {:induction false} BestIgnoresAll(a: seq<real>, c: seq<real>, rest: seq<real>, k: nat)
    requires |c| >= k >= 1
    requires forall i, j :: 0 <= i < |c| && 0 <= j < |rest| ==> rest[j] <= c[i]
    ensures Best(a + c + rest, k) == Best(a + c, k)
  {
    if rest == [] {
      assert a + c + rest == a + c;
    } else {
      var n := |rest| - 1;
      BestIgnoresAll(a, c, rest[..n], k);
      BestIgnores(a + rest[..n], c, rest[n], k);
      assert rest == rest[..n] + [rest[n]];
      Reordered(a, c, rest[..n], [rest[n]]);
      Reordered(a, c, rest[..n], []);
      SortOfSorted(a + c + rest, a + rest[..n] + c + [rest[n]]);
      SortOfSorted(a + c + rest[..n], a + rest[..n] + c);
    }
  }

  lemma Reordered(a: seq<real>, c: seq<real>, r: seq<real>, x: seq<real>)
    ensures multiset(a + c + (r + x)) == multiset(a + r + c + x)
    ensures x == [] ==> r + x == r && a + r + c + x == a + r + c
  {
  }

  // ----- one offer -----

  /** Greatest first, and every serial used so far is below `serial`. */
  ghost predicate Ranked(heap: seq<Item>, serial: nat) {
    && (forall i, j :: 0 <= i < j < |heap| ==> Before(heap[j], heap[i]))
    && (forall i :: 0 <= i < |heap| ==> heap[i].serial < serial)
  }

  lemma {:induction false} InsertScores(heap: seq<Item>, item: Item)
    requires Ranked(heap, item.serial)
    ensures Scores(Insert(heap, item)) == InsertDesc(item.score, Scores(heap))
  {
    if heap != [] && !Before(heap[0], item) {
      InsertScores(heap[1..], item);
      assert Scores(heap)[1..] == Scores(heap[1..]);
    }
  }

  lemma {:induction false} InsertRows(heap: seq<Item>, item: Item)
    ensures multiset(Rows(Insert(heap, item))) == multiset(Rows(heap)) + multiset{Bare(item)}
  {
    if heap == [] || Before(heap[0], item) {
      assert Rows([item] + heap) == [Bare(item)] + Rows(heap);
    } else {
      InsertRows(heap[1..], item);
      assert Rows(Insert(heap, item)) == [Bare(heap[0])] + Rows(Insert(heap[1..], item));
      assert Rows(heap) == [Bare(heap[0])] + Rows(heap[1..]);
    }
  }

  lemma {:induction false} InsertRanked(heap: seq<Item>, item: Item)
    requires Ranked(heap, item.serial)
    ensures Ranked(Insert(heap, item), item.serial + 1)
    ensures forall i :: 0 <= i < |Insert(heap, item)| ==> Insert(heap, item)[i] == item || Insert(heap, item)[i] in heap
  {
    if heap != [] && !Before(heap[0], item) {
      InsertRanked(heap[1..], item);
    }
  }

  lemma RankedDescends(heap: seq<Item>, serial: nat)
    requires Ranked(heap, serial)
    ensures Descending(Scores(heap))
  {
    assert forall i, j :: 0 <= i < j < |heap| ==> Before(heap[j], heap[i]);
  }

  lemma InsertAll(heap: seq<Item>, item: Item)
    requires Ranked(heap, item.serial)
    ensures Ranked(Insert(heap, item), item.serial + 1)
    ensures Scores(Insert(heap, item)) == InsertDesc(item.score, Scores(heap))
    ensures multiset(Rows(Insert(heap, item))) == multiset(Rows(heap)) + multiset{Bare(item)}
  {
    InsertRanked(heap, item);
    InsertScores(heap, item);
    InsertRows(heap, item);
  }

  /** Offering keeps the list ranked, keeps it the best k, and invents no row. */
  lemma OfferKeepsBest(heap: seq<Item>, item: Item, k: nat)
    requires k >= 1 && |heap| <= k && Ranked(heap, item.serial)
    ensures Ranked(Offer(heap, item, k), item.serial + 1)
    ensures Scores(Offer(heap, item, k)) == Take(InsertDesc(item.score, Scores(heap)), k)
    ensures multiset(Rows(Offer(heap, item, k))) <= multiset(Rows(heap)) + multiset{Bare(item)}
  {
    RankedDescends(heap, item.serial);
    if |heap| < k {
      InsertAll(heap, item);
    } else if item.score > heap[k - 1].score {
      InsertAll(heap[..k - 1], item);
      TakeInsertHigh(item.score, Scores(heap));
      assert Scores(heap)[..k - 1] == Scores(heap[..k - 1]);
      assert Rows(heap) == Rows(heap[..k - 1]) + [Bare(heap[k - 1])];
    } else {
      TakeInsertLow(item.score, Scores(heap));
    }
  }

  // ----- cutting a chunk -----

  lemma PullSnoc<T>(earlier: seq<T>, s: seq<T>, at: seq<nat>, j: nat)
    requires Within(at, |s|)
    requires j < |at|
    ensures earlier + Pull(s, at[..j + 1]) == earlier + Pull(s, at[..j]) + [s[at[j]]]
  {
  }

  /** What `np.argpartition(column, -count)` promises: a permutation of the positions
      whose last `count` entries are not beaten by the others. Ties may go anyhow. */
  ghost predicate Partitions(column: seq<real>, count: nat, order: seq<nat>) {
    && |order| == |column| && count <= |column|
    && multiset(order) == multiset(Range(|column|))
    && Within(order, |column|)
    && forall i, j :: 0 <= i < |column| - count <= j < |column| ==> column[order[i]] <= column[order[j]]
  }

  /** The candidates of a chunk stand for the whole chunk. */
  lemma CandidatesSuffice(earlier: seq<real>, column: seq<real>, order: seq<nat>, k: nat)
    requires k >= 1
    requires var count := if k <= |column| then k else |column|; Partitions(column, count, order)
    ensures var count := if k <= |column| then k else |column|;
            Best(earlier + Pull(column, order[|column| - count..]), k) == Best(earlier + column, k)
  {
    var count := if k <= |column| then k else |column|;
    var split := |column| - count;
    var cands, rest := Pull(column, order[split..]), Pull(column, order[..split]);
    PullPermutes(column, order);
    assert Pull(column, order) == rest + cands;
    if split == 0 {
      assert rest == [];
      SortOfSorted(earlier + cands, earlier + column);
    } else {
      BestIgnoresAll(earlier, cands, rest, k);
      SortOfSorted(earlier + cands + rest, earlier + column);
    }
  }

  lemma OfferedSnoc(heap: seq<Item>, item: Item, k: nat, base: multiset<Scored>, offered: seq<Scored>, at: seq<nat>, j: nat)
    requires k >= 1 && Within(at, |offered|)
    requires j < |at| && Bare(item) == offered[at[j]]
    requires multiset(Rows(heap)) <= base + multiset(Pull(offered, at[..j]))
    requires multiset(Rows(Offer(heap, item, k))) <= multiset(Rows(heap)) + multiset{Bare(item)}
    ensures multiset(Rows(Offer(heap, item, k))) <= base + multiset(Pull(offered, at[..j + 1]))
  {
    assert Pull(offered, at[..j + 1]) == Pull(offered, at[..j]) + [Bare(item)];
  }

  // ----- the streaming pass -----

  function Column<Q, V>(score: (Q, V) -> real, query: Q, rows: seq<Row<V>>): (c: seq<real>)
    ensures |c| == |rows| && forall i :: 0 <= i < |rows| ==> c[i] == score(query, rows[i].vector)
  {
    seq(|rows|, i requires 0 <= i < |rows| => score(query, rows[i].vector))
  }

  function ScoredRows<Q, V>(score: (Q, V) -> real, query: Q, rows: seq<Row<V>>): (c: seq<Scored>)
    ensures |c| == |rows|
    ensures forall i :: 0 <= i < |rows| ==> c[i] == Scored(score(query, rows[i].vector), rows[i].file, rows[i].text)
  {
    seq(|rows|, i requires 0 <= i < |rows| => Scored(score(query, rows[i].vector), rows[i].file, rows[i].text))
  }

  function NonTest<V>(rows: seq<Row<V>>, isTest: string -> bool): seq<Row<V>> {
    if rows == [] then []
    else
      NonTest(rows[..|rows| - 1], isTest)
      + (if isTest(rows[|rows| - 1].file) then [] else [rows[|rows| - 1]])
  }

  /** The heap is what sorting all rows by score and taking `k` would give: the same
      scores in the same order, each item a row of the stream with its own score,
      file and text, and no row used twice. */
  ghost predicate TopOf<Q, V>(heap: seq<Item>, score: (Q, V) -> real, query: Q, rows: seq<Row<V>>, serial: nat, k: nat) {
    && Ranked(heap, serial)
    && Scores(heap) == Best(Column(score, query, rows), k)
    && multiset(Rows(heap)) <= multiset(ScoredRows(score, query, rows))
  }

  /** The candidate loop of `score_chunk` for one query. */
  method OfferCandidates<V>(column: seq<real>, chunk: seq<Row<V>>, cands: seq<nat>, heap: seq<Item>, serial: nat, k: nat,
                            ghost earlier: seq<real>, ghost base: multiset<Scored>, ghost offered: seq<Scored>)
    returns (heap': seq<Item>, serial': nat)
    requires k >= 1 && |column| == |chunk| == |offered| && Within(cands, |chunk|)
    requires forall i :: 0 <= i < |chunk| ==> offered[i] == Scored(column[i], chunk[i].file, chunk[i].text)
    requires Ranked(heap, serial) && Scores(heap) == Best(earlier, k) && multiset(Rows(heap)) <= base
    ensures serial' >= serial && Ranked(heap', serial')
    ensures Scores(heap') == Best(earlier + Pull(column, cands), k)
    ensures multiset(Rows(heap')) <= base + multiset(Pull(offered, cands))
  {
    heap', serial' := heap, serial;
    assert earlier + Pull(column, cands[..0]) == earlier;
    for j := 0 to |cands|
      invariant serial' >= serial && Ranked(heap', serial')
      invariant Scores(heap') == Best(earlier + Pull(column, cands[..j]), k)
      invariant multiset(Rows(heap')) <= base + multiset(Pull(offered, cands[..j]))
    {
      var c := cands[j];
      var item := Item(column[c], serial', chunk[c].file, chunk[c].text);
      OfferKeepsBest(heap', item, k);
      BestSnoc(earlier + Pull(column, cands[..j]), column[c], k);
      PullSnoc(earlier, column, cands, j);
      OfferedSnoc(heap', item, k, base, offered, cands, j);
      heap', serial' := Offer(heap', item, k), serial' + 1;
    }
    assert cands[..|cands|] == cands;
  }

  lemma OfferedAreRows(offered: seq<Scored>, order: seq<nat>, split: nat)
    requires |order| == |offered| && multiset(order) == multiset(Range(|offered|)) && Within(order, |offered|)
    requires split <= |order|
    ensures multiset(Pull(offered, order[split..])) <= multiset(offered)
  {
    PullPermutes(offered, order);
    assert Pull(offered, order) == Pull(offered, order[..split]) + Pull(offered, order[split..]);
  }

  lemma Widen<T>(a: multiset<T>, b: multiset<T>, c: multiset<T>, d: multiset<T>)
    requires a <= b + c && c <= d
    ensures a <= b + d
  {
  }

  lemma StreamGrows<Q, V>(score: (Q, V) -> real, query: Q, rows: seq<Row<V>>, more: seq<Row<V>>)
    ensures Column(score, query, rows + more) == Column(score, query, rows) + Column(score, query, more)
    ensures multiset(ScoredRows(score, query, rows + more))
            == multiset(ScoredRows(score, query, rows)) + multiset(ScoredRows(score, query, more))
  {
    assert ScoredRows(score, query, rows + more) == ScoredRows(score, query, rows) + ScoredRows(score, query, more);
  }

  /** One query's share of `score_chunk`. */
  method ScoreQuery<Q, V>(score: (Q, V) -> real, query: Q, chunk: seq<Row<V>>, heap: seq<Item>, serial: nat,
                          argpartition: (seq<real>, nat) -> seq<nat>, k: nat, ghost flushed: seq<Row<V>>)
    returns (heap': seq<Item>, serial': nat)
    requires k >= 1
    requires forall column, count: nat :: count <= |column| ==> Partitions(column, count, argpartition(column, count))
    requires TopOf(heap, score, query, flushed, serial, k)
    ensures serial' >= serial && TopOf(heap', score, query, flushed + chunk, serial', k)
  {
    var column := Column(score, query, chunk);
    var count := if k <= |column| then k else |column|;
    var order := argpartition(column, count);
    ghost var earlier, rows := Column(score, query, flushed), ScoredRows(score, query, flushed);
    ghost var offered := ScoredRows(score, query, chunk);
    assert Partitions(column, count, order);
    heap', serial' := OfferCandidates(column, chunk, order[|column| - count..], heap, serial, k,
                                      earlier, multiset(rows), offered);
    ChunkTop(score, query, flushed, chunk, order, heap', serial', k);
  }

  /** The heap that has been offered a chunk's candidates is the top of the longer stream. */
  lemma ChunkTop<Q, V>(score: (Q, V) -> real, query: Q, flushed: seq<Row<V>>, chunk: seq<Row<V>>, order: seq<nat>,
                       heap: seq<Item>, serial: nat, k: nat)
    requires k >= 1 && Ranked(heap, serial)
    requires var count := if k <= |chunk| then k else |chunk|; Partitions(Column(score, query, chunk), count, order)
    requires var count := if k <= |chunk| then k else |chunk|;
             && Scores(heap)
                == Best(Column(score, query, flushed) + Pull(Column(score, query, chunk), order[|chunk| - count..]), k)
             && multiset(Rows(heap)) <= multiset(ScoredRows(score, query, flushed))
                                        + multiset(Pull(ScoredRows(score, query, chunk), order[|chunk| - count..]))
    ensures TopOf(heap, score, query, flushed + chunk, serial, k)
  {
    var count := if k <= |chunk| then k else |chunk|;
    var rows, offered := ScoredRows(score, query, flushed), ScoredRows(score, query, chunk);
    CandidatesSuffice(Column(score, query, flushed), Column(score, query, chunk), order, k);
    OfferedAreRows(offered, order, |chunk| - count);
    StreamGrows(score, query, flushed, chunk);
    Widen(multiset(Rows(heap)), multiset(rows), multiset(Pull(offered, order[|chunk| - count..])), multiset(offered));
  }

  ghost predicate AllTop<Q, V>(heaps: seq<seq<Item>>, score: (Q, V) -> real, queries: seq<Q>, rows: seq<Row<V>>,
                               serial: nat, k: nat)
  {
    |heaps| == |queries| && forall q :: 0 <= q < |queries| ==> TopOf(heaps[q], score, queries[q], rows, serial, k)
  }

  method ScoreChunk<Q, V>(score: (Q, V) -> real, queries: seq<Q>, chunk: seq<Row<V>>, heaps: seq<seq<Item>>,
                          serial: nat, argpartition: (seq<real>, nat) -> seq<nat>, k: nat, ghost flushed: seq<Row<V>>)
    returns (heaps': seq<seq<Item>>, serial': nat)
    requires k >= 1
    requires forall column, count: nat :: count <= |column| ==> Partitions(column, count, argpartition(column, count))
    requires AllTop(heaps, score, queries, flushed, serial, k)
    ensures AllTop(heaps', score, queries, flushed + chunk, serial', k)
  {
    heaps', serial' := heaps, serial;
    if chunk == [] {
      assert flushed + chunk == flushed;
      return;
    }
    for q := 0 to |queries|
      invariant |heaps'| == |queries| && serial' >= serial
      invariant forall p :: 0 <= p < q ==> TopOf(heaps'[p], score, queries[p], flushed + chunk, serial', k)
      invariant forall p :: q <= p < |queries| ==> heaps'[p] == heaps[p]
    {
      var heap;
      heap, serial' := ScoreQuery(score, queries[q], chunk, heaps'[q], serial', argpartition, k, flushed);
      heaps' := heaps'[q := heap];
    }
  }

  // ----- what the heaps are, in terms of the rows -----

  /** The positions of the rows that are not in a test path. */
  ghost function Kept<V>(rows: seq<Row<V>>, isTest: string -> bool): set<nat> {
    set i: nat | i < |rows| && !isTest(rows[i].file)
  }

  /** The skipping keeps exactly the rows not in a test path, each once and in order. */
  lemma {:induction false} NonTestKeeps<V>(rows: seq<Row<V>>, isTest: string -> bool) returns (at: seq<nat>)
    ensures Within(at, |rows|) && (forall i, j :: 0 <= i < j < |at| ==> at[i] < at[j])
    ensures forall i: nat :: i in at <==> i < |rows| && !isTest(rows[i].file)
    ensures NonTest(rows, isTest) == Pull(rows, at)
  {
    at := [];
    if rows != [] {
      var n := |rows| - 1;
      at := NonTestKeeps(rows[..n], isTest);
      assert Pull(rows, at) == Pull(rows[..n], at);
      if !isTest(rows[n].file) {
        at := AppendKept(rows, isTest, at);
      }
    }
  }

  lemma AppendKept<V>(rows: seq<Row<V>>, isTest: string -> bool, at: seq<nat>) returns (at': seq<nat>)
    requires rows != [] && !isTest(rows[|rows| - 1].file)
    requires Within(at, |rows| - 1) && (forall i, j :: 0 <= i < j < |at| ==> at[i] < at[j])
    requires forall i: nat :: i in at <==> i < |rows| - 1 && !isTest(rows[i].file)
    ensures Within(at', |rows|) && (forall i, j :: 0 <= i < j < |at'| ==> at'[i] < at'[j])
    ensures forall i: nat :: i in at' <==> i < |rows| && !isTest(rows[i].file)
    ensures Pull(rows, at') == Pull(rows, at) + [rows[|rows| - 1]]
  {
    at' := at + [|rows| - 1];
  }

  lemma {:induction false} KeptLength<V>(rows: seq<Row<V>>, isTest: string -> bool)
    ensures |NonTest(rows, isTest)| == |Kept(rows, isTest)|
  {
    if rows == [] {
      assert Kept(rows, isTest) == {};
    } else {
      var n := |rows| - 1;
      KeptLength(rows[..n], isTest);
      assert Kept(rows, isTest) == Kept(rows[..n], isTest) + if isTest(rows[n].file) then {} else {n};
    }
  }

  lemma SnocCount<T>(s: seq<T>, x: T, y: T)
    ensures multiset(s + [x])[y] == multiset(s)[y] + if x == y then 1 else 0
  {
  }

  /** No test row is kept, and of every other row as many copies as there are. */
  lemma {:induction false} NonTestCounts<V>(rows: seq<Row<V>>, isTest: string -> bool, r: Row<V>)
    ensures multiset(NonTest(rows, isTest))[r] == if isTest(r.file) then 0 else multiset(rows)[r]
  {
    if rows != [] {
      var n := |rows| - 1;
      NonTestCounts(rows[..n], isTest, r);
      assert rows == rows[..n] + [rows[n]];
      SnocCount(rows[..n], rows[n], r);
      SnocCount(NonTest(rows[..n], isTest), rows[n], r);
    }
  }

  /** `at` names the rows behind the items of a heap: rows outside test paths, each used
      once, greatest score first and the later of equals before, `k` of them or all there
      are, and none left out scores more than one of them. */
  ghost predicate Leads<Q, V>(heap: seq<Item>, score: (Q, V) -> real, query: Q, rows: seq<Row<V>>,
                              isTest: string -> bool, k: nat, at: seq<nat>)
  {
    && |at| == |heap| && Picks(at, |rows|)
    && (forall i :: 0 <= i < |at| ==>
          && !isTest(rows[at[i]].file)
          && heap[i].file == rows[at[i]].file && heap[i].text == rows[at[i]].text
          && heap[i].score == score(query, rows[at[i]].vector))
    && (forall i, j :: 0 <= i < j < |heap| ==>
          heap[i].score > heap[j].score || (heap[i].score == heap[j].score && heap[i].serial > heap[j].serial))
    && (forall p: nat, i :: p < |rows| && p !in at && !isTest(rows[p].file) && 0 <= i < |heap| ==>
          score(query, rows[p].vector) <= heap[i].score)
    && |heap| == if k <= |Kept(rows, isTest)| then k else |Kept(rows, isTest)|
  }

  /** What sorting leaves out is beaten by all it takes. */
  lemma LeftOut(column: seq<real>, at: seq<nat>, k: nat, p: nat, i: nat)
    requires Picks(at, |column|) && Pull(column, at) == Best(column, k)
    requires p < |column| && p !in at && i < |at|
    ensures column[p] <= column[at[i]]
  {
    var sorted, n := SortDesc(column), |at|;
    var rest := Shared(column, at);
    assert p in rest;
    var r :| 0 <= r < |rest| && rest[r] == p;
    assert Pull(column, rest)[r] == column[p] && Pull(column, at) == sorted[..n];
    BehindTheCut(sorted, n, Pull(column, rest), column[p], i);
    assert Pull(column, at)[i] == column[at[i]];
  }

  lemma BehindTheCut(sorted: seq<real>, n: nat, rest: seq<real>, x: real, i: nat)
    requires Descending(sorted) && i < n <= |sorted| && x in rest
    requires multiset(sorted[..n]) + multiset(rest) == multiset(sorted)
    ensures x <= sorted[i]
  {
    assert sorted == sorted[..n] + sorted[n..];
    assert (multiset(sorted[..n]) + multiset(rest))[x] == (multiset(sorted[..n]) + multiset(sorted[n..]))[x];
    assert x in multiset(rest);
    assert x in sorted[n..];
    var j :| 0 <= j < |sorted[n..]| && sorted[n..][j] == x;
    assert sorted[n + j] == x;
  }

  /** The top of the kept rows leads the whole stream. */
  lemma TopLeads<Q, V>(heap: seq<Item>, score: (Q, V) -> real, query: Q, rows: seq<Row<V>>, isTest: string -> bool,
                       serial: nat, k: nat) returns (at: seq<nat>)
    requires TopOf(heap, score, query, NonTest(rows, isTest), serial, k)
    ensures Leads(heap, score, query, rows, isTest, k, at)
  {
    var kept := NonTest(rows, isTest);
    var where := NonTestKeeps(rows, isTest);
    var picked := PartIsPicked(Rows(heap), ScoredRows(score, query, kept));
    at := Pull(where, picked);
    assert forall i :: 0 <= i < |at| ==>
      kept[picked[i]] == rows[at[i]] && ScoredRows(score, query, kept)[picked[i]] == Rows(heap)[i] == Bare(heap[i]);
    PickedDistinct(where, picked);
    KeptLength(rows, isTest);
    assert forall i, j :: 0 <= i < j < |heap| ==> Before(heap[j], heap[i]);
    var column := Column(score, query, kept);
    assert Pull(column, picked) == Scores(heap);
    forall p: nat, i | p < |rows| && p !in at && !isTest(rows[p].file) && 0 <= i < |heap|
      ensures score(query, rows[p].vector) <= heap[i].score
    {
      var j := StillKept(where, picked, p);
      LeftOut(column, picked, k, j, i);
    }
  }

  /** A kept position that was not picked. */
  lemma StillKept(where: seq<nat>, picked: seq<nat>, p: nat) returns (j: nat)
    requires Within(picked, |where|) && p in where && p !in Pull(where, picked)
    ensures j < |where| && where[j] == p && j !in picked
  {
    j :| 0 <= j < |where| && where[j] == p;
    assert forall l :: 0 <= l < |picked| ==> Pull(where, picked)[l] in Pull(where, picked);
  }

  /** Distinct choices from distinct positions are distinct. */
  lemma PickedDistinct(where: seq<nat>, picked: seq<nat>)
    requires Picks(picked, |where|) && forall i, j :: 0 <= i < j < |where| ==> where[i] < where[j]
    ensures forall i, j :: 0 <= i < j < |picked| ==> Pull(where, picked)[i] != Pull(where, picked)[j]
  {
    forall i, j | 0 <= i < j < |picked|
      ensures Pull(where, picked)[i] != Pull(where, picked)[j]
    {
      var a, b := picked[i], picked[j];
      assert a < b ==> where[a] < where[b];
      assert b < a ==> where[b] < where[a];
    }
  }

  ghost predicate LeadsStream<Q, V>(heap: seq<Item>, score: (Q, V) -> real, query: Q, rows: seq<Row<V>>,
                              isTest: string -> bool, k: nat)
  {
    exists at :: Leads(heap, score, query, rows, isTest, k, at)
  }

  /** Every heap leads the stream for its query. */
  ghost predicate AllLead<Q, V>(heaps: seq<seq<Item>>, score: (Q, V) -> real, queries: seq<Q>, rows: seq<Row<V>>,
                                isTest: string -> bool, k: nat)
  {
    && |heaps| == |queries|
    && forall q :: 0 <= q < |queries| ==> LeadsStream(heaps[q], score, queries[q], rows, isTest, k)
  }

  lemma AllTopLead<Q, V>(heaps: seq<seq<Item>>, score: (Q, V) -> real, queries: seq<Q>, rows: seq<Row<V>>,
                         isTest: string -> bool, serial: nat, k: nat)
    requires AllTop(heaps, score, queries, NonTest(rows, isTest), serial, k)
    ensures AllLead(heaps, score, queries, rows, isTest, k)
  {
    forall q | 0 <= q < |queries|
      ensures LeadsStream(heaps[q], score, queries[q], rows, isTest, k)
    {
      var at := TopLeads(heaps[q], score, queries[q], rows, isTest, serial, k);
    }
  }

  /** The whole pass: skip test rows, flush whenever a chunk is full, flush the rest. */
  method ResolveHeaps<Q, V>(score: (Q, V) -> real, queries: seq<Q>, rows: seq<Row<V>>, isTest: string -> bool,
                            chunkSize: nat, argpartition: (seq<real>, nat) -> seq<nat>, k: nat)
    returns (heaps: seq<seq<Item>>, serial: nat)
    requires k >= 1
    requires forall column, count: nat :: count <= |column| ==> Partitions(column, count, argpartition(column, count))
    ensures AllTop(heaps, score, queries, NonTest(rows, isTest), serial, k)
    ensures AllLead(heaps, score, queries, rows, isTest, k)
  {
    heaps, serial := seq(|queries|, _ => []), 0;
    var chunk: seq<Row<V>> := [];
    ghost var flushed: seq<Row<V>> := [];
    for i := 0 to |rows|
      invariant flushed + chunk == NonTest(rows[..i], isTest)
      invariant AllTop(heaps, score, queries, flushed, serial, k)
    {
      assert rows[..i + 1][..i] == rows[..i];
      if !isTest(rows[i].file) {
        chunk := chunk + [rows[i]];
      }
      if |chunk| >= chunkSize {
        heaps, serial := ScoreChunk(score, queries, chunk, heaps, serial, argpartition, k, flushed);
        flushed, chunk := flushed + chunk, [];
      }
    }
    heaps, serial := ScoreChunk(score, queries, chunk, heaps, serial, argpartition, k, flushed);
    assert rows[..|rows|] == rows;
    AllTopLead(heaps, score, queries, rows, isTest, serial, k);
  }
}
