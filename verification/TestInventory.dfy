/** The proof that every Rust test lands in exactly one bucket of the split gate: counted
    comparisons between a baseline listing, four bucket listings and the hash shards. */
module TestInventory {
  import opened Basics
  import opened Text

  /** A listed test. `matches` is nextest's filter status; cargo listings have no filter. */
  datatype Entry = Entry(kind: string, suite: string, source: string, name: string, matches: bool)

  function Key(e: Entry): string {
    if e.kind in {"lib", "bin", "test"} then e.kind + "|" + e.suite + "|" + e.name
    else e.kind + "|" + e.suite + "|" + e.source + "|" + e.name
  }

  /** Two listed tests are the same test exactly when kind, suite and name agree, and for
      targets other than the library, binaries and test binaries the source file too. */
  lemma KeyIff(a: Entry, b: Entry)
    requires forall s <- [a.kind, a.suite, a.source, b.kind, b.suite, b.source] :: '|' !in s
    ensures Key(a) == Key(b) <==>
            && a.kind == b.kind && a.suite == b.suite && a.name == b.name
            && (a.kind == "lib" || a.kind == "bin" || a.kind == "test" || a.source == b.source)
  {
    var x := if Compiled(a.kind) then a.name else a.source + (['|'] + a.name);
    var y := if Compiled(b.kind) then b.name else b.source + (['|'] + b.name);
    KeyParts(a);
    KeyParts(b);
    assert forall s <- [a.kind, a.suite, a.source, b.kind, b.suite, b.source] :: '|' !in s;
    if Key(a) == Key(b) {
      CutAt(a.kind, a.suite + (['|'] + x), b.kind, b.suite + (['|'] + y), '|');
      CutAt(a.suite, x, b.suite, y, '|');
      if !Compiled(a.kind) {
        CutAt(a.source, a.name, b.source, b.name, '|');
      }
    }
  }

  predicate Compiled(kind: string) { kind == "lib" || kind == "bin" || kind == "test" }

  lemma KeyParts(e: Entry)
    ensures var last := if Compiled(e.kind) then e.name else e.source + (['|'] + e.name);
            Key(e) == e.kind + (['|'] + (e.suite + (['|'] + last)))
  {
    assert "|" == ['|'];
  }

  lemma CutAt(a: string, x: string, b: string, y: string, c: char)
    requires c !in a && c !in b && a + ([c] + x) == b + ([c] + y)
    ensures a == b && x == y
  {
    assert (a + ([c] + x))[|a|] == c && (b + ([c] + y))[|b|] == c;
    assert |a| == |b|;
    assert (a + ([c] + x))[..|a|] == a && (b + ([c] + y))[..|b|] == b;
    assert (a + ([c] + x))[|a| + 1..] == x && (b + ([c] + y))[|b| + 1..] == y;
  }

  function Keys(entries: seq<Entry>): seq<string> {
    if entries == [] then [] else [Key(entries[0])] + Keys(entries[1..])
  }

  lemma {:induction false} KeysSnoc(entries: seq<Entry>, e: Entry)
    ensures Keys(entries + [e]) == Keys(entries) + [Key(e)]
  {
    if entries == [] {
      assert entries + [e] == [e];
    } else {
      assert (entries + [e])[1..] == entries[1..] + [e];
      KeysSnoc(entries[1..], e);
    }
  }

  lemma {:induction false} KeyListed(entries: seq<Entry>, e: Entry)
    requires e in entries
    ensures Key(e) in Keys(entries)
  {
    if e != entries[0] {
      KeyListed(entries[1..], e);
    }
  }

  /** `Counter(entry.key for ...)` */
  function Counts(entries: seq<Entry>): multiset<string> { multiset(Keys(entries)) }

  function ShardCounts(shards: seq<seq<Entry>>): multiset<string> {
    if shards == [] then multiset{} else Counts(shards[0]) + ShardCounts(shards[1..])
  }

  // ----- partition_coverage_errors -----

  /** The three error lists; their order plays no role. */
  datatype Errors = Errors(missing: set<string>, duplicate: set<string>, extra: set<string>)

  function PartitionCoverageErrors(expected: seq<Entry>, shards: seq<seq<Entry>>): Errors {
    var want, have := Counts(expected), ShardCounts(shards);
    Errors(set k | k in want && have[k] < want[k],
           set k | k in have && have[k] > want[k],
           set k | k in have && k !in want)
  }

  predicate Clean(e: Errors) { e.missing == {} && e.duplicate == {} && e.extra == {} }

  /** No error is reported exactly when the shards together hold the expected tests,
      each as often as expected. */
  lemma CleanIffSameTests(expected: seq<Entry>, shards: seq<seq<Entry>>)
    ensures Clean(PartitionCoverageErrors(expected, shards)) <==> ShardCounts(shards) == Counts(expected)
  {
    var want, have := Counts(expected), ShardCounts(shards);
    var errors := PartitionCoverageErrors(expected, shards);
    if Clean(errors) {
      forall k ensures have[k] == want[k] {
        assert k !in errors.missing && k !in errors.duplicate;
      }
    }
  }

  // ----- one shard -----

  ghost predicate InExactlyOneShard(k: string, shards: seq<seq<Entry>>) {
    exists i :: 0 <= i < |shards| && OnlyIn(k, shards, i)
  }

  /** Shard `i` lists `k` once and no other shard lists it. */
  ghost predicate OnlyIn(k: string, shards: seq<seq<Entry>>, i: nat)
    requires i < |shards|
  {
    Counts(shards[i])[k] == 1 && forall j :: 0 <= j < |shards| && j != i ==> Counts(shards[j])[k] == 0
  }

  /** How often each shard lists `k`. */
  function Spread(k: string, shards: seq<seq<Entry>>): seq<nat> {
    if shards == [] then [] else [Counts(shards[0])[k]] + Spread(k, shards[1..])
  }

  function Sum(ns: seq<nat>): nat { if ns == [] then 0 else ns[0] + Sum(ns[1..]) }

  lemma {:induction false} SpreadFacts(k: string, shards: seq<seq<Entry>>)
    ensures ShardCounts(shards)[k] == Sum(Spread(k, shards))
    ensures |Spread(k, shards)| == |shards|
    ensures forall i :: 0 <= i < |shards| ==> Spread(k, shards)[i] == Counts(shards[i])[k]
  {
    if shards != [] {
      SpreadFacts(k, shards[1..]);
      assert Spread(k, shards)[1..] == Spread(k, shards[1..]);
    }
  }

  ghost predicate OneAt(ns: seq<nat>, i: nat) {
    i < |ns| && ns[i] == 1 && forall j :: 0 <= j < |ns| && j != i ==> ns[j] == 0
  }

  lemma {:induction false} ZeroIff(ns: seq<nat>)
    ensures Sum(ns) == 0 <==> forall j :: 0 <= j < |ns| ==> ns[j] == 0
  {
    if ns != [] {
      ZeroIff(ns[1..]);
      assert forall j :: 1 <= j < |ns| ==> ns[j] == ns[1..][j - 1];
    }
  }

  lemma OneInFront(ns: seq<nat>)
    requires ns != []
    ensures OneAt(ns, 0) <==> ns[0] == 1 && Sum(ns[1..]) == 0
  {
    ZeroIff(ns[1..]);
    assert forall j :: 1 <= j < |ns| ==> ns[j] == ns[1..][j - 1];
    assert forall j :: 0 <= j < |ns| - 1 ==> ns[1..][j] == ns[j + 1];
  }

  lemma OneBehind(ns: seq<nat>, i: nat)
    requires ns != []
    ensures OneAt(ns, i + 1) <==> ns[0] == 0 && OneAt(ns[1..], i)
  {
    assert forall j :: 1 <= j < |ns| ==> ns[j] == ns[1..][j - 1];
    assert forall j :: 0 <= j < |ns| - 1 ==> ns[1..][j] == ns[j + 1];
  }

  lemma {:induction false} OneIff(ns: seq<nat>)
    ensures Sum(ns) == 1 <==> exists i :: OneAt(ns, i)
  {
    if ns != [] {
      OneIff(ns[1..]);
      OneInFront(ns);
      if Sum(ns) == 1 && ns[0] == 0 {
        var i :| OneAt(ns[1..], i);
        OneBehind(ns, i);
      }
      if i: nat :| OneAt(ns, i) && i > 0 {
        OneBehind(ns, i - 1);
      }
    }
  }

  lemma OneShardIff(k: string, shards: seq<seq<Entry>>)
    ensures InExactlyOneShard(k, shards) <==> ShardCounts(shards)[k] == 1
  {
    SpreadFacts(k, shards);
    OneIff(Spread(k, shards));
    forall i: nat | i < |shards|
      ensures OnlyIn(k, shards, i) <==> OneAt(Spread(k, shards), i)
    {
    }
  }

  // ----- the coverage map -----

  type Coverage = map<string, seq<string>>

  function Cover(c: Coverage, k: string, bucket: string): Coverage {
    c[k := (if k in c then c[k] else []) + [bucket]]
  }

  /** The map lists a bucket per covering entry. */
  ghost predicate CoverageCounts(c: Coverage, m: multiset<string>) {
    && (forall k :: k in c <==> k in m)
    && (forall k :: k in c ==> |c[k]| == m[k])
  }

  lemma CoverCounts(c: Coverage, m: multiset<string>, k: string, bucket: string)
    requires CoverageCounts(c, m)
    ensures CoverageCounts(Cover(c, k, bucket), m + multiset{k})
  {
  }

  /** One loop of `coverage.setdefault(entry.key, []).append(bucket)`. */
  method CoverAll(c: Coverage, entries: seq<Entry>, bucket: string, ghost m: multiset<string>) returns (r: Coverage)
    requires CoverageCounts(c, m)
    ensures CoverageCounts(r, m + Counts(entries))
  {
    r := c;
    assert m + Counts(entries[..0]) == m;
    for i := 0 to |entries|
      invariant CoverageCounts(r, m + Counts(entries[..i]))
    {
      CoverCounts(r, m + Counts(entries[..i]), Key(entries[i]), bucket);
      r := Cover(r, Key(entries[i]), bucket);
      CountsSnoc(entries, i, m);
    }
    assert entries[..|entries|] == entries;
  }

  lemma CountsSnoc(entries: seq<Entry>, i: nat, m: multiset<string>)
    requires i < |entries|
    ensures m + Counts(entries[..i + 1]) == (m + Counts(entries[..i])) + multiset{Key(entries[i])}
  {
    assert entries[..i + 1] == entries[..i] + [entries[i]];
    KeysSnoc(entries[..i], entries[i]);
  }

  // ----- the acceptance condition -----

  /** The listings the proof compares. The integration shardable list is the integration
      listing filtered by status; the unit shardable list comes from a run of its own. */
  datatype Inventory = Inventory(
    baseline: seq<Entry>,
    unit: seq<Entry>, unitShardable: seq<Entry>, unitShards: seq<seq<Entry>>,
    docs: seq<Entry>,
    integration: seq<Entry>, integrationShards: seq<seq<Entry>>,
    watcher: seq<Entry>,
    archive: Option<seq<Entry>>)

  const WATCHER_SUITE := "watcher_integration"
  const SERIAL_TLS := "platform_verifier_tls_client_subprocess"
  const SERIAL_BACKTRACE := "panic_hook_preserves_default_backtrace_behavior_and_persists"

  predicate EndsWith(s: string, suffix: string) {
    |suffix| <= |s| && s[|s| - |suffix|..] == suffix
  }

  function Filter(entries: seq<Entry>, p: Entry -> bool): seq<Entry> {
    if entries == [] then [] else (if p(entries[0]) then [entries[0]] else []) + Filter(entries[1..], p)
  }

  function Matching(entries: seq<Entry>): seq<Entry> { Filter(entries, (e: Entry) => e.matches) }

  function Candidates(inv: Inventory, suffix: string): seq<Entry> {
    Filter(inv.unit, (e: Entry) => EndsWith(e.name, suffix))
  }

  /** Exactly one unit target has a test of that name, and it is the library. */
  predicate SerialOk(inv: Inventory, suffix: string) {
    var found := Candidates(inv, suffix);
    |found| == 1 && found[0].kind == "lib"
  }

  /** The keys of the serial tests, once both are known to be there. */
  function SerialKeys(inv: Inventory): set<string> {
    set e | e in Candidates(inv, SERIAL_TLS) + Candidates(inv, SERIAL_BACKTRACE) && e.kind == "lib" :: Key(e)
  }

  /** Tests that the four buckets run, with multiplicity. */
  function Covering(inv: Inventory): multiset<string> {
    Counts(inv.unit) + Counts(inv.docs) + Counts(inv.integration) + Counts(inv.watcher)
  }

  predicate ShardFree(shards: seq<seq<Entry>>, bad: Entry -> bool) {
    forall i, j :: 0 <= i < |shards| && 0 <= j < |shards[i]| ==> !bad(shards[i][j])
  }

  predicate BucketsOk(inv: Inventory) {
    && (forall k :: k in Keys(inv.baseline) ==> Covering(inv)[k] == 1)
    && (forall k :: k in Covering(inv) ==> k in Keys(inv.baseline))
    && (forall i :: 0 <= i < |inv.integration| ==> inv.integration[i].suite != WATCHER_SUITE)
  }

  predicate ShardsOk(inv: Inventory) {
    && SerialOk(inv, SERIAL_TLS) && SerialOk(inv, SERIAL_BACKTRACE)
    && ShardFree(inv.unitShards, (e: Entry) => Key(e) in SerialKeys(inv))
    && Clean(PartitionCoverageErrors(inv.unitShardable, inv.unitShards))
    && Clean(PartitionCoverageErrors(Matching(inv.integration), inv.integrationShards))
    && ShardFree(inv.integrationShards, (e: Entry) => e.suite == WATCHER_SUITE)
    && (inv.archive.Some? ==> Clean(PartitionCoverageErrors(inv.unit + inv.integration, [inv.archive.value])))
  }

  predicate Accepted(inv: Inventory) { BucketsOk(inv) && ShardsOk(inv) }

  /** The coverage map, bucket by bucket. */
  method BuildCoverage(inv: Inventory) returns (coverage: Coverage)
    ensures CoverageCounts(coverage, Covering(inv))
  {
    coverage := map[];
    coverage := CoverAll(coverage, inv.unit, "nextest-lib-bin", multiset{});
    assert multiset{} + Counts(inv.unit) == Counts(inv.unit);
    coverage := CoverAll(coverage, inv.docs, "cargo-doc", Counts(inv.unit));
    coverage := CoverAll(coverage, inv.integration, "nextest-integration", Counts(inv.unit) + Counts(inv.docs));
    coverage := CoverAll(coverage, inv.watcher, "cargo-watcher",
                         Counts(inv.unit) + Counts(inv.docs) + Counts(inv.integration));
  }

  /** Are there uncovered, doubly covered or unknown keys? */
  method CoversOnce(coverage: Coverage, baseline: seq<string>, ghost m: multiset<string>) returns (ok: bool)
    requires CoverageCounts(coverage, m)
    ensures ok <==> (forall k :: k in baseline ==> m[k] == 1) && (forall k :: k in m ==> k in baseline)
  {
    var uncovered := exists k :: k in baseline && k !in coverage;
    var doubly := exists k :: k in coverage && k in baseline && |coverage[k]| > 1;
    var unknown := exists k :: k in coverage && k !in baseline;
    VerdictMeaning(coverage, m, baseline);
    ok := !uncovered && !doubly && !unknown;
  }

  /** The script's verdict. */
  method Check(inv: Inventory) returns (ok: bool)
    ensures ok <==> Accepted(inv)
  {
    var coverage := BuildCoverage(inv);
    var covered := CoversOnce(coverage, Keys(inv.baseline), Covering(inv));
    var leaked := exists i :: 0 <= i < |inv.integration| && inv.integration[i].suite == WATCHER_SUITE;
    ok := covered && !leaked && ShardsOk(inv);
  }

  lemma VerdictMeaning(c: Coverage, m: multiset<string>, baseline: seq<string>)
    requires CoverageCounts(c, m)
    ensures (forall k :: k in baseline ==> m[k] == 1)
            <==> (forall k :: k in baseline ==> k in c) && (forall k :: k in c && k in baseline ==> |c[k]| <= 1)
    ensures (forall k :: k in m ==> k in baseline) <==> (forall k :: k in c ==> k in baseline)
  {
    if forall k :: k in baseline ==> m[k] == 1 {
      forall k | k in baseline ensures k in c {
        assert m[k] == 1;
      }
    }
  }

  // ----- what acceptance proves -----

  lemma CountsCons(e: Entry, rest: seq<Entry>, k: string)
    ensures Counts([e] + rest)[k] == Counts(rest)[k] + if Key(e) == k then 1 else 0
  {
    assert ([e] + rest)[1..] == rest;
    ConsCount(Key(e), Keys(rest), k);
  }

  lemma ConsCount(key: string, rest: seq<string>, k: string)
    ensures multiset([key] + rest)[k] == multiset(rest)[k] + if key == k then 1 else 0
  {
  }

  lemma FilterCons(entries: seq<Entry>, p: Entry -> bool)
    requires entries != []
    ensures Filter(entries, p) == if p(entries[0]) then [entries[0]] + Filter(entries[1..], p) else Filter(entries[1..], p)
  {
  }

  lemma {:induction false} FilterCounts(entries: seq<Entry>, p: Entry -> bool, k: string)
    ensures Counts(Filter(entries, p))[k] <= Counts(entries)[k]
  {
    if entries != [] {
      FilterCounts(entries[1..], p, k);
      FilterCons(entries, p);
      assert [entries[0]] + entries[1..] == entries;
      CountsCons(entries[0], entries[1..], k);
      CountsCons(entries[0], Filter(entries[1..], p), k);
    }
  }

  /** A test whose name ends with one of the two serial names. */
  ghost predicate IsSerial(name: string) {
    exists path: string :: name == path + SERIAL_TLS || name == path + SERIAL_BACKTRACE
  }

  lemma SerialKeyed(inv: Inventory, t: Entry)
    requires t in inv.unit && t.kind == "lib" && IsSerial(t.name)
    ensures Key(t) in SerialKeys(inv)
  {
    var path: string :| t.name == path + SERIAL_TLS || t.name == path + SERIAL_BACKTRACE;
    if t.name == path + SERIAL_TLS {
      assert EndsWith(t.name, SERIAL_TLS);
      FilterHolds(inv.unit, (e: Entry) => EndsWith(e.name, SERIAL_TLS), t);
    } else {
      assert EndsWith(t.name, SERIAL_BACKTRACE);
      FilterHolds(inv.unit, (e: Entry) => EndsWith(e.name, SERIAL_BACKTRACE), t);
    }
    assert t in Candidates(inv, SERIAL_TLS) + Candidates(inv, SERIAL_BACKTRACE);
  }

  lemma {:induction false} FilterHolds(entries: seq<Entry>, p: Entry -> bool, e: Entry)
    requires e in entries && p(e)
    ensures e in Filter(entries, p)
  {
    if e != entries[0] {
      FilterHolds(entries[1..], p, e);
    }
  }

  /** An accepted inventory runs every baseline test in exactly one bucket and nothing
      else, every shardable integration test in exactly one shard, no watcher test in a
      shard and no serial test in a unit shard. */
  lemma AcceptedCoversOnce(inv: Inventory)
    requires Accepted(inv)
    ensures forall k :: Covering(inv)[k] == (if k in Keys(inv.baseline) then 1 else 0)
    ensures forall e :: e in Matching(inv.integration) ==> InExactlyOneShard(Key(e), inv.integrationShards)
    ensures forall shard <- inv.integrationShards, e <- shard :: e.suite != WATCHER_SUITE
    ensures forall shard <- inv.unitShards, e <- shard, t <- inv.unit ::
              t.kind == "lib" && IsSerial(t.name) ==> Key(e) != Key(t)
  {
    forall t | t in inv.unit && t.kind == "lib" && IsSerial(t.name)
      ensures Key(t) in SerialKeys(inv)
    {
      SerialKeyed(inv, t);
    }
    forall e | e in Matching(inv.integration) ensures InExactlyOneShard(Key(e), inv.integrationShards) {
      var shardable := Matching(inv.integration);
      KeyListed(shardable, e);
      FilterCounts(inv.integration, (e: Entry) => e.matches, Key(e));
      assert 1 <= Counts(shardable)[Key(e)] <= Covering(inv)[Key(e)];
      assert Key(e) in Covering(inv);
      CleanIffSameTests(shardable, inv.integrationShards);
      OneShardIff(Key(e), inv.integrationShards);
    }
  }

  /** For unit tests acceptance fixes the shards only relative to the shardable listing,
      which is not compared with the unit listing: a test lies in exactly one unit shard
      if and only if that listing names it exactly once. */
  lemma UnitShardIffListedOnce(inv: Inventory, k: string)
    requires Accepted(inv)
    ensures InExactlyOneShard(k, inv.unitShards) <==> Counts(inv.unitShardable)[k] == 1
  {
    CleanIffSameTests(inv.unitShardable, inv.unitShards);
    OneShardIff(k, inv.unitShards);
  }

  // ----- the skips of the unit shards -----

  /** The shards are listed with `--skip` for the two serial names, which skips every test
      whose name contains one of them. */
  predicate Skipped(name: string) { Contains(name, SERIAL_TLS) || Contains(name, SERIAL_BACKTRACE) }

  predicate Shardable(e: Entry) { e.matches && !Skipped(e.name) }

  /** The shardable listing is the unit listing without what is skipped or does not match. */
  ghost predicate ListsShardable(inv: Inventory) {
    Counts(inv.unitShardable) == Counts(Filter(inv.unit, Shardable))
  }

  lemma CountPositive(entries: seq<Entry>, e: Entry)
    requires e in entries
    ensures Counts(entries)[Key(e)] >= 1
  {
    KeyListed(entries, e);
  }

  /** A test listed once stays in a filtered listing exactly when it passes the filter. */
  lemma {:induction false} FilterOnce(entries: seq<Entry>, p: Entry -> bool, e: Entry)
    requires e in entries && Counts(entries)[Key(e)] == 1
    ensures Counts(Filter(entries, p))[Key(e)] == if p(e) then 1 else 0
  {
    var first, rest := entries[0], entries[1..];
    assert entries == [first] + rest;
    CountsCons(first, rest, Key(e));
    CountsCons(first, Filter(rest, p), Key(e));
    FilterCons(entries, p);
    FilterCounts(rest, p, Key(e));
    if e in rest {
      CountPositive(rest, e);
      FilterOnce(rest, p, e);
    }
  }

  /** Acceptance lists every unit test once. */
  lemma AcceptedListsOnce(inv: Inventory, e: Entry)
    requires Accepted(inv) && e in inv.unit
    ensures Counts(inv.unit)[Key(e)] == 1
  {
    CountPositive(inv.unit, e);
    assert Key(e) in Covering(inv);
  }

  /** An accepted unit test lies in exactly one shard if and only if it matches and its name
      contains neither skip string. */
  lemma UnitShardIff(inv: Inventory, e: Entry)
    requires Accepted(inv) && ListsShardable(inv) && e in inv.unit
    ensures InExactlyOneShard(Key(e), inv.unitShards) <==> Shardable(e)
  {
    AcceptedListsOnce(inv, e);
    FilterOnce(inv.unit, Shardable, e);
    UnitShardIffListedOnce(inv, Key(e));
  }

  const TLS := Entry("lib", "aft", "", SERIAL_TLS, true)
  const TRACE := Entry("lib", "aft", "", SERIAL_BACKTRACE, true)
  const LOOSE := Entry("lib", "aft", "", SERIAL_TLS + "_x", true)

  const NO_TESTS: seq<seq<Entry>> := [[], [], []]

  /** Three unit tests, three empty shards of each kind, and nothing shardable. */
  function Unsharded(a: Entry, b: Entry, c: Entry): Inventory {
    Inventory([a, b, c], [a, b, c], [], NO_TESTS, [], [], NO_TESTS, [], None)
  }

  /** The two serial tests, and one whose name only begins like one of them. */
  const UNSHARDED := Unsharded(TLS, TRACE, LOOSE)

  /** Serial tests are recognised by the end of their name and skipped by any part of it. So
      an accepted inventory can hold a matching test that is not serial and in no shard. */
  lemma AcceptedWithUnshardedTest()
    ensures Accepted(UNSHARDED) && ListsShardable(UNSHARDED)
    ensures LOOSE in UNSHARDED.baseline && LOOSE in UNSHARDED.unit && LOOSE.matches
    ensures Key(LOOSE) !in SerialKeys(UNSHARDED)
    ensures !InExactlyOneShard(Key(LOOSE), UNSHARDED.unitShards)
  {
    ThreeKeys();
    UnshardedBuckets(TLS, TRACE, LOOSE);
    SerialCandidates();
    UnshardedShards(TLS, TRACE, LOOSE);
    AllSkipped();
    UnitShardIff(UNSHARDED, LOOSE);
  }

  lemma AllSkipped()
    ensures Skipped(LOOSE.name) && ListsShardable(UNSHARDED)
  {
    assert SERIAL_TLS <= LOOSE.name;
    FilterThree(TLS, TRACE, LOOSE, Shardable);
  }

  lemma NoTestsCount()
    ensures ShardCounts(NO_TESTS) == multiset{}
  {
    assert NO_TESTS[1..] == [[], []] && NO_TESTS[1..][1..] == [[]] && NO_TESTS[1..][1..][1..] == [];
  }

  lemma UnshardedBuckets(a: Entry, b: Entry, c: Entry)
    requires Key(a) != Key(b) && Key(b) != Key(c) && Key(a) != Key(c)
    ensures BucketsOk(Unsharded(a, b, c))
  {
    var inv := Unsharded(a, b, c);
    KeysOfThree(a, b, c);
    ThreeOnce(Key(a), Key(b), Key(c));
    assert Covering(inv) == Counts([a, b, c]);
  }

  lemma KeysOfThree(a: Entry, b: Entry, c: Entry)
    ensures Keys([a, b, c]) == [Key(a), Key(b), Key(c)]
  {
    assert [a, b, c] == [a] + [b] + [c];
    KeysSnoc([a] + [b], c);
    KeysSnoc([a], b);
  }

  lemma ThreeOnce(a: string, b: string, c: string)
    requires a != b && b != c && a != c
    ensures forall k <- [a, b, c] :: multiset([a, b, c])[k] == 1
    ensures forall k <- multiset([a, b, c]) :: k in [a, b, c]
  {
  }

  lemma UnshardedShards(a: Entry, b: Entry, c: Entry)
    requires Key(b) != Key(c) && Key(a) != Key(c) && a.kind == "lib" && b.kind == "lib"
    requires Candidates(Unsharded(a, b, c), SERIAL_TLS) == [a]
    requires Candidates(Unsharded(a, b, c), SERIAL_BACKTRACE) == [b]
    ensures ShardsOk(Unsharded(a, b, c)) && Key(c) !in SerialKeys(Unsharded(a, b, c))
  {
    NoTestsCount();
    CleanIffSameTests([], NO_TESTS);
    assert Matching([]) == [];
  }

  lemma SerialCandidates()
    ensures Candidates(UNSHARDED, SERIAL_TLS) == [TLS] && Candidates(UNSHARDED, SERIAL_BACKTRACE) == [TRACE]
  {
    assert SERIAL_TLS[|SERIAL_TLS| - 2] == 's' && SERIAL_BACKTRACE[|SERIAL_BACKTRACE| - 2] == 't';
    assert LOOSE.name[|LOOSE.name| - 2] == '_';
    DifferentEnds(SERIAL_TLS, SERIAL_BACKTRACE);
    DifferentEnds(SERIAL_BACKTRACE, SERIAL_TLS);
    DifferentEnds(LOOSE.name, SERIAL_TLS);
    DifferentEnds(LOOSE.name, SERIAL_BACKTRACE);
    FilterThree(TLS, TRACE, LOOSE, (x: Entry) => EndsWith(x.name, SERIAL_TLS));
    FilterThree(TLS, TRACE, LOOSE, (x: Entry) => EndsWith(x.name, SERIAL_BACKTRACE));
  }

  lemma DifferentEnds(s: string, suffix: string)
    requires |s| >= 2 && |suffix| >= 2 && s[|s| - 2] != suffix[|suffix| - 2]
    ensures !EndsWith(s, suffix)
  {
    if |suffix| <= |s| {
      assert s[|s| - |suffix|..][|suffix| - 2] == s[|s| - 2];
    }
  }

  lemma FilterThree(a: Entry, b: Entry, c: Entry, p: Entry -> bool)
    ensures Filter([a, b, c], p)
         == (if p(a) then [a] else []) + ((if p(b) then [b] else []) + ((if p(c) then [c] else []) + []))
  {
    assert [a, b, c][1..] == [b, c] && [b, c][1..] == [c] && [c][1..] == [];
    assert Filter([c], p) == (if p(c) then [c] else []) + Filter([], p);
  }

  lemma ThreeKeys()
    ensures Key(TLS) != Key(TRACE) && Key(TRACE) != Key(LOOSE) && Key(TLS) != Key(LOOSE)
  {
    assert |Key(TLS)| - |TLS.name| == |Key(TRACE)| - |TRACE.name| == |Key(LOOSE)| - |LOOSE.name|;
  }
}
