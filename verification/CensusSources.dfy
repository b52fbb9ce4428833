/** Where the census gets its identity records from, and what it changes when a source
    cannot be read: its records are dropped and the rest of the census goes on. */
module CensusSources {
  import opened Basics
  import opened Census

  /** A record under the key it is filed. */
  type Entry = (string, Record)

  /** One source (the key memo, an owner file, a retention record, a member registry): what
      it gave before it failed, and what was lost with it. A source that was read lost
      nothing. */
  datatype Source = Source(read: seq<Entry>, lost: seq<Entry>)

  function For(entries: seq<Entry>, key: string): seq<Record> {
    if entries == [] then []
    else
      var last := |entries| - 1;
      For(entries[..last], key) + if entries[last].0 == key then [entries[last].1] else []
  }

  function AllRead(sources: seq<Source>): seq<Entry> {
    if sources == [] then [] else AllRead(sources[..|sources| - 1]) + sources[|sources| - 1].read
  }

  function AllLost(sources: seq<Source>): seq<Entry> {
    if sources == [] then [] else AllLost(sources[..|sources| - 1]) + sources[|sources| - 1].lost
  }

  /** What the sources hold, read or not. */
  function Everything(sources: seq<Source>): seq<Entry> { AllRead(sources) + AllLost(sources) }

  function Listed(identities: map<string, seq<Record>>, key: string): seq<Record> {
    if key in identities then identities[key] else []
  }

  /** The map files exactly the entries, in order, under their keys. */
  ghost predicate Files(identities: map<string, seq<Record>>, entries: seq<Entry>) {
    forall key :: Listed(identities, key) == For(entries, key)
  }

  lemma ForNext(entries: seq<Entry>, e: Entry, key: string)
    ensures For(entries + [e], key) == For(entries, key) + if e.0 == key then [e.1] else []
  {
    assert (entries + [e])[..|entries|] == entries;
  }

  lemma FilesNext(identities: map<string, seq<Record>>, entries: seq<Entry>, e: Entry)
    requires Files(identities, entries)
    ensures Files(identities[e.0 := Listed(identities, e.0) + [e.1]], entries + [e])
  {
    forall key
      ensures Listed(identities[e.0 := Listed(identities, e.0) + [e.1]], key) == For(entries + [e], key)
    {
      ForNext(entries, e, key);
      assert Listed(identities, key) == For(entries, key);
    }
  }

  method FileAll(identities: map<string, seq<Record>>, read: seq<Entry>, ghost before: seq<Entry>)
    returns (identities': map<string, seq<Record>>)
    requires Files(identities, before)
    ensures Files(identities', before + read)
  {
    identities' := identities;
    assert before + read[..0] == before;
    for j := 0 to |read|
      invariant Files(identities', before + read[..j])
    {
      FilesNext(identities', before + read[..j], read[j]);
      assert before + read[..j + 1] == before + read[..j] + [read[j]];
      identities' := identities'[read[j].0 := Listed(identities', read[j].0) + [read[j].1]];
    }
    assert read[..|read|] == read;
  }

  /** Gathering the records, source by source, as far as each could be read. */
  method Gather(sources: seq<Source>) returns (identities: map<string, seq<Record>>)
    ensures Files(identities, AllRead(sources))
  {
    identities := map[];
    for i := 0 to |sources|
      invariant Files(identities, AllRead(sources[..i]))
    {
      assert sources[..i + 1][..i] == sources[..i];
      identities := FileAll(identities, sources[i].read, AllRead(sources[..i]));
    }
    assert sources[..|sources|] == sources;
  }

  lemma {:induction false} ForSplit(a: seq<Entry>, b: seq<Entry>, key: string)
    ensures For(a + b, key) == For(a, key) + For(b, key)
  {
    if b == [] {
      assert a + b == a;
    } else {
      assert (a + b)[..|a + b| - 1] == a + b[..|b| - 1];
      ForSplit(a, b[..|b| - 1], key);
    }
  }

  /** A record that does not speak against removal: its root is gone, it is old, and no live
      process owns it. */
  ghost predicate Spent(s: Snapshot, r: Record) { !s.present(r.root) && Old(s, r) && !r.owned }

  /** The snapshot the census would have had if every source had been read. */
  function Complete(s: Snapshot, identities: map<string, seq<Record>>): Snapshot { s.(identities := identities) }

  lemma CompleteRecords(s: Snapshot, complete: map<string, seq<Record>>, sources: seq<Source>, key: string)
    requires Files(s.identities, AllRead(sources)) && Files(complete, Everything(sources))
    ensures RecordsOf(Complete(s, complete), key) == RecordsOf(s, key) + For(AllLost(sources), key)
  {
    assert Listed(s.identities, key) == For(AllRead(sources), key);
    assert Listed(complete, key) == For(Everything(sources), key);
    ForSplit(AllRead(sources), AllLost(sources), key);
  }

  /** A missing-root plan made without the lost records would also be made with them exactly
      when every lost record of the key is spent. */
  lemma MissingRootSurvivesIff(s: Snapshot, complete: map<string, seq<Record>>, sources: seq<Source>, file: File,
                               base: Path, key: string)
    requires Files(s.identities, AllRead(sources)) && Files(complete, Everything(sources))
    requires VerdictOf(s, file).plan == Some(MissingRoot(base, key))
    ensures VerdictOf(Complete(s, complete), file).plan == Some(MissingRoot(base, key)) <==>
            forall r <- For(AllLost(sources), key) :: Spent(s, r)
  {
    var s' := Complete(s, complete);
    CompleteRecords(s, complete, sources, key);
    MissingRootIff(s, file, base, key);
    MissingRootIff(s', file, base, key);
    assert forall r :: r in RecordsOf(s', key) <==> r in RecordsOf(s, key) || r in For(AllLost(sources), key);
    assert forall r :: Spent(s', r) == Spent(s, r);
  }

  /** A superseded plan never comes from lost records. */
  lemma SupersededSurvives(s: Snapshot, complete: map<string, seq<Record>>, sources: seq<Source>, file: File,
                           base: Path, g: string)
    requires Files(s.identities, AllRead(sources)) && Files(complete, Everything(sources))
    requires VerdictOf(s, file).plan == Some(Superseded(base, g))
    ensures VerdictOf(Complete(s, complete), file).plan == Some(Superseded(base, g))
  {
    var key := PlaceOf(Parts(file)).key;
    SupersededIff(s, file, base, g);
    SupersededIff(Complete(s, complete), file, base, g);
    CompleteRecords(s, complete, sources, key);
  }

  // ----- a registry that cannot be queried -----

  const HERE := Record("/here", AGE_MS, None, false)

  /** An old binding of a root that is gone was read; the registry that knows a live root of
      the same key was not. */
  const SOURCES := [Source([(KEY, GONE)], []), Source([], [(KEY, HERE)])]

  function HalfRead(): Snapshot {
    Snapshot([STORE], map[KEY := [GONE]], _ => Base([], [], NoPointer, map[], map[]), path => path == "/here",
             _ => Some(1), AGE_MS, (_, _) => None)
  }

  /** The live root's directory is planned as that of a missing root. */
  lemma LostRegistryPlanned()
    ensures Files(HalfRead().identities, AllRead(SOURCES)) && HERE in For(AllLost(SOURCES), KEY)
    ensures HalfRead().present(HERE.root)
    ensures VerdictOf(HalfRead(), STORE).plan == Some(MissingRoot(["views", KEY], KEY))
  {
    TwoSources(SOURCES[0], SOURCES[1]);
    assert [(KEY, GONE)] + [] == [(KEY, GONE)] && [] + [(KEY, HERE)] == [(KEY, HERE)];
    FilesNext(map[], [], (KEY, GONE));
    ForNext([], (KEY, HERE), KEY);
    StorePlace();
    assert RecordsOf(HalfRead(), KEY) == [GONE];
    MissingRootIff(HalfRead(), STORE, ["views", KEY], KEY);
  }

  lemma TwoSources(a: Source, b: Source)
    ensures AllRead([a, b]) == a.read + b.read && AllLost([a, b]) == a.lost + b.lost
  {
    assert [a, b][..1] == [a] && [a][..0] == [];
    assert AllRead([a]) == [] + a.read && AllLost([a]) == [] + a.lost;
  }
}
