/** The allowlist audit: expected entries from the tracked files, file-level entries for
    fixtures, and the comparison with the reviewed allowlist. */
module Allowlist {
  import opened Basics
  import opened Occurrences
  import opened Text
  import Decimal

  /** The classes the audit names, an absent one, and any other text. */
  datatype Class = Absent | Fixture | HostDisplay | ProhibitedSurface | Boundary | AuditCode | RustCode | Internal
                 | Other(name: string)

  datatype Position = Position(line: nat, column: nat)

  datatype Entry = Entry(path: string, location: string, at: Option<Position>, text: Option<string>,
                         ordinal: Option<nat>, token: string, cls: Class, reason: string)

  function FileKey(path: string, token: string): string { path + "::" + token }

  /** Entries without a position are keyed by file; those written before content keys by
      position; the others by content. */
  function OccurrenceKey(e: Entry): string {
    match e.at
    case None => FileKey(e.path, e.token)
    case Some(at) =>
      if e.text == None || e.ordinal == None then
        e.path + ":" + Decimal.Str(at.line) + ":" + Decimal.Str(at.column) + ":" + e.token
      else Key(e.path, (e.token, e.text.value), e.ordinal.value)
  }

  function KeysOf(entries: seq<Entry>, keyOf: Entry -> string): set<string> {
    set e <- entries :: keyOf(e)
  }

  // ----- drift -----

  datatype Failure = NotAllowlisted(key: string) | Incomplete(key: string) | Prohibited(key: string) | Stale(key: string)

  /** An empty text counts as absent. */
  predicate Complete(e: Entry) { e.cls != Absent && e.cls != Other("") && e.reason != "" && e.location != "" }

  /** The allowlist by key; of several entries with one key the last counts. */
  function Checked(allowlisted: seq<Entry>, keyOf: Entry -> string): map<string, Entry> {
    if allowlisted == [] then map[]
    else
      var last := |allowlisted| - 1;
      Checked(allowlisted[..last], keyOf)[keyOf(allowlisted[last]) := allowlisted[last]]
  }

  function LiveFailures(key: string, checked: map<string, Entry>): seq<Failure> {
    if key !in checked then [NotAllowlisted(key)]
    else
      (if Complete(checked[key]) then [] else [Incomplete(key)]) +
      (if checked[key].cls == ProhibitedSurface then [Prohibited(key)] else [])
  }

  function AllLive(expected: seq<Entry>, checked: map<string, Entry>, keyOf: Entry -> string): seq<Failure> {
    if expected == [] then []
    else
      var last := |expected| - 1;
      AllLive(expected[..last], checked, keyOf) + LiveFailures(keyOf(expected[last]), checked)
  }

  function AllStale(allowlisted: seq<Entry>, live: set<string>, keyOf: Entry -> string): seq<Failure> {
    if allowlisted == [] then []
    else
      var last := |allowlisted| - 1;
      var key := keyOf(allowlisted[last]);
      AllStale(allowlisted[..last], live, keyOf) + if key in live then [] else [Stale(key)]
  }

  function Drift(expected: seq<Entry>, allowlisted: seq<Entry>, keyOf: Entry -> string): seq<Failure> {
    AllLive(expected, Checked(allowlisted, keyOf), keyOf) + AllStale(allowlisted, KeysOf(expected, keyOf), keyOf)
  }

  method CheckedMap(allowlisted: seq<Entry>, keyOf: Entry -> string) returns (checked: map<string, Entry>)
    ensures checked == Checked(allowlisted, keyOf)
  {
    checked := map[];
    for i := 0 to |allowlisted|
      invariant checked == Checked(allowlisted[..i], keyOf)
    {
      assert allowlisted[..i + 1][..i] == allowlisted[..i];
      checked := checked[keyOf(allowlisted[i]) := allowlisted[i]];
    }
    assert allowlisted[..|allowlisted|] == allowlisted;
  }

  method CheckLive(key: string, checked: map<string, Entry>, failures: seq<Failure>) returns (failures': seq<Failure>)
    ensures failures' == failures + LiveFailures(key, checked)
  {
    failures' := failures;
    if key !in checked {
      failures' := failures' + [NotAllowlisted(key)];
      return;
    }
    var entry := checked[key];
    if !Complete(entry) {
      failures' := failures' + [Incomplete(key)];
    }
    if entry.cls == ProhibitedSurface {
      failures' := failures' + [Prohibited(key)];
    }
  }

  method CheckStale(allowlisted: seq<Entry>, live: set<string>, failures: seq<Failure>, keyOf: Entry -> string)
    returns (failures': seq<Failure>)
    ensures failures' == failures + AllStale(allowlisted, live, keyOf)
  {
    failures' := failures;
    for i := 0 to |allowlisted|
      invariant failures' == failures + AllStale(allowlisted[..i], live, keyOf)
    {
      assert allowlisted[..i + 1][..i] == allowlisted[..i];
      var key := keyOf(allowlisted[i]);
      if key !in live {
        failures' := failures' + [Stale(key)];
      }
    }
    assert allowlisted[..|allowlisted|] == allowlisted;
  }

  method ClassifyOccurrenceDrift(expected: seq<Entry>, allowlisted: seq<Entry>, keyOf: Entry -> string)
    returns (failures: seq<Failure>)
    ensures failures == Drift(expected, allowlisted, keyOf)
  {
    var checked := CheckedMap(allowlisted, keyOf);
    failures := [];
    for i := 0 to |expected|
      invariant failures == AllLive(expected[..i], checked, keyOf)
    {
      assert expected[..i + 1][..i] == expected[..i];
      failures := CheckLive(keyOf(expected[i]), checked, failures);
    }
    assert expected[..|expected|] == expected;
    failures := CheckStale(allowlisted, KeysOf(expected, keyOf), failures, keyOf);
  }

  /** `e` is the last allowlist entry with its key. */
  ghost predicate LastFor(allowlisted: seq<Entry>, key: string, e: Entry, keyOf: Entry -> string) {
    exists i :: 0 <= i < |allowlisted| && allowlisted[i] == e && keyOf(e) == key &&
      forall j :: i < j < |allowlisted| ==> keyOf(allowlisted[j]) != key
  }

  /** What an empty drift means for a set of live keys. */
  ghost predicate Clean(keys: set<string>, allowlisted: seq<Entry>, keyOf: Entry -> string) {
    && keys == KeysOf(allowlisted, keyOf)
    && forall key <- keys, e | LastFor(allowlisted, key, e, keyOf) :: Complete(e) && e.cls != ProhibitedSurface
  }

  lemma KeysNext(entries: seq<Entry>, e: Entry, keyOf: Entry -> string)
    ensures KeysOf(entries + [e], keyOf) == KeysOf(entries, keyOf) + {keyOf(e)}
  {
    assert e in entries + [e];
  }

  lemma LastKept(entries: seq<Entry>, final: Entry, key: string, e: Entry, keyOf: Entry -> string)
    requires keyOf(final) != key && LastFor(entries, key, e, keyOf)
    ensures LastFor(entries + [final], key, e, keyOf)
  {
    var i :| 0 <= i < |entries| && entries[i] == e && keyOf(e) == key &&
      forall j :: i < j < |entries| ==> keyOf(entries[j]) != key;
    assert (entries + [final])[i] == e;
  }

  lemma {:induction false} CheckedLast(allowlisted: seq<Entry>, key: string, keyOf: Entry -> string)
    ensures key in Checked(allowlisted, keyOf) <==> key in KeysOf(allowlisted, keyOf)
    ensures key in Checked(allowlisted, keyOf) ==> LastFor(allowlisted, key, Checked(allowlisted, keyOf)[key], keyOf)
  {
    if allowlisted != [] {
      var shorter, final := allowlisted[..|allowlisted| - 1], allowlisted[|allowlisted| - 1];
      assert allowlisted == shorter + [final];
      CheckedLast(shorter, key, keyOf);
      KeysNext(shorter, final, keyOf);
      if keyOf(final) != key && key in Checked(shorter, keyOf) {
        LastKept(shorter, final, key, Checked(shorter, keyOf)[key], keyOf);
      }
    }
  }

  lemma LastUnique(allowlisted: seq<Entry>, key: string, a: Entry, b: Entry, keyOf: Entry -> string)
    requires LastFor(allowlisted, key, a, keyOf) && LastFor(allowlisted, key, b, keyOf)
    ensures a == b
  {
  }

  predicate Passes(key: string, checked: map<string, Entry>) {
    key in checked && Complete(checked[key]) && checked[key].cls != ProhibitedSurface
  }

  lemma {:induction false} NoLiveFailureIff(expected: seq<Entry>, checked: map<string, Entry>, keyOf: Entry -> string)
    ensures AllLive(expected, checked, keyOf) == [] <==> forall e <- expected :: Passes(keyOf(e), checked)
  {
    if expected != [] {
      var last := |expected| - 1;
      NoLiveFailureIff(expected[..last], checked, keyOf);
      NoFailureIff(keyOf(expected[last]), checked);
      assert expected == expected[..last] + [expected[last]];
    }
  }

  lemma NoFailureIff(key: string, checked: map<string, Entry>)
    ensures LiveFailures(key, checked) == [] <==> Passes(key, checked)
  {
  }

  lemma {:induction false} NoStaleIff(allowlisted: seq<Entry>, live: set<string>, keyOf: Entry -> string)
    ensures AllStale(allowlisted, live, keyOf) == [] <==> KeysOf(allowlisted, keyOf) <= live
  {
    if allowlisted != [] {
      var last := |allowlisted| - 1;
      NoStaleIff(allowlisted[..last], live, keyOf);
      assert allowlisted == allowlisted[..last] + [allowlisted[last]];
      KeysNext(allowlisted[..last], allowlisted[last], keyOf);
    }
  }

  lemma PassesIff(key: string, allowlisted: seq<Entry>, keyOf: Entry -> string)
    requires key in KeysOf(allowlisted, keyOf)
    ensures Passes(key, Checked(allowlisted, keyOf)) <==>
            forall e | LastFor(allowlisted, key, e, keyOf) :: Complete(e) && e.cls != ProhibitedSurface
  {
    CheckedLast(allowlisted, key, keyOf);
    forall e | LastFor(allowlisted, key, e, keyOf)
      ensures e == Checked(allowlisted, keyOf)[key]
    {
      LastUnique(allowlisted, key, e, Checked(allowlisted, keyOf)[key], keyOf);
    }
  }

  /** There is no drift exactly when live and allowlisted keys coincide and the entry that
      counts for each is complete and not prohibited. */
  lemma NoDriftIff(expected: seq<Entry>, allowlisted: seq<Entry>, keyOf: Entry -> string)
    ensures Drift(expected, allowlisted, keyOf) == [] <==> Clean(KeysOf(expected, keyOf), allowlisted, keyOf)
  {
    var checked := Checked(allowlisted, keyOf);
    NoLiveFailureIff(expected, checked, keyOf);
    NoStaleIff(allowlisted, KeysOf(expected, keyOf), keyOf);
    forall key
      ensures key in checked <==> key in KeysOf(allowlisted, keyOf)
    {
      CheckedLast(allowlisted, key, keyOf);
    }
    assert (forall e <- expected :: Passes(keyOf(e), checked))
      <==> (forall key <- KeysOf(expected, keyOf) :: Passes(key, checked));
    forall key | key in KeysOf(allowlisted, keyOf)
      ensures Passes(key, checked) <==>
              forall e | LastFor(allowlisted, key, e, keyOf) :: Complete(e) && e.cls != ProhibitedSurface
    {
      PassesIff(key, allowlisted, keyOf);
    }
  }

  // ----- classes -----

  const PLUGIN := "packages/opencode-plugin/"
  const HOISTED := PLUGIN + "src/tools/hoisted.ts"
  const PROJECTION := PLUGIN + "src/tools/definitions/v2.ts"
  const PLUGIN_TESTS := PLUGIN + "test/"

  /** What the audit looks at in a path. */
  datatype Site = Site(hoisted: bool, projection: bool, pluginTest: bool, fixture: bool, script: bool, rust: bool)

  function SiteOf(path: string): Site {
    Site(path == HOISTED, path == PROJECTION, PLUGIN_TESTS <= path,
         "crates/aft/tests/fixtures/" <= path || Contains(path, "/__tests__/"),
         "scripts/" <= path, "crates/aft/src/" <= path)
  }

  /** The source inventory, what the line patterns say of a line, and the reasons given. */
  datatype Policy = Policy(excluded: map<string, Class>, prohibited: string -> bool,
                           headerLine: string -> bool, agentText: string -> bool, reason: (string, Class) -> string)

  function ClassAt(site: Site, prohibited: bool, headerLine: bool, agentText: bool): Class {
    if site.hoisted && headerLine then HostDisplay
    else if site.projection then HostDisplay
    else if site.pluginTest then Fixture
    else if prohibited then if agentText then ProhibitedSurface else Boundary
    else if site.fixture then Fixture
    else if site.script then AuditCode
    else if site.rust then RustCode
    else Internal
  }

  function Classify(policy: Policy, path: string, line: string): Class {
    if path in policy.excluded then policy.excluded[path]
    else ClassAt(SiteOf(path), policy.prohibited(path), policy.headerLine(line), policy.agentText(line))
  }

  predicate FixtureSite(site: Site, prohibited: bool) {
    !site.projection && (site.pluginTest || (!prohibited && site.fixture))
  }

  /** Is every mention in this file pinned by the file alone? */
  predicate FileLevel(policy: Policy, path: string) {
    if path in policy.excluded then policy.excluded[path] == Fixture
    else FixtureSite(SiteOf(path), policy.prohibited(path))
  }

  lemma HoistedIsNoPluginTest()
    ensures !SiteOf(HOISTED).pluginTest
  {
    assert HOISTED[25] == 's' && PLUGIN_TESTS[25] == 't';
  }

  lemma HoistedIsNoFixture()
    ensures !SiteOf(HOISTED).fixture
  {
    var fixtures, tests := "crates/aft/tests/fixtures/", "/__tests__/";
    assert HOISTED[0] == 'p' && fixtures[0] == 'c';
    assert tests[1] == '_';
    assert '_' !in PLUGIN && '_' !in "src/tools/hoisted.ts";
    if Contains(HOISTED, tests) {
      ContainsChar(HOISTED, tests, '_');
    }
  }

  /** Which files are fixtures: those the inventory calls so; and, of the files it does not
      exclude, the plugin's tests, and other test directories that are no agent surface. */
  lemma FixtureFiles(policy: Policy, path: string)
    ensures FileLevel(policy, path) <==>
            if path in policy.excluded then policy.excluded[path] == Fixture
            else
              || PLUGIN + "test/" <= path
              || (&& path != PROJECTION && !policy.prohibited(path)
                  && ("crates/aft/tests/fixtures/" <= path || Contains(path, "/__tests__/")))
  {
    if path == PROJECTION {
      assert PROJECTION[25] == 's' && PLUGIN_TESTS[25] == 't';
    }
  }

  /** Whether a mention is a fixture's is decided by its file, never by its line. */
  lemma FixtureByPath(policy: Policy, path: string, line: string)
    ensures Classify(policy, path, line) == Fixture <==> FileLevel(policy, path)
  {
    if path == HOISTED {
      HoistedIsNoPluginTest();
      HoistedIsNoFixture();
    }
  }

  /** A file the inventory does not exclude and no rule before it has settled: neither the
      header lines of the hoisted tools, nor the projection, nor a plugin test. */
  ghost predicate Open(policy: Policy, path: string, line: string) {
    && path !in policy.excluded && path != PROJECTION && !(PLUGIN + "test/" <= path)
    && !(path == HOISTED && policy.headerLine(line))
  }

  /** The other classes: on an agent surface, agent text is prohibited and the rest is a
      boundary; elsewhere it goes by the directory. */
  lemma ClassIff(policy: Policy, path: string, line: string)
    requires Open(policy, path, line)
    ensures var cls := Classify(policy, path, line);
            && (cls == ProhibitedSurface <==> policy.prohibited(path) && policy.agentText(line))
            && (cls == Boundary <==> policy.prohibited(path) && !policy.agentText(line))
            && (policy.prohibited(path) || FileLevel(policy, path) ||
                cls == (if "scripts/" <= path then AuditCode
                        else if "crates/aft/src/" <= path then RustCode else Internal))
  {
    FixtureFiles(policy, path);
  }

  // ----- expected entries -----

  datatype Tracked = Tracked(path: string, lines: seq<string>)

  function Classed(file: Tracked, o: Occurrence, cls: Class, reason: string): Entry {
    Entry(file.path, "line " + Decimal.Str(o.found.line) + ", column " + Decimal.Str(o.found.column),
          Some(Position(o.found.line, o.found.column)), Some(o.found.text), Some(o.ordinal), o.found.token,
          cls, reason)
  }

  /** The entry for one occurrence. */
  function EntryOf(policy: Policy, file: Tracked, o: Occurrence): Entry
    requires 1 <= o.found.line <= |file.lines|
  {
    var cls := Classify(policy, file.path, file.lines[o.found.line - 1]);
    Classed(file, o, cls, policy.reason(file.path, cls))
  }

  /** A file-level entry keeps the file, the token and the class only. */
  function AtFileLevel(e: Entry): Entry { e.(location := "file-level", at := None, text := None, ordinal := None) }

  /** The key an entry has once file-level classes are collapsed. */
  function FinalKey(e: Entry, keyOf: Entry -> string): string {
    if e.cls == Fixture then FileKey(e.path, e.token) else keyOf(e)
  }

  function FinalKeys(entries: seq<Entry>, keyOf: Entry -> string): set<string> {
    set e <- entries :: FinalKey(e, keyOf)
  }

  function LineLevel(entries: seq<Entry>): seq<Entry> {
    if entries == [] then []
    else
      var last := |entries| - 1;
      LineLevel(entries[..last]) + if entries[last].cls == Fixture then [] else [entries[last]]
  }

  /** File-level entries are keyed by file and token. */
  ghost predicate KeysFiles(keyOf: Entry -> string) {
    forall e: Entry {:trigger AtFileLevel(e)} :: keyOf(AtFileLevel(e)) == FileKey(e.path, e.token)
  }

  /** File-level entries stand for distinct keys, all of them in `seen`. */
  ghost predicate OncePerKey(entries: seq<Entry>, seen: set<string>, keyOf: Entry -> string) {
    && (forall e <- entries :: e.cls == Fixture ==> keyOf(e) in seen)
    && (forall i, j :: 0 <= i < j < |entries| && entries[i].cls == Fixture && entries[j].cls == Fixture ==>
          keyOf(entries[i]) != keyOf(entries[j]))
  }

  lemma LineLevelNext(entries: seq<Entry>, e: Entry)
    ensures LineLevel(entries + [e]) == LineLevel(entries) + if e.cls == Fixture then [] else [e]
  {
    assert (entries + [e])[..|entries|] == entries;
  }

  lemma FinalKeysNext(entries: seq<Entry>, e: Entry, keyOf: Entry -> string)
    ensures FinalKeys(entries + [e], keyOf) == FinalKeys(entries, keyOf) + {FinalKey(e, keyOf)}
  {
    assert e in entries + [e];
  }

  lemma OncePerKeyNext(entries: seq<Entry>, e: Entry, seen: set<string>, keyOf: Entry -> string)
    requires OncePerKey(entries, seen, keyOf) && (e.cls == Fixture ==> keyOf(e) !in seen)
    ensures OncePerKey(entries + [e], seen + if e.cls == Fixture then {keyOf(e)} else {}, keyOf)
  {
    forall i | 0 <= i < |entries| && e.cls == Fixture && entries[i].cls == Fixture
      ensures keyOf(entries[i]) != keyOf(e)
    {
      assert entries[i] in entries;
    }
  }

  /** What the loop has collapsed so far, of the entries `done`. */
  ghost predicate Collapsing(collapsed: seq<Entry>, seen: set<string>, done: seq<Entry>, keyOf: Entry -> string) {
    && KeysOf(collapsed, keyOf) == FinalKeys(done, keyOf) && seen <= KeysOf(collapsed, keyOf)
    && LineLevel(collapsed) == LineLevel(done) && OncePerKey(collapsed, seen, keyOf)
  }

  method CollapseOne(entry: Entry, collapsed: seq<Entry>, seen: set<string>, ghost done: seq<Entry>,
                     ghost keyOf: Entry -> string)
    returns (collapsed': seq<Entry>, seen': set<string>)
    requires KeysFiles(keyOf) && Collapsing(collapsed, seen, done, keyOf)
    ensures Collapsing(collapsed', seen', done + [entry], keyOf)
  {
    collapsed', seen' := collapsed, seen;
    LineLevelNext(done, entry);
    FinalKeysNext(done, entry, keyOf);
    if entry.cls != Fixture {
      LineLevelNext(collapsed, entry);
      KeysNext(collapsed, entry, keyOf);
      OncePerKeyNext(collapsed, entry, seen, keyOf);
      collapsed' := collapsed + [entry];
      return;
    }
    var key := FileKey(entry.path, entry.token);
    if key in seen {
      return;
    }
    var e := AtFileLevel(entry);
    LineLevelNext(collapsed, e);
    KeysNext(collapsed, e, keyOf);
    OncePerKeyNext(collapsed, e, seen, keyOf);
    seen', collapsed' := seen + {key}, collapsed + [e];
  }

  /** Collapsing keeps every line-level entry and leaves one entry per file and token of a
      fixture. */
  method CollapseFileLevelEntries(entries: seq<Entry>, ghost keyOf: Entry -> string) returns (collapsed: seq<Entry>)
    requires KeysFiles(keyOf)
    ensures KeysOf(collapsed, keyOf) == FinalKeys(entries, keyOf) && LineLevel(collapsed) == LineLevel(entries)
    ensures OncePerKey(collapsed, KeysOf(collapsed, keyOf), keyOf)
  {
    collapsed := [];
    var seen: set<string> := {};
    for i := 0 to |entries|
      invariant Collapsing(collapsed, seen, entries[..i], keyOf)
    {
      assert entries[..i + 1] == entries[..i] + [entries[i]];
      collapsed, seen := CollapseOne(entries[i], collapsed, seen, entries[..i], keyOf);
    }
    assert entries[..|entries|] == entries;
  }

  /** The key of a numbered mention in a file. */
  ghost function KeyIn(policy: Policy, path: string, p: (Mention, nat)): string {
    if FileLevel(policy, path) then FileKey(path, p.0.0) else Key(path, p.0, p.1)
  }

  ghost function FileKeys(policy: Policy, file: Tracked): set<string> {
    set p <- Numbered(Raw(file.lines)) :: KeyIn(policy, file.path, p)
  }

  ghost function ExpectedKeys(policy: Policy, files: seq<Tracked>): set<string> {
    if files == [] then {} else ExpectedKeys(policy, files[..|files| - 1]) + FileKeys(policy, files[|files| - 1])
  }

  lemma EntryKey(policy: Policy, file: Tracked, o: Occurrence)
    requires 1 <= o.found.line <= |file.lines|
    ensures FinalKey(EntryOf(policy, file, o), OccurrenceKey) == KeyIn(policy, file.path, (MentionOf(o.found), o.ordinal))
  {
    var cls, byFile := ClassOf(policy, file, o);
    ClassedKey(file, o, cls, policy.reason(file.path, cls), byFile);
    KeyInBy(policy, file.path, (MentionOf(o.found), o.ordinal), byFile);
  }

  lemma ClassOf(policy: Policy, file: Tracked, o: Occurrence) returns (cls: Class, byFile: bool)
    requires 1 <= o.found.line <= |file.lines|
    ensures byFile == FileLevel(policy, file.path) && (cls == Fixture <==> byFile)
    ensures EntryOf(policy, file, o) == Classed(file, o, cls, policy.reason(file.path, cls))
  {
    var line := file.lines[o.found.line - 1];
    FixtureByPath(policy, file.path, line);
    cls, byFile := Classify(policy, file.path, line), FileLevel(policy, file.path);
  }

  lemma KeyInBy(policy: Policy, path: string, p: (Mention, nat), byFile: bool)
    requires byFile == FileLevel(policy, path)
    ensures KeyIn(policy, path, p) == if byFile then FileKey(path, p.0.0) else Key(path, p.0, p.1)
  {
  }

  lemma ClassedKey(file: Tracked, o: Occurrence, cls: Class, reason: string, byFile: bool)
    requires cls == Fixture <==> byFile
    ensures FinalKey(Classed(file, o, cls, reason), OccurrenceKey)
         == if byFile then FileKey(file.path, o.found.token) else Key(file.path, MentionOf(o.found), o.ordinal)
  {
    FinalKeyOf(Classed(file, o, cls, reason), MentionOf(o.found), o.ordinal);
  }

  lemma FinalKeyOf(e: Entry, x: Mention, n: nat)
    requires e.at.Some? && e.token == x.0 && e.text == Some(x.1) && e.ordinal == Some(n)
    ensures FinalKey(e, OccurrenceKey) == if e.cls == Fixture then FileKey(e.path, x.0) else Key(e.path, x, n)
  {
  }

  ghost function KeysIn(policy: Policy, path: string, pairs: seq<(Mention, nat)>): set<string> {
    set p <- pairs :: KeyIn(policy, path, p)
  }

  lemma KeysInNext(policy: Policy, path: string, pairs: seq<(Mention, nat)>, p: (Mention, nat))
    ensures KeysIn(policy, path, pairs + [p]) == KeysIn(policy, path, pairs) + {KeyIn(policy, path, p)}
  {
    assert p in pairs + [p];
  }

  lemma PushedEntry(policy: Policy, file: Tracked, entries: seq<Entry>, out: seq<Occurrence>, i: nat, keys: set<string>)
    requires i < |out| && 1 <= out[i].found.line <= |file.lines|
    requires FinalKeys(entries, OccurrenceKey) == keys + KeysIn(policy, file.path, Identities(out[..i]))
    ensures FinalKeys(entries + [EntryOf(policy, file, out[i])], OccurrenceKey)
         == keys + KeysIn(policy, file.path, Identities(out[..i + 1]))
  {
    var p := (MentionOf(out[i].found), out[i].ordinal);
    assert Identities(out[..i + 1]) == Identities(out[..i]) + [p];
    KeysInNext(policy, file.path, Identities(out[..i]), p);
    FinalKeysNext(entries, EntryOf(policy, file, out[i]), OccurrenceKey);
    EntryKey(policy, file, out[i]);
  }

  method PushEntry(policy: Policy, file: Tracked, entries: seq<Entry>, out: seq<Occurrence>, i: nat,
                   ghost keys: set<string>) returns (entries': seq<Entry>)
    requires i < |out| && forall occurrence <- out :: Stands(occurrence.found, file.lines)
    requires FinalKeys(entries, OccurrenceKey) == keys + KeysIn(policy, file.path, Identities(out[..i]))
    ensures FinalKeys(entries', OccurrenceKey) == keys + KeysIn(policy, file.path, Identities(out[..i + 1]))
  {
    assert out[i] in out && Stands(out[i].found, file.lines);
    PushedEntry(policy, file, entries, out, i, keys);
    entries' := entries + [EntryOf(policy, file, out[i])];
  }

  method FileEntries(policy: Policy, file: Tracked, entries: seq<Entry>) returns (entries': seq<Entry>)
    ensures FinalKeys(entries', OccurrenceKey) == FinalKeys(entries, OccurrenceKey) + FileKeys(policy, file)
  {
    var out := ScanLinesForOccurrences(file.path, file.lines);
    entries' := entries;
    for i := 0 to |out|
      invariant FinalKeys(entries', OccurrenceKey)
             == FinalKeys(entries, OccurrenceKey) + KeysIn(policy, file.path, Identities(out[..i]))
    {
      entries' := PushEntry(policy, file, entries', out, i, FinalKeys(entries, OccurrenceKey));
    }
    assert out[..|out|] == out;
  }

  method OccurrenceEntries(policy: Policy, files: seq<Tracked>) returns (entries: seq<Entry>)
    ensures KeysOf(entries, OccurrenceKey) == ExpectedKeys(policy, files)
  {
    entries := [];
    for i := 0 to |files|
      invariant FinalKeys(entries, OccurrenceKey) == ExpectedKeys(policy, files[..i])
    {
      assert files[..i + 1][..i] == files[..i];
      entries := FileEntries(policy, files[i], entries);
    }
    assert files[..|files|] == files;
    entries := CollapseFileLevelEntries(entries, OccurrenceKey);
  }

  /** What passing means for the allowlist itself: every entry that counts has a class, a
      reason and a location, is not prohibited, and no key is missing or left over. */
  lemma CleanMeans(keys: set<string>, allowlisted: seq<Entry>, keyOf: Entry -> string)
    ensures Clean(keys, allowlisted, keyOf) <==>
            && (forall e <- allowlisted :: keyOf(e) in keys)
            && (forall key <- keys :: exists i :: Counting(allowlisted, i, keyOf) && keyOf(allowlisted[i]) == key)
            && (forall i :: Counting(allowlisted, i, keyOf) ==>
                  var e := allowlisted[i];
                  && e.cls != Absent && e.cls != Other("") && e.reason != "" && e.location != ""
                  && e.cls != ProhibitedSurface)
  {
    if Clean(keys, allowlisted, keyOf) {
      forall key | key in keys
        ensures exists i :: Counting(allowlisted, i, keyOf) && keyOf(allowlisted[i]) == key
      {
        CheckedLast(allowlisted, key, keyOf);
      }
      forall i | Counting(allowlisted, i, keyOf)
        ensures Complete(allowlisted[i]) && allowlisted[i].cls != ProhibitedSurface
      {
        assert allowlisted[i] in allowlisted;
        assert LastFor(allowlisted, keyOf(allowlisted[i]), allowlisted[i], keyOf);
      }
    }
  }

  /** Entry `i` is the last with its key, the one that counts. */
  ghost predicate Counting(allowlisted: seq<Entry>, i: int, keyOf: Entry -> string) {
    0 <= i < |allowlisted| && forall j :: i < j < |allowlisted| ==> keyOf(allowlisted[j]) != keyOf(allowlisted[i])
  }

  /** The audit: does it pass? */
  method AuditSourceOccurrences(policy: Policy, files: seq<Tracked>, allowlisted: seq<Entry>) returns (ok: bool)
    ensures ok <==> Clean(ExpectedKeys(policy, files), allowlisted, OccurrenceKey)
  {
    var expected := OccurrenceEntries(policy, files);
    var failures := ClassifyOccurrenceDrift(expected, allowlisted, OccurrenceKey);
    NoDriftIff(expected, allowlisted, OccurrenceKey);
    ok := failures == [];
  }

  /** The files are the same but for white space, the order of lines, and lines without any
      mention. */
  ghost predicate SameMentions(files: seq<Tracked>, files': seq<Tracked>) {
    && |files| == |files'|
    && forall i :: 0 <= i < |files| ==>
         files[i].path == files'[i].path && SameBearing(files[i].lines, files'[i].lines)
  }

  lemma SameFileKeys(policy: Policy, a: Tracked, b: Tracked)
    requires a.path == b.path && SameBearing(a.lines, b.lines)
    ensures FileKeys(policy, a) == FileKeys(policy, b)
  {
    SamePairs(a.lines, b.lines);
  }

  /** Such edits change no expected key, hence not the verdict, whatever the allowlist. */
  lemma {:induction false} VerdictUnchanged(policy: Policy, files: seq<Tracked>, files': seq<Tracked>,
                                            allowlisted: seq<Entry>)
    requires SameMentions(files, files')
    ensures ExpectedKeys(policy, files) == ExpectedKeys(policy, files')
    ensures Clean(ExpectedKeys(policy, files), allowlisted, OccurrenceKey)
       <==> Clean(ExpectedKeys(policy, files'), allowlisted, OccurrenceKey)
  {
    if files != [] {
      var last := |files| - 1;
      SameFileKeys(policy, files[last], files'[last]);
      VerdictUnchanged(policy, files[..last], files'[..last], allowlisted);
    }
  }
}
