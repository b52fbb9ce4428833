/** The retention census: a mark-and-plan pass over a snapshot of the storage directory. It
    decides, file by file, which bytes belong to a live root, which belong to a superseded
    generation and which to a root that is gone. */
module Census {
  import opened Basics
  import opened Counter
  import opened Text

  /** Path components below the storage root. */
  type Path = seq<string>

  datatype File = File(above: Path, name: string, blocks: nat)

  function Parts(file: File): Path { file.above + [file.name] }

  function Bytes(file: File): nat { file.blocks * 512 }

  /** A recorded binding of a root, with the volume it was on if that was recorded; `owned`
      when a live process owns it. */
  datatype Volume = Volume(path: string, device: int)
  datatype Record = Record(root: string, lastBoundMs: int, volume: Option<Volume>, owned: bool)

  /** What a directory says about its generations. Pins and readers may be unreadable, a pin
      may lack its generation, and the pointer database may not answer. */
  datatype Pin = UnreadablePin | Pin(live: bool, generation: Option<string>)
  datatype Reader = UnreadableReader | Reader(live: bool, generation: string)
  datatype Pointer = NoPointer | FailedProbe | Rows(generations: seq<string>)
  datatype Base = Base(pins: seq<Pin>, readers: seq<Reader>, pointer: Pointer,
                       currents: map<string, string>, refs: map<string, string>)

  /** `generation` is the generation a file name spells for a key, if any. */
  datatype Snapshot = Snapshot(
    files: seq<File>,
    identities: map<string, seq<Record>>,
    bases: Path -> Base,
    present: string -> bool,
    device: string -> Option<int>,
    now: int,
    generation: (string, string) -> Option<string>)

  // ----- names -----

  const DOMAINS := {"views", "callgraph", "inspect", "index", "semantic", "symbols"}
  const AGE_MS := 7 * 86400 * 1000

  predicate IsKey(s: string) {
    |s| == 16 && forall c <- s :: '0' <= c <= '9' || 'a' <= c <= 'f'
  }

  predicate IsDerivedStore(name: string) { "derived-" <= name && Contains(name, ".sqlite") }

  /** Where a file belongs: to a key's directory, or to none. */
  datatype Place = Shared(domain: string) | Keyed(domain: string, base: Path, key: string)

  function PlaceOf(parts: Path): Place
    requires parts != []
  {
    if |parts| >= 4 && parts[..2] == ["views", "v2"] && IsKey(parts[2]) then Keyed("views/v2", parts[..3], parts[2])
    else if |parts| >= 3 && parts[0] in DOMAINS && IsKey(parts[1]) then Keyed(parts[0], parts[..2], parts[1])
    else if |parts| >= 3 && parts[1] in DOMAINS && parts[0] !in DOMAINS then
      var domain := parts[0] + "/" + parts[1];
      var key := if |parts[2]| > 16 then parts[2][..16] else parts[2];
      if IsKey(key) then Keyed(domain, parts[..2], key) else Shared(domain)
    else Shared(parts[0])
  }

  /** Sixteen hexadecimal digits. */
  ghost predicate KeyText(s: string) {
    |s| == 16 && forall i :: 0 <= i < 16 ==> '0' <= s[i] <= '9' || 'a' <= s[i] <= 'f'
  }

  lemma KeyIff(s: string)
    ensures IsKey(s) <==> KeyText(s)
  {
    if IsKey(s) {
      assert forall i :: 0 <= i < |s| ==> s[i] in s;
    }
  }

  /** Files below `views/v2/KEY` belong to that directory and key. */
  lemma ViewPlace(key: string, tail: Path)
    requires KeyText(key) && tail != []
    ensures PlaceOf(["views", "v2", key] + tail) == Keyed("views/v2", ["views", "v2", key], key)
  {
    var parts := ["views", "v2", key] + tail;
    assert parts[..2] == ["views", "v2"] && parts[..3] == ["views", "v2", key];
  }

  /** Files below `DOMAIN/KEY` belong to that directory and key. */
  lemma DomainPlace(domain: string, key: string, tail: Path)
    requires domain in DOMAINS && KeyText(key) && tail != []
    ensures PlaceOf([domain, key] + tail) == Keyed(domain, [domain, key], key)
  {
    var parts := [domain, key] + tail;
    assert |"v2"| != 16 && parts[..2] == [domain, key];
  }

  /** Files below `HARNESS/DOMAIN` share that directory; the first sixteen characters of the
      next component are the key, if they spell one. */
  lemma NestedPlace(harness: string, domain: string, name: string, tail: Path)
    requires harness !in DOMAINS && domain in DOMAINS
    ensures PlaceOf([harness, domain, name] + tail)
         == if |name| >= 16 && KeyText(name[..16])
            then Keyed(harness + "/" + domain, [harness, domain], name[..16])
            else Shared(harness + "/" + domain)
  {
    var parts := [harness, domain, name] + tail;
    assert parts[..2] == [harness, domain] && parts[..2][0] == harness && "views" in DOMAINS;
    if |name| >= 16 {
      assert |name| == 16 ==> name[..16] == name;
      KeyIff(name[..16]);
    }
  }

  /** Every other file is shared, under its first component. */
  lemma OtherPlace(parts: Path)
    requires parts != []
    requires !(|parts| >= 4 && parts[0] == "views" && parts[1] == "v2" && KeyText(parts[2]))
    requires !(|parts| >= 3 && parts[0] in DOMAINS && KeyText(parts[1]))
    requires !(|parts| >= 3 && parts[0] !in DOMAINS && parts[1] in DOMAINS)
    ensures PlaceOf(parts) == Shared(parts[0])
  {
    if |parts| >= 4 {
      KeyIff(parts[2]);
      assert parts[..2] == ["views", "v2"] ==> parts[0] == parts[..2][0] && parts[1] == parts[..2][1];
    }
    if |parts| >= 3 {
      KeyIff(parts[1]);
    }
  }

  // ----- one directory -----

  predicate Old(s: Snapshot, record: Record) {
    s.now - record.lastBoundMs >= AGE_MS &&
    match record.volume
    case Some(volume) => s.device(volume.path) == Some(volume.device)
    case None => Contains(record.root, "/cortexkit/alfonso/worktrees/")
  }

  function RecordsOf(s: Snapshot, key: string): seq<Record> {
    if key in s.identities then s.identities[key] else []
  }

  /** The generation a pin or reader holds; "*" stands for any. */
  function PinHolds(pin: Pin): Option<string> {
    match pin
    case UnreadablePin => Some("*")
    case Pin(live, generation) => if !live then None else if generation.Some? then generation else Some("*")
  }

  function ReaderHolds(reader: Reader): Option<string> {
    match reader
    case UnreadableReader => Some("*")
    case Reader(live, generation) => if live then Some(generation) else None
  }

  ghost function Named<T(!new)>(items: seq<T>, name: T -> Option<string>): set<string> {
    set item <- items | name(item).Some? :: name(item).value
  }

  lemma NamedSnoc<T(!new)>(items: seq<T>, item: T, name: T -> Option<string>)
    ensures Named(items + [item], name)
         == Named(items, name) + if name(item).Some? then {name(item).value} else {}
  {
    forall x | x in Named(items, name)
      ensures x in Named(items + [item], name)
    {
      var y :| y in items && name(y) == Some(x);
      assert y in items + [item];
    }
    assert item in items + [item];
  }

  ghost function Held(b: Base): set<string> { Named(b.pins, PinHolds) + Named(b.readers, ReaderHolds) }

  method Protections(b: Base) returns (held: set<string>)
    ensures held == Held(b)
  {
    held := {};
    for i := 0 to |b.pins|
      invariant held == Named(b.pins[..i], PinHolds)
    {
      NamedSnoc(b.pins[..i], b.pins[i], PinHolds);
      assert b.pins[..i + 1] == b.pins[..i] + [b.pins[i]];
      match PinHolds(b.pins[i])
      case Some(generation) => held := held + {generation};
      case None =>
    }
    assert b.pins[..|b.pins|] == b.pins;
    for i := 0 to |b.readers|
      invariant held == Named(b.pins, PinHolds) + Named(b.readers[..i], ReaderHolds)
    {
      NamedSnoc(b.readers[..i], b.readers[i], ReaderHolds);
      assert b.readers[..i + 1] == b.readers[..i] + [b.readers[i]];
      match ReaderHolds(b.readers[i])
      case Some(generation) => held := held + {generation};
      case None =>
    }
    assert b.readers[..|b.readers|] == b.readers;
  }

  /** What the census remembers of a directory: does a root live, is it guarded by holders or
      owners, which generations are in use, are all bindings old, and which generations own
      a derived store in use. */
  datatype Directory = Directory(live: bool, guarded: bool, current: set<string>, stale: bool, owners: set<string>)

  function PointerRows(b: Base): set<string> {
    if b.pointer.Rows? then set g <- b.pointer.generations else {}
  }

  function CurrentFile(b: Base, key: string): set<string> {
    if key in b.currents then {b.currents[key]} else {}
  }

  ghost function Current(b: Base, key: string): set<string> {
    PointerRows(b) + CurrentFile(b, key)
    + if "*" in Held(b) || b.pointer.FailedProbe? then {"*"} else Held(b)
  }

  ghost function Owners(b: Base, generations: set<string>): set<string> {
    set g <- generations | g in b.refs :: b.refs[g]
  }

  ghost function Assess(s: Snapshot, base: Path, key: string): Directory {
    var b := s.bases(base);
    var records := RecordsOf(s, key);
    Directory(
      exists r <- records :: s.present(r.root),
      Held(b) != {} || exists r <- records :: r.owned,
      Current(b, key),
      records != [] && forall r <- records :: Old(s, r),
      Owners(b, Current(b, key)))
  }

  method FindOwners(b: Base, generations: set<string>) returns (owners: set<string>)
    ensures owners == Owners(b, generations)
  {
    owners := {};
    var rest := generations;
    while rest != {}
      invariant rest <= generations
      invariant owners == Owners(b, generations - rest)
    {
      var g :| g in rest;
      assert generations - (rest - {g}) == (generations - rest) + {g};
      OwnersAdd(b, generations - rest, g);
      rest := rest - {g};
      if g in b.refs {
        owners := owners + {b.refs[g]};
      }
    }
    assert generations - rest == generations;
  }

  lemma OwnersAdd(b: Base, generations: set<string>, g: string)
    ensures Owners(b, generations + {g}) == Owners(b, generations) + if g in b.refs then {b.refs[g]} else {}
  {
    forall x | x in Owners(b, generations)
      ensures x in Owners(b, generations + {g})
    {
      var y :| y in generations && y in b.refs && b.refs[y] == x;
      assert y in generations + {g};
    }
    assert g in generations + {g};
  }

  method Examine(s: Snapshot, base: Path, key: string) returns (d: Directory)
    ensures d == Assess(s, base, key)
  {
    var b := s.bases(base);
    var records := RecordsOf(s, key);
    var live := exists r <- records :: s.present(r.root);
    var held := Protections(b);
    var guarded := held != {} || exists r <- records :: r.owned;
    var current := PointerRows(b);
    if b.pointer.FailedProbe? {
      held := held + {"*"};
    }
    current := current + CurrentFile(b, key);
    if "*" in held {
      current := current + {"*"};
    } else {
      current := current + held;
    }
    var owners := FindOwners(b, current);
    var stale := records != [] && forall r <- records :: Old(s, r);
    d := Directory(live, guarded, current, stale, owners);
  }

  // ----- one file -----

  datatype Plan = Superseded(base: Path, generation: string) | MissingRoot(base: Path, key: string)

  /** The bucket a file's bytes go to, and the plan they go to if any. */
  datatype Verdict = Verdict(domain: string, category: string, plan: Option<Plan>)

  predicate IsSuperseded(d: Directory, generation: Option<string>, name: string) {
    && d.live
    && generation.Some? && generation.value != ""
    && generation.value !in d.current && "*" !in d.current
    && !(generation.value in d.owners && IsDerivedStore(name))
  }

  function Judge(d: Directory, domain: string, base: Path, key: string, generation: Option<string>, name: string): Verdict
  {
    if IsSuperseded(d, generation, name) then
      Verdict(domain, "live/superseded", Some(Superseded(base, generation.value)))
    else
      Verdict(domain, if d.live then "live/current+coordination" else "dead/unknown root",
              if !d.live && d.stale && !d.guarded then Some(MissingRoot(base, key)) else None)
  }

  ghost function VerdictOf(s: Snapshot, file: File): Verdict {
    match PlaceOf(Parts(file))
    case Shared(domain) => Verdict(domain, "shared/operational", None)
    case Keyed(domain, base, key) =>
      Judge(Assess(s, base, key), domain, base, key, s.generation(key, file.name), file.name)
  }

  // ----- the whole pass -----

  type Bucket = (string, string)

  ghost function Charge(s: Snapshot, file: File): seq<(Bucket, nat)> {
    var v := VerdictOf(s, file);
    [((v.domain, v.category), Bytes(file))]
  }

  ghost function Candidate(s: Snapshot, file: File): seq<(Plan, nat)> {
    match VerdictOf(s, file).plan
    case Some(plan) => [(plan, Bytes(file))]
    case None => []
  }

  ghost function Collect<T, X>(items: seq<T>, f: T -> seq<X>): seq<X> {
    if items == [] then [] else Collect(items[..|items| - 1], f) + f(items[|items| - 1])
  }

  ghost function Charges(s: Snapshot, files: seq<File>): seq<(Bucket, nat)> {
    Collect(files, file => Charge(s, file))
  }

  ghost function Candidates(s: Snapshot, files: seq<File>): seq<(Plan, nat)> {
    Collect(files, file => Candidate(s, file))
  }

  /** Every remembered directory is as a fresh look would find it. */
  ghost predicate Remembers(s: Snapshot, directories: map<(Path, string), Directory>) {
    forall base, key :: (base, key) in directories ==> directories[(base, key)] == Assess(s, base, key)
  }

  method Lookup(s: Snapshot, base: Path, key: string, directories: map<(Path, string), Directory>)
    returns (d: Directory, directories': map<(Path, string), Directory>)
    requires Remembers(s, directories)
    ensures Remembers(s, directories') && d == Assess(s, base, key)
    ensures directories'.Keys == directories.Keys + {(base, key)}
  {
    directories' := directories;
    if (base, key) !in directories {
      var found := Examine(s, base, key);
      directories' := directories[(base, key) := found];
    }
    d := directories'[(base, key)];
  }

  method JudgeFile(s: Snapshot, file: File, directories: map<(Path, string), Directory>)
    returns (v: Verdict, directories': map<(Path, string), Directory>)
    requires Remembers(s, directories)
    ensures Remembers(s, directories') && v == VerdictOf(s, file)
  {
    directories' := directories;
    match PlaceOf(Parts(file))
    case Shared(domain) =>
      v := Verdict(domain, "shared/operational", None);
    case Keyed(domain, base, key) =>
      var d;
      d, directories' := Lookup(s, base, key, directories);
      v := Judge(d, domain, base, key, s.generation(key, file.name), file.name);
  }

  /** The inventory loop. Its memo of directories changes nothing: every file is judged as a
      fresh look at its directory would judge it. */
  method Inventory(s: Snapshot) returns (sizes: map<Bucket, nat>, plans: map<Plan, nat>)
    ensures sizes == Tally(Charges(s, s.files)) && plans == Tally(Candidates(s, s.files))
  {
    sizes, plans := map[], map[];
    var directories: map<(Path, string), Directory> := map[];
    for i := 0 to |s.files|
      invariant Remembers(s, directories)
      invariant sizes == Tally(Charges(s, s.files[..i])) && plans == Tally(Candidates(s, s.files[..i]))
    {
      var file := s.files[i];
      var v;
      v, directories := JudgeFile(s, file, directories);
      CollectNext(s.files, i, file => Charge(s, file));
      CollectNext(s.files, i, file => Candidate(s, file));
      sizes := Add(sizes, (v.domain, v.category), Bytes(file));
      match v.plan
      case Some(plan) => plans := Add(plans, plan, Bytes(file));
      case None =>
    }
    assert s.files[..|s.files|] == s.files;
  }

  lemma CollectNext<T, K>(items: seq<T>, i: nat, f: T -> seq<(K, nat)>)
    requires i < |items|
    ensures var more := f(items[i]);
            && (more == [] ==> Tally(Collect(items[..i + 1], f)) == Tally(Collect(items[..i], f)))
            && (|more| == 1 ==>
                  Tally(Collect(items[..i + 1], f)) == Add(Tally(Collect(items[..i], f)), more[0].0, more[0].1))
  {
    var next, before, more := items[..i + 1], Collect(items[..i], f), f(items[i]);
    assert next[..i] == items[..i];
    if |more| == 1 {
      assert (before + more)[..|before|] == before;
    } else if more == [] {
      assert before + more == before;
    }
  }

  // ----- safety: what a plan may touch -----

  /** Generation `g` is in use: current by the pointer database or the `.current` file, pinned by a
      live process, or open in a live reader. */
  ghost predicate InUse(b: Base, key: string, g: string) {
    || (b.pointer.Rows? && g in b.pointer.generations)
    || (key in b.currents && b.currents[key] == g)
    || (exists pin <- b.pins :: pin.Pin? && pin.live && pin.generation == Some(g))
    || (exists reader <- b.readers :: reader.Reader? && reader.live && reader.generation == g)
  }

  /** Some pin, reader or pointer database leaves open what is in use. */
  ghost predicate Unclear(b: Base, key: string) {
    || b.pointer.FailedProbe?
    || UnreadablePin in b.pins || Pin(true, None) in b.pins
    || UnreadableReader in b.readers
    || InUse(b, key, "*")
  }

  /** Somebody holds the directory: a live pin or reader, or one that cannot be read. */
  ghost predicate HeldOpen(b: Base) {
    || (exists pin <- b.pins :: pin.UnreadablePin? || pin.live)
    || (exists reader <- b.readers :: reader.UnreadableReader? || reader.live)
  }

  lemma HeldMeans(b: Base, g: string)
    ensures g in Named(b.pins, PinHolds) <==> exists pin <- b.pins :: PinHolds(pin) == Some(g)
    ensures g in Named(b.readers, ReaderHolds) <==> exists reader <- b.readers :: ReaderHolds(reader) == Some(g)
  {
  }

  lemma PinsHold(b: Base, g: string)
    ensures g in Named(b.pins, PinHolds) <==>
            || (exists pin <- b.pins :: pin.Pin? && pin.live && pin.generation == Some(g))
            || (g == "*" && (UnreadablePin in b.pins || Pin(true, None) in b.pins))
  {
    HeldMeans(b, g);
    assert forall pin <- b.pins ::
      PinHolds(pin) == Some(g) <==>
      || (pin.Pin? && pin.live && pin.generation == Some(g))
      || (g == "*" && (pin == UnreadablePin || pin == Pin(true, None)));
  }

  lemma ReadersHold(b: Base, g: string)
    ensures g in Named(b.readers, ReaderHolds) <==>
            || (exists reader <- b.readers :: reader.Reader? && reader.live && reader.generation == g)
            || (g == "*" && UnreadableReader in b.readers)
  {
    HeldMeans(b, g);
    assert forall reader <- b.readers ::
      ReaderHolds(reader) == Some(g) <==>
      || (reader.Reader? && reader.live && reader.generation == g)
      || (g == "*" && reader == UnreadableReader);
  }

  lemma CurrentMeans(b: Base, key: string, g: string)
    ensures "*" in Current(b, key) <==> Unclear(b, key)
    ensures !Unclear(b, key) ==> (g in Current(b, key) <==> InUse(b, key, g))
  {
    PinsHold(b, "*");
    PinsHold(b, g);
    ReadersHold(b, "*");
    ReadersHold(b, g);
  }

  lemma HeldIffOpen(b: Base)
    ensures Held(b) != {} <==> HeldOpen(b)
  {
    if HeldOpen(b) {
      if pin :| pin in b.pins && (pin.UnreadablePin? || pin.live) {
        assert PinHolds(pin).value in Named(b.pins, PinHolds);
      } else {
        var reader :| reader in b.readers && (reader.UnreadableReader? || reader.live);
        assert ReaderHolds(reader).value in Named(b.readers, ReaderHolds);
      }
    }
    if Held(b) != {} {
      var g :| g in Held(b);
      PinsHold(b, g);
      ReadersHold(b, g);
    }
  }

  /** A generation in use refers to the derived store of generation `g`. */
  ghost predicate Refers(b: Base, key: string, g: string) {
    exists h :: InUse(b, key, h) && h in b.refs && b.refs[h] == g
  }

  lemma OwnersMeans(b: Base, key: string, g: string)
    requires !Unclear(b, key)
    ensures g in Owners(b, Current(b, key)) <==> Refers(b, key, g)
  {
    forall h
      ensures h in Current(b, key) <==> InUse(b, key, h)
    {
      CurrentMeans(b, key, h);
    }
  }

  ghost predicate RootLives(s: Snapshot, key: string) {
    exists r <- RecordsOf(s, key) :: s.present(r.root)
  }

  /** A file is planned as superseded exactly when its root lives, it spells a generation,
      everything about the directory is clear, that generation is not in use, and the file
      is not a derived store some generation in use refers to. */
  lemma SupersededIff(s: Snapshot, file: File, base: Path, g: string)
    ensures VerdictOf(s, file).plan == Some(Superseded(base, g)) <==>
            && var place := PlaceOf(Parts(file));
            && place.Keyed? && place.base == base && RootLives(s, place.key)
            && s.generation(place.key, file.name) == Some(g) && g != ""
            && var b := s.bases(base);
            && !Unclear(b, place.key) && !InUse(b, place.key, g)
            && !(IsDerivedStore(file.name) && Refers(b, place.key, g))
  {
    var place := PlaceOf(Parts(file));
    if place.Keyed? {
      var b := s.bases(place.base);
      CurrentMeans(b, place.key, g);
      if !Unclear(b, place.key) {
        OwnersMeans(b, place.key, g);
      }
    }
  }

  /** A file is planned as belonging to a missing root exactly when bindings are recorded
      for its key, none of their roots exists, all are old, no owner lives and nobody holds
      the directory. */
  lemma MissingRootIff(s: Snapshot, file: File, base: Path, key: string)
    ensures VerdictOf(s, file).plan == Some(MissingRoot(base, key)) <==>
            && var place := PlaceOf(Parts(file));
            && place.Keyed? && place.base == base && place.key == key
            && var records := RecordsOf(s, key);
            && records != []
            && (forall r <- records :: !s.present(r.root) && Old(s, r) && !r.owned)
            && !HeldOpen(s.bases(base))
  {
    HeldIffOpen(s.bases(base));
  }

  /** The plans for a file below `views/v2/KEY`, said of that directory and key alone. It is
      superseded only in a live root, if nothing about the directory is unclear and neither
      pointer, pin nor reader holds its generation; it goes with a missing root only if there
      are bindings, all a week old and on their volume, none of an existing or owned root, and
      nobody holds the directory. */
  lemma ViewPlans(s: Snapshot, file: File, key: string, more: Path, plan: Plan)
    requires KeyText(key) && file.above == ["views", "v2", key] + more
    ensures var base := ["views", "v2", key]; var b := s.bases(base);
            VerdictOf(s, file).plan == Some(plan) <==>
            match plan
            case Superseded(at, g) =>
              && at == base && RootLives(s, key) && s.generation(key, file.name) == Some(g) && g != ""
              && !Unclear(b, key) && !InUse(b, key, g)
              && !("derived-" <= file.name && Contains(file.name, ".sqlite") && Refers(b, key, g))
            case MissingRoot(at, k) =>
              && at == base && k == key && RecordsOf(s, key) != [] && !HeldOpen(b)
              && forall r <- RecordsOf(s, key) :: !s.present(r.root) && !r.owned && WeekOld(s, r)
  {
    ViewPlace(key, more + [file.name]);
    assert Parts(file) == ["views", "v2", key] + (more + [file.name]);
    match plan
    case Superseded(at, g) => SupersededIff(s, file, at, g);
    case MissingRoot(at, k) => MissingRootIff(s, file, at, k);
  }

  /** Last bound a week ago or more, and on a volume that is there, or in a worktree. */
  ghost predicate WeekOld(s: Snapshot, r: Record) {
    && s.now - r.lastBoundMs >= 604800000
    && (r.volume.Some? ==> s.device(r.volume.value.path) == Some(r.volume.value.device))
    && (r.volume.None? ==> Contains(r.root, "/cortexkit/alfonso/worktrees/"))
  }

  /** The bucket a file's bytes go to, by its place, by whether a root of its key lives, and by
      whether it is planned as superseded. */
  lemma BucketIff(s: Snapshot, file: File)
    ensures var v := VerdictOf(s, file);
            match PlaceOf(Parts(file))
            case Shared(domain) => v == Verdict(domain, "shared/operational", None)
            case Keyed(domain, base, key) =>
              && v.domain == domain
              && (v.category == "dead/unknown root" <==> !RootLives(s, key))
              && (v.category == "live/superseded" <==> v.plan.Some? && v.plan.value.Superseded?)
              && (v.category == "live/current+coordination" <==> RootLives(s, key) && v.plan == None)
  {
    assert "dead/unknown root"[0] != "live/superseded"[0];
    assert |"live/superseded"| != |"live/current+coordination"|;
  }

  // ----- a failed pointer probe -----

  /** A failed probe of the pointer database keeps a file out of every plan exactly when a
      root of its key still exists, a binding is not old (or none is recorded), an owner
      lives, or the directory is held. It is not a guard of its own. */
  lemma FailedProbeKeepsIff(s: Snapshot, file: File, base: Path, key: string)
    requires PlaceOf(Parts(file)).Keyed? && PlaceOf(Parts(file)).base == base && PlaceOf(Parts(file)).key == key
    requires s.bases(base).pointer.FailedProbe?
    ensures VerdictOf(s, file).plan == None <==>
            || RootLives(s, key)
            || RecordsOf(s, key) == []
            || (exists r <- RecordsOf(s, key) :: !Old(s, r) || r.owned)
            || HeldOpen(s.bases(base))
  {
    HeldIffOpen(s.bases(base));
  }

  const KEY := "0123456789abcdef"

  const GONE := Record("/gone", 0, Some(Volume("/", 1)), false)
  const BROKEN := Base([], [], FailedProbe, map[], map[])
  const STORE := File(["views", KEY], "pointer.sqlite", 8)

  /** One dead directory whose pointer database cannot be read. */
  function DeadDirectory(): Snapshot {
    Snapshot([STORE], map[KEY := [GONE]], _ => BROKEN, _ => false, _ => Some(1), AGE_MS, (_, _) => None)
  }

  lemma StorePlace()
    ensures PlaceOf(Parts(STORE)) == Keyed("views", ["views", KEY], KEY)
  {
    assert Parts(STORE)[..2] == ["views", KEY];
  }

  /** It is planned for removal all the same. */
  lemma FailedProbePlanned()
    ensures VerdictOf(DeadDirectory(), STORE).plan == Some(MissingRoot(["views", KEY], KEY))
  {
    var s := DeadDirectory();
    StorePlace();
    assert RecordsOf(s, KEY) == [GONE];
    MissingRootIff(s, STORE, ["views", KEY], KEY);
  }

  // ----- conservation -----

  function AllBytes(files: seq<File>): nat {
    if files == [] then 0 else AllBytes(files[..|files| - 1]) + 512 * files[|files| - 1].blocks
  }

  /** The bytes of exactly the files judged into a bucket, or into a plan. */
  ghost function BytesIn(s: Snapshot, files: seq<File>, bucket: Bucket): nat {
    if files == [] then 0
    else
      var last := files[|files| - 1];
      var v := VerdictOf(s, last);
      BytesIn(s, files[..|files| - 1], bucket) + if (v.domain, v.category) == bucket then 512 * last.blocks else 0
  }

  ghost function BytesPlanned(s: Snapshot, files: seq<File>, plan: Plan): nat {
    if files == [] then 0
    else
      var last := files[|files| - 1];
      BytesPlanned(s, files[..|files| - 1], plan)
      + if VerdictOf(s, last).plan == Some(plan) then 512 * last.blocks else 0
  }

  lemma {:induction false} BucketHolds(s: Snapshot, files: seq<File>, bucket: Bucket)
    ensures For(Charges(s, files), bucket) == BytesIn(s, files, bucket)
  {
    if files != [] {
      var last := |files| - 1;
      BucketHolds(s, files[..last], bucket);
      ForSplit(Charges(s, files[..last]), Charge(s, files[last]), bucket);
    }
  }

  lemma {:induction false} PlanHolds(s: Snapshot, files: seq<File>, plan: Plan)
    ensures For(Candidates(s, files), plan) == BytesPlanned(s, files, plan)
  {
    if files != [] {
      var last := |files| - 1;
      PlanHolds(s, files[..last], plan);
      ForSplit(Candidates(s, files[..last]), Candidate(s, files[last]), plan);
    }
  }

  lemma {:induction false} SumSplit<K>(a: seq<(K, nat)>, b: seq<(K, nat)>)
    ensures Sum(a + b) == Sum(a) + Sum(b)
  {
    if b == [] {
      assert a + b == a;
    } else {
      assert (a + b)[..|a + b| - 1] == a + b[..|b| - 1];
      SumSplit(a, b[..|b| - 1]);
    }
  }

  lemma {:induction false} ChargedOnce(s: Snapshot, files: seq<File>)
    ensures Sum(Charges(s, files)) == AllBytes(files) && Sum(Candidates(s, files)) <= AllBytes(files)
  {
    if files != [] {
      var last := |files| - 1;
      ChargedOnce(s, files[..last]);
      SumSplit(Charges(s, files[..last]), Charge(s, files[last]));
      SumSplit(Candidates(s, files[..last]), Candidate(s, files[last]));
    }
  }

  /** Every file is counted in exactly one bucket and in at most one plan. */
  lemma Conserved(s: Snapshot, files: seq<File>, bucket: Bucket, plan: Plan)
    ensures var sizes, plans := Tally(Charges(s, files)), Tally(Candidates(s, files));
            && Total(sizes) == AllBytes(files) && Total(plans) <= AllBytes(files)
            && Get(sizes, bucket) == BytesIn(s, files, bucket)
            && Get(plans, plan) == BytesPlanned(s, files, plan)
  {
    TallyTotals(Charges(s, files));
    TallyTotals(Candidates(s, files));
    ChargedOnce(s, files);
    TallyGets(Charges(s, files), bucket);
    TallyGets(Candidates(s, files), plan);
    BucketHolds(s, files, bucket);
    PlanHolds(s, files, plan);
  }

  // ----- the order of the walk -----

  lemma {:induction false} CollectSplit<T, X>(a: seq<T>, b: seq<T>, f: T -> seq<X>)
    ensures Collect(a + b, f) == Collect(a, f) + Collect(b, f)
  {
    if b == [] {
      assert a + b == a;
    } else {
      assert (a + b)[..|a + b| - 1] == a + b[..|b| - 1];
      CollectSplit(a, b[..|b| - 1], f);
    }
  }

  lemma CollectWithout<T, X>(items: seq<T>, i: nat, f: T -> seq<X>)
    requires i < |items|
    ensures multiset(Collect(items, f)) == multiset(Collect(items[..i] + items[i + 1..], f)) + multiset(f(items[i]))
  {
    var pre, x, post := items[..i], items[i], items[i + 1..];
    assert items == pre + ([x] + post);
    CollectAround(pre, x, post, f);
    CollectSplit(pre, post, f);
    MiddleOut(Collect(pre, f), f(x), Collect(post, f));
  }

  lemma CollectAround<T, X>(pre: seq<T>, x: T, post: seq<T>, f: T -> seq<X>)
    ensures Collect(pre + ([x] + post), f) == Collect(pre, f) + (f(x) + Collect(post, f))
  {
    CollectSplit(pre, [x] + post, f);
    CollectSplit([x], post, f);
    assert [x][..0] == [] && Collect([x], f) == [] + f(x) == f(x);
  }

  lemma MiddleOut<X>(a: seq<X>, b: seq<X>, c: seq<X>)
    ensures multiset(a + (b + c)) == multiset(a + c) + multiset(b)
  {
  }

  lemma {:induction false} CollectPermutes<T, X>(a: seq<T>, b: seq<T>, f: T -> seq<X>)
    requires multiset(a) == multiset(b)
    ensures multiset(Collect(a, f)) == multiset(Collect(b, f))
    decreases |a|
  {
    assert |a| == |multiset(a)| == |multiset(b)| == |b|;
    if a != [] {
      var last := |a| - 1;
      assert a[last] in multiset(a);
      var i :| 0 <= i < |b| && b[i] == a[last];
      MultisetWithout(a, last);
      MultisetWithout(b, i);
      assert a[..last] + a[last + 1..] == a[..last];
      CollectPermutes(a[..last], b[..i] + b[i + 1..], f);
      CollectWithout(b, i, f);
    }
  }

  /** The report does not depend on the order in which files are met. */
  lemma OrderFree(s: Snapshot, files: seq<File>, files': seq<File>)
    requires multiset(files) == multiset(files')
    ensures Tally(Charges(s, files)) == Tally(Charges(s, files'))
    ensures Tally(Candidates(s, files)) == Tally(Candidates(s, files'))
  {
    CollectPermutes(files, files', file => Charge(s, file));
    CollectPermutes(files, files', file => Candidate(s, file));
    TallyPermutes(Charges(s, files), Charges(s, files'));
    TallyPermutes(Candidates(s, files), Candidates(s, files'));
  }
}
