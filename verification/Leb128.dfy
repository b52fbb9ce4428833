/** Unsigned LEB128 and the custom section that turns a grammar module into its
    fixture variant (sections 5.2.2 and 5.5.3 of the WebAssembly Core Specification). */
module Leb128 {
  import opened Basics

  // ----- the writer -----

  /** What `uleb` must produce. */
  function Uleb(n: nat): (r: Bytes)
    ensures r != []
  {
    if n < 128 then [n] else [n % 128 + 128] + Uleb(n / 128)
  }

  /** The source's loop: seven bits at a time, a continuation bit on all but the last. */
  method WriteUleb(n: nat) returns (r: Bytes)
    ensures r == Uleb(n)
  {
    r := [];
    var value := n;
    while true
      invariant r + Uleb(value) == Uleb(n)
      decreases value
    {
      var low: byte := value % 128;
      var rest := value / 128;
      r := r + [if rest != 0 then low + 128 else low];
      if rest == 0 {
        return;
      }
      value := rest;
    }
  }

  // ----- the reader -----

  /** The decoder of the specification, for any width: also accepts padded encodings. */
  function Decode(b: Bytes): Option<(nat, Bytes)> {
    if b == [] then None
    else if b[0] < 128 then Some((b[0], b[1..]))
    else
      match Decode(b[1..])
      case None => None
      case Some((high, rest)) => Some((b[0] - 128 + 128 * high, rest))
  }

  /** Reading back what was written, with anything after it, for every number. */
  lemma {:induction false} DecodeUleb(n: nat, rest: Bytes)
    ensures Decode(Uleb(n) + rest) == Some((n, rest))
  {
    var b := Uleb(n) + rest;
    if n < 128 {
      assert b[1..] == rest;
    } else {
      assert b[1..] == Uleb(n / 128) + rest;
      DecodeUleb(n / 128, rest);
    }
  }

  /** No encoding is an initial part of another. */
  lemma PrefixFree(n: nat, m: nat, rest: Bytes)
    requires Uleb(m) == Uleb(n) + rest
    ensures n == m && rest == []
  {
    DecodeUleb(n, rest);
    DecodeUleb(m, []);
    assert Uleb(m) + [] == Uleb(m);
  }

  /** Whatever bytes denote a number, the writer's are at most as many. */
  lemma {:induction false} Minimal(b: Bytes)
    requires Decode(b).Some?
    ensures var (n, rest) := Decode(b).value; |Uleb(n)| <= |b| - |rest|
  {
    if b[0] >= 128 {
      Minimal(b[1..]);
      var (high, rest) := Decode(b[1..]).value;
      var n := b[0] - 128 + 128 * high;
      assert n / 128 == high;
      if n < 128 {
        assert |Uleb(n)| == 1;
      }
    }
  }

  /** The writer's is the only encoding of that length: equal length means equal bytes. */
  lemma {:induction false} MinimalUnique(b: Bytes)
    requires Decode(b).Some?
    ensures var (n, rest) := Decode(b).value; |Uleb(n)| == |b| - |rest| ==> b == Uleb(n) + rest
  {
    if b[0] < 128 {
      assert b == [b[0]] + b[1..];
    } else {
      MinimalUnique(b[1..]);
      Minimal(b[1..]);
      var (high, rest) := Decode(b[1..]).value;
      var n := b[0] - 128 + 128 * high;
      assert n / 128 == high && n % 128 == b[0] - 128;
      if |Uleb(n)| == |b| - |rest| {
        assert b == [b[0]] + b[1..];
        if n >= 128 {
          assert Uleb(n) == [b[0]] + Uleb(high);
        } else {
          ConsumesSome(b[1..]);
        }
      }
    }
  }

  lemma {:induction false} ConsumesSome(b: Bytes)
    requires Decode(b).Some?
    ensures |Decode(b).value.1| < |b|
  {
    if b[0] >= 128 {
      ConsumesSome(b[1..]);
    }
  }

  // ----- sections -----

  /** A section: its id and its contents. */
  datatype Section = Section(id: byte, contents: Bytes)

  /** One section off the front, or None if its size is malformed or runs past the end. */
  function TakeSection(b: Bytes): (r: Option<(Section, Bytes)>)
    requires b != []
    ensures r.Some? ==> |r.value.1| < |b|
  {
    match Decode(b[1..])
    case None => None
    case Some((size, rest)) =>
      ConsumesSome(b[1..]);
      if size > |rest| then None else Some((Section(b[0], rest[..size]), rest[size..]))
  }

  /** The sections of a module body. */
  function Sections(b: Bytes): Option<seq<Section>>
    decreases |b|
  {
    if b == [] then Some([])
    else
      match TakeSection(b)
      case None => None
      case Some((first, rest)) =>
        match Sections(rest)
        case None => None
        case Some(more) => Some([first] + more)
  }

  const PREAMBLE: Bytes := [0x00, 0x61, 0x73, 0x6D, 0x01, 0x00, 0x00, 0x00]

  /** A binary module: magic and version, then sections. */
  function Module(b: Bytes): Option<seq<Section>> {
    if |b| < 8 || b[..8] != PREAMBLE then None else Sections(b[8..])
  }

  function Written(s: Section): Bytes { [s.id] + Uleb(|s.contents|) + s.contents }

  function WrittenAll(sections: seq<Section>): Bytes {
    if sections == [] then [] else Written(sections[0]) + WrittenAll(sections[1..])
  }

  /** Magic, version and any sections written out read back as those sections; and only bytes
      that begin with that magic and version are a module. */
  lemma ModuleWritten(sections: seq<Section>, b: Bytes)
    ensures Module([0x00, 0x61, 0x73, 0x6D, 0x01, 0x00, 0x00, 0x00] + WrittenAll(sections)) == Some(sections)
    ensures Module(b).Some? ==> [0x00, 0x61, 0x73, 0x6D, 0x01, 0x00, 0x00, 0x00] <= b
  {
    AllWritten(sections);
    SplitBehind(PREAMBLE, WrittenAll(sections));
  }

  lemma {:induction false} AllWritten(sections: seq<Section>)
    ensures Sections(WrittenAll(sections)) == Some(sections)
  {
    if sections != [] {
      AllWritten(sections[1..]);
      OneWritten(sections[0]);
      SectionsConcat(Written(sections[0]), WrittenAll(sections[1..]));
      assert [sections[0]] + sections[1..] == sections;
    }
  }

  lemma OneWritten(s: Section)
    ensures Sections(Written(s)) == Some([s])
  {
    WrittenSections(s.id, s.contents);
  }

  /** A custom section's contents: a counted name, then payload. */
  function CustomName(contents: Bytes): Option<(Bytes, Bytes)> {
    match Decode(contents)
    case None => None
    case Some((size, rest)) => if size > |rest| then None else Some((rest[..size], rest[size..]))
  }

  /** "aft.fixture.identity" and "B". */
  const NAME: Bytes := [97, 102, 116, 46, 102, 105, 120, 116, 117, 114, 101, 46, 105, 100, 101, 110, 116, 105, 116, 121]
  const PAYLOAD: Bytes := [66]

  function CustomContents(): Bytes { Uleb(|NAME|) + NAME + PAYLOAD }

  function Variant(m: Bytes): Bytes {
    m + [0] + Uleb(|CustomContents()|) + CustomContents()
  }

  lemma TakeSectionExtends(b: Bytes, tail: Bytes)
    requires b != [] && TakeSection(b).Some?
    ensures TakeSection(b + tail) == Some((TakeSection(b).value.0, TakeSection(b).value.1 + tail))
  {
    var (size, rest) := Decode(b[1..]).value;
    assert (b + tail)[1..] == b[1..] + tail;
    DecodeExtends(b[1..], tail);
    TakeWithin(rest, tail, size);
  }

  lemma TakeWithin(rest: Bytes, tail: Bytes, size: nat)
    requires size <= |rest|
    ensures (rest + tail)[..size] == rest[..size] && (rest + tail)[size..] == rest[size..] + tail
  {
  }

  lemma TakeWritten(id: byte, contents: Bytes)
    ensures TakeSection([id] + Uleb(|contents|) + contents) == Some((Section(id, contents), []))
  {
    var size := Uleb(|contents|);
    DecodeUleb(|contents|, contents);
    DropFirst(id, size, contents);
    assert Decode(([id] + size + contents)[1..]) == Some((|contents|, contents));
    assert contents[..|contents|] == contents;
  }

  lemma DropFirst(x: byte, a: Bytes, b: Bytes)
    ensures ([x] + a + b)[1..] == a + b && ([x] + a + b)[0] == x
  {
  }

  /** Sections of a concatenation: those of the first part, then those of the second. */
  lemma {:induction false} SectionsConcat(b: Bytes, tail: Bytes)
    requires Sections(b).Some? && Sections(tail).Some?
    ensures Sections(b + tail) == Some(Sections(b).value + Sections(tail).value)
    decreases |b|
  {
    if b == [] {
      assert b + tail == tail;
      assert [] + Sections(tail).value == Sections(tail).value;
    } else {
      var (first, rest) := TakeSection(b).value;
      SectionsConcat(rest, tail);
      TakeSectionExtends(b, tail);
      Associate([first], Sections(rest).value, Sections(tail).value);
    }
  }

  lemma {:induction false} DecodeExtends(b: Bytes, tail: Bytes)
    requires Decode(b).Some?
    ensures var (n, rest) := Decode(b).value; Decode(b + tail) == Some((n, rest + tail))
  {
    assert (b + tail)[1..] == b[1..] + tail;
    if b[0] >= 128 {
      DecodeExtends(b[1..], tail);
    }
  }

  /** The variant of a module is the module's sections followed by one custom section
      (id 0) with the fixture name and payload. */
  lemma VariantAddsOneCustomSection(m: Bytes)
    requires Module(m).Some?
    ensures Module(Variant(m)) == Some(Module(m).value + [Section(0, CustomContents())])
    ensures CustomName(CustomContents()) == Some((NAME, PAYLOAD))
  {
    AppendSection(m, 0, CustomContents());
    ReadCustomName(NAME, PAYLOAD);
  }

  /** Writing a section after a module adds exactly that section. */
  lemma AppendSection(m: Bytes, id: byte, contents: Bytes)
    requires Module(m).Some?
    ensures Module(m + [id] + Uleb(|contents|) + contents) == Some(Module(m).value + [Section(id, contents)])
  {
    var tail := [id] + Uleb(|contents|) + contents;
    WrittenSections(id, contents);
    ModuleConcat(m, tail);
    Regroup(m, [id], Uleb(|contents|), contents);
  }

  lemma Regroup<T>(a: seq<T>, b: seq<T>, c: seq<T>, d: seq<T>)
    ensures a + b + c + d == a + (b + c + d)
  {
  }

  lemma WrittenSections(id: byte, contents: Bytes)
    ensures Sections([id] + Uleb(|contents|) + contents) == Some([Section(id, contents)])
  {
    TakeWritten(id, contents);
    assert Sections([]) == Some([]);
    assert [Section(id, contents)] + [] == [Section(id, contents)];
  }

  lemma ModuleConcat(m: Bytes, tail: Bytes)
    requires Module(m).Some? && Sections(tail).Some?
    ensures Module(m + tail) == Some(Module(m).value + Sections(tail).value)
  {
    SectionsConcat(m[8..], tail);
    TakeWithin(m, tail, 8);
  }

  lemma ReadCustomName(name: Bytes, payload: Bytes)
    ensures CustomName(Uleb(|name|) + name + payload) == Some((name, payload))
  {
    Associate(Uleb(|name|), name, payload);
    DecodeUleb(|name|, name + payload);
    SplitBehind(name, payload);
  }

  lemma SplitBehind<T>(a: seq<T>, b: seq<T>)
    ensures (a + b)[..|a|] == a && (a + b)[|a|..] == b
  {
  }
}
