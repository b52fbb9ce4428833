/** The `semantic.bin` index format, versions 7 and 8.

    A printer defines the format: a header, a file table, the rows, and from version 8 on
    two tables of skipped files. The parser takes each value off the front of what is left.
    The two are inverse, and no encoding is a proper prefix of another. The readers of the
    benchmark scripts, in `SemanticReaders`, are held against this parser. */
module SemanticBin {
  import opened Basics

  datatype Error = Truncated | UnsupportedVersion | TrailingBytes | BadFingerprint | BadText

  datatype Result<+T> = Ok(value: T) | Err(error: Error) {
    predicate IsFailure() { Err? }
    function PropagateFailure<U>(): Result<U> requires Err? { Err(error) }
    function Extract(): T requires Ok? { value }
  }

  // ----- the contents of an index -----

  const U32_LIMIT: nat := 0x1_0000_0000
  const FILE_META: nat := 8 + 4 + 8 + 32
  const SKIP_META: nat := 8

  /** A path followed by a fixed number of bytes: file metadata or a skip counter. */
  datatype Record = Record(path: Bytes, meta: Bytes)

  datatype Row = Row(file: Bytes, name: Bytes, qualified: Bytes, kind: byte, span: Bytes,
                     snippet: Bytes, embed: Bytes, vector: Bytes)

  /** Version 8 adds a total and two per-file tables of skipped chunks. */
  datatype Skips = NoSkips | Skips(total: Bytes, refused: seq<Record>, limited: seq<Record>)

  datatype Index = Index(dimension: nat, fingerprint: Bytes, files: seq<Record>, rows: seq<Row>, skips: Skips)

  predicate WfString(s: Bytes) { |s| < U32_LIMIT }

  predicate WfRecord(r: Record, size: nat) { WfString(r.path) && |r.meta| == size }

  predicate WfRecords(rs: seq<Record>, size: nat) {
    forall i :: 0 <= i < |rs| ==> WfRecord(rs[i], size)
  }

  predicate WfRow(r: Row, dimension: nat) {
    && WfString(r.file) && WfString(r.name) && WfString(r.qualified) && WfString(r.snippet) && WfString(r.embed)
    && |r.span| == 9 && |r.vector| == dimension * 4
  }

  predicate WfRows(rs: seq<Row>, dimension: nat) {
    forall i :: 0 <= i < |rs| ==> WfRow(rs[i], dimension)
  }

  predicate WfSkips(s: Skips) {
    s.Skips? ==>
      && |s.total| == 8
      && |s.refused| < U32_LIMIT && WfRecords(s.refused, SKIP_META)
      && |s.limited| < U32_LIMIT && WfRecords(s.limited, SKIP_META)
  }

  predicate WfIndex(x: Index) {
    && x.dimension < U32_LIMIT && |x.rows| < U32_LIMIT && |x.files| < U32_LIMIT
    && WfString(x.fingerprint) && WfRecords(x.files, FILE_META) && WfRows(x.rows, x.dimension) && WfSkips(x.skips)
  }

  // ----- the printer: each function puts its value in front of `rest` -----

  function PutU32(n: nat, rest: Bytes): Bytes {
    [n % 256, n / 256 % 256, n / 65536 % 256, n / 16777216 % 256] + rest
  }

  function PutString(s: Bytes, rest: Bytes): Bytes {
    PutU32(|s|, s + rest)
  }

  function PutRecord(r: Record, rest: Bytes): Bytes {
    PutString(r.path, r.meta + rest)
  }

  function PutNames(file: Bytes, name: Bytes, qualified: Bytes, rest: Bytes): Bytes {
    PutString(file, PutString(name, PutString(qualified, rest)))
  }

  function PutRow(r: Row, rest: Bytes): Bytes {
    PutNames(r.file, r.name, r.qualified,
      [r.kind] + (r.span + PutString(r.snippet, PutString(r.embed, r.vector + rest))))
  }

  function PutMany<T>(put: (T, Bytes) -> Bytes, xs: seq<T>, rest: Bytes): Bytes {
    if xs == [] then rest else put(xs[0], PutMany(put, xs[1..], rest))
  }

  function PutTable(rs: seq<Record>, rest: Bytes): Bytes {
    PutU32(|rs|, PutMany(PutRecord, rs, rest))
  }

  function PutSkips(s: Skips, rest: Bytes): Bytes {
    match s
    case NoSkips => rest
    case Skips(total, refused, limited) => total + PutTable(refused, PutTable(limited, rest))
  }

  /** What precedes the tables. */
  datatype Header = Header(version: byte, dimension: nat, count: nat, fingerprint: Bytes)

  predicate WfHeader(h: Header) {
    (h.version == 7 || h.version == 8) && h.dimension < U32_LIMIT && h.count < U32_LIMIT && WfString(h.fingerprint)
  }

  function HeaderOf(x: Index): Header {
    Header(if x.skips.NoSkips? then 7 else 8, x.dimension, |x.rows|, x.fingerprint)
  }

  function PutHeader(h: Header, rest: Bytes): Bytes {
    [h.version] + PutU32(h.dimension, PutU32(h.count, PutString(h.fingerprint, rest)))
  }

  function PutIndex(x: Index, rest: Bytes): Bytes {
    PutHeader(HeaderOf(x), PutTable(x.files, PutMany(PutRow, x.rows, PutSkips(x.skips, rest))))
  }

  function Encode(x: Index): Bytes {
    PutIndex(x, [])
  }

  // ----- the parser: each function takes its value off the front -----

  type Parser<!T> = Bytes -> Result<(T, Bytes)>

  function Take(b: Bytes, n: nat): (r: Result<(Bytes, Bytes)>)
    ensures r.Ok? <==> n <= |b|
    ensures r.Ok? ==> |r.value.0| == n && b == r.value.0 + r.value.1
  {
    if n <= |b| then Ok((b[..n], b[n..])) else Err(Truncated)
  }

  function Value32(b: Bytes): (n: nat)
    requires |b| == 4
    ensures n < U32_LIMIT
  {
    (b[0] as int) + 256 * (b[1] as int) + 65536 * (b[2] as int) + 16777216 * (b[3] as int)
  }

  function GetU32(b: Bytes): (r: Result<(nat, Bytes)>)
    ensures r.Ok? ==> r.value.0 < U32_LIMIT && b == PutU32(r.value.0, r.value.1)
  {
    var (raw, b1) :- Take(b, 4);
    Value32Put(raw, b1);
    Ok((Value32(raw), b1))
  }

  lemma Value32Put(raw: Bytes, rest: Bytes)
    requires |raw| == 4
    ensures PutU32(Value32(raw), rest) == raw + rest
  {
    Digits(raw[0], raw[1], raw[2], raw[3]);
    assert raw == [raw[0], raw[1], raw[2], raw[3]];
  }

  lemma Split8(low: int, high: int)
    requires 0 <= low < 256
    ensures (low + 256 * high) % 256 == low && (low + 256 * high) / 256 == high
  {
  }

  lemma Split16(low: int, high: int)
    requires 0 <= low < 65536
    ensures (low + 65536 * high) / 65536 == high
  {
  }

  lemma Split24(low: int, high: int)
    requires 0 <= low < 16777216
    ensures (low + 16777216 * high) / 16777216 == high
  {
  }

  lemma Digits(a: int, b: int, c: int, d: int)
    requires 0 <= a < 256 && 0 <= b < 256 && 0 <= c < 256 && 0 <= d < 256
    ensures var n := a + 256 * b + 65536 * c + 16777216 * d;
            n % 256 == a && n / 256 % 256 == b && n / 65536 % 256 == c && n / 16777216 % 256 == d
  {
    Split8(a, b + 256 * c + 65536 * d);
    Split8(b, c + 256 * d);
    Split16(a + 256 * b, c + 256 * d);
    Split8(c, d);
    Split24(a + 256 * b + 65536 * c, d);
    Split8(d, 0);
  }

  function GetString(b: Bytes): (r: Result<(Bytes, Bytes)>)
    ensures r.Ok? ==> WfString(r.value.0) && b == PutString(r.value.0, r.value.1)
  {
    var (n, b1) :- GetU32(b);
    Take(b1, n)
  }

  function GetRecord(b: Bytes, size: nat): (r: Result<(Record, Bytes)>)
    ensures r.Ok? ==> WfRecord(r.value.0, size) && b == PutRecord(r.value.0, r.value.1)
  {
    var (path, b1) :- GetString(b);
    var (meta, b2) :- Take(b1, size);
    Ok((Record(path, meta), b2))
  }

  function GetNames(b: Bytes): (r: Result<((Bytes, Bytes, Bytes), Bytes)>)
    ensures r.Ok? ==>
      var ((file, name, qualified), rest) := r.value;
      WfString(file) && WfString(name) && WfString(qualified) && b == PutNames(file, name, qualified, rest)
  {
    var (file, b1) :- GetString(b);
    var (name, b2) :- GetString(b1);
    var (qualified, b3) :- GetString(b2);
    Ok(((file, name, qualified), b3))
  }

  function GetRow(b: Bytes, dimension: nat): (r: Result<(Row, Bytes)>)
    ensures r.Ok? ==> WfRow(r.value.0, dimension) && b == PutRow(r.value.0, r.value.1)
  {
    var ((file, name, qualified), b3) :- GetNames(b);
    var (kind, b4) :- Take(b3, 1);
    var (span, b5) :- Take(b4, 9);
    var (snippet, b6) :- GetString(b5);
    var (embed, b7) :- GetString(b6);
    var (vector, b8) :- Take(b7, dimension * 4);
    assert kind == [kind[0]];
    Ok((Row(file, name, qualified, kind[0], span, snippet, embed, vector), b8))
  }

  function RecordParser(size: nat): Parser<Record> { (b: Bytes) => GetRecord(b, size) }

  function RowParser(dimension: nat): Parser<Row> { (b: Bytes) => GetRow(b, dimension) }

  function GetMany<T>(get: Parser<T>, b: Bytes, n: nat): (r: Result<(seq<T>, Bytes)>)
    ensures r.Ok? ==> |r.value.0| == n
    decreases n
  {
    if n == 0 then Ok(([], b))
    else
      var (x, b1) :- get(b);
      var (xs, b2) :- GetMany(get, b1, n - 1);
      Ok(([x] + xs, b2))
  }

  /** What an item parser owes its printer, and what lists then inherit. */
  ghost predicate Inverse<T(!new)>(get: Parser<T>, put: (T, Bytes) -> Bytes, wf: T -> bool) {
    && (forall b :: get(b).Ok? ==> wf(get(b).value.0) && b == put(get(b).value.0, get(b).value.1))
    && (forall x, rest :: wf(x) ==> get(put(x, rest)) == Ok((x, rest)))
  }

  predicate All<T>(wf: T -> bool, xs: seq<T>) {
    forall i :: 0 <= i < |xs| ==> wf(xs[i])
  }

  lemma {:induction false} ManySound<T(!new)>(get: Parser<T>, put: (T, Bytes) -> Bytes, wf: T -> bool, b: Bytes, n: nat)
    requires Inverse(get, put, wf) && GetMany(get, b, n).Ok?
    ensures var (xs, rest) := GetMany(get, b, n).value; b == PutMany(put, xs, rest) && All(wf, xs)
    decreases n
  {
    if n > 0 {
      var (x, b1) := get(b).value;
      ManySound(get, put, wf, b1, n - 1);
      var (xs, b2) := GetMany(get, b1, n - 1).value;
      assert ([x] + xs)[1..] == xs;
    }
  }

  lemma {:induction false} ManyComplete<T(!new)>(get: Parser<T>, put: (T, Bytes) -> Bytes, wf: T -> bool,
                                                 xs: seq<T>, rest: Bytes)
    requires Inverse(get, put, wf) && All(wf, xs)
    ensures GetMany(get, PutMany(put, xs, rest), |xs|) == Ok((xs, rest))
  {
    if xs != [] {
      ManyComplete(get, put, wf, xs[1..], rest);
      assert wf(xs[0]) && [xs[0]] + xs[1..] == xs;
    }
  }

  function RecordWf(size: nat): Record -> bool { (r: Record) => WfRecord(r, size) }

  function RowWf(dimension: nat): Row -> bool { (r: Row) => WfRow(r, dimension) }

  lemma RecordInverse(size: nat)
    ensures Inverse(RecordParser(size), PutRecord, RecordWf(size))
  {
    forall r, rest | WfRecord(r, size) ensures GetRecord(PutRecord(r, rest), size) == Ok((r, rest)) {
      GetPutRecord(r, size, rest);
    }
  }

  lemma RowInverse(dimension: nat)
    ensures Inverse(RowParser(dimension), PutRow, RowWf(dimension))
  {
    forall r, rest | WfRow(r, dimension) ensures GetRow(PutRow(r, rest), dimension) == Ok((r, rest)) {
      GetPutRow(r, dimension, rest);
    }
  }

  function GetTable(b: Bytes, size: nat): (r: Result<(seq<Record>, Bytes)>)
    ensures r.Ok? ==> |r.value.0| < U32_LIMIT && WfRecords(r.value.0, size) && b == PutTable(r.value.0, r.value.1)
  {
    var (n, b1) :- GetU32(b);
    var (xs, b2) :- GetMany(RecordParser(size), b1, n);
    RecordInverse(size);
    ManySound(RecordParser(size), PutRecord, RecordWf(size), b1, n);
    Ok((xs, b2))
  }

  function GetRows(b: Bytes, n: nat, dimension: nat): (r: Result<(seq<Row>, Bytes)>)
    ensures r.Ok? ==> |r.value.0| == n && WfRows(r.value.0, dimension) && b == PutMany(PutRow, r.value.0, r.value.1)
  {
    var (xs, b2) :- GetMany(RowParser(dimension), b, n);
    RowInverse(dimension);
    ManySound(RowParser(dimension), PutRow, RowWf(dimension), b, n);
    Ok((xs, b2))
  }

  function GetSkips(b: Bytes, version: byte): (r: Result<(Skips, Bytes)>)
    ensures r.Ok? ==> WfSkips(r.value.0) && b == PutSkips(r.value.0, r.value.1) && (r.value.0.Skips? <==> version >= 8)
  {
    if version < 8 then Ok((NoSkips, b))
    else
      var (total, b1) :- Take(b, 8);
      var (refused, b2) :- GetTable(b1, SKIP_META);
      var (limited, b3) :- GetTable(b2, SKIP_META);
      Ok((Skips(total, refused, limited), b3))
  }

  function GetHeader(b: Bytes): (r: Result<(Header, Bytes)>)
    ensures r.Ok? ==> WfHeader(r.value.0) && b == PutHeader(r.value.0, r.value.1)
  {
    var (v, b1) :- Take(b, 1);
    if v[0] != 7 && v[0] != 8 then Err(UnsupportedVersion)
    else
      var (dimension, b2) :- GetU32(b1);
      var (count, b3) :- GetU32(b2);
      var (fingerprint, b4) :- GetString(b3);
      assert v == [v[0]];
      Ok((Header(v[0], dimension, count, fingerprint), b4))
  }

  /** Header, file table and rows: all but the skip tables. */
  datatype Front = Front(header: Header, files: seq<Record>, rows: seq<Row>)

  predicate WfFront(f: Front) {
    && WfHeader(f.header) && |f.rows| == f.header.count
    && WfRecords(f.files, FILE_META) && |f.files| < U32_LIMIT && WfRows(f.rows, f.header.dimension)
  }

  function GetFront(b: Bytes): (r: Result<(Front, Bytes)>)
    ensures r.Ok? ==> var (f, rest) := r.value;
              WfFront(f) && b == PutHeader(f.header, PutTable(f.files, PutMany(PutRow, f.rows, rest)))
  {
    var (h, b1) :- GetHeader(b);
    var (files, b2) :- GetTable(b1, FILE_META);
    var (rows, b3) :- GetRows(b2, h.count, h.dimension);
    Ok((Front(h, files, rows), b3))
  }

  function GetIndex(b: Bytes): (r: Result<(Index, Bytes)>)
    ensures r.Ok? ==> WfIndex(r.value.0) && b == PutIndex(r.value.0, r.value.1)
  {
    var (f, b3) :- GetFront(b);
    var (skips, b4) :- GetSkips(b3, f.header.version);
    Ok((Index(f.header.dimension, f.header.fingerprint, f.files, f.rows, skips), b4))
  }

  // ----- the parser undoes the printer -----

  lemma TakePut(s: Bytes, rest: Bytes)
    ensures Take(s + rest, |s|) == Ok((s, rest))
  {
  }

  lemma GetPutU32(n: nat, rest: Bytes)
    requires n < U32_LIMIT
    ensures GetU32(PutU32(n, rest)) == Ok((n, rest))
  {
    var raw: Bytes := [n % 256, n / 256 % 256, n / 65536 % 256, n / 16777216 % 256];
    TakePut(raw, rest);
    Recompose(n);
  }

  lemma Recompose(n: nat)
    requires n < U32_LIMIT
    ensures n % 256 + 256 * (n / 256 % 256) + 65536 * (n / 65536 % 256) + 16777216 * (n / 16777216 % 256) == n
  {
    var q1 := n / 256;
    var q2 := q1 / 256;
    var q3 := q2 / 256;
    assert n == n % 256 + 256 * q1 && q1 == q1 % 256 + 256 * q2 && q2 == q2 % 256 + 256 * q3;
    Split16(n % 256 + 256 * (q1 % 256), q2);
    Split24(n % 256 + 256 * (q1 % 256) + 65536 * (q2 % 256), q3);
    assert q3 < 256;
  }

  lemma GetPutString(s: Bytes, rest: Bytes)
    requires WfString(s)
    ensures GetString(PutString(s, rest)) == Ok((s, rest))
  {
    GetPutU32(|s|, s + rest);
    TakePut(s, rest);
  }

  lemma GetPutRecord(r: Record, size: nat, rest: Bytes)
    requires WfRecord(r, size)
    ensures GetRecord(PutRecord(r, rest), size) == Ok((r, rest))
  {
    GetPutString(r.path, r.meta + rest);
    TakePut(r.meta, rest);
  }

  lemma GetPutNames(file: Bytes, name: Bytes, qualified: Bytes, rest: Bytes)
    requires WfString(file) && WfString(name) && WfString(qualified)
    ensures GetNames(PutNames(file, name, qualified, rest)) == Ok(((file, name, qualified), rest))
  {
    GetPutString(file, PutString(name, PutString(qualified, rest)));
    GetPutString(name, PutString(qualified, rest));
    GetPutString(qualified, rest);
  }

  lemma GetPutRow(r: Row, dimension: nat, rest: Bytes)
    requires WfRow(r, dimension)
    ensures GetRow(PutRow(r, rest), dimension) == Ok((r, rest))
  {
    var b6 := PutString(r.embed, r.vector + rest);
    var b5 := PutString(r.snippet, b6);
    GetPutNames(r.file, r.name, r.qualified, [r.kind] + (r.span + b5));
    TakePut([r.kind], r.span + b5);
    TakePut(r.span, b5);
    GetPutString(r.snippet, b6);
    GetPutString(r.embed, r.vector + rest);
    TakePut(r.vector, rest);
  }

  lemma GetPutTable(rs: seq<Record>, size: nat, rest: Bytes)
    requires |rs| < U32_LIMIT && WfRecords(rs, size)
    ensures GetTable(PutTable(rs, rest), size) == Ok((rs, rest))
  {
    GetPutU32(|rs|, PutMany(PutRecord, rs, rest));
    RecordInverse(size);
    ManyComplete(RecordParser(size), PutRecord, RecordWf(size), rs, rest);
  }

  lemma GetPutRows(rs: seq<Row>, dimension: nat, rest: Bytes)
    requires WfRows(rs, dimension)
    ensures GetRows(PutMany(PutRow, rs, rest), |rs|, dimension) == Ok((rs, rest))
  {
    RowInverse(dimension);
    ManyComplete(RowParser(dimension), PutRow, RowWf(dimension), rs, rest);
  }

  lemma GetPutSkips(s: Skips, rest: Bytes)
    requires WfSkips(s)
    ensures GetSkips(PutSkips(s, rest), if s.NoSkips? then 7 else 8) == Ok((s, rest))
  {
    if s.Skips? {
      TakePut(s.total, PutTable(s.refused, PutTable(s.limited, rest)));
      GetPutTable(s.refused, SKIP_META, PutTable(s.limited, rest));
      GetPutTable(s.limited, SKIP_META, rest);
    }
  }

  lemma GetPutHeader(h: Header, rest: Bytes)
    requires WfHeader(h)
    ensures GetHeader(PutHeader(h, rest)) == Ok((h, rest))
  {
    var b3 := PutString(h.fingerprint, rest);
    TakePut([h.version], PutU32(h.dimension, PutU32(h.count, b3)));
    GetPutU32(h.dimension, PutU32(h.count, b3));
    GetPutU32(h.count, b3);
    GetPutString(h.fingerprint, rest);
  }

  lemma GetPutIndex(x: Index, rest: Bytes)
    requires WfIndex(x)
    ensures GetIndex(PutIndex(x, rest)) == Ok((x, rest))
  {
    var b3 := PutSkips(x.skips, rest);
    var b2 := PutMany(PutRow, x.rows, b3);
    GetPutHeader(HeaderOf(x), PutTable(x.files, b2));
    GetPutTable(x.files, FILE_META, b2);
    GetPutRows(x.rows, x.dimension, b3);
    GetPutSkips(x.skips, rest);
  }

  /** The index a file holds: all of its bytes, no more and no fewer. */
  function Parse(data: Bytes): (r: Result<Index>) {
    var (x, rest) :- GetIndex(data);
    if rest == [] then Ok(x) else Err(TrailingBytes)
  }

  /** The parser accepts exactly the encodings, and returns what was encoded. */
  lemma ParseIffEncoding(data: Bytes, x: Index)
    ensures Parse(data) == Ok(x) <==> WfIndex(x) && data == Encode(x)
  {
    if WfIndex(x) {
      GetPutIndex(x, []);
    }
  }

  // ----- no encoding is a proper prefix of another -----

  lemma AppendU32(n: nat, rest: Bytes, more: Bytes)
    ensures PutU32(n, rest) + more == PutU32(n, rest + more)
  {
  }

  lemma AppendString(s: Bytes, rest: Bytes, more: Bytes)
    ensures PutString(s, rest) + more == PutString(s, rest + more)
  {
    AppendU32(|s|, s + rest, more);
    Associate(s, rest, more);
  }

  lemma AppendRecord(r: Record, rest: Bytes, more: Bytes)
    ensures PutRecord(r, rest) + more == PutRecord(r, rest + more)
  {
    AppendString(r.path, r.meta + rest, more);
    Associate(r.meta, rest, more);
  }

  lemma AppendRow(r: Row, rest: Bytes, more: Bytes)
    ensures PutRow(r, rest) + more == PutRow(r, rest + more)
  {
    var b2 := PutString(r.embed, r.vector + rest);
    var b1 := PutString(r.snippet, b2);
    var b0 := [r.kind] + (r.span + b1);
    AppendString(r.file, PutString(r.name, PutString(r.qualified, b0)), more);
    AppendString(r.name, PutString(r.qualified, b0), more);
    AppendString(r.qualified, b0, more);
    Associate([r.kind], r.span + b1, more);
    Associate(r.span, b1, more);
    AppendString(r.snippet, b2, more);
    AppendString(r.embed, r.vector + rest, more);
    Associate(r.vector, rest, more);
  }

  lemma {:induction false} AppendMany<T(!new)>(put: (T, Bytes) -> Bytes, xs: seq<T>, rest: Bytes, more: Bytes)
    requires forall x, a, b :: put(x, a) + b == put(x, a + b)
    ensures PutMany(put, xs, rest) + more == PutMany(put, xs, rest + more)
  {
    if xs != [] {
      AppendMany(put, xs[1..], rest, more);
    }
  }

  lemma AppendTable(rs: seq<Record>, rest: Bytes, more: Bytes)
    ensures PutTable(rs, rest) + more == PutTable(rs, rest + more)
  {
    AppendU32(|rs|, PutMany(PutRecord, rs, rest), more);
    forall r, a, b ensures PutRecord(r, a) + b == PutRecord(r, a + b) {
      AppendRecord(r, a, b);
    }
    AppendMany(PutRecord, rs, rest, more);
  }

  lemma AppendSkips(s: Skips, rest: Bytes, more: Bytes)
    ensures PutSkips(s, rest) + more == PutSkips(s, rest + more)
  {
    if s.Skips? {
      Associate(s.total, PutTable(s.refused, PutTable(s.limited, rest)), more);
      AppendTable(s.refused, PutTable(s.limited, rest), more);
      AppendTable(s.limited, rest, more);
    }
  }

  lemma AppendRows(rows: seq<Row>, rest: Bytes, more: Bytes)
    ensures PutMany(PutRow, rows, rest) + more == PutMany(PutRow, rows, rest + more)
  {
    forall r, a, b ensures PutRow(r, a) + b == PutRow(r, a + b) {
      AppendRow(r, a, b);
    }
    AppendMany(PutRow, rows, rest, more);
  }

  lemma AppendIndex(x: Index, rest: Bytes, more: Bytes)
    ensures PutIndex(x, rest) + more == PutIndex(x, rest + more)
  {
    var b3 := PutSkips(x.skips, rest);
    var b2 := PutMany(PutRow, x.rows, b3);
    AppendHeader(HeaderOf(x), PutTable(x.files, b2), more);
    AppendTable(x.files, b2, more);
    AppendRows(x.rows, b3, more);
    AppendSkips(x.skips, rest, more);
  }

  lemma AppendHeader(h: Header, rest: Bytes, more: Bytes)
    ensures PutHeader(h, rest) + more == PutHeader(h, rest + more)
  {
    var b1 := PutString(h.fingerprint, rest);
    Associate([h.version], PutU32(h.dimension, PutU32(h.count, b1)), more);
    AppendU32(h.dimension, PutU32(h.count, b1), more);
    AppendU32(h.count, b1, more);
    AppendString(h.fingerprint, rest, more);
  }

  lemma ExtendedEncoding(y: Index, more: Bytes)
    requires WfIndex(y)
    ensures GetIndex(Encode(y) + more) == Ok((y, more))
  {
    AppendIndex(y, [], more);
    assert [] + more == more;
    GetPutIndex(y, more);
  }

  /** A file cut short anywhere is rejected. */
  lemma ProperPrefixRejected(x: Index, cut: nat)
    requires WfIndex(x) && cut < |Encode(x)|
    ensures Parse(Encode(x)[..cut]).Err?
  {
    var part, more := Encode(x)[..cut], Encode(x)[cut..];
    assert part + more == Encode(x);
    if Parse(part).Ok? {
      ParseIffEncoding(part, Parse(part).value);
      OnlyWholeEncoding(x, Parse(part).value, more);
    }
  }

  lemma OnlyWholeEncoding(x: Index, y: Index, more: Bytes)
    requires WfIndex(x) && WfIndex(y) && Encode(y) + more == Encode(x)
    ensures more == []
  {
    ExtendedEncoding(y, more);
    GetPutIndex(x, []);
  }
}
