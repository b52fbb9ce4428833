/** The two readers of `semantic.bin`. Both advance an offset through the file and
    never build an index; each is shown to accept exactly the well-formed files (with
    texts it can decode) and to see what the parser sees. */
module SemanticReaders {
  import opened Basics
  import opened SemanticBin

  /** Character count of valid UTF-8, or None where decoding raises. */
  type Utf8 = Bytes -> Option<nat>

  // ----- reading at an offset -----

  function TakeAt(data: Bytes, offset: nat, size: nat): (r: Result<(Bytes, nat)>)
    requires offset <= |data|
    ensures Mirrors(data, r, Take(data[offset..], size))
  {
    var end := offset + size;
    if end > |data| then Err(Truncated)
    else
      assert data[offset..][..size] == data[offset..end];
      Ok((data[offset..end], end))
  }

  function U32At(data: Bytes, offset: nat): (r: Result<(nat, nat)>)
    requires offset <= |data|
    ensures Mirrors(data, r, GetU32(data[offset..]))
  {
    var (raw, end) :- TakeAt(data, offset, 4);
    Ok((Value32(raw), end))
  }

  function StringAt(data: Bytes, offset: nat): (r: Result<(Bytes, nat)>)
    requires offset <= |data|
    ensures Mirrors(data, r, GetString(data[offset..]))
  {
    var (size, after) :- U32At(data, offset);
    TakeAt(data, after, size)
  }

  function SkipStringAt(data: Bytes, offset: nat): (r: Result<nat>)
    requires offset <= |data|
    ensures Reaches(data, r, GetString(data[offset..]))
  {
    var (size, after) :- U32At(data, offset);
    var (_, end) :- TakeAt(data, after, size);
    Ok(end)
  }

  /** A read at an offset gives what the parser gives on the remaining bytes. */
  ghost predicate Mirrors<T>(data: Bytes, r: Result<(T, nat)>, g: Result<(T, Bytes)>) {
    && (r.Ok? <==> g.Ok?)
    && (r.Ok? ==> r.value.0 == g.value.0 && r.value.1 <= |data| && data[r.value.1..] == g.value.1)
  }

  /** A skip ends where the parser would. */
  ghost predicate Reaches<T>(data: Bytes, r: Result<nat>, g: Result<(T, Bytes)>) {
    && (r.Ok? <==> g.Ok?)
    && (r.Ok? ==> r.value <= |data| && data[r.value..] == g.value.1)
  }

  function HeaderAt(data: Bytes): (r: Result<(Header, nat)>)
    ensures Mirrors(data, r, GetHeader(data))
  {
    assert data[0..] == data;
    var (v, o1) :- TakeAt(data, 0, 1);
    if v[0] != 7 && v[0] != 8 then Err(UnsupportedVersion)
    else
      var (dimension, o2) :- U32At(data, o1);
      var (count, o3) :- U32At(data, o2);
      var (fingerprint, o4) :- StringAt(data, o3);
      Ok((Header(v[0], dimension, count, fingerprint), o4))
  }

  /** A row as the size report reads it: kind and embed text. */
  function MetricRowAt(data: Bytes, offset: nat, dimension: nat): (r: Result<((byte, Bytes), nat)>)
    requires offset <= |data|
    ensures MetricView(data, r, GetRow(data[offset..], dimension))
  {
    var o1 :- SkipStringAt(data, offset);
    var o2 :- SkipStringAt(data, o1);
    var o3 :- SkipStringAt(data, o2);
    var (kind, o4) :- TakeAt(data, o3, 1);
    var (_, o5) :- TakeAt(data, o4, 4 + 4 + 1);
    var o6 :- SkipStringAt(data, o5);
    var (embed, o7) :- StringAt(data, o6);
    var (_, o8) :- TakeAt(data, o7, dimension * 4);
    Ok(((kind[0], embed), o8))
  }

  /** A row as the dense pass reads it: file, embed text and vector. */
  function DenseRowAt(data: Bytes, offset: nat, dimension: nat): (r: Result<((Bytes, Bytes, Bytes), nat)>)
    requires offset <= |data|
    ensures DenseView(data, r, GetRow(data[offset..], dimension))
  {
    var (file, o1) :- StringAt(data, offset);
    var o2 :- SkipStringAt(data, o1);
    var o3 :- SkipStringAt(data, o2);
    SplitTake(data, o3);
    var (_, o5) :- TakeAt(data, o3, 1 + 4 + 4 + 1);
    var o6 :- SkipStringAt(data, o5);
    var (embed, o7) :- StringAt(data, o6);
    var (vector, o8) :- TakeAt(data, o7, dimension * 4);
    Ok(((file, embed, vector), o8))
  }

  /** Taking ten bytes at once is taking one and then nine. */
  lemma SplitTake(data: Bytes, offset: nat)
    requires offset <= |data|
    ensures var one := Take(data[offset..], 1);
            && (TakeAt(data, offset, 10).Ok? <==> one.Ok? && Take(one.value.1, 9).Ok?)
            && (TakeAt(data, offset, 10).Ok? ==> Take(one.value.1, 9).value.1 == data[offset + 10..])
  {
  }

  // ----- counted loops -----

  /** Reading a counted list item by item: `done` read so far, the rest still to read. */
  ghost predicate Follows<T>(done: seq<T>, whole: Result<(seq<T>, Bytes)>, left: Result<(seq<T>, Bytes)>) {
    && (whole.Ok? <==> left.Ok?)
    && (whole.Ok? ==> whole.value.0 == done + left.value.0 && whole.value.1 == left.value.1)
  }

  lemma FollowsStart<T>(whole: Result<(seq<T>, Bytes)>)
    ensures Follows([], whole, whole)
  {
  }

  lemma FollowsStep<T>(get: Parser<T>, done: seq<T>, whole: Result<(seq<T>, Bytes)>, b: Bytes, n: nat)
    requires n > 0 && Follows(done, whole, GetMany(get, b, n))
    ensures get(b).Err? ==> whole.Err?
    ensures get(b).Ok? ==> Follows(done + [get(b).value.0], whole, GetMany(get, get(b).value.1, n - 1))
  {
    if get(b).Ok? && whole.Ok? {
      var (x, b1) := get(b).value;
      var rest := GetMany(get, b1, n - 1).value.0;
      assert done + ([x] + rest) == (done + [x]) + rest;
    }
  }

  /** Walk `n` records without keeping them. */
  method SkipRecords(data: Bytes, start: nat, n: nat, size: nat) returns (r: Result<nat>)
    requires start <= |data|
    ensures Reaches(data, r, GetMany(RecordParser(size), data[start..], n))
  {
    var offset: nat := start;
    ghost var get := RecordParser(size);
    ghost var whole := GetMany(get, data[start..], n);
    ghost var done: seq<Record> := [];
    FollowsStart(whole);
    for i := 0 to n
      invariant offset <= |data| && Follows(done, whole, GetMany(get, data[offset..], n - i))
    {
      FollowsStep(get, done, whole, data[offset..], n - i);
      var afterPath := SkipStringAt(data, offset);
      if afterPath.Err? {
        return Err(Truncated);
      }
      var meta := TakeAt(data, afterPath.value, size);
      if meta.Err? {
        return Err(Truncated);
      }
      done := done + [get(data[offset..]).value.0];
      offset := meta.value.1;
    }
    return Ok(offset);
  }

  method SkipTable(data: Bytes, offset: nat, size: nat) returns (r: Result<nat>)
    requires offset <= |data|
    ensures Reaches(data, r, GetTable(data[offset..], size))
  {
    var counted :- U32At(data, offset);
    var (n, start) := counted;
    r := SkipRecords(data, start, n, size);
  }

  method SkipTail(data: Bytes, offset: nat, version: byte) returns (r: Result<nat>)
    requires offset <= |data|
    ensures Reaches(data, r, GetSkips(data[offset..], version))
  {
    var at: nat := offset;
    if version >= 8 {
      var skipped :- TakeAt(data, offset, 8);
      var o1 := skipped.1;
      var o2 :- SkipTable(data, o1, SKIP_META);
      at :- SkipTable(data, o2, SKIP_META);
    }
    return Ok(at);
  }

  // ----- the size report -----

  datatype Metrics = Metrics(bytes: nat, rows: nat, summaries: nat, symbols: int, totalChars: nat, maxChars: nat)

  ghost predicate Readable(rows: seq<Row>, utf8: Utf8) {
    forall i :: 0 <= i < |rows| ==> utf8(rows[i].embed).Some?
  }

  function Chars(row: Row, utf8: Utf8): nat {
    match utf8(row.embed)
    case None => 0
    case Some(n) => n
  }

  function TotalChars(rows: seq<Row>, utf8: Utf8): nat {
    if rows == [] then 0 else TotalChars(rows[..|rows| - 1], utf8) + Chars(rows[|rows| - 1], utf8)
  }

  function MaxChars(rows: seq<Row>, utf8: Utf8): nat {
    if rows == [] then 0
    else
      var m, c := MaxChars(rows[..|rows| - 1], utf8), Chars(rows[|rows| - 1], utf8);
      if c > m then c else m
  }

  /** File-summary rows carry kind 9. */
  function Summaries(rows: seq<Row>): nat {
    if rows == [] then 0 else Summaries(rows[..|rows| - 1]) + (if rows[|rows| - 1].kind == 9 then 1 else 0)
  }

  lemma {:induction false} MaxCharsIsMaximum(rows: seq<Row>, utf8: Utf8)
    ensures forall i :: 0 <= i < |rows| ==> Chars(rows[i], utf8) <= MaxChars(rows, utf8)
    ensures MaxChars(rows, utf8) == 0 || exists i :: 0 <= i < |rows| && Chars(rows[i], utf8) == MaxChars(rows, utf8)
  {
    if rows != [] {
      MaxCharsIsMaximum(rows[..|rows| - 1], utf8);
    }
  }

  datatype Tally = Tally(summaries: nat, totalChars: nat, maxChars: nat)

  function Count(t: Tally, kind: byte, chars: nat): Tally {
    Tally(t.summaries + (if kind == 9 then 1 else 0), t.totalChars + chars,
          if chars > t.maxChars then chars else t.maxChars)
  }

  function TallyOf(rows: seq<Row>, utf8: Utf8): (t: Tally)
    ensures t == Tally(Summaries(rows), TotalChars(rows, utf8), MaxChars(rows, utf8))
  {
    if rows == [] then Tally(0, 0, 0)
    else Count(TallyOf(rows[..|rows| - 1], utf8), rows[|rows| - 1].kind, Chars(rows[|rows| - 1], utf8))
  }

  lemma TallySnoc(rows: seq<Row>, row: Row, utf8: Utf8)
    ensures TallyOf(rows + [row], utf8) == Count(TallyOf(rows, utf8), row.kind, Chars(row, utf8))
  {
    assert (rows + [row])[..|rows|] == rows;
  }

  /** The report's view of a row agrees with a row parser. */
  ghost predicate MetricView(data: Bytes, item: Result<((byte, Bytes), nat)>, g: Result<(Row, Bytes)>) {
    && (item.Ok? <==> g.Ok?)
    && (item.Ok? ==> item.value.0 == (g.value.0.kind, g.value.0.embed)
                     && item.value.1 <= |data| && data[item.value.1..] == g.value.1)
  }

  ghost predicate MetricViews(data: Bytes, dimension: nat, get: Parser<Row>) {
    forall o: nat {:trigger MetricRowAt(data, o, dimension)} ::
      o <= |data| ==> MetricView(data, MetricRowAt(data, o, dimension), get(data[o..]))
  }

  method ReadMetricRow(data: Bytes, offset: nat, dimension: nat, ghost get: Parser<Row>)
    returns (item: Result<((byte, Bytes), nat)>)
    requires offset <= |data| && MetricViews(data, dimension, get)
    ensures MetricView(data, item, get(data[offset..]))
  {
    item := MetricRowAt(data, offset, dimension);
  }

  /** The row loop of the size report. */
  method TallyRows(data: Bytes, start: nat, count: nat, dimension: nat, utf8: Utf8, ghost get: Parser<Row>)
    returns (r: Result<(Tally, nat)>)
    requires start <= |data| && MetricViews(data, dimension, get)
    ensures var g := GetMany(get, data[start..], count);
            && (r.Ok? <==> g.Ok? && Readable(g.value.0, utf8))
            && (r.Ok? ==> r.value.0 == TallyOf(g.value.0, utf8) && r.value.1 <= |data| && data[r.value.1..] == g.value.1)
  {
    var offset: nat, tally, left := start, Tally(0, 0, 0), count;
    ghost var whole := GetMany(get, data[start..], count);
    ghost var done: seq<Row> := [];
    FollowsStart(whole);
    while left > 0
      invariant offset <= |data| && Follows(done, whole, GetMany(get, data[offset..], left))
      invariant Readable(done, utf8) && tally == TallyOf(done, utf8)
    {
      FollowsStep(get, done, whole, data[offset..], left);
      var item := ReadMetricRow(data, offset, dimension, get);
      if item.Err? {
        return Err(item.error);
      }
      ghost var row := get(data[offset..]).value.0;
      var ((kind, embed), after) := item.value;
      var chars := utf8(embed);
      if chars.None? {
        UnreadableEmbed(done, row, whole, utf8);
        return Err(BadText);
      }
      TallySnoc(done, row, utf8);
      tally := Count(tally, kind, chars.value);
      assert get(data[offset..]) == Ok((row, data[after..]));
      done, offset, left := done + [row], after, left - 1;
    }
    assert whole.Ok? ==> whole.value.0 == done;
    return Ok((tally, offset));
  }

  lemma UnreadableEmbed(done: seq<Row>, row: Row, whole: Result<(seq<Row>, Bytes)>, utf8: Utf8)
    requires whole.Ok? ==> done + [row] <= whole.value.0
    requires utf8(row.embed).None?
    ensures whole.Ok? ==> !Readable(whole.value.0, utf8)
  {
    if whole.Ok? {
      assert whole.value.0[|done|] == row;
    }
  }

  lemma RowsOneByOne(b: Bytes, n: nat, dimension: nat)
    ensures GetRows(b, n, dimension) == GetMany(RowParser(dimension), b, n)
  {
  }

  lemma ParseAfterFront(data: Bytes)
    ensures Parse(data).Ok? <==> GetFront(data).Ok? && var (f, rest) := GetFront(data).value;
              GetSkips(rest, f.header.version).Ok? && GetSkips(rest, f.header.version).value.1 == []
    ensures Parse(data).Ok? ==> var (f, _) := GetFront(data).value;
              Parse(data).value.fingerprint == f.header.fingerprint && Parse(data).value.rows == f.rows
  {
  }

  method MetricFront(data: Bytes, json: Bytes -> bool, utf8: Utf8) returns (r: Result<(Header, Tally, nat)>)
    ensures r.Ok? <==> GetFront(data).Ok? && var (f, _) := GetFront(data).value;
              (f.header.fingerprint == [] || json(f.header.fingerprint)) && Readable(f.rows, utf8)
    ensures r.Ok? ==> var (f, rest) := GetFront(data).value;
              r.value.0 == f.header && r.value.1 == TallyOf(f.rows, utf8)
              && r.value.2 <= |data| && data[r.value.2..] == rest
  {
    var header := HeaderAt(data);
    if header.Err? {
      return Err(header.error);
    }
    var (h, o1) := header.value;
    if h.fingerprint != [] && !json(h.fingerprint) {
      return Err(BadFingerprint);
    }
    var files := SkipTable(data, o1, FILE_META);
    if files.Err? {
      return Err(files.error);
    }
    RowsOneByOne(data[files.value..], h.count, h.dimension);
    var rows := TallyRows(data, files.value, h.count, h.dimension, utf8, RowParser(h.dimension));
    if rows.Err? {
      return Err(rows.error);
    }
    return Ok((h, rows.value.0, rows.value.1));
  }

  /** `semantic_bin_metrics`: accepted exactly when the file is an index whose fingerprint
      is empty or JSON and whose embed texts decode, and then every figure is the true one. */
  method SemanticBinMetrics(data: Bytes, json: Bytes -> bool, utf8: Utf8) returns (r: Result<Metrics>)
    ensures r.Ok? <==> Parse(data).Ok? && Reportable(Parse(data).value, json, utf8)
    ensures r.Ok? ==> r.value == MetricsOf(Parse(data).value, |data|, utf8)
  {
    ParseAfterFront(data);
    var front := MetricFront(data, json, utf8);
    if front.Err? {
      return Err(front.error);
    }
    var (h, tally, o3) := front.value;
    var end := SkipTail(data, o3, h.version);
    if end.Err? {
      return Err(end.error);
    }
    assert data[end.value..] == [] <==> end.value == |data|;
    if end.value != |data| {
      return Err(TrailingBytes);
    }
    return Ok(Metrics(|data|, h.count, tally.summaries, h.count - tally.summaries, tally.totalChars, tally.maxChars));
  }

  ghost predicate Reportable(x: Index, json: Bytes -> bool, utf8: Utf8) {
    (x.fingerprint == [] || json(x.fingerprint)) && Readable(x.rows, utf8)
  }

  function MetricsOf(x: Index, bytes: nat, utf8: Utf8): Metrics {
    Metrics(bytes, |x.rows|, Summaries(x.rows), |x.rows| - Summaries(x.rows),
            TotalChars(x.rows, utf8), MaxChars(x.rows, utf8))
  }

  // ----- the dense pass -----

  /** What the dense pass keeps of a row. */
  datatype Visit = Visit(file: Bytes, embed: Bytes, vector: Bytes)

  function VisitOf(row: Row): Visit { Visit(row.file, row.embed, row.vector) }

  function Visits(rows: seq<Row>): (v: seq<Visit>)
    ensures |v| == |rows| && forall i :: 0 <= i < |rows| ==> v[i] == VisitOf(rows[i])
  {
    seq(|rows|, i requires 0 <= i < |rows| => VisitOf(rows[i]))
  }

  ghost predicate DenseReadable(rows: seq<Row>, utf8: Utf8) {
    forall i :: 0 <= i < |rows| ==> utf8(rows[i].file).Some? && utf8(rows[i].embed).Some?
  }

  lemma VisitsSnoc(rows: seq<Row>, row: Row)
    ensures Visits(rows + [row]) == Visits(rows) + [VisitOf(row)]
  {
  }

  lemma UndecodableRow(done: seq<Row>, row: Row, whole: Result<(seq<Row>, Bytes)>, utf8: Utf8)
    requires whole.Ok? ==> done + [row] <= whole.value.0
    requires utf8(row.file).None? || utf8(row.embed).None?
    ensures whole.Ok? ==> !DenseReadable(whole.value.0, utf8)
  {
    if whole.Ok? {
      assert whole.value.0[|done|] == row;
    }
  }

  /** The dense pass's view of a row agrees with a row parser. */
  ghost predicate DenseView(data: Bytes, item: Result<((Bytes, Bytes, Bytes), nat)>, g: Result<(Row, Bytes)>) {
    && (item.Ok? <==> g.Ok?)
    && (item.Ok? ==> item.value.0 == (g.value.0.file, g.value.0.embed, g.value.0.vector)
                     && item.value.1 <= |data| && data[item.value.1..] == g.value.1)
  }

  ghost predicate DenseViews(data: Bytes, dimension: nat, get: Parser<Row>) {
    forall o: nat {:trigger DenseRowAt(data, o, dimension)} ::
      o <= |data| ==> DenseView(data, DenseRowAt(data, o, dimension), get(data[o..]))
  }

  method ReadDenseRow(data: Bytes, offset: nat, dimension: nat, ghost get: Parser<Row>)
    returns (item: Result<((Bytes, Bytes, Bytes), nat)>)
    requires offset <= |data| && DenseViews(data, dimension, get)
    ensures DenseView(data, item, get(data[offset..]))
  {
    item := DenseRowAt(data, offset, dimension);
  }

  method VisitRows(data: Bytes, start: nat, count: nat, dimension: nat, utf8: Utf8, ghost get: Parser<Row>)
    returns (r: Result<(seq<Visit>, nat)>)
    requires start <= |data| && DenseViews(data, dimension, get)
    ensures var g := GetMany(get, data[start..], count);
            && (r.Ok? <==> g.Ok? && DenseReadable(g.value.0, utf8))
            && (r.Ok? ==> r.value.0 == Visits(g.value.0) && r.value.1 <= |data| && data[r.value.1..] == g.value.1)
  {
    var offset: nat, visits, left := start, [], count;
    ghost var whole := GetMany(get, data[start..], count);
    ghost var done: seq<Row> := [];
    FollowsStart(whole);
    while left > 0
      invariant offset <= |data| && Follows(done, whole, GetMany(get, data[offset..], left))
      invariant DenseReadable(done, utf8) && visits == Visits(done)
    {
      FollowsStep(get, done, whole, data[offset..], left);
      var item := ReadDenseRow(data, offset, dimension, get);
      if item.Err? {
        return Err(item.error);
      }
      ghost var row := get(data[offset..]).value.0;
      var ((file, embed, vector), after) := item.value;
      if utf8(file).None? || utf8(embed).None? {
        UndecodableRow(done, row, whole, utf8);
        return Err(BadText);
      }
      VisitsSnoc(done, row);
      visits := visits + [Visit(file, embed, vector)];
      assert get(data[offset..]) == Ok((row, data[after..]));
      done, offset, left := done + [row], after, left - 1;
    }
    assert whole.Ok? ==> whole.value.0 == done;
    return Ok((visits, offset));
  }

  method DenseFront(data: Bytes, utf8: Utf8) returns (r: Result<(Header, seq<Visit>, nat)>)
    ensures r.Ok? <==> GetFront(data).Ok? && DenseReadable(GetFront(data).value.0.rows, utf8)
    ensures r.Ok? ==> var (f, rest) := GetFront(data).value;
              r.value.0 == f.header && r.value.1 == Visits(f.rows) && r.value.2 <= |data| && data[r.value.2..] == rest
  {
    var header := HeaderAt(data);
    if header.Err? {
      return Err(header.error);
    }
    var (h, o1) := header.value;
    var files := SkipTable(data, o1, FILE_META);
    if files.Err? {
      return Err(files.error);
    }
    RowsOneByOne(data[files.value..], h.count, h.dimension);
    var rows := VisitRows(data, files.value, h.count, h.dimension, utf8, RowParser(h.dimension));
    if rows.Err? {
      return Err(rows.error);
    }
    return Ok((h, rows.value.0, rows.value.1));
  }

  /** The reader inside `resolve_no_vocabulary_band`: it does not look into the fingerprint
      but decodes file names too, and otherwise visits the very rows the size report counts. */
  method DenseRows(data: Bytes, utf8: Utf8) returns (r: Result<seq<Visit>>)
    ensures r.Ok? <==> Parse(data).Ok? && DenseReadable(Parse(data).value.rows, utf8)
    ensures r.Ok? ==> r.value == Visits(Parse(data).value.rows)
  {
    ParseAfterFront(data);
    var front := DenseFront(data, utf8);
    if front.Err? {
      return Err(front.error);
    }
    var (h, visits, o3) := front.value;
    var end := SkipTail(data, o3, h.version);
    if end.Err? {
      return Err(end.error);
    }
    assert data[end.value..] == [] <==> end.value == |data|;
    if end.value != |data| {
      return Err(TrailingBytes);
    }
    return Ok(visits);
  }
}
