/** The dense pass from end to end: the bytes of a `semantic.bin` in, the heaps out. */
module DensePass {
  import opened Basics
  import opened SemanticBin
  import opened SemanticReaders
  import DenseTopK

  /** UTF-8 decoding, None where it raises, and the character count the readers use. */
  type Decoder = Bytes -> Option<string>

  function Lengths(text: Decoder): Utf8 {
    (b: Bytes) => match text(b) case None => None case Some(s) => Some(|s|)
  }

  ghost predicate AllDecode(rows: seq<Row>, text: Decoder) {
    forall i :: 0 <= i < |rows| ==> text(rows[i].file).Some? && text(rows[i].embed).Some?
  }

  /** The row the top-k sees: file and embed text decoded, vector unpacked. */
  function Unpack<V>(visit: Visit, text: Decoder, vector: Bytes -> V): DenseTopK.Row<V>
    requires text(visit.file).Some? && text(visit.embed).Some?
  {
    DenseTopK.Row(text(visit.file).value, text(visit.embed).value, vector(visit.vector))
  }

  /** The rows of an index, as the top-k sees them. */
  function Unpacked<V>(rows: seq<Row>, text: Decoder, vector: Bytes -> V): (r: seq<DenseTopK.Row<V>>)
    requires AllDecode(rows, text)
    ensures |r| == |rows|
    ensures forall i :: 0 <= i < |rows| ==>
              && text(rows[i].file) == Some(r[i].file) && text(rows[i].embed) == Some(r[i].text)
              && r[i].vector == vector(rows[i].vector)
  {
    seq(|rows|, i requires 0 <= i < |rows| => Unpack(VisitOf(rows[i]), text, vector))
  }

  method UnpackAll<V>(visits: seq<Visit>, text: Decoder, vector: Bytes -> V, ghost rows: seq<Row>)
    returns (r: seq<DenseTopK.Row<V>>)
    requires AllDecode(rows, text) && visits == Visits(rows)
    ensures r == Unpacked(rows, text, vector)
  {
    r := [];
    for i := 0 to |visits|
      invariant r == Unpacked(rows, text, vector)[..i]
    {
      r := r + [Unpack(visits[i], text, vector)];
    }
  }

  method ReadRows<V>(data: Bytes, text: Decoder, vector: Bytes -> V) returns (r: Result<seq<DenseTopK.Row<V>>>)
    ensures r.Ok? <==> Parse(data).Ok? && AllDecode(Parse(data).value.rows, text)
    ensures r.Ok? ==> r.value == Unpacked(Parse(data).value.rows, text, vector)
  {
    var read := DenseRows(data, Lengths(text));
    r := UnpackRead(read, text, vector, Parse(data));
  }

  /** Unpacking what was read of a file that parses to `index`. */
  method UnpackRead<V>(read: Result<seq<Visit>>, text: Decoder, vector: Bytes -> V, ghost index: Result<Index>)
    returns (r: Result<seq<DenseTopK.Row<V>>>)
    requires read.Ok? <==> index.Ok? && DenseReadable(index.value.rows, Lengths(text))
    requires read.Ok? ==> read.value == Visits(index.value.rows)
    ensures r.Ok? <==> index.Ok? && AllDecode(index.value.rows, text)
    ensures r.Ok? ==> r.value == Unpacked(index.value.rows, text, vector)
  {
    if read.Err? {
      return Err(read.error);
    }
    var rows := UnpackAll(read.value, text, vector, index.value.rows);
    return Ok(rows);
  }

  /** `resolve_no_vocabulary_band` up to the heaps. A file is accepted exactly when it is an
      index with decodable names and texts. Then every heap is the top `k` over that index's
      non-test rows: rows of the index outside test paths, each used once, greatest score
      first, and no row left out scores more. */
  method DenseHeaps<Q, V>(data: Bytes, text: Decoder, vector: Bytes -> V, score: (Q, V) -> real, queries: seq<Q>,
                          isTest: string -> bool, chunkSize: nat, argpartition: (seq<real>, nat) -> seq<nat>, k: nat)
    returns (r: Result<(seq<seq<DenseTopK.Item>>, nat)>)
    requires k >= 1
    requires forall column, count: nat ::
               count <= |column| ==> DenseTopK.Partitions(column, count, argpartition(column, count))
    ensures r.Ok? <==> Parse(data).Ok? && AllDecode(Parse(data).value.rows, text)
    ensures r.Ok? ==> HeapsOf(r.value, Parse(data).value, text, vector, score, queries, isTest, k)
  {
    var rows := ReadRows(data, text, vector);
    if rows.Err? {
      return Err(rows.error);
    }
    var heaps, serial := DenseTopK.ResolveHeaps(score, queries, rows.value, isTest, chunkSize, argpartition, k);
    return Ok((heaps, serial));
  }

  ghost predicate HeapsOf<Q, V>(out: (seq<seq<DenseTopK.Item>>, nat), x: Index, text: Decoder, vector: Bytes -> V,
                                score: (Q, V) -> real, queries: seq<Q>, isTest: string -> bool, k: nat)
    requires AllDecode(x.rows, text)
  {
    var rows := Unpacked(x.rows, text, vector);
    && DenseTopK.AllTop(out.0, score, queries, DenseTopK.NonTest(rows, isTest), out.1, k)
    && DenseTopK.AllLead(out.0, score, queries, rows, isTest, k)
  }

  /** Written and read back: on the encoding of a well-formed index with decodable texts the
      pass always ends, with heaps over that very index. */
  method HeapsOfEncoding<Q, V>(x: Index, text: Decoder, vector: Bytes -> V, score: (Q, V) -> real, queries: seq<Q>,
                               isTest: string -> bool, chunkSize: nat,
                               argpartition: (seq<real>, nat) -> seq<nat>, k: nat)
    returns (heaps: seq<seq<DenseTopK.Item>>, serial: nat)
    requires k >= 1 && WfIndex(x) && AllDecode(x.rows, text)
    requires forall column, count: nat ::
               count <= |column| ==> DenseTopK.Partitions(column, count, argpartition(column, count))
    ensures HeapsOf((heaps, serial), x, text, vector, score, queries, isTest, k)
  {
    ParseIffEncoding(Encode(x), x);
    var r := DenseHeaps(Encode(x), text, vector, score, queries, isTest, chunkSize, argpartition, k);
    return r.value.0, r.value.1;
  }
}
