/**
 * The row buffer of an extraction (src/extraction/items.rs): rows are
 * buffered, hashed when the buffer is flushed (de-duplicated within the
 * batch when `unique` is set) and handed to the output writer as one batch;
 * a flush is triggered whenever the buffer reaches its capacity.
 */
module Items {
  import opened Base
  import opened Records
  import opened Options
  import opened Output
  import Utf8

  /** `ExtractError`: building a batch, writing it, or reading input. */
  datatype ExtractError = Batch | Write(error: WriteError) | IO

  /** The buffer's mutable part: the buffered rows and its counts. */
  datatype ItemsState = ItemsState(pending: seq<Row>, counts: Counts)

  /** The buffer together with the writer it shares. */
  datatype Sink = Sink(items: ItemsState, writer: WriterState)

  datatype Outcome = Outcome(sink: Sink, result: Result<(), ExtractError>)

  /**
   * What a buffer is built with: its capacity, the extraction options, the
   * digest function (SHA-256), and the schema and policy of its writer.
   */
  datatype Config = Config(capacity: nat, options: ExtractionOptions, sha: seq<byte> -> Digest, schema: Schema, writerUnique: bool, encoder: Encoder)

  function Contents(rows: seq<Row>): (cs: seq<seq<byte>>)
    ensures |cs| == |rows|
  {
    seq(|rows|, i requires 0 <= i < |rows| => rows[i].content)
  }

  /** The digest of every content. */
  function Shas(sha: seq<byte> -> Digest, data: seq<seq<byte>>): (hs: seq<Digest>)
    ensures |hs| == |data|
  {
    seq(|data|, i requires 0 <= i < |data| => sha(data[i]))
  }

  /**
   * `hash_iterator`: every content gets its digest; when de-duplicating, a
   * digest already met earlier in the same batch gets a null instead.
   */
  function HashSpec(sha: seq<byte> -> Digest, data: seq<seq<byte>>, dedup: bool): (hs: seq<Option<Digest>>)
    ensures |hs| == |data|
  {
    var ds := Shas(sha, data);
    var m := if dedup then Firsts({}, ds) else seq(|ds|, _ => true);
    seq(|ds|, i requires 0 <= i < |ds| => if m[i] then Some(ds[i]) else None)
  }

  /** The batch columns: each row beside its hash. */
  function WithHashes(rows: seq<Row>, hs: seq<Option<Digest>>): (b: seq<BatchRow>)
    requires |hs| == |rows|
    ensures |b| == |rows|
  {
    seq(|rows|, i requires 0 <= i < |rows| => BatchRow(rows[i].source, rows[i].path, rows[i].size, hs[i], rows[i].content))
  }

  /** Every row with the digest of its content. */
  function Hashed(sha: seq<byte> -> Digest, rows: seq<Row>): (b: seq<BatchRow>)
    ensures |b| == |rows| && AllHashed(b)
  {
    WithHashes(rows, seq(|rows|, i requires 0 <= i < |rows| => Some(sha(rows[i].content))))
  }

  /** `is_not_null` over the hash column. */
  function NonNull(b: seq<BatchRow>): (m: seq<bool>)
    ensures |m| == |b|
  {
    seq(|b|, i requires 0 <= i < |b| => b[i].hash.Some?)
  }

  /**
   * `RecordBatch::try_new` accepts the columns exactly when the schema has
   * five fields typed source, path: text; size: u64; hash: 32 bytes; and
   * content: text or bytes as `only_text` says.
   */
  predicate Accepts(schema: Schema, onlyText: bool)
  {
    && |schema| == 5
    && schema[0].dataType == Utf8View && schema[1].dataType == Utf8View
    && schema[2].dataType == UInt64 && schema[3].dataType == FixedSizeBinary(HashWidth)
    && schema[4].dataType == ContentType(onlyText)
  }

  /** A writer's schema accepts a buffer's batches exactly when both agree on `only_text`. */
  lemma AcceptsOwnSchema(writerText: bool, itemsText: bool)
    ensures Accepts(MakeSchema(writerText), itemsText) <==> writerText == itemsText
  {
  }

  datatype Batching = Batching(counts: Counts, result: Result<seq<BatchRow>, ExtractError>)

  /**
   * `create_record_batch_and_reset`: the buffered rows with their hashes;
   * with `unique` the rows given a null hash are filtered out and counted
   * as de-duplicated. A schema that refuses the columns fails the batch.
   */
  function BatchSpec(cfg: Config, st: ItemsState): Batching
  {
    var rows := WithHashes(st.pending, HashSpec(cfg.sha, Contents(st.pending), cfg.options.unique));
    if !Accepts(cfg.schema, cfg.options.onlyText) then Batching(st.counts, Err(Batch))
    else if !cfg.options.unique then Batching(st.counts, Ok(rows))
    else
      var kept := Select(rows, NonNull(rows));
      Batching(st.counts.(deduplicated := st.counts.deduplicated + (|rows| - |kept|)), Ok(kept))
  }

  /**
   * `flush`: nothing to do for an empty buffer; otherwise the buffer is
   * turned into a batch and emptied (even when that fails), and the batch
   * is handed to the writer.
   */
  function FlushSpec(cfg: Config, s: Sink): Outcome
  {
    if |s.items.pending| == 0 then Outcome(s, Ok(()))
    else
      var b := BatchSpec(cfg, s.items);
      var emptied := ItemsState([], b.counts);
      match b.result
      case Err(e) => Outcome(Sink(emptied, s.writer), Err(e))
      case Ok(batch) =>
        var w := WriteSpec(cfg.writerUnique, cfg.encoder, s.writer, batch);
        Outcome(Sink(emptied, w.state), if w.result.Err? then Err(ExtractError.Write(w.result.error)) else Ok(()))
  }

  /** `add_record` / `add_text_record`: buffer the row; flush once the buffer reaches capacity. */
  function AddSpec(cfg: Config, s: Sink, row: Row): Outcome
  {
    var s1 := s.(items := s.items.(pending := s.items.pending + [row]));
    if |s1.items.pending| >= cfg.capacity then FlushSpec(cfg, s1) else Outcome(s1, Ok(()))
  }

  /** Adding rows one after another, stopping at the first failure. */
  function AddAll(cfg: Config, s: Sink, rows: seq<Row>): Outcome
    decreases |rows|
  {
    if rows == [] then Outcome(s, Ok(()))
    else
      var o := AddAll(cfg, s, rows[..|rows| - 1]);
      if o.result.Err? then o else AddSpec(cfg, o.sink, rows[|rows| - 1])
  }

  // ---------------------------------------------------------------------
  // Properties of the buffer.

  /**
   * The buffer never holds `capacity` rows once an add returns: it either
   * stays below capacity or (after a flush, successful or not) is empty.
   */
  lemma AddStaysBelowCapacity(cfg: Config, s: Sink, row: Row)
    requires |s.items.pending| < cfg.capacity || s.items.pending == []
    ensures var p := AddSpec(cfg, s, row).sink.items.pending;
      (|p| < cfg.capacity || p == []) && (cfg.capacity >= 1 ==> |p| < cfg.capacity)
    ensures |s.items.pending| + 1 < cfg.capacity ==>
      AddSpec(cfg, s, row) == Outcome(s.(items := s.items.(pending := s.items.pending + [row])), Ok(()))
  {
  }

  /** Flushing an empty buffer writes nothing and succeeds. */
  lemma FlushEmptyWritesNothing(cfg: Config, s: Sink)
    requires s.items.pending == []
    ensures FlushSpec(cfg, s) == Outcome(s, Ok(()))
  {
  }

  /**
   * A flush of a non-empty buffer empties it and hands the writer exactly
   * one batch, the buffered rows with their hashes, or nothing when the
   * batch cannot be built.
   */
  lemma FlushHandsOneBatch(cfg: Config, s: Sink)
    requires s.items.pending != []
    ensures var o := FlushSpec(cfg, s);
      var b := BatchSpec(cfg, s.items);
      && o.sink.items.pending == []
      && (b.result.Ok? ==> o.sink.writer == WriteSpec(cfg.writerUnique, cfg.encoder, s.writer, b.result.value).state)
      && (b.result.Err? ==> o.sink.writer == s.writer && o.result == Err(b.result.error))
  {
  }

  /** Without `unique`, a batch is every buffered row in order, each with the digest of its content. */
  lemma BatchKeepsAllRows(cfg: Config, st: ItemsState)
    requires !cfg.options.unique && Accepts(cfg.schema, cfg.options.onlyText)
    ensures BatchSpec(cfg, st) == Batching(st.counts, Ok(Hashed(cfg.sha, st.pending)))
  {
    var hs := HashSpec(cfg.sha, Contents(st.pending), false);
    assert forall i :: 0 <= i < |hs| ==> hs[i] == Some(cfg.sha(st.pending[i].content));
    assert WithHashes(st.pending, hs) == Hashed(cfg.sha, st.pending);
  }

  /** Filtering by two masks that agree keeps the same elements when they agree where kept. */
  lemma {:induction false} SelectAgree<T>(xs: seq<T>, ys: seq<T>, m1: seq<bool>, m2: seq<bool>)
    requires |xs| == |ys| == |m1| == |m2|
    requires forall i :: 0 <= i < |xs| ==> m1[i] == m2[i] && (m1[i] ==> xs[i] == ys[i])
    ensures Select(xs, m1) == Select(ys, m2)
    decreases |xs|
  {
    if xs != [] {
      var n := |xs| - 1;
      SelectAgree(xs[..n], ys[..n], m1[..n], m2[..n]);
    }
  }

  lemma HashedDigests(sha: seq<byte> -> Digest, rows: seq<Row>)
    ensures DigestsOf(Hashed(sha, rows)) == Shas(sha, Contents(rows))
  {
  }

  /**
   * With `unique`, a batch keeps the first row of each digest within the
   * batch, in order, so its digests are distinct; the rows dropped are
   * added to `deduplicated`. Only this batch's rows are compared.
   */
  lemma BatchKeepsFirstOccurrences(cfg: Config, st: ItemsState)
    requires cfg.options.unique && Accepts(cfg.schema, cfg.options.onlyText)
    ensures var all := Hashed(cfg.sha, st.pending);
      var kept := Select(all, Firsts({}, DigestsOf(all)));
      && BatchSpec(cfg, st).result == Ok(kept)
      && AllHashed(kept) && Distinct(DigestsOf(kept))
      && BatchSpec(cfg, st).counts == st.counts.(deduplicated := st.counts.deduplicated + (|st.pending| - |kept|))
  {
    var all := Hashed(cfg.sha, st.pending);
    var ds := Shas(cfg.sha, Contents(st.pending));
    HashedDigests(cfg.sha, st.pending);
    var rows := WithHashes(st.pending, HashSpec(cfg.sha, Contents(st.pending), true));
    SelectAgree(rows, all, NonNull(rows), Firsts({}, ds));
    var kept := Select(all, Firsts({}, ds));
    SelectDigests(all, Firsts({}, ds));
    FirstsSelection({}, ds);
  }

  /**
   * De-duplication end to end: when buffer and writer both de-duplicate, a
   * flush appends to the file exactly the rows whose digest the writer has
   * not seen and that come first in the batch, and the rows dropped by the
   * two stages together are the rest.
   */
  lemma FlushDeduplicatesAgainstFile(cfg: Config, s: Sink)
    requires cfg.options.unique && cfg.writerUnique && Accepts(cfg.schema, cfg.options.onlyText)
    requires s.writer.open && s.items.pending != []
    ensures var all := Hashed(cfg.sha, s.items.pending);
      var kept := Select(all, Firsts(s.writer.seen, DigestsOf(all)));
      var o := FlushSpec(cfg, s);
      && (o.result.Ok? <==> cfg.encoder.accepts(s.writer.file, kept))
      && (o.result.Ok? ==> o.sink.writer.file == s.writer.file + kept)
      && o.sink.writer.seen == s.writer.seen + Elems(DigestsOf(all))
      && (o.sink.items.counts.deduplicated - s.items.counts.deduplicated)
         + (o.sink.writer.counts.deduplicated - s.writer.counts.deduplicated) == |all| - |kept|
  {
    var all := Hashed(cfg.sha, s.items.pending);
    var inner := Select(all, Firsts({}, DigestsOf(all)));
    UniqueFlushWritesBatch(cfg, s);
    UniqueWriteKeepsFirstOccurrences(cfg.encoder, s.writer, inner);
    DedupTwiceIsOnce(s.writer.seen, all);
    var kept := Select(all, Firsts(s.writer.seen, DigestsOf(all)));
    assert Select(inner, Firsts(s.writer.seen, DigestsOf(inner))) == kept;
  }

  /**
   * With both stages de-duplicating, a flush hands the writer the rows that
   * come first in the batch, with every digest of the batch among them.
   */
  lemma UniqueFlushWritesBatch(cfg: Config, s: Sink)
    requires cfg.options.unique && Accepts(cfg.schema, cfg.options.onlyText) && s.items.pending != []
    ensures var all := Hashed(cfg.sha, s.items.pending);
      var inner := Select(all, Firsts({}, DigestsOf(all)));
      var w := WriteSpec(cfg.writerUnique, cfg.encoder, s.writer, inner);
      var o := FlushSpec(cfg, s);
      && o.sink.writer == w.state && (o.result.Ok? <==> w.result.Ok?)
      && o.sink.items.counts.deduplicated == s.items.counts.deduplicated + (|all| - |inner|)
      && AllHashed(inner) && Elems(DigestsOf(inner)) == Elems(DigestsOf(all))
  {
    var all := Hashed(cfg.sha, s.items.pending);
    BatchKeepsFirstOccurrences(cfg, s.items);
    SelectDigests(all, Firsts({}, DigestsOf(all)));
    FirstsSelection({}, DigestsOf(all));
  }

  /**
   * The rows a buffer and its writer account for: written, dropped as
   * duplicates by either, or still buffered.
   */
  function Held(s: Sink): nat
  {
    s.writer.counts.written + s.writer.counts.deduplicated + s.items.counts.deduplicated + |s.items.pending|
  }

  /**
   * A write that reaches the encoder accounts for every row of its batch,
   * as written or as de-duplicated, whether the encoder accepts it or not.
   */
  lemma WriteAccountsForBatch(unique: bool, enc: Encoder, w: WriterState, b: seq<BatchRow>)
    requires WriteSpec(unique, enc, w, b).result.Ok? || WriteSpec(unique, enc, w, b).result == Err(Encode)
    ensures var c := WriteSpec(unique, enc, w, b).state.counts;
      c.written + c.deduplicated == w.counts.written + w.counts.deduplicated + |b|
  {
  }

  /** A flush that succeeds loses no row: each is written or counted as a duplicate. */
  lemma FlushConserves(cfg: Config, s: Sink)
    requires FlushSpec(cfg, s).result.Ok?
    ensures Held(FlushSpec(cfg, s).sink) == Held(s) && FlushSpec(cfg, s).sink.items.pending == []
  {
    if s.items.pending != [] {
      var b := BatchSpec(cfg, s.items);
      WriteAccountsForBatch(cfg.writerUnique, cfg.encoder, s.writer, b.result.value);
      if cfg.options.unique {
        var rows := WithHashes(s.items.pending, HashSpec(cfg.sha, Contents(s.items.pending), true));
        SelectCount(rows, NonNull(rows));
      }
    }
  }

  /** An add that succeeds accounts for exactly one more row. */
  lemma AddConserves(cfg: Config, s: Sink, row: Row)
    requires AddSpec(cfg, s, row).result.Ok?
    ensures Held(AddSpec(cfg, s, row).sink) == Held(s) + 1
  {
    var s1 := s.(items := s.items.(pending := s.items.pending + [row]));
    if |s1.items.pending| >= cfg.capacity {
      FlushConserves(cfg, s1);
    }
  }

  /** Adding rows that all succeed accounts for every one of them. */
  lemma {:induction false} AddAllConserves(cfg: Config, s: Sink, rows: seq<Row>)
    requires AddAll(cfg, s, rows).result.Ok?
    ensures Held(AddAll(cfg, s, rows).sink) == Held(s) + |rows|
    decreases |rows|
  {
    if rows != [] {
      var n := |rows| - 1;
      AddAllConserves(cfg, s, rows[..n]);
      AddConserves(cfg, AddAll(cfg, s, rows[..n]).sink, rows[n]);
    }
  }

  /** Adding a sequence in two parts is adding the first part, then the second. */
  lemma {:induction false} AddAllAppend(cfg: Config, s: Sink, a: seq<Row>, b: seq<Row>)
    ensures AddAll(cfg, s, a + b) ==
      if AddAll(cfg, s, a).result.Err? then AddAll(cfg, s, a) else AddAll(cfg, AddAll(cfg, s, a).sink, b)
    decreases |b|
  {
    if b == [] {
      assert a + b == a;
    } else {
      var n := |b| - 1;
      assert (a + b)[..|a + b| - 1] == a + b[..n];
      assert (a + b)[|a + b| - 1] == b[n];
      AddAllAppend(cfg, s, a, b[..n]);
    }
  }

  /** A flush changes only the buffer's de-duplicated count, and leaves the writer open or closed as it was. */
  lemma FlushKeepsShape(cfg: Config, s: Sink)
    ensures var o := FlushSpec(cfg, s);
      && o.sink.items.counts == s.items.counts.(deduplicated := o.sink.items.counts.deduplicated)
      && o.sink.items.counts.deduplicated >= s.items.counts.deduplicated
      && o.sink.writer.open == s.writer.open
  {
  }

  /** So does any run of adds. */
  lemma {:induction false} AddAllKeepsShape(cfg: Config, s: Sink, rows: seq<Row>)
    ensures var o := AddAll(cfg, s, rows);
      && o.sink.items.counts == s.items.counts.(deduplicated := o.sink.items.counts.deduplicated)
      && o.sink.items.counts.deduplicated >= s.items.counts.deduplicated
      && o.sink.writer.open == s.writer.open
    decreases |rows|
  {
    if rows != [] {
      var n := |rows| - 1;
      AddAllKeepsShape(cfg, s, rows[..n]);
      var o := AddAll(cfg, s, rows[..n]);
      if o.result.Ok? {
        FlushKeepsShape(cfg, o.sink.(items := o.sink.items.(pending := o.sink.items.pending + [rows[n]])));
      }
    }
  }

  // ---------------------------------------------------------------------
  // The buffer object.

  class Items {
    const output: OutputWriter
    const capacity: nat
    const options: ExtractionOptions
    const sha: seq<byte> -> Digest
    var counts: Counts
    var pending: seq<Row>

    function Cfg(): Config
    {
      Config(capacity, options, sha, output.schema, output.unique, output.encoder)
    }

    function State(): Sink
      reads this, output
    {
      Sink(ItemsState(pending, counts), output.State())
    }

    /** The writer is valid and the buffer counts only de-duplicated rows. */
    ghost predicate Wf()
      reads this, output
    {
      output.Valid() && counts.read == 0 && counts.skipped == 0 && counts.written == 0
    }

    /** Between calls the buffer is below capacity, or empty. */
    ghost predicate Valid()
      reads this, output
    {
      Wf() && (|pending| < capacity || pending == [])
    }

    /** `new_with_capacity`. */
    constructor (output: OutputWriter, capacity: nat, options: ExtractionOptions, sha: seq<byte> -> Digest)
      requires output.Valid()
      ensures Valid()
      ensures this.output == output && this.capacity == capacity && this.options == options && this.sha == sha
      ensures pending == [] && counts == NoCounts
    {
      this.output := output;
      this.capacity := capacity;
      this.options := options;
      this.sha := sha;
      counts := NoCounts;
      pending := [];
    }

    /** `add_record`: only for binary content. */
    method AddRecord(source: string, path: string, size: u64, data: seq<byte>) returns (r: Result<(), ExtractError>)
      requires !options.onlyText && Valid()
      modifies this, output
      ensures Valid()
      ensures State() == AddSpec(Cfg(), old(State()), Row(source, path, size, data)).sink
      ensures r == AddSpec(Cfg(), old(State()), Row(source, path, size, data)).result
    {
      r := Append(Row(source, path, size, data));
    }

    /** `add_text_record`: only for text content, which is well-formed UTF-8. */
    method AddTextRecord(source: string, path: string, size: u64, text: seq<byte>) returns (r: Result<(), ExtractError>)
      requires options.onlyText && Utf8.IsUtf8(text) && Valid()
      modifies this, output
      ensures Valid()
      ensures State() == AddSpec(Cfg(), old(State()), Row(source, path, size, text)).sink
      ensures r == AddSpec(Cfg(), old(State()), Row(source, path, size, text)).result
    {
      r := Append(Row(source, path, size, text));
    }

    /** The part both adds share: append the row, flush at capacity. */
    method Append(row: Row) returns (r: Result<(), ExtractError>)
      requires Valid()
      modifies this, output
      ensures Valid()
      ensures State() == AddSpec(Cfg(), old(State()), row).sink
      ensures r == AddSpec(Cfg(), old(State()), row).result
    {
      pending := pending + [row];
      if |pending| >= capacity {
        r := Flush();
      } else {
        r := Ok(());
      }
    }

    /** `flush`, proved against `FlushSpec`. */
    method Flush() returns (r: Result<(), ExtractError>)
      requires Wf()
      modifies this, output
      ensures Valid()
      ensures State() == FlushSpec(Cfg(), old(State())).sink
      ensures r == FlushSpec(Cfg(), old(State())).result
    {
      if |pending| == 0 {
        return Ok(());
      }
      var batch := CreateRecordBatchAndReset();
      if batch.Err? {
        return Err(batch.error);
      }
      var w := output.WriteItems(batch.value);
      if w.Err? {
        return Err(ExtractError.Write(w.error));
      }
      r := Ok(());
    }

    /**
     * `hash_iterator`: digests in order; when de-duplicating, a local set
     * of the digests met so far turns a repeated digest into a null.
     */
    method HashIterator(data: seq<seq<byte>>, dedup: bool) returns (hashes: seq<Option<Digest>>)
      ensures hashes == HashSpec(sha, data, dedup)
    {
      var hashSet: set<Digest> := {};
      hashes := [];
      for idx := 0 to |data|
        invariant HashedSoFar(data, idx, dedup, hashes, hashSet)
      {
        var digest := sha(data[idx]);
        HashStep(data, idx, dedup, hashes, hashSet);
        if !dedup {
          hashes := hashes + [Some(digest)];
        } else if digest in hashSet {
          hashes := hashes + [None];
        } else {
          hashSet := hashSet + {digest};
          hashes := hashes + [Some(digest)];
        }
      }
      assert data[..|data|] == data;
    }

    /** The loop's state after `idx` contents: their hash column, and with de-duplication the set of their digests. */
    predicate HashedSoFar(data: seq<seq<byte>>, idx: nat, dedup: bool, hashes: seq<Option<Digest>>, hashSet: set<Digest>)
      requires idx <= |data|
    {
      && hashes == HashSpec(sha, data[..idx], dedup)
      && hashSet == if dedup then Elems(Shas(sha, data[..idx])) else {}
    }

    /**
     * One more content extends the hash column as one iteration of the
     * loop does; with de-duplication the set gains that content's digest.
     */
    lemma HashStep(data: seq<seq<byte>>, idx: nat, dedup: bool, hashes: seq<Option<Digest>>, hashSet: set<Digest>)
      requires idx < |data|
      requires HashedSoFar(data, idx, dedup, hashes, hashSet)
      ensures var d := sha(data[idx]);
        HashedSoFar(data, idx + 1, dedup, hashes + [if !dedup || d !in hashSet then Some(d) else None],
                    if dedup && d !in hashSet then hashSet + {d} else hashSet)
    {
      var ds := Shas(sha, data[..idx]);
      var d := sha(data[idx]);
      var ds1 := Shas(sha, data[..idx + 1]);
      assert ds1 == ds + [d];
      assert ds1[..idx] == ds;
      ElemsAppend(ds, [d]);
    }

    /** `create_record_batch_and_reset`, proved against `BatchSpec`; the buffer is left empty. */
    method CreateRecordBatchAndReset() returns (r: Result<seq<BatchRow>, ExtractError>)
      requires Wf()
      modifies this
      ensures Valid() && pending == []
      ensures counts == BatchSpec(Cfg(), old(State()).items).counts
      ensures r == BatchSpec(Cfg(), old(State()).items).result
    {
      var rows := pending;
      var hashes := HashIterator(Contents(rows), options.unique);
      var batch := WithHashes(rows, hashes);
      pending := [];
      if !Accepts(output.schema, options.onlyText) {
        return Err(Batch);
      }
      if !options.unique {
        return Ok(batch);
      }
      var filtered := Select(batch, NonNull(batch));
      counts := counts.(deduplicated := counts.deduplicated + (|batch| - |filtered|));
      r := Ok(filtered);
    }

    /** `counts`: only de-duplicated rows are counted here. */
    function ReportedCounts(): (c: Counts)
      reads this, output
      requires Wf()
      ensures c == NoCounts.(deduplicated := c.deduplicated)
    {
      counts
    }
  }
}
