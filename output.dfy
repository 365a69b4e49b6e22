/**
 * The Parquet output writer (src/extraction/output.rs): its schema, the
 * cross-batch de-duplication against the set of hashes already written,
 * the `written` and `deduplicated` counters and the open/closed state.
 * The Parquet file itself is modelled as the sequence of rows written.
 */
module Output {
  import opened Base
  import opened Records

  datatype DataType = Utf8View | BinaryView | UInt64 | FixedSizeBinary(width: nat)

  datatype Field = Field(name: string, dataType: DataType, nullable: bool)

  type Schema = seq<Field>

  /** The type of the `content` column: text or bytes. */
  function ContentType(onlyText: bool): DataType
  {
    if onlyText then Utf8View else BinaryView
  }

  /** `make_schema`. */
  function MakeSchema(onlyText: bool): (s: Schema)
    ensures |s| == 5
    ensures forall i :: 0 <= i < |s| ==> !s[i].nullable
  {
    [ Field("source", Utf8View, false),
      Field("path", Utf8View, false),
      Field("size", UInt64, false),
      Field("hash", FixedSizeBinary(HashWidth), false),
      Field("content", ContentType(onlyText), false) ]
  }

  function Names(s: Schema): (ns: seq<string>)
    ensures |ns| == |s| && forall i :: 0 <= i < |s| ==> ns[i] == s[i].name
  {
    if s == [] then [] else Names(s[..|s| - 1]) + [s[|s| - 1].name]
  }

  /**
   * Both schemas have the columns source, path, size, hash, content in that
   * order, hash holding a 32-byte digest; they differ in the content column
   * alone, which is text exactly when `only_text` is set.
   */
  lemma SchemaShape(onlyText: bool)
    ensures Names(MakeSchema(onlyText)) == ["source", "path", "size", "hash", "content"]
    ensures MakeSchema(onlyText)[3].dataType == FixedSizeBinary(HashWidth)
    ensures MakeSchema(onlyText)[4].dataType == Utf8View <==> onlyText
    ensures MakeSchema(onlyText)[..4] == MakeSchema(!onlyText)[..4]
    ensures MakeSchema(onlyText) != MakeSchema(!onlyText)
  {
    assert MakeSchema(onlyText)[4] != MakeSchema(!onlyText)[4];
  }

  /**
   * The failures of a write or a finish: a closed writer, a batch with a
   * null hash, and an error of the Parquet encoder or its sink.
   */
  datatype WriteError = Closed | NullHash(row: nat) | Encode

  /**
   * The Parquet encoder over its sink, which the model does not look into:
   * whether `write` accepts a batch after the rows already in the file, and
   * whether `into_inner` (the footer, then flushing the sink) succeeds for
   * the file written.
   */
  datatype Encoder = Encoder(accepts: (seq<BatchRow>, seq<BatchRow>) -> bool, closes: seq<BatchRow> -> bool)

  /**
   * The writer's mutable part; `open` is false once the writer is finished.
   * `lost` is the number of rows counted as written whose `write` then failed.
   */
  datatype WriterState = WriterState(open: bool, counts: Counts, seen: set<Digest>, file: seq<BatchRow>, lost: nat)

  /** The index of the first row whose hash is null, or the batch length. */
  function FirstNull(b: seq<BatchRow>): (k: nat)
    ensures k <= |b|
    ensures forall i :: 0 <= i < k ==> b[i].hash.Some?
    ensures k < |b| ==> b[k].hash.None?
  {
    if b == [] then 0
    else if b[0].hash.None? then 0
    else 1 + FirstNull(b[1..])
  }

  /**
   * The state of the exclusion loop: the hash set, the mask built for the
   * rows so far, and the row of a null hash once one is met.
   */
  datatype Scan = Scan(seen: set<Digest>, mask: seq<bool>, nullAt: Option<nat>)

  /**
   * The exclusion loop over the rows of `b`, from the hash set `seen`: a
   * row whose hash is already in the set is masked out, any other hash is
   * inserted; the loop stops at the first null hash.
   */
  function ScanHashes(seen: set<Digest>, b: seq<BatchRow>): (s: Scan)
    ensures s.nullAt.None? ==> |s.mask| == |b|
    ensures seen <= s.seen
    decreases |b|
  {
    if b == [] then Scan(seen, [], None)
    else
      var n := |b| - 1;
      var s := ScanHashes(seen, b[..n]);
      if s.nullAt.Some? then s
      else match b[n].hash
        case None => s.(nullAt := Some(n))
        case Some(h) =>
          if h in s.seen then s.(mask := s.mask + [false]) else Scan(s.seen + {h}, s.mask + [true], None)
  }

  /**
   * The loop computes the first-occurrence mask and leaves every digest of
   * the batch in the set; with a null hash it stops at the first one,
   * after the hashes before it have been inserted.
   */
  lemma {:induction false} ScanMeaning(seen: set<Digest>, b: seq<BatchRow>)
    ensures ScanHashes(seen, b).nullAt.None? <==> AllHashed(b)
    ensures AllHashed(b) ==>
      ScanHashes(seen, b).mask == Firsts(seen, DigestsOf(b)) && ScanHashes(seen, b).seen == seen + Elems(DigestsOf(b))
    ensures !AllHashed(b) ==>
      && FirstNull(b) < |b| && ScanHashes(seen, b).nullAt == Some(FirstNull(b))
      && ScanHashes(seen, b).seen == seen + Elems(DigestsOf(b[..FirstNull(b)]))
    decreases |b|
  {
    if b == [] {
      assert DigestsOf(b) == [];
    } else {
      var n := |b| - 1;
      ScanMeaning(seen, b[..n]);
      if !AllHashed(b[..n]) {
        ScanNullBefore(seen, b);
      } else if b[n].hash.None? {
        ScanNullLast(seen, b);
      } else {
        ScanHashedRow(seen, b);
      }
    }
  }

  /** The induction step of `ScanMeaning` when the null hash lies before the last row. */
  lemma ScanNullBefore(seen: set<Digest>, b: seq<BatchRow>)
    requires b != [] && !AllHashed(b[..|b| - 1])
    requires var p := b[..|b| - 1];
      FirstNull(p) < |p| && ScanHashes(seen, p).nullAt == Some(FirstNull(p))
      && ScanHashes(seen, p).seen == seen + Elems(DigestsOf(p[..FirstNull(p)]))
    ensures !AllHashed(b) && FirstNull(b) < |b| && ScanHashes(seen, b).nullAt == Some(FirstNull(b))
    ensures ScanHashes(seen, b).seen == seen + Elems(DigestsOf(b[..FirstNull(b)]))
  {
    var p := b[..|b| - 1];
    var k := FirstNull(p);
    assert p[k] == b[k];
    FirstNullAt(b, k);
    assert b[..k] == p[..k];
  }

  /** The induction step of `ScanMeaning` when the last row is the first without a hash. */
  lemma ScanNullLast(seen: set<Digest>, b: seq<BatchRow>)
    requires b != [] && AllHashed(b[..|b| - 1]) && b[|b| - 1].hash.None?
    requires var p := b[..|b| - 1];
      ScanHashes(seen, p).nullAt.None? && ScanHashes(seen, p).seen == seen + Elems(DigestsOf(p))
    ensures !AllHashed(b) && FirstNull(b) < |b| && ScanHashes(seen, b).nullAt == Some(FirstNull(b))
    ensures ScanHashes(seen, b).seen == seen + Elems(DigestsOf(b[..FirstNull(b)]))
  {
    FirstNullAt(b, |b| - 1);
  }

  /** The induction step of `ScanMeaning` when every row so far, the last included, is hashed. */
  lemma ScanHashedRow(seen: set<Digest>, b: seq<BatchRow>)
    requires b != [] && AllHashed(b[..|b| - 1]) && b[|b| - 1].hash.Some?
    requires var p := b[..|b| - 1];
      ScanHashes(seen, p).nullAt.None?
      && ScanHashes(seen, p).mask == Firsts(seen, DigestsOf(p)) && ScanHashes(seen, p).seen == seen + Elems(DigestsOf(p))
    ensures AllHashed(b) && ScanHashes(seen, b).nullAt.None?
    ensures ScanHashes(seen, b).mask == Firsts(seen, DigestsOf(b)) && ScanHashes(seen, b).seen == seen + Elems(DigestsOf(b))
  {
    var n := |b| - 1;
    var p := b[..n];
    assert AllHashed(b) by {
      forall i | 0 <= i < |b| ensures b[i].hash.Some? {
        if i < n { assert p[i] == b[i]; }
      }
    }
    assert b[..n + 1] == b;
    DigestsStep(seen, b, n);
  }

  /** Once the loop has met a null hash, the rows after it do not matter. */
  lemma {:induction false} ScanStopsAtNull(seen: set<Digest>, b: seq<BatchRow>, k: nat)
    requires k <= |b| && ScanHashes(seen, b[..k]).nullAt.Some?
    ensures ScanHashes(seen, b) == ScanHashes(seen, b[..k])
    decreases |b| - k
  {
    if k < |b| {
      assert b[..k + 1][..k] == b[..k];
      ScanStopsAtNull(seen, b, k + 1);
    } else {
      assert b[..k] == b;
    }
  }

  /** The result of `exclude_duplicates`, with the hash set it leaves behind. */
  datatype Exclusion = Exclusion(seen: set<Digest>, result: Result<seq<BatchRow>, WriteError>)

  /** `exclude_duplicates`: the loop, then the filter by its mask. */
  function ExcludeSpec(seen: set<Digest>, b: seq<BatchRow>): Exclusion
  {
    var s := ScanHashes(seen, b);
    if s.nullAt.Some? then Exclusion(s.seen, Err(NullHash(s.nullAt.value)))
    else Exclusion(s.seen, Ok(Select(b, s.mask)))
  }

  /** The new writer state and the result of `write_items`. */
  datatype Write = Write(state: WriterState, result: Result<nat, WriteError>)

  /**
   * `write_items`: a closed writer refuses; a unique writer first excludes
   * duplicates (failing on a null hash, with the hashes before it already
   * recorded); the surviving rows are counted as written, the excluded ones
   * as de-duplicated, and only then handed to the encoder. When it accepts
   * them they are appended to the file; when it fails they stay counted.
   */
  function WriteSpec(unique: bool, enc: Encoder, w: WriterState, b: seq<BatchRow>): Write
  {
    if !w.open then Write(w, Err(Closed))
    else
      var x := if unique then ExcludeSpec(w.seen, b) else Exclusion(w.seen, Ok(b));
      match x.result
      case Err(e) => Write(w.(seen := x.seen), Err(e))
      case Ok(kept) =>
        var c := w.counts.(deduplicated := w.counts.deduplicated + (|b| - |kept|), written := w.counts.written + |kept|);
        var counted := w.(seen := x.seen, counts := c);
        if enc.accepts(w.file, kept) then Write(counted.(file := w.file + kept), Ok(|kept|))
        else Write(counted.(lost := w.lost + |kept|), Err(Encode))
  }

  /** The new writer state and the result of `finish`: the sink holding the file. */
  datatype Finish = Finish(state: WriterState, result: Result<seq<BatchRow>, WriteError>)

  /**
   * `finish`: a closed writer refuses; otherwise the writer is taken out,
   * which closes it, and then the encoder is closed, which may fail.
   */
  function FinishSpec(enc: Encoder, w: WriterState): Finish
  {
    if !w.open then Finish(w, Err(Closed))
    else if enc.closes(w.file) then Finish(w.(open := false), Ok(w.file))
    else Finish(w.(open := false), Err(Encode))
  }

  /**
   * A write that reaches the encoder and fails there has already counted
   * its rows as written and recorded their digests; the file is unchanged.
   * Without `unique` the whole batch is what reaches the encoder.
   */
  lemma FailedEncodeStillCounts(unique: bool, enc: Encoder, w: WriterState, b: seq<BatchRow>)
    requires w.open && (unique ==> AllHashed(b))
    ensures var kept := if unique then Select(b, Firsts(w.seen, DigestsOf(b))) else b;
      var r := WriteSpec(unique, enc, w, b);
      && (r.result == Err(Encode) <==> !enc.accepts(w.file, kept))
      && (r.result == Err(Encode) ==>
            && r.state.file == w.file && r.state.lost == w.lost + |kept|
            && r.state.counts.written == w.counts.written + |kept|
            && r.state.seen == (if unique then w.seen + Elems(DigestsOf(b)) else w.seen))
  {
    if unique {
      ScanMeaning(w.seen, b);
    }
  }

  /**
   * What a unique write keeps: the rows of the batch whose hash is seen for
   * the first time, in batch order; it records every hash of the batch,
   * and the rows written plus the rows excluded are the rows given.
   */
  lemma UniqueWriteKeepsFirstOccurrences(enc: Encoder, w: WriterState, b: seq<BatchRow>)
    requires w.open && AllHashed(b)
    ensures var kept := Select(b, Firsts(w.seen, DigestsOf(b)));
      var r := WriteSpec(true, enc, w, b);
      && (r.result.Ok? <==> enc.accepts(w.file, kept))
      && (r.result.Ok? ==> r.state.file == w.file + kept)
      && r.state.seen == w.seen + Elems(DigestsOf(b))
      && r.state.counts.written == w.counts.written + |kept|
      && r.state.counts.deduplicated == w.counts.deduplicated + (|b| - |kept|)
  {
    ScanMeaning(w.seen, b);
  }

  /** The first null hash is at k when row k is null and no row before it is. */
  lemma FirstNullAt(b: seq<BatchRow>, k: nat)
    requires k <= |b| && (k < |b| ==> b[k].hash.None?)
    requires forall i :: 0 <= i < k ==> b[i].hash.Some?
    ensures FirstNull(b) == k
  {
  }

  /** A null hash fails the write at its row and writes nothing. */
  lemma NullHashFailsWrite(enc: Encoder, w: WriterState, b: seq<BatchRow>, k: nat)
    requires w.open && k < |b| && b[k].hash.None?
    requires forall i :: 0 <= i < k ==> b[i].hash.Some?
    ensures WriteSpec(true, enc, w, b) == Write(w.(seen := w.seen + Elems(DigestsOf(b[..k]))), Err(NullHash(k)))
  {
    ScanMeaning(w.seen, b);
    FirstNullAt(b, k);
  }

  /**
   * Finishing an open writer closes it whether or not the encoder closes
   * cleanly; afterwards every write and every further finish fails
   * "closed" and changes nothing.
   */
  lemma FinishedWriterRefuses(unique: bool, enc: Encoder, w: WriterState, b: seq<BatchRow>)
    requires w.open
    ensures var c := FinishSpec(enc, w).state;
      && c == w.(open := false)
      && FinishSpec(enc, w).result == (if enc.closes(w.file) then Ok(w.file) else Err(Encode))
      && WriteSpec(unique, enc, c, b) == Write(c, Err(Closed))
      && FinishSpec(enc, c) == Finish(c, Err(Closed))
  {
  }

  // ---------------------------------------------------------------------
  // The writer object.

  class OutputWriter {
    const schema: Schema
    const unique: bool
    const encoder: Encoder
    var open: bool
    var counts: Counts
    var seenHashes: set<Digest>
    var file: seq<BatchRow>
    var lost: nat

    function State(): WriterState
      reads this
    {
      WriterState(open, counts, seenHashes, file, lost)
    }

    /**
     * The writer only counts rows written and rows excluded; the written
     * count is the file length plus the rows lost to failed writes; a unique writer's file holds each hash
     * once, every one of them recorded as seen.
     */
    ghost predicate Valid()
      reads this
    {
      && counts.read == 0 && counts.skipped == 0
      && counts.written == |file| + lost
      && (unique ==> AllHashed(file) && Distinct(DigestsOf(file)) && Elems(DigestsOf(file)) <= seenHashes)
    }

    /** `OutputWriter::new`: an open writer over an empty file. */
    constructor (onlyText: bool, unique: bool, encoder: Encoder)
      ensures Valid() && this.unique == unique && schema == MakeSchema(onlyText) && this.encoder == encoder
      ensures State() == WriterState(true, NoCounts, {}, [], 0)
    {
      this.schema := MakeSchema(onlyText);
      this.unique := unique;
      this.encoder := encoder;
      open := true;
      counts := NoCounts;
      seenHashes := {};
      file := [];
      lost := 0;
    }

    /**
     * `exclude_duplicates`: a mask starting all true is cleared at every row
     * whose hash is already in the set; other hashes are inserted. Stops at
     * the first null hash.
     */
    method ExcludeDuplicates(b: seq<BatchRow>) returns (r: Result<seq<BatchRow>, WriteError>)
      modifies this
      ensures seenHashes == ExcludeSpec(old(seenHashes), b).seen
      ensures r == ExcludeSpec(old(seenHashes), b).result
      ensures counts == if r.Ok? then old(counts).(deduplicated := old(counts).deduplicated + (|b| - |r.value|)) else old(counts)
      ensures open == old(open) && file == old(file) && lost == old(lost)
    {
      var mask := seq(|b|, _ => true);
      for idx := 0 to |b|
        invariant |mask| == |b| && open == old(open) && file == old(file) && lost == old(lost) && counts == old(counts)
        invariant ScanHashes(old(seenHashes), b[..idx]) == Scan(seenHashes, mask[..idx], None)
        invariant forall k :: idx <= k < |b| ==> mask[k]
      {
        assert b[..idx + 1][..idx] == b[..idx];
        var row := b[idx].hash;
        if row.None? {
          ScanStopsAtNull(old(seenHashes), b, idx + 1);
          return Err(NullHash(idx));
        }
        if row.value in seenHashes {
          mask := mask[idx := false];
        } else {
          seenHashes := seenHashes + {row.value};
        }
        assert mask[..idx + 1] == mask[..idx] + [mask[idx]];
      }
      assert b[..|b|] == b;
      assert mask[..|b|] == mask;
      var kept := Select(b, mask);
      counts := counts.(deduplicated := counts.deduplicated + (|b| - |kept|));
      r := Ok(kept);
    }

    /** `write_items`, proved against `WriteSpec`; the writer stays valid. */
    method WriteItems(b: seq<BatchRow>) returns (r: Result<nat, WriteError>)
      requires Valid()
      modifies this
      ensures Valid()
      ensures State() == WriteSpec(unique, encoder, old(State()), b).state
      ensures r == WriteSpec(unique, encoder, old(State()), b).result
    {
      if !open {
        return Err(Closed);
      }
      var batch := b;
      if unique {
        var x := ExcludeDuplicates(b);
        if x.Err? {
          return Err(x.error);
        }
        batch := x.value;
        ScanMeaning(old(seenHashes), b);
        UniqueAppendValid(old(seenHashes), b, old(file));
      }
      var totalRows := |batch|;
      counts := counts.(written := counts.written + totalRows);
      if !encoder.accepts(file, batch) {
        lost := lost + totalRows;
        return Err(Encode);
      }
      file := file + batch;
      r := Ok(totalRows);
    }

    /** The rows kept by exclusion extend a valid unique file validly. */
    static lemma UniqueAppendValid(seen: set<Digest>, b: seq<BatchRow>, file: seq<BatchRow>)
      requires AllHashed(b)
      requires AllHashed(file) && Distinct(DigestsOf(file)) && Elems(DigestsOf(file)) <= seen
      ensures ExcludeSpec(seen, b).result.Ok?
      ensures var x := ExcludeSpec(seen, b);
        var f := file + x.result.value;
        AllHashed(f) && Distinct(DigestsOf(f)) && Elems(DigestsOf(f)) <= x.seen
    {
      ScanMeaning(seen, b);
      var hs := DigestsOf(b);
      var mask := Firsts(seen, hs);
      var kept := Select(b, mask);
      SelectDigests(b, mask);
      FirstsSelection(seen, hs);
      DigestsAppend(file, kept);
      DistinctAppend(DigestsOf(file), DigestsOf(kept));
      ElemsAppend(DigestsOf(file), DigestsOf(kept));
    }

    /** `counts`: demands an open writer (the source panics otherwise). */
    function ReportedCounts(): (c: Counts)
      reads this
      requires open && Valid()
      ensures c.read == 0 && c.skipped == 0 && c.written == |file| + lost
    {
      counts
    }

    /**
     * `finish`: closes the writer, then closes the encoder and hands back
     * the file; a closed writer refuses.
     */
    method Finish() returns (r: Result<seq<BatchRow>, WriteError>)
      modifies this
      ensures State() == FinishSpec(encoder, old(State())).state
      ensures r == FinishSpec(encoder, old(State())).result
    {
      if !open {
        return Err(Closed);
      }
      open := false;
      if !encoder.closes(file) {
        return Err(Encode);
      }
      r := Ok(file);
    }
  }
}
