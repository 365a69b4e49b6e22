/**
 * A run over every registered input (src/extraction/extractor.rs, and
 * `Content::extract` in src/extraction/input.rs): the inputs are taken in
 * path order, each is extracted into a fresh row buffer that is flushed
 * into the shared writer, and the per-input counts are combined with the
 * writer's own.
 */
module Extraction {
  import opened Base
  import opened Records
  import opened Options
  import opened Output
  import Items
  import opened Input
  import ArchiveExtract
  import Formats

  type ExtractError = Items.ExtractError

  /** Each input gets a row buffer holding this many rows. */
  const Capacity: nat := 1024

  /** The buffer configuration for one input over the given writer. */
  function ConfigFor(options: ExtractionOptions, sha: seq<byte> -> Digest, output: OutputWriter): Items.Config
  {
    Items.Config(Capacity, options, sha, output.schema, output.unique, output.encoder)
  }

  /** The writer after one input, and that input's result. */
  datatype InputRun = InputRun(writer: WriterState, result: Result<Counts, ExtractError>)

  /**
   * `Content::extract`: the input's format is extracted into an empty
   * buffer with the input's path as source; an error ends it; otherwise the
   * buffer is flushed, and a flush error ends it; otherwise the result is
   * the extraction's counts plus the buffer's.
   */
  function ContentSpec(cfg: Items.Config, f: ArchiveExtract.Foreign, w: WriterState, c: Content): InputRun
  {
    var e := ArchiveExtract.Run(cfg, Items.Sink(Items.ItemsState([], NoCounts), w), ArchiveExtract.FormatPlan(f, c.path, c.data, cfg.options, c.format));
    if e.result.Err? then InputRun(e.sink.writer, e.result)
    else
      var o := Items.FlushSpec(cfg, e.sink);
      if o.result.Err? then InputRun(o.sink.writer, Err(o.result.error))
      else InputRun(o.sink.writer, Ok(e.result.value.Plus(o.sink.items.counts)))
  }

  /** The writer after a sequence of inputs, and one result per input. */
  datatype Runs = Runs(writer: WriterState, results: seq<Result<Counts, ExtractError>>)

  /** The inputs one after another, each over the writer the previous one left; a failure does not stop the run. */
  function RunInputs(cfg: Items.Config, f: ArchiveExtract.Foreign, w: WriterState, cs: seq<Content>): (r: Runs)
    ensures |r.results| == |cs|
    decreases |cs|
  {
    if cs == [] then Runs(w, [])
    else
      var r := RunInputs(cfg, f, w, cs[..|cs| - 1]);
      var c := ContentSpec(cfg, f, r.writer, cs[|cs| - 1]);
      Runs(c.writer, r.results + [c.result])
  }

  /** `flatten`: the counts of the inputs that succeeded, in order. */
  function OkValues(rs: seq<Result<Counts, ExtractError>>): seq<Counts>
    decreases |rs|
  {
    if rs == [] then []
    else OkValues(rs[..|rs| - 1]) + (if rs[|rs| - 1].Ok? then [rs[|rs| - 1].value] else [])
  }

  /** `items.into_iter().flatten().sum()`. */
  function SumOk(rs: seq<Result<Counts, ExtractError>>): Counts
  {
    Sum(OkValues(rs))
  }

  /** The run's counts: read and skipped summed over the inputs, the writer's duplicates added, the writer's written count. */
  function Combine(summed: Counts, output: Counts): Counts
  {
    Counts(summed.read, summed.skipped, summed.deduplicated + output.deduplicated, output.written)
  }

  // ---------------------------------------------------------------------
  // Properties of a run.

  lemma {:induction false} OkValuesAppend(a: seq<Result<Counts, ExtractError>>, b: seq<Result<Counts, ExtractError>>)
    ensures OkValues(a + b) == OkValues(a) + OkValues(b)
    decreases |b|
  {
    if b == [] {
      assert a + b == a;
    } else {
      var n := |b| - 1;
      assert (a + b)[..|a + b| - 1] == a + b[..n];
      assert (a + b)[|a + b| - 1] == b[n];
      OkValuesAppend(a, b[..n]);
    }
  }

  /** A failed input contributes nothing to the summed counts: dropping it changes no count. */
  lemma FailedInputIgnored(rs: seq<Result<Counts, ExtractError>>, k: nat)
    requires k < |rs| && rs[k].Err?
    ensures SumOk(rs[..k] + rs[k + 1..]) == SumOk(rs)
  {
    var a := rs[..k];
    var b := rs[k + 1..];
    assert rs == (a + [rs[k]]) + b;
    OkValuesAppend(a + [rs[k]], b);
    OkValuesAppend(a, [rs[k]]);
    assert [rs[k]][..0] == [];
    assert OkValues([rs[k]]) == [];
    assert OkValues(a + [rs[k]]) == OkValues(a);
    OkValuesAppend(a, b);
    assert OkValues(rs) == OkValues(a + b);
  }

  /** When every input succeeds, every result is summed. */
  lemma {:induction false} AllOkSummed(rs: seq<Result<Counts, ExtractError>>)
    requires forall i :: 0 <= i < |rs| ==> rs[i].Ok?
    ensures |OkValues(rs)| == |rs| && forall i :: 0 <= i < |rs| ==> OkValues(rs)[i] == rs[i].value
    decreases |rs|
  {
    if rs != [] {
      var n := |rs| - 1;
      assert forall i :: 0 <= i < n ==> rs[..n][i] == rs[i];
      AllOkSummed(rs[..n]);
    }
  }

  /** The writer stays open (or closed) through a whole run. */
  lemma {:induction false} RunInputsKeepsOpen(cfg: Items.Config, f: ArchiveExtract.Foreign, w: WriterState, cs: seq<Content>)
    ensures RunInputs(cfg, f, w, cs).writer.open == w.open
    decreases |cs|
  {
    if cs != [] {
      var n := |cs| - 1;
      RunInputsKeepsOpen(cfg, f, w, cs[..n]);
      ContentKeepsOpen(cfg, f, RunInputs(cfg, f, w, cs[..n]).writer, cs[n]);
    }
  }

  lemma ContentKeepsOpen(cfg: Items.Config, f: ArchiveExtract.Foreign, w: WriterState, c: Content)
    ensures ContentSpec(cfg, f, w, c).writer.open == w.open
  {
    var s0 := Items.Sink(Items.ItemsState([], NoCounts), w);
    var p := ArchiveExtract.FormatPlan(f, c.path, c.data, cfg.options, c.format);
    Items.AddAllKeepsShape(cfg, s0, p.rows);
    Items.FlushKeepsShape(cfg, ArchiveExtract.Run(cfg, s0, p).sink);
  }

  /**
   * One input that succeeds accounts for every member it read: each is
   * now written or counted as a duplicate, by the buffer (in the result)
   * or by the writer; the result itself writes nothing.
   */
  lemma ContentConserves(cfg: Items.Config, f: ArchiveExtract.Foreign, w: WriterState, c: Content)
    requires ContentSpec(cfg, f, w, c).result.Ok?
    ensures var r := ContentSpec(cfg, f, w, c);
      var v := r.result.value;
      && v.written == 0
      && v.read + w.counts.written + w.counts.deduplicated == r.writer.counts.written + r.writer.counts.deduplicated + v.deduplicated
  {
    var s0 := Items.Sink(Items.ItemsState([], NoCounts), w);
    var p := ArchiveExtract.FormatPlan(f, c.path, c.data, cfg.options, c.format);
    ArchiveExtract.FormatAccounted(f, c.path, c.data, cfg.options, c.format);
    Items.AddAllConserves(cfg, s0, p.rows);
    Items.AddAllKeepsShape(cfg, s0, p.rows);
    var e := ArchiveExtract.Run(cfg, s0, p);
    Items.FlushConserves(cfg, e.sink);
    Items.FlushKeepsShape(cfg, e.sink);
  }

  /** What holds of a run over writer `w` in which every input succeeded. */
  predicate Conserved(w: WriterState, r: Runs)
  {
    var s := SumOk(r.results);
    && (forall i :: 0 <= i < |r.results| ==> r.results[i].Ok?)
    && s.written == 0
    && s.read + w.counts.written + w.counts.deduplicated == r.writer.counts.written + r.writer.counts.deduplicated + s.deduplicated
  }

  /** One more input that succeeds and accounts for its members keeps a run conserved. */
  lemma ConservedStep(w: WriterState, prev: Runs, step: InputRun)
    requires Conserved(w, prev) && step.result.Ok?
    requires var v := step.result.value;
      && v.written == 0
      && v.read + prev.writer.counts.written + prev.writer.counts.deduplicated == step.writer.counts.written + step.writer.counts.deduplicated + v.deduplicated
    ensures Conserved(w, Runs(step.writer, prev.results + [step.result]))
  {
    var rs := prev.results + [step.result];
    assert rs[..|prev.results|] == prev.results;
    assert OkValues(rs) == OkValues(prev.results) + [step.result.value];
    assert (OkValues(prev.results) + [step.result.value])[..|OkValues(prev.results)|] == OkValues(prev.results);
  }

  /**
   * A run in which every input succeeds loses no member: what the inputs
   * read, plus what the writer held before, is what it holds after plus
   * the duplicates the buffers dropped.
   */
  lemma {:induction false} RunInputsConserves(cfg: Items.Config, f: ArchiveExtract.Foreign, w: WriterState, cs: seq<Content>)
    requires var rs := RunInputs(cfg, f, w, cs).results; forall i :: 0 <= i < |rs| ==> rs[i].Ok?
    ensures Conserved(w, RunInputs(cfg, f, w, cs))
    decreases |cs|
  {
    if cs != [] {
      var n := |cs| - 1;
      var prev := RunInputs(cfg, f, w, cs[..n]);
      var step := ContentSpec(cfg, f, prev.writer, cs[n]);
      assert RunInputs(cfg, f, w, cs) == Runs(step.writer, prev.results + [step.result]);
      assert forall i :: 0 <= i < n ==> prev.results[i] == RunInputs(cfg, f, w, cs).results[i];
      RunInputsConserves(cfg, f, w, cs[..n]);
      assert RunInputs(cfg, f, w, cs).results[n] == step.result;
      ContentConserves(cfg, f, prev.writer, cs[n]);
      ConservedStep(w, prev, step);
    }
  }

  /**
   * Over a new writer, a run in which every input succeeds reports every
   * member read as either written or de-duplicated (`TwinTarsDeduplicate`
   * gives the exact counts for one such run).
   */
  lemma FreshRunAccountsForEveryMember(cfg: Items.Config, f: ArchiveExtract.Foreign, cs: seq<Content>)
    requires var rs := RunInputs(cfg, f, WriterState(true, NoCounts, {}, [], 0), cs).results; forall i :: 0 <= i < |rs| ==> rs[i].Ok?
    ensures var r := RunInputs(cfg, f, WriterState(true, NoCounts, {}, [], 0), cs);
      var c := Combine(SumOk(r.results), r.writer.counts);
      c.read == c.written + c.deduplicated
  {
    RunInputsConserves(cfg, f, WriterState(true, NoCounts, {}, [], 0), cs);
  }

  /** A tar listing of two regular members, under two names, with the same contents. */
  function TwinListing(n1: string, n2: string, size: u64, d: seq<byte>): seq<Option<ArchiveExtract.TarMember>>
  {
    [Some(ArchiveExtract.TarMember(true, ArchiveExtract.Utf8Path(n1), Some(size), Some(d))),
     Some(ArchiveExtract.TarMember(true, ArchiveExtract.Utf8Path(n2), Some(size), Some(d)))]
  }

  /** A regular tar member with a usable path and size, nesting not followed, is one row read. */
  lemma RegularMemberIsRow(f: ArchiveExtract.Foreign, source: string, opts: ExtractionOptions, n: string, size: u64, d: seq<byte>)
    requires opts.CheckFileSize(size) && opts.maxDepth.None? && !opts.onlyText
    ensures ArchiveExtract.TarMemberPlan(f, source, Some(ArchiveExtract.TarMember(true, ArchiveExtract.Utf8Path(n), Some(size), Some(d))), opts)
      == ArchiveExtract.Plan([Row(source, n, size, d)], Ok(ArchiveExtract.ReadOne))
  {
    ArchiveExtract.EntryLeaf(f, source, opts, size, d, n);
  }

  /** The member loop over two members that both succeed. */
  lemma FoldTwo(ps: seq<ArchiveExtract.Plan>, p1: ArchiveExtract.Plan, p2: ArchiveExtract.Plan)
    requires ps == [p1, p2] && p1.outcome.Ok? && p2.outcome.Ok?
    ensures ArchiveExtract.Fold(ps) == ArchiveExtract.Plan(p1.rows + p2.rows, Ok(p1.outcome.value.Plus(p2.outcome.value)))
  {
    assert ps[..1] == [p1] && [p1][..0] == [];
    assert NoCounts.Plus(p1.outcome.value) == p1.outcome.value;
    assert [] + p1.rows == p1.rows;
    assert ArchiveExtract.Fold([p1]) == p1;
  }

  /** The member loop over two members that are one row read each. */
  lemma FoldTwoRows(ps: seq<ArchiveExtract.Plan>, r1: Row, r2: Row)
    requires ps == [ArchiveExtract.Plan([r1], Ok(ArchiveExtract.ReadOne)), ArchiveExtract.Plan([r2], Ok(ArchiveExtract.ReadOne))]
    ensures ArchiveExtract.Fold(ps) == ArchiveExtract.Plan([r1, r2], Ok(Counts(2, 0, 0, 0)))
  {
    FoldTwo(ps, ps[0], ps[1]);
    TwoRowsRead(r1, r2);
  }

  lemma TwoRowsRead(r1: Row, r2: Row)
    ensures ArchiveExtract.Plan([r1] + [r2], Ok(ArchiveExtract.ReadOne.Plus(ArchiveExtract.ReadOne))) == ArchiveExtract.Plan([r1, r2], Ok(Counts(2, 0, 0, 0)))
  {
    assert [r1] + [r2] == [r1, r2];
  }

  /** Each member of such a listing is one row read. */
  lemma TwinMemberPlans(f: ArchiveExtract.Foreign, source: string, opts: ExtractionOptions, n1: string, n2: string, size: u64, d: seq<byte>)
    requires opts.CheckFileSize(size) && opts.maxDepth.None? && !opts.onlyText
    ensures ArchiveExtract.TarMemberPlans(f, source, TwinListing(n1, n2, size, d), opts)
      == [ArchiveExtract.Plan([Row(source, n1, size, d)], Ok(ArchiveExtract.ReadOne)), ArchiveExtract.Plan([Row(source, n2, size, d)], Ok(ArchiveExtract.ReadOne))]
  {
    var listing := TwinListing(n1, n2, size, d);
    var ps := ArchiveExtract.TarMemberPlans(f, source, listing, opts);
    RegularMemberIsRow(f, source, opts, n1, size, d);
    RegularMemberIsRow(f, source, opts, n2, size, d);
    assert ps[0] == ArchiveExtract.TarMemberPlan(f, source, listing[0], opts);
    assert ps[1] == ArchiveExtract.TarMemberPlan(f, source, listing[1], opts);
  }

  /** Such a tar, with nesting not followed and a size that passes, is its two members as rows, both read. */
  lemma TwinTarPlan(f: ArchiveExtract.Foreign, source: string, data: seq<byte>, opts: ExtractionOptions, n1: string, n2: string, size: u64, d: seq<byte>)
    requires f.tar(data) == Some(TwinListing(n1, n2, size, d))
    requires opts.CheckFileSize(size) && opts.maxDepth.None? && !opts.onlyText
    ensures ArchiveExtract.FormatPlan(f, source, data, opts, Formats.Tar)
      == ArchiveExtract.Plan([Row(source, n1, size, d), Row(source, n2, size, d)], Ok(Counts(2, 0, 0, 0)))
  {
    var r1 := Row(source, n1, size, d);
    var r2 := Row(source, n2, size, d);
    TarListingPlan(f, source, data, opts, TwinListing(n1, n2, size, d));
    TwinMemberPlans(f, source, opts, n1, n2, size, d);
    FoldTwoRows(ArchiveExtract.TarMemberPlans(f, source, TwinListing(n1, n2, size, d), opts), r1, r2);
  }

  /** A tar whose listing can be had is the member loop over that listing. */
  lemma TarListingPlan(f: ArchiveExtract.Foreign, source: string, data: seq<byte>, opts: ExtractionOptions, listing: seq<Option<ArchiveExtract.TarMember>>)
    requires f.tar(data) == Some(listing)
    ensures ArchiveExtract.FormatPlan(f, source, data, opts, Formats.Tar) == ArchiveExtract.Fold(ArchiveExtract.TarMemberPlans(f, source, listing, opts))
  {
  }

  /** Two rows with the same contents: both get its digest, and the first-occurrence selection keeps the first. */
  lemma TwinBatch(sha: seq<byte> -> Digest, source: string, n1: string, n2: string, size: u64, d: seq<byte>)
    ensures var all := Items.Hashed(sha, [Row(source, n1, size, d), Row(source, n2, size, d)]);
      && all == [BatchRow(source, n1, size, Some(sha(d)), d), BatchRow(source, n2, size, Some(sha(d)), d)]
      && Select(all, Firsts({}, DigestsOf(all))) == [BatchRow(source, n1, size, Some(sha(d)), d)]
  {
    var h := sha(d);
    var b1 := BatchRow(source, n1, size, Some(h), d);
    var all := Items.Hashed(sha, [Row(source, n1, size, d), Row(source, n2, size, d)]);
    assert all == [b1, BatchRow(source, n2, size, Some(h), d)];
    assert DigestsOf(all) == [h, h];
    assert [h, h][..1] == [h];
    assert Firsts({}, [h, h]) == [true, false];
    assert all[..1] == [b1] && [true, false][..1] == [true];
    assert [b1][..0] == [] && [true][..0] == [];
    assert Select([b1], [true]) == [b1];
  }

  /** A unique write of one row whose encoder accepts: the row is written when its digest is new and dropped otherwise. */
  lemma OneRowWrite(enc: Encoder, w: WriterState, b: BatchRow)
    requires w.open && b.hash.Some? && forall a, x :: enc.accepts(a, x)
    ensures var r := WriteSpec(true, enc, w, [b]);
      var h := b.hash.value;
      && r.result.Ok?
      && r.state.seen == w.seen + {h}
      && r.state.file == w.file + (if h in w.seen then [] else [b])
      && r.state.counts.written == w.counts.written + (if h in w.seen then 0 else 1)
      && r.state.counts.deduplicated == w.counts.deduplicated + (if h in w.seen then 1 else 0)
  {
    var h := b.hash.value;
    UniqueWriteKeepsFirstOccurrences(enc, w, [b]);
    assert DigestsOf([b]) == [h];
    assert [h][..0] == [] && [b][..0] == [];
    assert Firsts(w.seen, [h]) == [h !in w.seen];
    assert Elems([h]) == {h};
    assert Select([b], [h !in w.seen]) == if h in w.seen then [] else [b];
  }

  /**
   * Flushing two rows with the same contents, both stages de-duplicating:
   * the buffer drops the second; the writer writes the first unless it has
   * seen its digest, in which case it drops that one too.
   */
  lemma TwinFlush(cfg: Items.Config, w: WriterState, source: string, n1: string, n2: string, size: u64, d: seq<byte>)
    requires cfg.options.unique && cfg.writerUnique && Items.Accepts(cfg.schema, cfg.options.onlyText)
    requires w.open && forall a, b :: cfg.encoder.accepts(a, b)
    ensures var h := cfg.sha(d);
      var o := Items.FlushSpec(cfg, Items.Sink(Items.ItemsState([Row(source, n1, size, d), Row(source, n2, size, d)], NoCounts), w));
      && o.result.Ok? && o.sink.items == Items.ItemsState([], Counts(0, 0, 1, 0)) && o.sink.writer.open
      && o.sink.writer.seen == w.seen + {h}
      && o.sink.writer.file == w.file + (if h in w.seen then [] else [BatchRow(source, n1, size, Some(h), d)])
      && o.sink.writer.counts.written == w.counts.written + (if h in w.seen then 0 else 1)
      && o.sink.writer.counts.deduplicated == w.counts.deduplicated + (if h in w.seen then 1 else 0)
  {
    var s := Items.Sink(Items.ItemsState([Row(source, n1, size, d), Row(source, n2, size, d)], NoCounts), w);
    TwinBatch(cfg.sha, source, n1, n2, size, d);
    Items.UniqueFlushWritesBatch(cfg, s);
    OneRowWrite(cfg.encoder, w, BatchRow(source, n1, size, Some(cfg.sha(d)), d));
    Items.FlushKeepsShape(cfg, s);
  }

  /** Two rows added to a buffer with room for both are just buffered. */
  lemma AddTwoBelowCapacity(cfg: Items.Config, s: Items.Sink, r1: Row, r2: Row)
    requires |s.items.pending| + 2 < cfg.capacity
    ensures Items.AddAll(cfg, s, [r1, r2]) == Items.Outcome(s.(items := s.items.(pending := s.items.pending + [r1, r2])), Ok(()))
  {
    var s1 := s.(items := s.items.(pending := s.items.pending + [r1]));
    assert [r1, r2][..1] == [r1] && [r1][..0] == [];
    assert Items.AddAll(cfg, s, [r1]) == Items.AddSpec(cfg, s, r1) == Items.Outcome(s1, Ok(()));
    assert s.items.pending + [r1] + [r2] == s.items.pending + [r1, r2];
    assert Items.AddAll(cfg, s, [r1, r2]) == Items.AddSpec(cfg, s1, r2);
  }

  /** One such tar as an input: two members read, one dropped by the buffer, and the flush as `TwinFlush` says. */
  lemma TwinContent(cfg: Items.Config, f: ArchiveExtract.Foreign, w: WriterState, c: Content, n1: string, n2: string, size: u64, d: seq<byte>)
    requires cfg.options.unique && cfg.writerUnique && Items.Accepts(cfg.schema, cfg.options.onlyText) && cfg.capacity > 2
    requires w.open && forall a, b :: cfg.encoder.accepts(a, b)
    requires c.format == Formats.Tar && f.tar(c.data) == Some(TwinListing(n1, n2, size, d))
    requires cfg.options.CheckFileSize(size) && cfg.options.maxDepth.None? && !cfg.options.onlyText
    ensures var h := cfg.sha(d);
      var r := ContentSpec(cfg, f, w, c);
      && r.result == Ok(Counts(2, 0, 1, 0)) && r.writer.open
      && r.writer.seen == w.seen + {h}
      && r.writer.file == w.file + (if h in w.seen then [] else [BatchRow(c.path, n1, size, Some(h), d)])
      && r.writer.counts.written == w.counts.written + (if h in w.seen then 0 else 1)
      && r.writer.counts.deduplicated == w.counts.deduplicated + (if h in w.seen then 1 else 0)
  {
    var r1 := Row(c.path, n1, size, d);
    var r2 := Row(c.path, n2, size, d);
    var s0 := Items.Sink(Items.ItemsState([], NoCounts), w);
    TwinTarPlan(f, c.path, c.data, cfg.options, n1, n2, size, d);
    AddTwoBelowCapacity(cfg, s0, r1, r2);
    assert [] + [r1, r2] == [r1, r2];
    TwinFlush(cfg, w, c.path, n1, n2, size, d);
    var o := Items.FlushSpec(cfg, Items.Sink(Items.ItemsState([r1, r2], NoCounts), w));
    ContentRuns(cfg, f, w, c, ArchiveExtract.Plan([r1, r2], Ok(Counts(2, 0, 0, 0))), o);
  }

  /** An input whose plan succeeds, whose rows the buffer takes and whose flush succeeds, ends with the flush's writer and the plan's counts plus the buffer's. */
  lemma ContentRuns(cfg: Items.Config, f: ArchiveExtract.Foreign, w: WriterState, c: Content, p: ArchiveExtract.Plan, o: Items.Outcome)
    requires ArchiveExtract.FormatPlan(f, c.path, c.data, cfg.options, c.format) == p && p.outcome.Ok?
    requires var a := Items.AddAll(cfg, Items.Sink(Items.ItemsState([], NoCounts), w), p.rows);
      a.result.Ok? && o == Items.FlushSpec(cfg, a.sink) && o.result.Ok?
    ensures ContentSpec(cfg, f, w, c) == InputRun(o.sink.writer, Ok(p.outcome.value.Plus(o.sink.items.counts)))
  {
  }

  /** A run over two inputs: the second runs over the writer the first left. */
  lemma RunTwo(cfg: Items.Config, f: ArchiveExtract.Foreign, w: WriterState, c1: Content, c2: Content, r1: InputRun, r2: InputRun)
    requires r1 == ContentSpec(cfg, f, w, c1) && r2 == ContentSpec(cfg, f, r1.writer, c2)
    ensures RunInputs(cfg, f, w, [c1, c2]) == Runs(r2.writer, [r1.result, r2.result])
  {
    assert [c1, c2][..1] == [c1] && [c1][..0] == [];
    assert RunInputs(cfg, f, w, [c1]) == Runs(r1.writer, [] + [r1.result]);
    assert [] + [r1.result] == [r1.result];
  }

  /** The counts of two inputs that both succeed. */
  lemma SumTwoOk(v1: Counts, v2: Counts)
    ensures SumOk([Ok(v1), Ok(v2)]) == v1.Plus(v2)
  {
    var rs: seq<Result<Counts, ExtractError>> := [Ok(v1), Ok(v2)];
    assert rs[..1] == [rs[0]] && [rs[0]][..0] == [];
    assert OkValues([rs[0]]) == [] + [v1] == [v1];
    assert OkValues(rs) == [v1] + [v2] == [v1, v2];
    assert [v1, v2][..1] == [v1] && [v1][..0] == [];
    assert Sum([v1]) == NoCounts.Plus(v1) == v1;
    assert Sum([v1, v2]) == v1.Plus(v2);
  }

  /**
   * Two tars, each holding two members with the same contents, extracted
   * with `unique` over a new writer whose encoder accepts everything: read
   * 4, skipped 0, de-duplicated 3, written 1, and the file holds the first
   * member of the first tar alone.
   */
  lemma TwinTarsDeduplicate(cfg: Items.Config, f: ArchiveExtract.Foreign, c1: Content, c2: Content, n1: string, n2: string, size: u64, d: seq<byte>)
    requires cfg.options.unique && cfg.writerUnique && Items.Accepts(cfg.schema, cfg.options.onlyText) && cfg.capacity > 2
    requires forall a, b :: cfg.encoder.accepts(a, b)
    requires c1.format == Formats.Tar && f.tar(c1.data) == Some(TwinListing(n1, n2, size, d))
    requires c2.format == Formats.Tar && f.tar(c2.data) == Some(TwinListing(n1, n2, size, d))
    requires cfg.options.CheckFileSize(size) && cfg.options.maxDepth.None? && !cfg.options.onlyText
    ensures var r := RunInputs(cfg, f, WriterState(true, NoCounts, {}, [], 0), [c1, c2]);
      && r.results == [Ok(Counts(2, 0, 1, 0)), Ok(Counts(2, 0, 1, 0))]
      && Combine(SumOk(r.results), r.writer.counts) == Counts(4, 0, 3, 1)
      && r.writer.file == [BatchRow(c1.path, n1, size, Some(cfg.sha(d)), d)]
  {
    var w0 := WriterState(true, NoCounts, {}, [], 0);
    var r1 := ContentSpec(cfg, f, w0, c1);
    TwinContent(cfg, f, w0, c1, n1, n2, size, d);
    var r2 := ContentSpec(cfg, f, r1.writer, c2);
    TwinContent(cfg, f, r1.writer, c2, n1, n2, size, d);
    RunTwo(cfg, f, w0, c1, c2, r1, r2);
    TwinTotals(RunInputs(cfg, f, w0, [c1, c2]), r1, r2, BatchRow(c1.path, n1, size, Some(cfg.sha(d)), d));
  }

  /** Two inputs that each read two and drop one, after which the writer holds one row and one drop: together 4, 0, 3, 1. */
  lemma TwinTotals(r: Runs, r1: InputRun, r2: InputRun, b: BatchRow)
    requires r == Runs(r2.writer, [r1.result, r2.result])
    requires r1.result == Ok(Counts(2, 0, 1, 0)) && r2.result == Ok(Counts(2, 0, 1, 0))
    requires r2.writer.file == [b] && r2.writer.counts.written == 1 && r2.writer.counts.deduplicated == 1
    ensures r.results == [Ok(Counts(2, 0, 1, 0)), Ok(Counts(2, 0, 1, 0))]
    ensures Combine(SumOk(r.results), r.writer.counts) == Counts(4, 0, 3, 1)
    ensures r.writer.file == [b]
  {
    SumTwoOk(Counts(2, 0, 1, 0), Counts(2, 0, 1, 0));
  }

  /** The reported counts: read and skipped from the inputs, written from the writer, duplicates from both. */
  lemma CombineFields(summed: Counts, output: Counts)
    ensures var c := Combine(summed, output);
      && c.read == summed.read && c.skipped == summed.skipped
      && c.written == output.written
      && c.deduplicated == summed.deduplicated + output.deduplicated
  {
  }

  // ---------------------------------------------------------------------
  // The implementation.

  /** One more input extends a run by that input's extraction. */
  lemma RunInputsStep(cfg: Items.Config, f: ArchiveExtract.Foreign, w: WriterState, cs: seq<Content>, i: nat)
    requires i < |cs|
    ensures var r := RunInputs(cfg, f, w, cs[..i]);
      var c := ContentSpec(cfg, f, r.writer, cs[i]);
      RunInputs(cfg, f, w, cs[..i + 1]) == Runs(c.writer, r.results + [c.result])
  {
    assert cs[..i + 1][..i] == cs[..i];
  }

  /** `Content::extract`, proved against `ContentSpec`. */
  method ContentExtract(f: ArchiveExtract.Foreign, c: Content, output: OutputWriter, options: ExtractionOptions, sha: seq<byte> -> Digest)
    returns (r: Result<Counts, ExtractError>)
    requires output.Valid()
    modifies output
    ensures output.Valid()
    ensures InputRun(output.State(), r) == ContentSpec(ConfigFor(options, sha, output), f, old(output.State()), c)
  {
    var items := new Items.Items(output, Capacity, options, sha);
    var count := ArchiveExtract.Extract(f, c.format, c.path, c.data, items, options);
    if count.Err? {
      return count;
    }
    var flushed := items.Flush();
    if flushed.Err? {
      return Err(flushed.error);
    }
    r := Ok(count.value.Plus(items.ReportedCounts()));
  }

  class Extractor {
    const options: ExtractionOptions
    const output: OutputWriter
    var input: InputContents

    /** `Extractor::new`: an empty registry over the given writer. */
    constructor (output: OutputWriter, options: ExtractionOptions)
      ensures this.output == output && this.options == options
      ensures fresh(input) && input.contents == []
    {
      this.output := output;
      this.options := options;
      input := new InputContents();
    }

    /** `set_input_contents`. */
    method SetInputContents(files: InputContents)
      modifies this
      ensures input == files
    {
      input := files;
    }

    /** `input_file_count`: the number of registered inputs. */
    function InputFileCount(): (n: nat)
      reads this, input
      ensures n == |input.contents|
    {
      input.Len()
    }

    /** `has_input_files`. */
    function HasInputFiles(): (b: bool)
      reads this, input
      ensures b <==> InputFileCount() > 0
    {
      !input.IsEmpty()
    }

    /**
     * `do_extract` on the sequential path: the registry is drained in path
     * order, each input extracted in turn; the log holds one entry per
     * input, its path and its result, in that order, and the run succeeds
     * with the combined counts.
     */
    method DoExtract(f: ArchiveExtract.Foreign, sha: seq<byte> -> Digest)
      returns (r: Result<Counts, ExtractError>, log: seq<(string, Result<Counts, ExtractError>)>)
      requires output.open && output.Valid()
      modifies input, output
      ensures output.open && output.Valid() && input.contents == []
      ensures var sorted := SortByPath(old(input.contents));
        var run := RunInputs(ConfigFor(options, sha, output), f, old(output.State()), sorted);
        && output.State() == run.writer
        && |log| == |sorted|
        && (forall i :: 0 <= i < |sorted| ==> log[i] == (sorted[i].path, run.results[i]))
        && r == Ok(Combine(SumOk(run.results), run.writer.counts))
    {
      var sorted := input.ContentsSequential();
      var results;
      results, log := ExtractInputs(f, sorted, output, options, sha);
      var written := output.ReportedCounts();
      r := Ok(Combine(SumOk(results), written));
    }
  }

  /** The `map` over the drained inputs: each extracted in turn, its path and result logged (the callback). */
  method ExtractInputs(f: ArchiveExtract.Foreign, sorted: seq<Content>, output: OutputWriter, options: ExtractionOptions, sha: seq<byte> -> Digest)
    returns (results: seq<Result<Counts, ExtractError>>, log: seq<(string, Result<Counts, ExtractError>)>)
    requires output.Valid()
    modifies output
    ensures output.Valid() && output.open == old(output.open)
    ensures var run := RunInputs(ConfigFor(options, sha, output), f, old(output.State()), sorted);
      && output.State() == run.writer && results == run.results
      && |log| == |sorted| && (forall i :: 0 <= i < |sorted| ==> log[i] == (sorted[i].path, results[i]))
  {
    var cfg := ConfigFor(options, sha, output);
    ghost var w0 := output.State();
    results := [];
    log := [];
    for i := 0 to |sorted|
      invariant output.Valid()
      invariant RunInputs(cfg, f, w0, sorted[..i]) == Runs(output.State(), results)
      invariant |log| == i && forall k :: 0 <= k < i ==> log[k] == (sorted[k].path, results[k])
    {
      RunInputsStep(cfg, f, w0, sorted, i);
      var result := ContentExtract(f, sorted[i], output, options, sha);
      results := results + [result];
      log := log + [(sorted[i].path, result)];
    }
    assert sorted[..|sorted|] == sorted;
    RunInputsKeepsOpen(cfg, f, w0, sorted);
  }
}
