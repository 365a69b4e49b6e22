/**
 * Recursive extraction of archive members (src/formats/mod.rs `extract`,
 * src/formats/common.rs, src/formats/tar.rs, src/formats/zip.rs).
 *
 * What an extraction does is specified in two parts. A `Plan` is the pure
 * part: the rows the members produce, in order, and the counts (or the I/O
 * error) the extraction ends with, assuming the row buffer accepts every
 * row. `Run` then feeds those rows to the buffer (`Items.AddAll`), which may
 * fail on a flush and so stop the extraction early. The imperative methods
 * below are proved to end in exactly the buffer state and result `Run`
 * gives for their plan.
 */
module ArchiveExtract {
  import opened Base
  import opened Records
  import opened Options
  import opened Formats
  import Items
  import Utf8

  type ExtractError = Items.ExtractError

  /** What `entry.path()` and `to_str()` make of a tar member's path. */
  datatype TarPath = Unreadable | NotUtf8 | Utf8Path(name: string)

  /**
   * A tar member as the `tar` crate presents it: whether its header type is
   * Regular, its path, its header size (None when the header cannot be
   * parsed) and its contents (None when reading them fails).
   */
  datatype TarMember = TarMember(regular: bool, path: TarPath, size: Option<u64>, data: Option<seq<byte>>)

  /** A zip entry read from the stream: file or directory, name, declared size, contents. */
  datatype ZipMember = ZipMember(isFile: bool, name: string, size: u64, data: Option<seq<byte>>)

  /**
   * The foreign parsers: `GzDecoder` over a byte string; the `tar` crate's
   * `entries()` (None when it fails; a None member is an entry that fails
   * to read); and `read_zipfile_from_stream` called until it returns
   * nothing or fails, as the entries it returned.
   */
  datatype Foreign = Foreign(
    gunzip: seq<byte> -> seq<byte>,
    tar: seq<byte> -> Option<seq<Option<TarMember>>>,
    zip: seq<byte> -> seq<ZipMember>)

  /** The rows an extraction produces and how it ends. */
  datatype Plan = Plan(rows: seq<Row>, outcome: Result<Counts, ExtractError>)

  const Done := Plan([], Ok(NoCounts))
  const ReadOne := Counts(1, 0, 0, 0)
  const SkippedOne := Counts(0, 1, 0, 0)
  const Failed := Plan([], Err(Items.IO))

  /** `p` then `q`: nothing after a failure; rows concatenate and counts add up. */
  function Then(p: Plan, q: Plan): Plan
  {
    if p.outcome.Err? then p
    else Plan(p.rows + q.rows, match q.outcome
      case Err(e) => Err(e)
      case Ok(c) => Ok(p.outcome.value.Plus(c)))
  }

  /** The member loop: one plan per member, in order, stopping at the first failure. */
  function Fold(ps: seq<Plan>): Plan
    decreases |ps|
  {
    if ps == [] then Done else Then(Fold(ps[..|ps| - 1]), ps[|ps| - 1])
  }

  // ---------------------------------------------------------------------
  // The plan of an extraction. The budget `max_depth` falls by one on each
  // nesting, which is what bounds the recursion.

  /**
   * `add_archive_entry`: a member whose header size fails the size check
   * contributes nothing; one whose contents cannot be read fails; while the
   * depth budget lasts, a member in a known format is extracted in turn,
   * under the source "<source>/<path>" and with one level less; otherwise
   * it becomes one row, unless only text is kept and it is not UTF-8.
   */
  function EntryPlan(f: Foreign, source: string, opts: ExtractionOptions, size: u64, data: Option<seq<byte>>, path: string): Plan
    decreases opts.DepthBudget(), 0, 0
  {
    if !opts.CheckFileSize(size) then Done
    else if data.None? then Failed
    else
      var d := data.value;
      var detected := DetectType(f.gunzip, d, opts);
      if opts.maxDepth.Some? && detected.Ok? then
        FormatPlan(f, source + "/" + path, d, opts.DecrementMaxDepth(), detected.value)
      else if opts.onlyText && !Utf8.IsUtf8(d) then Done
      else Plan([Row(source, path, size, d)], Ok(ReadOne))
  }

  /** `Format::extract`: tar, tar over the gunzipped bytes, or zip. */
  function FormatPlan(f: Foreign, source: string, data: seq<byte>, opts: ExtractionOptions, format: Format): Plan
    decreases opts.DepthBudget(), 4, 0
  {
    match format
    case Tar => TarPlan(f, source, data, opts)
    case TarGz => TarPlan(f, source, f.gunzip(data), opts)
    case Zip => ZipPlan(f, source, data, opts)
  }

  /** tar.rs `extract`: a listing that cannot be obtained fails; otherwise the member loop. */
  function TarPlan(f: Foreign, source: string, data: seq<byte>, opts: ExtractionOptions): Plan
    decreases opts.DepthBudget(), 3, 0
  {
    var listing := f.tar(data);
    if listing.None? then Failed else Fold(TarMemberPlans(f, source, listing.value, opts))
  }

  function TarMemberPlans(f: Foreign, source: string, members: seq<Option<TarMember>>, opts: ExtractionOptions): (ps: seq<Plan>)
    ensures |ps| == |members|
    decreases opts.DepthBudget(), 2, 0
  {
    seq(|members|, i requires 0 <= i < |members| => TarMemberPlan(f, source, members[i], opts))
  }

  /**
   * One tar member: an entry that fails to read fails; a non-Regular
   * member, or one whose path cannot be had or is not UTF-8, is skipped; a
   * header size that cannot be parsed fails; otherwise `add_archive_entry`.
   */
  function TarMemberPlan(f: Foreign, source: string, member: Option<TarMember>, opts: ExtractionOptions): Plan
    decreases opts.DepthBudget(), 1, 0
  {
    match member
    case None => Failed
    case Some(m) =>
      if !m.regular || !m.path.Utf8Path? then Plan([], Ok(SkippedOne))
      else if m.size.None? then Failed
      else EntryPlan(f, source, opts, m.size.value, m.data, m.path.name)
  }

  /** zip.rs `extract`: the member loop over the entries the stream yields. */
  function ZipPlan(f: Foreign, source: string, data: seq<byte>, opts: ExtractionOptions): Plan
    decreases opts.DepthBudget(), 3, 0
  {
    Fold(ZipMemberPlans(f, source, f.zip(data), opts))
  }

  function ZipMemberPlans(f: Foreign, source: string, members: seq<ZipMember>, opts: ExtractionOptions): (ps: seq<Plan>)
    ensures |ps| == |members|
    decreases opts.DepthBudget(), 2, 0
  {
    seq(|members|, i requires 0 <= i < |members| => ZipMemberPlan(f, source, members[i], opts))
  }

  /** One zip entry: a non-file is skipped; a file goes to `add_archive_entry` with its name and size. */
  function ZipMemberPlan(f: Foreign, source: string, member: ZipMember, opts: ExtractionOptions): Plan
    decreases opts.DepthBudget(), 1, 0
  {
    if !member.isFile then Plan([], Ok(SkippedOne))
    else EntryPlan(f, source, opts, member.size, member.data, member.name)
  }

  // ---------------------------------------------------------------------
  // Running a plan against the row buffer.

  /** The buffer state and the result an extraction ends with. */
  datatype Extraction = Extraction(sink: Items.Sink, result: Result<Counts, ExtractError>)

  /** Add the plan's rows; a buffer failure is the result, otherwise the plan's outcome is. */
  function Run(cfg: Items.Config, s: Items.Sink, p: Plan): Extraction
  {
    var o := Items.AddAll(cfg, s, p.rows);
    Extraction(o.sink, if o.result.Err? then Err(o.result.error) else p.outcome)
  }

  /** An extraction has stopped when its plan failed or the buffer refused a row. */
  predicate Stopped(cfg: Items.Config, s: Items.Sink, p: Plan)
  {
    p.outcome.Err? || Items.AddAll(cfg, s, p.rows).result.Err?
  }

  lemma RunResult(cfg: Items.Config, s: Items.Sink, p: Plan)
    ensures Stopped(cfg, s, p) <==> Run(cfg, s, p).result.Err?
    ensures !Stopped(cfg, s, p) ==> Items.AddAll(cfg, s, p.rows) == Items.Outcome(Run(cfg, s, p).sink, Ok(()))
  {
  }

  /** After a stop, whatever follows changes nothing. */
  lemma ThenStopped(cfg: Items.Config, s: Items.Sink, p: Plan, q: Plan)
    requires Stopped(cfg, s, p)
    ensures Stopped(cfg, s, Then(p, q)) && Run(cfg, s, Then(p, q)) == Run(cfg, s, p)
  {
    if p.outcome.Ok? {
      Items.AddAllAppend(cfg, s, p.rows, q.rows);
    }
  }

  /** Without a stop, `q` runs from the state `p` left, and the counts add up. */
  lemma ThenRuns(cfg: Items.Config, s: Items.Sink, p: Plan, q: Plan)
    requires !Stopped(cfg, s, p)
    ensures var e := Run(cfg, Run(cfg, s, p).sink, q);
      && Run(cfg, s, Then(p, q)) == Extraction(e.sink, if e.result.Err? then Err(e.result.error) else Ok(p.outcome.value.Plus(e.result.value)))
      && (Stopped(cfg, s, Then(p, q)) <==> Stopped(cfg, Run(cfg, s, p).sink, q))
  {
    Items.AddAllAppend(cfg, s, p.rows, q.rows);
  }

  /** Once the member loop has stopped, the members after it do not matter. */
  lemma {:induction false} FoldStopped(cfg: Items.Config, s: Items.Sink, ps: seq<Plan>, k: nat)
    requires k <= |ps| && Stopped(cfg, s, Fold(ps[..k]))
    ensures Run(cfg, s, Fold(ps)) == Run(cfg, s, Fold(ps[..k]))
    decreases |ps| - k
  {
    if k == |ps| {
      assert ps[..k] == ps;
    } else {
      assert ps[..k + 1][..k] == ps[..k];
      ThenStopped(cfg, s, Fold(ps[..k]), ps[k]);
      FoldStopped(cfg, s, ps, k + 1);
    }
  }

  // ---------------------------------------------------------------------
  // What the member loop produces.

  /** The rows of the plans, one after another. */
  function Flatten(ps: seq<Plan>): seq<Row>
    decreases |ps|
  {
    if ps == [] then [] else Flatten(ps[..|ps| - 1]) + ps[|ps| - 1].rows
  }

  /** The counts of the plans that succeed. */
  function CountsOf(ps: seq<Plan>): (cs: seq<Counts>)
    ensures |cs| == |ps|
  {
    seq(|ps|, i requires 0 <= i < |ps| => if ps[i].outcome.Ok? then ps[i].outcome.value else NoCounts)
  }

  lemma CountsOfPrefix(ps: seq<Plan>, n: nat)
    requires n <= |ps|
    ensures CountsOf(ps[..n]) == CountsOf(ps)[..n]
  {
  }

  /** Every plan succeeds. */
  predicate AllOk(ps: seq<Plan>)
  {
    forall i :: 0 <= i < |ps| ==> ps[i].outcome.Ok?
  }

  /**
   * The member loop succeeds exactly when every member does; then it
   * produces every member's rows in order and the sum of their counts.
   */
  lemma {:induction false} FoldAllOk(ps: seq<Plan>)
    ensures Fold(ps).outcome.Ok? <==> AllOk(ps)
    ensures Fold(ps).outcome.Ok? ==> Fold(ps).rows == Flatten(ps) && Fold(ps).outcome.value == Sum(CountsOf(ps))
    decreases |ps|
  {
    if ps != [] {
      var n := |ps| - 1;
      FoldAllOk(ps[..n]);
      CountsOfPrefix(ps, n);
      assert CountsOf(ps)[..n] + [CountsOf(ps)[n]] == CountsOf(ps);
      SumAppend(CountsOf(ps)[..n], [CountsOf(ps)[n]]);
      assert Sum([CountsOf(ps)[n]]) == NoCounts.Plus(CountsOf(ps)[n]);
      FoldAllOkStep(ps);
    }
  }

  lemma FoldAllOkStep(ps: seq<Plan>)
    requires ps != []
    ensures AllOk(ps) <==> AllOk(ps[..|ps| - 1]) && ps[|ps| - 1].outcome.Ok?
  {
    var n := |ps| - 1;
    assert forall i :: 0 <= i < n ==> ps[..n][i] == ps[i];
  }

  /**
   * The first member that fails decides: the loop fails with its error,
   * after the rows of the members before it and its own.
   */
  lemma {:induction false} FoldFirstError(ps: seq<Plan>, k: nat)
    requires k < |ps| && ps[k].outcome.Err?
    requires forall i :: 0 <= i < k ==> ps[i].outcome.Ok?
    ensures Fold(ps).outcome == ps[k].outcome
    ensures Fold(ps).rows == Fold(ps[..k]).rows + ps[k].rows
    decreases |ps|
  {
    var n := |ps| - 1;
    if k == n {
      FoldAllOk(ps[..n]);
      assert forall i :: 0 <= i < n ==> ps[..n][i] == ps[i];
    } else {
      assert forall i :: 0 <= i < k ==> ps[..n][i] == ps[i];
      assert ps[..n][k] == ps[k];
      FoldFirstError(ps[..n], k);
      assert ps[..n][..k] == ps[..k];
    }
  }

  // ---------------------------------------------------------------------
  // Properties of one member.

  /** `fill_buffer`'s size check: a refused member adds no row and counts nothing. */
  lemma EntrySizeRefused(f: Foreign, source: string, opts: ExtractionOptions, size: u64, data: Option<seq<byte>>, path: string)
    requires !opts.CheckFileSize(size)
    ensures EntryPlan(f, source, opts, size, data, path) == Done
  {
  }

  /**
   * A tar holding one regular 11-byte member, extracted with a minimum
   * size of 1000: the member fails the size check and, as common.rs is
   * written, is counted neither as read nor as skipped, so the extraction
   * ends with no rows and zero counts rather than one read and one skipped.
   */
  lemma SmallTarMemberCountsNothing(f: Foreign, source: string, archive: seq<byte>, opts: ExtractionOptions, path: string, data: seq<byte>)
    requires opts.minFileSize == 1000 && |data| == 11
    requires f.tar(archive) == Some([Some(TarMember(true, Utf8Path(path), Some(11), Some(data)))])
    ensures TarPlan(f, source, archive, opts) == Done
    ensures TarPlan(f, source, archive, opts).outcome != Ok(Counts(1, 1, 0, 0))
  {
    var m := Some(TarMember(true, Utf8Path(path), Some(11), Some(data)));
    var ps := TarMemberPlans(f, source, [m], opts);
    assert ps == [TarMemberPlan(f, source, m, opts)];
    assert !opts.CheckFileSize(11);
    assert TarMemberPlan(f, source, m, opts) == EntryPlan(f, source, opts, 11, Some(data), path);
    EntrySizeRefused(f, source, opts, 11, Some(data), path);
    FoldOne(ps);
  }

  /** The member loop over one member that adds nothing adds nothing. */
  lemma FoldOne(ps: seq<Plan>)
    requires |ps| == 1 && ps[0] == Done
    ensures Fold(ps) == Done
  {
    assert ps[..0] == [];
    assert Fold(ps) == Then(Done, ps[0]);
    ThenZero(NoCounts);
  }

  lemma ThenZero(c: Counts)
    ensures Then(Done, Plan([], Ok(c))) == Plan([], Ok(c))
  {
    assert NoCounts.Plus(c) == c;
  }

  /**
   * Recursion happens only while the budget lasts and a format is detected;
   * the nested extraction gets one level less and the source
   * "<source>/<path>", and is the whole result.
   */
  lemma EntryRecurses(f: Foreign, source: string, opts: ExtractionOptions, size: u64, d: seq<byte>, path: string)
    requires opts.CheckFileSize(size) && opts.maxDepth.Some? && DetectType(f.gunzip, d, opts).Ok?
    ensures opts.DecrementMaxDepth().DepthBudget() == opts.DepthBudget() - 1
    ensures EntryPlan(f, source, opts, size, Some(d), path) ==
      FormatPlan(f, source + "/" + path, d, opts.DecrementMaxDepth(), DetectType(f.gunzip, d, opts).value)
  {
  }

  /**
   * Otherwise a member is a leaf: exactly one row with the given source,
   * path, header size and contents, counted as read; with only text and
   * contents that are not UTF-8, nothing.
   */
  lemma EntryLeaf(f: Foreign, source: string, opts: ExtractionOptions, size: u64, d: seq<byte>, path: string)
    requires opts.CheckFileSize(size)
    requires opts.maxDepth.None? || DetectType(f.gunzip, d, opts).Err?
    ensures !opts.onlyText || Utf8.IsUtf8(d) ==>
      EntryPlan(f, source, opts, size, Some(d), path) == Plan([Row(source, path, size, d)], Ok(ReadOne))
    ensures opts.onlyText && !Utf8.IsUtf8(d) ==> EntryPlan(f, source, opts, size, Some(d), path) == Done
  {
  }

  /**
   * With only text kept, a leaf member of ASCII bytes becomes its row, and
   * a one-byte member that is a lone continuation or lead byte is dropped.
   */
  lemma TextOnlyLeaf(f: Foreign, source: string, opts: ExtractionOptions, size: u64, d: seq<byte>, path: string)
    requires opts.onlyText && opts.CheckFileSize(size)
    requires opts.maxDepth.None? || DetectType(f.gunzip, d, opts).Err?
    ensures (forall i :: 0 <= i < |d| ==> d[i] < 0x80) ==>
      EntryPlan(f, source, opts, size, Some(d), path) == Plan([Row(source, path, size, d)], Ok(ReadOne))
    ensures |d| == 1 && (Utf8.Tail(d[0]) || d[0] >= 0xC2) ==> EntryPlan(f, source, opts, size, Some(d), path) == Done
  {
    if forall i :: 0 <= i < |d| ==> d[i] < 0x80 {
      Utf8.AsciiIsUtf8(d);
    }
    if |d| == 1 {
      Utf8.BrokenSequences(d[0]);
      assert d == [d[0]];
    }
  }

  /**
   * What every plan satisfies: each row lies under the source the
   * extraction started with, and a successful extraction counts one read
   * per row and nothing de-duplicated or written (those are the buffer's
   * and the writer's to count).
   */
  predicate Accounted(p: Plan, source: string)
  {
    && (forall r :: r in p.rows ==> source <= r.source)
    && (p.outcome.Ok? ==> p.outcome.value.read == |p.rows| && p.outcome.value.deduplicated == 0 && p.outcome.value.written == 0)
  }

  lemma {:induction false} EntryAccounted(f: Foreign, source: string, opts: ExtractionOptions, size: u64, data: Option<seq<byte>>, path: string)
    ensures Accounted(EntryPlan(f, source, opts, size, data, path), source)
    decreases opts.DepthBudget(), 0, 0
  {
    if opts.CheckFileSize(size) && data.Some? {
      var d := data.value;
      var detected := DetectType(f.gunzip, d, opts);
      if opts.maxDepth.Some? && detected.Ok? {
        var inner := source + "/" + path;
        FormatAccounted(f, inner, d, opts.DecrementMaxDepth(), detected.value);
        assert source <= inner;
      }
    }
  }

  lemma {:induction false} FormatAccounted(f: Foreign, source: string, data: seq<byte>, opts: ExtractionOptions, format: Format)
    ensures Accounted(FormatPlan(f, source, data, opts, format), source)
    decreases opts.DepthBudget(), 4, 0
  {
    match format
    case Tar => TarAccounted(f, source, data, opts);
    case TarGz => TarAccounted(f, source, f.gunzip(data), opts);
    case Zip => ZipAccounted(f, source, data, opts);
  }

  lemma {:induction false} TarAccounted(f: Foreign, source: string, data: seq<byte>, opts: ExtractionOptions)
    ensures Accounted(TarPlan(f, source, data, opts), source)
    decreases opts.DepthBudget(), 3, 0
  {
    var listing := f.tar(data);
    if listing.Some? {
      var ps := TarMemberPlans(f, source, listing.value, opts);
      forall i | 0 <= i < |ps|
        ensures Accounted(ps[i], source)
      {
        var m := listing.value[i];
        assert ps[i] == TarMemberPlan(f, source, m, opts);
        if m.Some? && m.value.regular && m.value.path.Utf8Path? && m.value.size.Some? {
          EntryAccounted(f, source, opts, m.value.size.value, m.value.data, m.value.path.name);
        }
      }
      FoldAccounted(ps, source);
    }
  }

  lemma {:induction false} ZipAccounted(f: Foreign, source: string, data: seq<byte>, opts: ExtractionOptions)
    ensures Accounted(ZipPlan(f, source, data, opts), source)
    decreases opts.DepthBudget(), 3, 0
  {
    var members := f.zip(data);
    var ps := ZipMemberPlans(f, source, members, opts);
    forall i | 0 <= i < |ps|
      ensures Accounted(ps[i], source)
    {
      assert ps[i] == ZipMemberPlan(f, source, members[i], opts);
      if members[i].isFile {
        EntryAccounted(f, source, opts, members[i].size, members[i].data, members[i].name);
      }
    }
    FoldAccounted(ps, source);
  }

  /** The member loop is accounted for when each member is. */
  lemma {:induction false} FoldAccounted(ps: seq<Plan>, source: string)
    requires forall i :: 0 <= i < |ps| ==> Accounted(ps[i], source)
    ensures Accounted(Fold(ps), source)
    decreases |ps|
  {
    if ps != [] {
      var n := |ps| - 1;
      assert forall i :: 0 <= i < n ==> ps[..n][i] == ps[i];
      FoldAccounted(ps[..n], source);
    }
  }

  /** Without a depth budget no member is entered: each is one row or nothing. */
  lemma NoBudgetNoRecursion(f: Foreign, source: string, opts: ExtractionOptions, size: u64, data: Option<seq<byte>>, path: string)
    requires opts.maxDepth.None?
    ensures var p := EntryPlan(f, source, opts, size, data, path);
      p == Done || p == Failed || (data.Some? && p == Plan([Row(source, path, size, data.value)], Ok(ReadOne)))
  {
  }

  /**
   * The tar member rules: an unreadable entry or header size fails; a
   * non-Regular member and one without a UTF-8 path count one skip and add
   * no row; the rest go to `add_archive_entry` with header size and path.
   */
  lemma TarMemberRules(f: Foreign, source: string, m: TarMember, opts: ExtractionOptions)
    ensures TarMemberPlan(f, source, None, opts) == Failed
    ensures !m.regular ==> TarMemberPlan(f, source, Some(m), opts) == Plan([], Ok(SkippedOne))
    ensures m.regular && !m.path.Utf8Path? ==> TarMemberPlan(f, source, Some(m), opts) == Plan([], Ok(SkippedOne))
    ensures m.regular && m.path.Utf8Path? && m.size.None? ==> TarMemberPlan(f, source, Some(m), opts) == Failed
    ensures m.regular && m.path.Utf8Path? && m.size.Some? ==>
      TarMemberPlan(f, source, Some(m), opts) == EntryPlan(f, source, opts, m.size.value, m.data, m.path.name)
  {
  }

  /** The zip member rules: a non-file counts one skip; a file goes to `add_archive_entry`. */
  lemma ZipMemberRules(f: Foreign, source: string, m: ZipMember, opts: ExtractionOptions)
    ensures !m.isFile ==> ZipMemberPlan(f, source, m, opts) == Plan([], Ok(SkippedOne))
    ensures m.isFile ==> ZipMemberPlan(f, source, m, opts) == EntryPlan(f, source, opts, m.size, m.data, m.name)
  {
  }

  /** `extract` dispatch: tar, gzip-decoded tar, zip. */
  lemma FormatDispatch(f: Foreign, source: string, data: seq<byte>, opts: ExtractionOptions)
    ensures FormatPlan(f, source, data, opts, Tar) == TarPlan(f, source, data, opts)
    ensures FormatPlan(f, source, data, opts, TarGz) == TarPlan(f, source, f.gunzip(data), opts)
    ensures FormatPlan(f, source, data, opts, Zip) == ZipPlan(f, source, data, opts)
  {
  }

  // ---------------------------------------------------------------------
  // The imperative extraction.

  /** The byte buffer a member loop shares among its members. */
  class Buffer {
    var data: seq<byte>

    constructor ()
      ensures data == []
    {
      data := [];
    }
  }

  /**
   * `fill_buffer`: the buffer is cleared first; a member refused by the size
   * check leaves it empty; otherwise the member is read into it.
   */
  method FillBuffer(entry: Option<seq<byte>>, size: u64, opts: ExtractionOptions, buffer: Buffer) returns (r: Result<Option<seq<byte>>, ExtractError>)
    modifies buffer
    ensures !opts.CheckFileSize(size) ==> r == Ok(None) && buffer.data == []
    ensures opts.CheckFileSize(size) && entry.None? ==> r == Err(Items.IO) && buffer.data == []
    ensures opts.CheckFileSize(size) && entry.Some? ==> r == Ok(Some(entry.value)) && buffer.data == entry.value
  {
    buffer.data := [];
    if !opts.CheckFileSize(size) {
      return Ok(None);
    }
    if entry.None? {
      return Err(Items.IO);
    }
    buffer.data := buffer.data + entry.value;
    assert buffer.data == entry.value;
    r := Ok(Some(buffer.data));
  }

  /** A single row, added through `add_record` / `add_text_record`, runs as `Items.AddSpec`. */
  lemma RunOneRow(cfg: Items.Config, s: Items.Sink, row: Row)
    ensures var o := Items.AddSpec(cfg, s, row);
      Run(cfg, s, Plan([row], Ok(ReadOne))) == Extraction(o.sink, if o.result.Err? then Err(o.result.error) else Ok(ReadOne))
  {
    assert [row][..0] == [];
    assert Items.AddAll(cfg, s, []) == Items.Outcome(s, Ok(()));
    assert Items.AddAll(cfg, s, [row]) == Items.AddSpec(cfg, s, row);
  }

  /** `add_archive_entry`, proved against `EntryPlan`. */
  method AddArchiveEntry(f: Foreign, source: string, items: Items.Items, opts: ExtractionOptions, size: u64, entry: Option<seq<byte>>, path: string, buffer: Buffer)
    returns (r: Result<Counts, ExtractError>)
    requires items.Valid() && items.options.onlyText == opts.onlyText
    modifies items, items.output, buffer
    ensures items.Valid()
    ensures Extraction(items.State(), r) == Run(items.Cfg(), old(items.State()), EntryPlan(f, source, opts, size, entry, path))
    decreases opts.DepthBudget(), 0, 0
  {
    var filled := FillBuffer(entry, size, opts, buffer);
    if filled.Err? {
      return Err(filled.error);
    }
    if filled.value.None? {
      return Ok(NoCounts);
    }
    var data := filled.value.value;
    if opts.maxDepth.Some? {
      var detected := DetectType(f.gunzip, data, opts);
      if detected.Ok? {
        r := Extract(f, detected.value, source + "/" + path, data, items, opts.DecrementMaxDepth());
        return;
      }
    }
    RunOneRow(items.Cfg(), items.State(), Row(source, path, size, data));
    if opts.onlyText {
      if Utf8.IsUtf8(data) {
        var added := items.AddTextRecord(source, path, size, data);
        if added.Err? {
          return Err(added.error);
        }
      } else {
        return Ok(NoCounts);
      }
    } else {
      var added := items.AddRecord(source, path, size, data);
      if added.Err? {
        return Err(added.error);
      }
    }
    r := Ok(ReadOne);
  }

  /** `Format::extract`, proved against `FormatPlan`. */
  method Extract(f: Foreign, format: Format, source: string, data: seq<byte>, items: Items.Items, opts: ExtractionOptions)
    returns (r: Result<Counts, ExtractError>)
    requires items.Valid() && items.options.onlyText == opts.onlyText
    modifies items, items.output
    ensures items.Valid()
    ensures Extraction(items.State(), r) == Run(items.Cfg(), old(items.State()), FormatPlan(f, source, data, opts, format))
    decreases opts.DepthBudget(), 4, 0
  {
    match format
    case Tar => r := TarExtract(f, source, data, items, opts);
    case TarGz => r := TarExtract(f, source, f.gunzip(data), items, opts);
    case Zip => r := ZipExtract(f, source, data, items, opts);
  }

  /** tar.rs `extract`, proved against `TarPlan`. */
  method TarExtract(f: Foreign, source: string, data: seq<byte>, items: Items.Items, opts: ExtractionOptions)
    returns (r: Result<Counts, ExtractError>)
    requires items.Valid() && items.options.onlyText == opts.onlyText
    modifies items, items.output
    ensures items.Valid()
    ensures Extraction(items.State(), r) == Run(items.Cfg(), old(items.State()), TarPlan(f, source, data, opts))
    decreases opts.DepthBudget(), 3, 0
  {
    var listing := f.tar(data);
    if listing.None? {
      assert Items.AddAll(items.Cfg(), items.State(), []) == Items.Outcome(items.State(), Ok(()));
      return Err(Items.IO);
    }
    var members := listing.value;
    ghost var ps := TarMemberPlans(f, source, members, opts);
    ghost var s0 := items.State();
    var buffer := new Buffer();
    var counts := NoCounts;
    for i := 0 to |members|
      invariant items.Valid()
      invariant Fold(ps[..i]).outcome == Ok(counts)
      invariant Items.AddAll(items.Cfg(), s0, Fold(ps[..i]).rows) == Items.Outcome(items.State(), Ok(()))
    {
      ghost var si := items.State();
      assert ps[i] == TarMemberPlan(f, source, members[i], opts);
      match members[i]
      case None =>
        StopAt(items.Cfg(), s0, ps, i, si);
        return Err(Items.IO);
      case Some(m) =>
        if !m.regular || !m.path.Utf8Path? {
          StepSkip(items.Cfg(), s0, ps, i, si, counts);
          counts := counts.Skip();
        } else if m.size.None? {
          StopAt(items.Cfg(), s0, ps, i, si);
          return Err(Items.IO);
        } else {
          var c := AddArchiveEntry(f, source, items, opts, m.size.value, m.data, m.path.name, buffer);
          StepEntry(items.Cfg(), s0, ps, i, si, counts, items.State(), c);
          if c.Err? {
            return c;
          }
          counts := counts.Plus(c.value);
        }
    }
    assert ps[..|members|] == ps;
    r := Ok(counts);
  }

  /** A member that fails on its own stops the loop there, whatever the buffer holds. */
  lemma StopAt(cfg: Items.Config, s0: Items.Sink, ps: seq<Plan>, i: nat, si: Items.Sink)
    requires i < |ps| && ps[i] == Failed
    requires Fold(ps[..i]).outcome.Ok?
    requires Items.AddAll(cfg, s0, Fold(ps[..i]).rows) == Items.Outcome(si, Ok(()))
    ensures Run(cfg, s0, Fold(ps)) == Extraction(si, Err(Items.IO))
  {
    assert ps[..i + 1][..i] == ps[..i];
    ThenRuns(cfg, s0, Fold(ps[..i]), ps[i]);
    assert Items.AddAll(cfg, si, []) == Items.Outcome(si, Ok(()));
    FoldStopped(cfg, s0, ps, i + 1);
  }

  /** A skipped member adds a skip to the counts and nothing to the buffer. */
  lemma StepSkip(cfg: Items.Config, s0: Items.Sink, ps: seq<Plan>, i: nat, si: Items.Sink, counts: Counts)
    requires i < |ps| && ps[i] == Plan([], Ok(SkippedOne))
    requires Fold(ps[..i]).outcome == Ok(counts)
    requires Items.AddAll(cfg, s0, Fold(ps[..i]).rows) == Items.Outcome(si, Ok(()))
    ensures Fold(ps[..i + 1]).outcome == Ok(counts.Skip())
    ensures Items.AddAll(cfg, s0, Fold(ps[..i + 1]).rows) == Items.Outcome(si, Ok(()))
  {
    assert ps[..i + 1][..i] == ps[..i];
    assert Fold(ps[..i]).rows + [] == Fold(ps[..i]).rows;
  }

  /**
   * A member handed to `add_archive_entry` that ended in state `s1` with
   * result `c`: on success the loop goes on with the counts added; on a
   * failure the whole loop ends there with that failure.
   */
  lemma StepEntry(cfg: Items.Config, s0: Items.Sink, ps: seq<Plan>, i: nat, si: Items.Sink, counts: Counts, s1: Items.Sink, c: Result<Counts, ExtractError>)
    requires i < |ps|
    requires Fold(ps[..i]).outcome == Ok(counts)
    requires Items.AddAll(cfg, s0, Fold(ps[..i]).rows) == Items.Outcome(si, Ok(()))
    requires Extraction(s1, c) == Run(cfg, si, ps[i])
    ensures c.Ok? ==> Fold(ps[..i + 1]).outcome == Ok(counts.Plus(c.value))
    ensures c.Ok? ==> Items.AddAll(cfg, s0, Fold(ps[..i + 1]).rows) == Items.Outcome(s1, Ok(()))
    ensures c.Err? ==> Run(cfg, s0, Fold(ps)) == Extraction(s1, c)
  {
    var before := Fold(ps[..i]);
    assert ps[..i + 1][..i] == ps[..i];
    assert Fold(ps[..i + 1]) == Then(before, ps[i]);
    assert Run(cfg, s0, before) == Extraction(si, Ok(counts));
    ThenRuns(cfg, s0, before, ps[i]);
    if c.Err? {
      RunResult(cfg, si, ps[i]);
      FoldStopped(cfg, s0, ps, i + 1);
    } else {
      RunResult(cfg, s0, Fold(ps[..i + 1]));
    }
  }

  /** zip.rs `extract`, proved against `ZipPlan`. */
  method ZipExtract(f: Foreign, source: string, data: seq<byte>, items: Items.Items, opts: ExtractionOptions)
    returns (r: Result<Counts, ExtractError>)
    requires items.Valid() && items.options.onlyText == opts.onlyText
    modifies items, items.output
    ensures items.Valid()
    ensures Extraction(items.State(), r) == Run(items.Cfg(), old(items.State()), ZipPlan(f, source, data, opts))
    decreases opts.DepthBudget(), 3, 0
  {
    var members := f.zip(data);
    ghost var ps := ZipMemberPlans(f, source, members, opts);
    ghost var s0 := items.State();
    var buffer := new Buffer();
    var counts := NoCounts;
    for i := 0 to |members|
      invariant items.Valid()
      invariant Fold(ps[..i]).outcome == Ok(counts)
      invariant Items.AddAll(items.Cfg(), s0, Fold(ps[..i]).rows) == Items.Outcome(items.State(), Ok(()))
    {
      ghost var si := items.State();
      var m := members[i];
      assert ps[i] == ZipMemberPlan(f, source, m, opts);
      if !m.isFile {
        StepSkip(items.Cfg(), s0, ps, i, si, counts);
        counts := counts.Skip();
      } else {
        var c := AddArchiveEntry(f, source, items, opts, m.size, m.data, m.name, buffer);
        StepEntry(items.Cfg(), s0, ps, i, si, counts, items.State(), c);
        if c.Err? {
          return c;
        }
        counts := counts.Plus(c.value);
      }
    }
    assert ps[..|members|] == ps;
    r := Ok(counts);
  }
}
