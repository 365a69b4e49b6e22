/**
 * The archive walkers (src/anyreader_walker/walkers/tarfile.rs and
 * zipfile.rs): each pulls the members of an archive in order and hands the
 * regular, non-empty ones to a visitor as `FileEntry` values.
 *
 * Both loops are specified by one walk over `Item`s, each member classified
 * first as the loop would see it; `Steps` is that walk, `Visits` the entries
 * a walk that meets no failure hands over.
 */
module Walkers {
  import opened Base
  import opened Entry

  datatype WalkError = Io

  /** A tar member: header type, path (None when `path()` fails), header size, contents (None when `from_reader` fails). */
  datatype TarEntry = TarEntry(regular: bool, path: Option<string>, size: u64, data: Option<seq<byte>>)

  /** A zip entry from the stream: file or not, name, size, contents (None when `from_reader` fails). */
  datatype ZipEntry = ZipEntry(isFile: bool, name: string, size: u64, data: Option<seq<byte>>)

  /**
   * A member as the walk loop sees it: one that ends the loop silently, one
   * passed over, one the loop fails on, or one handed to the visitor.
   */
  datatype Item = Broken | Passed | Unreadable | Candidate(path: string, size: u64, data: seq<byte>)

  /** How far a walk has got. */
  datatype Status = Going | Ended | Failed

  datatype Walk = Walk(walked: seq<FileEntry>, status: Status)

  /** One member of the walk; `refuses` says which entries the visitor's `walk` fails on. */
  function Step(w: Walk, it: Item, classify: seq<byte> -> AnyFormat, refuses: FileEntry -> bool): Walk
  {
    match it
    case Broken => w.(status := Ended)
    case Passed => w
    case Unreadable => w.(status := Failed)
    case Candidate(path, size, data) =>
      var e := NewEntry(path, size, classify(data));
      Walk(w.walked + [e], if refuses(e) then Failed else Going)
  }

  /** The walk loop over the members, in order, until it ends or fails. */
  function Steps(items: seq<Item>, classify: seq<byte> -> AnyFormat, refuses: FileEntry -> bool): Walk
    decreases |items|
  {
    if items == [] then Walk([], Going)
    else
      var w := Steps(items[..|items| - 1], classify, refuses);
      if w.status != Going then w else Step(w, items[|items| - 1], classify, refuses)
  }

  /** The entries of the candidates, in order: what a walk that meets no failure visits. */
  function Visits(items: seq<Item>, classify: seq<byte> -> AnyFormat): seq<FileEntry>
    decreases |items|
  {
    if items == [] then []
    else
      var it := items[|items| - 1];
      Visits(items[..|items| - 1], classify) + (if it.Candidate? then [NewEntry(it.path, it.size, classify(it.data))] else [])
  }

  /** `visit` fails exactly when the walk failed. */
  function ResultOf(w: Walk): (r: Result<(), WalkError>)
    ensures r.Err? <==> w.status == Failed
  {
    if w.status == Failed then Err(Io) else Ok(())
  }

  // ---------------------------------------------------------------------
  // The two walkers.

  /**
   * tarfile.rs: a member that fails to read ends the walk; a non-Regular or
   * empty member is passed over; a path that cannot be had, or a reader that
   * cannot be classified, fails the walk; the rest are visited with their
   * header path and size.
   */
  function TarItem(m: Option<TarEntry>): Item
  {
    match m
    case None => Broken
    case Some(t) =>
      if !t.regular || t.size == 0 then Passed
      else if t.path.None? || t.data.None? then Unreadable
      else Candidate(t.path.value, t.size, t.data.value)
  }

  function TarItems(ms: seq<Option<TarEntry>>): (items: seq<Item>)
    ensures |items| == |ms|
  {
    seq(|ms|, i requires 0 <= i < |ms| => TarItem(ms[i]))
  }

  /** `TarWalker::visit`: a listing that cannot be had (None) fails; otherwise the walk over its members. */
  function TarWalk(listing: Option<seq<Option<TarEntry>>>, classify: seq<byte> -> AnyFormat, refuses: FileEntry -> bool): Walk
  {
    if listing.None? then Walk([], Failed) else Steps(TarItems(listing.value), classify, refuses)
  }

  /**
   * zipfile.rs: the stream's entries (it ends silently at its end or on a
   * read error); a non-file or empty entry is passed over; a reader that
   * cannot be classified fails; the rest are visited with name and size.
   */
  function ZipItem(m: ZipEntry): Item
  {
    if !m.isFile || m.size == 0 then Passed
    else if m.data.None? then Unreadable
    else Candidate(m.name, m.size, m.data.value)
  }

  function ZipItems(ms: seq<ZipEntry>): (items: seq<Item>)
    ensures |items| == |ms|
  {
    seq(|ms|, i requires 0 <= i < |ms| => ZipItem(ms[i]))
  }

  // ---------------------------------------------------------------------
  // Properties of the walk.

  /** Once a walk has ended or failed, the members after it do not matter. */
  lemma {:induction false} StepsSticky(items: seq<Item>, classify: seq<byte> -> AnyFormat, refuses: FileEntry -> bool, k: nat)
    requires k <= |items| && Steps(items[..k], classify, refuses).status != Going
    ensures Steps(items, classify, refuses) == Steps(items[..k], classify, refuses)
    decreases |items| - k
  {
    if k == |items| {
      assert items[..k] == items;
    } else {
      assert items[..k + 1][..k] == items[..k];
      StepsSticky(items, classify, refuses, k + 1);
    }
  }

  /**
   * The walk visits candidates only, in order: what it has visited is a
   * prefix of `Visits`, and all of it while the walk is still going.
   */
  lemma {:induction false} StepsVisitCandidates(items: seq<Item>, classify: seq<byte> -> AnyFormat, refuses: FileEntry -> bool)
    ensures Steps(items, classify, refuses).walked <= Visits(items, classify)
    ensures Steps(items, classify, refuses).status == Going ==> Steps(items, classify, refuses).walked == Visits(items, classify)
    decreases |items|
  {
    if items != [] {
      var n := |items| - 1;
      StepsVisitCandidates(items[..n], classify, refuses);
    }
  }

  /** No member that ends or fails the walk, and a visitor that refuses nothing: the walk visits every candidate. */
  lemma {:induction false} StepsClean(items: seq<Item>, classify: seq<byte> -> AnyFormat, refuses: FileEntry -> bool)
    requires forall i :: 0 <= i < |items| ==> items[i] != Broken && items[i] != Unreadable
    requires forall e :: e in Visits(items, classify) ==> !refuses(e)
    ensures Steps(items, classify, refuses) == Walk(Visits(items, classify), Going)
    decreases |items|
  {
    if items != [] {
      var n := |items| - 1;
      assert forall i :: 0 <= i < n ==> items[..n][i] == items[i];
      StepsClean(items[..n], classify, refuses);
    }
  }

  /** A member that fails to read ends the walk there without an error. */
  lemma StepsEndAtBroken(items: seq<Item>, classify: seq<byte> -> AnyFormat, refuses: FileEntry -> bool, k: nat)
    requires k < |items| && items[k] == Broken && Steps(items[..k], classify, refuses).status == Going
    ensures Steps(items, classify, refuses) == Walk(Steps(items[..k], classify, refuses).walked, Ended)
    ensures ResultOf(Steps(items, classify, refuses)) == Ok(())
  {
    StepsOneMore(items, classify, refuses, k);
    StepsSticky(items, classify, refuses, k + 1);
  }

  /** A visitor failure aborts the walk on that entry: nothing after it is visited. */
  lemma StepsAbortOnRefusal(items: seq<Item>, classify: seq<byte> -> AnyFormat, refuses: FileEntry -> bool, k: nat)
    requires k < |items| && items[k].Candidate? && Steps(items[..k], classify, refuses).status == Going
    requires refuses(NewEntry(items[k].path, items[k].size, classify(items[k].data)))
    ensures Steps(items, classify, refuses).walked == Steps(items[..k], classify, refuses).walked + [NewEntry(items[k].path, items[k].size, classify(items[k].data))]
    ensures ResultOf(Steps(items, classify, refuses)) == Err(Io)
  {
    var w := Steps(items[..k], classify, refuses);
    var e := NewEntry(items[k].path, items[k].size, classify(items[k].data));
    StepsOneMore(items, classify, refuses, k);
    StepRefused(w, items[k], classify, refuses);
    StepsSticky(items, classify, refuses, k + 1);
    assert Steps(items, classify, refuses) == Walk(w.walked + [e], Failed);
  }

  /** A candidate the visitor refuses is recorded and fails the walk. */
  lemma StepRefused(w: Walk, it: Item, classify: seq<byte> -> AnyFormat, refuses: FileEntry -> bool)
    requires it.Candidate? && refuses(NewEntry(it.path, it.size, classify(it.data)))
    ensures Step(w, it, classify, refuses) == Walk(w.walked + [NewEntry(it.path, it.size, classify(it.data))], Failed)
  {
  }

  /** The walk over one more member is one more step, while the walk is going. */
  lemma StepsOneMore(items: seq<Item>, classify: seq<byte> -> AnyFormat, refuses: FileEntry -> bool, k: nat)
    requires k < |items| && Steps(items[..k], classify, refuses).status == Going
    ensures Steps(items[..k + 1], classify, refuses) == Step(Steps(items[..k], classify, refuses), items[k], classify, refuses)
  {
    var p := items[..k + 1];
    assert p[..k] == items[..k] && p[k] == items[k];
  }

  /** The entries the visitor gets are those of candidates: non-empty, with the candidate's path and size. */
  lemma {:induction false} VisitsFromCandidates(items: seq<Item>, classify: seq<byte> -> AnyFormat)
    requires forall i :: 0 <= i < |items| && items[i].Candidate? ==> items[i].size > 0
    ensures forall e :: e in Visits(items, classify) ==> e.Size() > 0
    ensures forall e :: e in Visits(items, classify) ==>
      exists i :: 0 <= i < |items| && items[i].Candidate? && e == NewEntry(items[i].path, items[i].size, classify(items[i].data))
    decreases |items|
  {
    if items != [] {
      var n := |items| - 1;
      assert forall i :: 0 <= i < n ==> items[..n][i] == items[i];
      VisitsFromCandidates(items[..n], classify);
    }
  }

  /** tarfile.rs's filter: only Regular, non-empty members with a path become candidates, with the header path and size. */
  lemma TarItemRules(m: TarEntry)
    ensures TarItem(None) == Broken
    ensures !m.regular || m.size == 0 ==> TarItem(Some(m)) == Passed
    ensures TarItem(Some(m)).Candidate? <==> m.regular && m.size > 0 && m.path.Some? && m.data.Some?
    ensures TarItem(Some(m)).Candidate? ==> TarItem(Some(m)) == Candidate(m.path.value, m.size, m.data.value)
  {
  }

  /** zipfile.rs's filter: only non-empty files become candidates, with the entry name and size. */
  lemma ZipItemRules(m: ZipEntry)
    ensures !m.isFile || m.size == 0 ==> ZipItem(m) == Passed
    ensures ZipItem(m).Candidate? <==> m.isFile && m.size > 0 && m.data.Some?
    ensures ZipItem(m).Candidate? ==> ZipItem(m) == Candidate(m.name, m.size, m.data.value)
    ensures ZipItem(m) != Broken
  {
  }

  // ---------------------------------------------------------------------
  // The walkers as loops over a mutable visitor.

  /** A visitor: it records every entry it is handed; `refuses` says on which its `walk` fails. */
  class Visitor {
    var walked: seq<FileEntry>
    const refuses: FileEntry -> bool

    constructor (refuses: FileEntry -> bool)
      ensures walked == [] && this.refuses == refuses
    {
      walked := [];
      this.refuses := refuses;
    }

    /** `AnyWalker::walk`. */
    method Walk(e: FileEntry) returns (r: Result<(), WalkError>)
      modifies this
      ensures walked == old(walked) + [e]
      ensures r == if refuses(e) then Err(Io) else Ok(())
    {
      walked := walked + [e];
      r := if refuses(e) then Err(Io) else Ok(());
    }
  }

  /** `TarWalker::visit`, proved against `TarWalk`. */
  method TarVisit(listing: Option<seq<Option<TarEntry>>>, classify: seq<byte> -> AnyFormat, visitor: Visitor)
    returns (r: Result<(), WalkError>)
    modifies visitor
    ensures visitor.walked == old(visitor.walked) + TarWalk(listing, classify, visitor.refuses).walked
    ensures r == ResultOf(TarWalk(listing, classify, visitor.refuses))
  {
    if listing.None? {
      assert old(visitor.walked) + [] == visitor.walked;
      return Err(Io);
    }
    var ms := listing.value;
    ghost var items := TarItems(ms);
    ghost var w0 := visitor.walked;
    var i := 0;
    while i < |ms|
      invariant 0 <= i <= |ms|
      invariant Steps(items[..i], classify, visitor.refuses).status == Going
      invariant visitor.walked == w0 + Steps(items[..i], classify, visitor.refuses).walked
    {
      assert items[..i + 1][..i] == items[..i];
      assert items[i] == TarItem(ms[i]);
      if ms[i].None? {
        StepsSticky(items, classify, visitor.refuses, i + 1);
        return Ok(());
      }
      var t := ms[i].value;
      if !t.regular || t.size == 0 {
        i := i + 1;
        continue;
      }
      if t.path.None? || t.data.None? {
        StepsSticky(items, classify, visitor.refuses, i + 1);
        return Err(Io);
      }
      var e := NewEntry(t.path.value, t.size, classify(t.data.value));
      var walked := visitor.Walk(e);
      if walked.Err? {
        StepsSticky(items, classify, visitor.refuses, i + 1);
        return walked;
      }
      i := i + 1;
    }
    assert items[..|ms|] == items;
    r := Ok(());
  }

  /** `ZipWalker::visit`, proved against `Steps` over the zip entries. */
  method ZipVisit(ms: seq<ZipEntry>, classify: seq<byte> -> AnyFormat, visitor: Visitor)
    returns (r: Result<(), WalkError>)
    modifies visitor
    ensures visitor.walked == old(visitor.walked) + Steps(ZipItems(ms), classify, visitor.refuses).walked
    ensures r == ResultOf(Steps(ZipItems(ms), classify, visitor.refuses))
  {
    ghost var items := ZipItems(ms);
    ghost var w0 := visitor.walked;
    var i := 0;
    while i < |ms|
      invariant 0 <= i <= |ms|
      invariant Steps(items[..i], classify, visitor.refuses).status == Going
      invariant visitor.walked == w0 + Steps(items[..i], classify, visitor.refuses).walked
    {
      assert items[..i + 1][..i] == items[..i];
      assert items[i] == ZipItem(ms[i]);
      var m := ms[i];
      if !m.isFile || m.size == 0 {
        i := i + 1;
        continue;
      }
      if m.data.None? {
        StepsSticky(items, classify, visitor.refuses, i + 1);
        return Err(Io);
      }
      var e := NewEntry(m.name, m.size, classify(m.data.value));
      var walked := visitor.Walk(e);
      if walked.Err? {
        StepsSticky(items, classify, visitor.refuses, i + 1);
        return walked;
      }
      i := i + 1;
    }
    assert items[..|ms|] == items;
    r := Ok(());
  }

  /** `FileWalker::visit`: the entry itself is handed to the visitor. */
  method FileVisit(e: FileEntry, visitor: Visitor) returns (r: Result<(), WalkError>)
    modifies visitor
    ensures visitor.walked == old(visitor.walked) + [e]
    ensures r.Err? <==> visitor.refuses(e)
  {
    r := visitor.Walk(e);
  }
}
