/**
 * The earlier record builder (src/items.rs): one archive's rows held as
 * columns, turned into a record batch with one SHA-256 digest per row and
 * the archive's source repeated on every row.
 */
module LegacyItems {
  import opened Base
  import opened Records
  import opened Output

  /** An Arrow column, by element type. `Binaries` may hold nulls. */
  datatype Column =
    | Strings(strings: seq<string>)
    | U64s(values: seq<u64>)
    | Binaries(blobs: seq<Option<seq<byte>>>)
    | Hashes(digests: seq<Digest>)
  {
    function Len(): nat
    {
      match this
      case Strings(xs) => |xs|
      case U64s(xs) => |xs|
      case Binaries(xs) => |xs|
      case Hashes(xs) => |xs|
    }

    predicate HasNulls()
    {
      Binaries? && exists i :: 0 <= i < |blobs| && blobs[i].None?
    }

    /** The Arrow type the column's builder produces. */
    function Type(): DataType
    {
      match this
      case Strings(_) => Utf8View
      case U64s(_) => UInt64
      case Binaries(_) => BinaryView
      case Hashes(_) => FixedSizeBinary(HashWidth)
    }
  }

  /** `RecordBatch::try_new` refuses columns that do not fit the schema. */
  datatype BatchError = InvalidArgument

  /** One column per field, each of the field's type, no nulls in a non-nullable field, every column the same length. */
  predicate Fits(schema: Schema, columns: seq<Column>)
  {
    && |schema| == |columns|
    && (forall i :: 0 <= i < |columns| ==> columns[i].Type() == schema[i].dataType)
    && (forall i :: 0 <= i < |columns| ==> !schema[i].nullable ==> !columns[i].HasNulls())
    && (forall i :: 0 <= i < |columns| ==> columns[i].Len() == columns[0].Len())
  }

  function TryNew(schema: Schema, columns: seq<Column>): Result<seq<Column>, BatchError>
  {
    if Fits(schema, columns) then Ok(columns) else Err(InvalidArgument)
  }

  /** The bytes a row hashes: nothing for a null row. */
  function Bytes(d: Option<seq<byte>>): seq<byte>
  {
    if d.Some? then d.value else []
  }

  /** The hash column: each row's digest of its own bytes alone. */
  function RowHashes(sha: seq<byte> -> Digest, data: seq<Option<seq<byte>>>): (hs: seq<Digest>)
    ensures |hs| == |data|
  {
    seq<Digest>(|data|, i requires 0 <= i < |data| => sha(Bytes(data[i])))
  }

  /** The columns in batch order: source, path, size, content, hash. */
  function BatchColumns(source: string, paths: seq<string>, sizes: seq<u64>, data: seq<Option<seq<byte>>>, sha: seq<byte> -> Digest): seq<Column>
  {
    [Strings(seq(|data|, _ => source)), Strings(paths), U64s(sizes), Binaries(data), Hashes(RowHashes(sha, data))]
  }

  /**
   * A row's digest depends on that row's bytes only: two batches agreeing
   * on row `i` agree on its digest, and a null row has the digest of no
   * bytes.
   */
  lemma HashDependsOnRowOnly(sha: seq<byte> -> Digest, a: seq<Option<seq<byte>>>, b: seq<Option<seq<byte>>>, i: nat)
    requires i < |a| && i < |b| && a[i] == b[i]
    ensures RowHashes(sha, a)[i] == RowHashes(sha, b)[i]
    ensures a[i].None? ==> RowHashes(sha, a)[i] == sha([])
  {
    if a[i].None? {
      assert Bytes(a[i]) == [];
    }
  }

  /**
   * The batch has five columns in order source, path, size, content,
   * hash; the source column repeats the source once per content row, and
   * there is one digest per content row.
   */
  lemma ColumnLayout(source: string, paths: seq<string>, sizes: seq<u64>, data: seq<Option<seq<byte>>>, sha: seq<byte> -> Digest)
    ensures var cs := BatchColumns(source, paths, sizes, data, sha);
      && |cs| == 5
      && cs[0].Strings? && |cs[0].strings| == |data| && (forall i :: 0 <= i < |data| ==> cs[0].strings[i] == source)
      && cs[1] == Strings(paths) && cs[2] == U64s(sizes) && cs[3] == Binaries(data)
      && cs[4].Hashes? && |cs[4].digests| == |data|
  {
  }

  /** `make_schema` of the earlier writer: the five columns, none of them nullable. */
  function LegacySchema(): Schema
  {
    [Field("source", Utf8View, false), Field("path", Utf8View, false), Field("size", UInt64, false),
     Field("content", BinaryView, false), Field("hash", FixedSizeBinary(HashWidth), false)]
  }

  /**
   * Over that schema the batch is built exactly when the path and size
   * columns have one value per content row and no content row is null.
   */
  lemma BatchBuiltIffAligned(source: string, paths: seq<string>, sizes: seq<u64>, data: seq<Option<seq<byte>>>, sha: seq<byte> -> Digest)
    ensures TryNew(LegacySchema(), BatchColumns(source, paths, sizes, data, sha)).Ok? <==>
      |paths| == |data| && |sizes| == |data| && forall i :: 0 <= i < |data| ==> data[i].Some?
  {
    var cs := BatchColumns(source, paths, sizes, data, sha);
    if exists k :: 0 <= k < |data| && data[k].None? {
      assert cs[3].HasNulls();
    } else if |paths| == |data| && |sizes| == |data| {
      assert forall i :: 0 <= i < 5 ==> cs[i].Len() == |data|;
    } else if |paths| != |data| {
      assert cs[1].Len() != cs[0].Len();
    } else {
      assert cs[2].Len() != cs[0].Len();
    }
  }

  class Items {
    const source: string
    var paths: seq<string>
    var sizes: seq<u64>
    var data: seq<Option<seq<byte>>>

    /** `new_with_capacity`: empty columns for one source. */
    constructor (source: string, capacity: nat)
      ensures this.source == source && paths == [] && sizes == [] && data == []
    {
      this.source := source;
      paths := [];
      sizes := [];
      data := [];
    }

    /**
     * `into_record_batch`: one hasher, fed each row's bytes and reset as
     * each digest is taken; the source column built to the content
     * column's length.
     */
    method IntoRecordBatch(schema: Schema, sha: seq<byte> -> Digest) returns (r: Result<seq<Column>, BatchError>)
      ensures r == TryNew(schema, BatchColumns(source, paths, sizes, data, sha))
    {
      var hasher: seq<byte> := [];
      var hashes: seq<Digest> := [];
      for i := 0 to |data|
        invariant hasher == []
        invariant |hashes| == i && forall k :: 0 <= k < i ==> hashes[k] == sha(Bytes(data[k]))
      {
        if data[i].Some? {
          hasher := hasher + data[i].value;
        }
        assert hasher == Bytes(data[i]);
        var hashed := sha(hasher);
        hasher := [];
        hashes := hashes + [hashed];
      }
      assert hashes == RowHashes(sha, data);
      var sources := seq(|data|, _ => source);
      r := TryNew(schema, [Strings(sources), Strings(paths), U64s(sizes), Binaries(data), Hashes(hashes)]);
    }
  }
}
