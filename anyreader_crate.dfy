/**
 * The any-format reader crate (crates/anyreader/src/lib.rs): the
 * `Result`-returning `peek_upto`, and the detection contract its tests
 * assert of `AnyFormat::from_reader`, which is a classifier the model
 * takes as a parameter.
 */
module AnyReaderCrate {
  import opened Base
  import opened Entry
  import opened Magic
  import AnyReader

  /**
   * `peek_upto::<N>`: never fails; yields the first min(N, buffered) bytes
   * of the reader's buffer without consuming anything.
   */
  function PeekUpto(n: nat, reader: AnyReader.Peekable): (r: Result<seq<byte>, IoError>)
    ensures r.Ok?
    ensures |r.value| == Min(n, |reader.buffered|)
    ensures r.value == reader.buffered[..|r.value|] && r.value == reader.Stream()[..|r.value|]
  {
    Ok(reader.buffered[..Min(n, |reader.buffered|)])
  }

  /** The crate's peek agrees with the in-tree copy. */
  lemma PeekUptoAgrees(n: nat, reader: AnyReader.Peekable)
    ensures PeekUpto(n, reader) == Ok(AnyReader.PeekUpto(n, reader))
  {
  }

  // ---------------------------------------------------------------------
  // The detection contract of the tests.

  datatype Codec = GzipCodec | ZstdCodec | Bzip2Codec | XzCodec

  function CodecKind(c: Codec): FormatKind
  {
    match c
    case GzipCodec => Gzip
    case ZstdCodec => Zstd
    case Bzip2Codec => Bzip2
    case XzCodec => Xz
  }

  function CodecMagic(c: Codec): seq<byte>
  {
    match c
    case GzipCodec => GzipMagic
    case ZstdCodec => ZstdMagic
    case Bzip2Codec => Bzip2Magic
    case XzCodec => XzMagic
  }

  /**
   * The inputs the tests build: a plain payload ("hello world"), a tar and
   * a zip archive holding it, and the four compressors of the test helpers.
   */
  datatype TestInputs = TestInputs(
    payload: seq<byte>,
    tarArchive: seq<byte>,
    zipArchive: seq<byte>,
    compress: (Codec, seq<byte>) -> seq<byte>)

  /**
   * What the tests assert of a classifier: plain bytes are Unknown and read
   * back unchanged; compressed payloads are their codec's kind and read back
   * as the payload; a tar, raw or under any codec, is Tar and reads back as
   * the raw tar; a zip is Zip and reads back as the zip.
   */
  ghost predicate MeetsDetectionTests(classify: seq<byte> -> Result<AnyFormat, IoError>, t: TestInputs)
  {
    && classify(t.payload) == Ok(AnyFormat(Unknown, t.payload))
    && (forall c: Codec :: classify(t.compress(c, t.payload)) == Ok(AnyFormat(CodecKind(c), t.payload)))
    && classify(t.tarArchive) == Ok(AnyFormat(Tar, t.tarArchive))
    && (forall c: Codec :: classify(t.compress(c, t.tarArchive)) == Ok(AnyFormat(Tar, t.tarArchive)))
    && classify(t.zipArchive) == Ok(AnyFormat(Zip, t.zipArchive))
  }

  // ---------------------------------------------------------------------
  // A reference classifier that meets the contract, so the contract is
  // satisfiable: codec magic first (then Tar if the decoded bytes are a
  // tar), then tar, then zip, else Unknown.

  function CodecOf(s: seq<byte>): (r: Option<Codec>)
    ensures r.Some? ==> StartsWith(s, CodecMagic(r.value))
  {
    if IsGzip(s) then Some(GzipCodec)
    else if IsZstd(s) then Some(ZstdCodec)
    else if IsBzip2(s) then Some(Bzip2Codec)
    else if IsXz(s) then Some(XzCodec)
    else None
  }

  function ReferenceClassify(decompress: (Codec, seq<byte>) -> seq<byte>, s: seq<byte>): AnyFormat
  {
    match CodecOf(s)
    case Some(c) =>
      var inner := decompress(c, s);
      if IsTar(inner) then AnyFormat(Tar, inner) else AnyFormat(CodecKind(c), inner)
    case None =>
      if IsTar(s) then AnyFormat(Tar, s)
      else if IsZip(s) then AnyFormat(Zip, s)
      else AnyFormat(Unknown, s)
  }

  /** Compression is undone by decompression, and compressed data starts with the codec's magic. */
  ghost predicate LawfulCodecs(compress: (Codec, seq<byte>) -> seq<byte>, decompress: (Codec, seq<byte>) -> seq<byte>)
  {
    forall c: Codec, x: seq<byte> ::
      decompress(c, compress(c, x)) == x && StartsWith(compress(c, x), CodecMagic(c))
  }

  lemma CodecOfMagic(c: Codec, s: seq<byte>)
    requires StartsWith(s, CodecMagic(c))
    ensures CodecOf(s) == Some(c)
  {
    MagicsExclusive(s);
  }

  lemma ReferenceMeetsTests(t: TestInputs, decompress: (Codec, seq<byte>) -> seq<byte>)
    requires LawfulCodecs(t.compress, decompress)
    requires CodecOf(t.payload).None? && !IsTar(t.payload) && !IsZip(t.payload)
    requires IsTar(t.tarArchive) && CodecOf(t.tarArchive).None?
    requires IsZip(t.zipArchive) && !IsTar(t.zipArchive)
    ensures MeetsDetectionTests(s => Ok(ReferenceClassify(decompress, s)), t)
  {
    var classify := s => ReferenceClassify(decompress, s);
    MagicsExclusive(t.zipArchive);
    forall c: Codec
      ensures classify(t.compress(c, t.payload)) == AnyFormat(CodecKind(c), t.payload)
      ensures classify(t.compress(c, t.tarArchive)) == AnyFormat(Tar, t.tarArchive)
    {
      CodecOfMagic(c, t.compress(c, t.payload));
      CodecOfMagic(c, t.compress(c, t.tarArchive));
    }
  }

  /**
   * `test_not_unknown` over the reference classifier, for every input:
   * Unknown is reported exactly for bytes with no codec magic that are
   * neither a tar nor a zip, and a tar or zip without a codec reads back
   * as the bytes given.
   */
  lemma ReferenceNotUnknown(decompress: (Codec, seq<byte>) -> seq<byte>, s: seq<byte>)
    ensures ReferenceClassify(decompress, s).kind == Unknown <==> CodecOf(s).None? && !IsTar(s) && !IsZip(s)
    ensures CodecOf(s).None? ==> ReferenceClassify(decompress, s).stream == s
    ensures CodecOf(s).Some? ==> ReferenceClassify(decompress, s).stream == decompress(CodecOf(s).value, s)
  {
    match CodecOf(s)
    case Some(c) =>
      assert CodecKind(c) != Unknown;
    case None =>
  }
}
