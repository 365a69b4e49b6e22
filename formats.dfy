/**
 * Archive format sniffing (src/formats/mod.rs): a prefix of at most 280
 * bytes is read, refused when empty or too small, and tested against the
 * tar, zip and gzip-wrapped-tar predicates in that order.
 */
module Formats {
  import opened Base
  import opened Magic
  import opened Options

  /** Tar needs 262 bytes to be recognised; gzip and zip far fewer. */
  const BufSize: nat := 280

  datatype FormatError = Io | Empty | UnsupportedFormat

  /** The archive formats extraction understands. */
  datatype Format = Tar | TarGz | Zip

  /**
   * The display names: "tar", "tar.gz" and "zip"; the gzip-wrapped tar
   * name extends the plain tar name, and only the two tar formats have
   * names starting with "t".
   */
  function Name(f: Format): (s: string)
    ensures f == Tar ==> s == "tar"
    ensures f == TarGz ==> s == "tar.gz" && s[..3] == "tar"
    ensures f == Zip ==> s == "zip"
    ensures |s| >= 3 && (s[0] == 't' <==> f != Zip)
  {
    match f
    case Tar => "tar"
    case TarGz => "tar.gz"
    case Zip => "zip"
  }

  /** Distinct formats display differently. */
  lemma NamesDistinct(f: Format, g: Format)
    ensures Name(f) == Name(g) <==> f == g
  {
    if f != g {
      assert Name(f)[|Name(f)| - 1] != Name(g)[|Name(g)| - 1] || |Name(f)| != |Name(g)|;
    }
  }

  /** How many bytes one read over an in-memory input puts into the 280-byte buffer. */
  function ReadCount(data: seq<byte>): (n: nat)
    ensures n <= BufSize && n <= |data|
    ensures n == BufSize || n == |data|
  {
    Min(BufSize, |data|)
  }

  // ---------------------------------------------------------------------
  // `read_slice` as written, and the comparison it gets wrong.

  /**
   * `read_slice` as written: an empty read is Empty; a read shorter than
   * the minimum file size is UnsupportedFormat; otherwise the bytes read.
   */
  function ReadSliceAsWritten(data: seq<byte>, opts: ExtractionOptions): (r: Result<seq<byte>, FormatError>)
    ensures r == Err(Empty) <==> data == []
    ensures r == Err(UnsupportedFormat) <==> 0 < ReadCount(data) < opts.minFileSize as int
    ensures r.Ok? ==> r.value == data[..ReadCount(data)]
  {
    var read := ReadCount(data);
    if read == 0 then Err(Empty)
    else if read < opts.minFileSize as int then Err(UnsupportedFormat)
    else Ok(data[..read])
  }

  /**
   * The read never exceeds the 280-byte buffer, so with a minimum above 280
   * every non-empty input is refused as UnsupportedFormat, however long it
   * is and whatever it holds.
   */
  lemma ReadSliceAsWrittenRefusesLargeInputs(data: seq<byte>, opts: ExtractionOptions)
    requires opts.minFileSize as int > BufSize
    requires |data| >= opts.minFileSize as int
    ensures ReadSliceAsWritten(data, opts) == Err(UnsupportedFormat)
  {
  }

  /**
   * `read_slice`, refusing an input as too small only when the read has
   * reached its end (fewer bytes than the buffer holds) below the minimum.
   * With a minimum of at most 280 it is the function as written.
   */
  function ReadSlice(data: seq<byte>, opts: ExtractionOptions): (r: Result<seq<byte>, FormatError>)
    ensures r.Ok? ==> 0 < |r.value| <= BufSize && |r.value| == ReadCount(data) && r.value == data[..|r.value|]
    ensures r == Err(Empty) <==> data == []
    ensures r == Err(UnsupportedFormat) ==> |data| < opts.minFileSize as int
    ensures r.Err? ==> r.error != Io
  {
    var read := ReadCount(data);
    if read == 0 then Err(Empty)
    else if read < BufSize && read < opts.minFileSize as int then Err(UnsupportedFormat)
    else Ok(data[..read])
  }

  /** An input shorter than both the buffer and the minimum is refused as UnsupportedFormat. */
  lemma ReadSliceRefusesShortInputs(data: seq<byte>, opts: ExtractionOptions)
    requires 0 < |data| < BufSize && |data| < opts.minFileSize as int
    ensures ReadSlice(data, opts) == Err(UnsupportedFormat)
  {
  }

  /** For every minimum the source can handle, the corrected read is the one written. */
  lemma ReadSliceAgreesWithSource(data: seq<byte>, opts: ExtractionOptions)
    requires opts.minFileSize as int <= BufSize
    ensures ReadSlice(data, opts) == ReadSliceAsWritten(data, opts)
  {
  }

  /**
   * The 280-byte window decides tar, zip and gzip as the whole input does
   * (it covers the ustar field at offset 257).
   */
  lemma WindowDecides(data: seq<byte>)
    ensures IsTar(data[..ReadCount(data)]) <==> IsTar(data)
    ensures IsZip(data[..ReadCount(data)]) <==> IsZip(data)
    ensures IsGzip(data[..ReadCount(data)]) <==> IsGzip(data)
  {
    if ReadCount(data) == |data| {
      assert data[..ReadCount(data)] == data;
    } else {
      PrefixDecides(data, BufSize);
    }
  }

  // ---------------------------------------------------------------------
  // `is_tar_gz` and `detect_type`.

  /**
   * `is_tar_gz`: false without gzip magic; otherwise the prefix is
   * decompressed (`gunzip` stands for `GzDecoder` over the sniffed bytes),
   * a second slice is read from it, and the answer is whether that is a tar.
   * A failure of the second read is the answer.
   */
  function IsTarGz(gunzip: seq<byte> -> seq<byte>, slice: seq<byte>, opts: ExtractionOptions): (r: Result<bool, FormatError>)
    ensures !IsGzip(slice) ==> r == Ok(false)
    ensures r == Ok(true) <==> IsGzip(slice) && ReadSlice(gunzip(slice), opts).Ok? && IsTar(gunzip(slice))
    ensures r.Err? <==> IsGzip(slice) && ReadSlice(gunzip(slice), opts).Err?
  {
    WindowDecides(gunzip(slice));
    IsTarGzWith(ReadSlice, gunzip, slice, opts)
  }

  /** A way of reading the sniffing slice: `read_slice` as written, or corrected. */
  type SliceReader = (seq<byte>, ExtractionOptions) -> Result<seq<byte>, FormatError>

  /** `is_tar_gz` and `detect_type` over a given `read_slice`. */
  function IsTarGzWith(read: SliceReader, gunzip: seq<byte> -> seq<byte>, slice: seq<byte>, opts: ExtractionOptions): Result<bool, FormatError>
  {
    if !IsGzip(slice) then Ok(false)
    else
      match read(gunzip(slice), opts)
      case Err(e) => Err(e)
      case Ok(s) => Ok(IsTar(s))
  }

  function DetectWith(read: SliceReader, gunzip: seq<byte> -> seq<byte>, data: seq<byte>, opts: ExtractionOptions): Result<Format, FormatError>
  {
    match read(data, opts)
    case Err(e) => Err(e)
    case Ok(buf) =>
      if IsTar(buf) then Ok(Tar)
      else if IsZip(buf) then Ok(Zip)
      else
        match IsTarGzWith(read, gunzip, buf, opts)
        case Err(e) => Err(e)
        case Ok(b) => if b then Ok(TarGz) else Err(UnsupportedFormat)
  }

  /**
   * `detect_type`, over the corrected `read_slice`: tar first, then zip,
   * then gzip-wrapped tar; none of them is UnsupportedFormat. A format is
   * reported only after a successful read, and tar.gz only for gzip magic.
   */
  function DetectType(gunzip: seq<byte> -> seq<byte>, data: seq<byte>, opts: ExtractionOptions): (r: Result<Format, FormatError>)
    ensures r.Ok? ==> ReadSlice(data, opts).Ok?
    ensures r == Ok(TarGz) ==> IsGzip(ReadSlice(data, opts).value)
  {
    DetectWith(ReadSlice, gunzip, data, opts)
  }

  /** `detect_type` exactly as written, over `read_slice` as written. */
  function DetectTypeAsWritten(gunzip: seq<byte> -> seq<byte>, data: seq<byte>, opts: ExtractionOptions): (r: Result<Format, FormatError>)
    ensures r.Ok? ==> ReadSliceAsWritten(data, opts).Ok?
  {
    DetectWith(ReadSliceAsWritten, gunzip, data, opts)
  }

  /** For every minimum of at most 280 bytes, detection is the one written, on every input. */
  lemma DetectTypeAgreesWithSource(gunzip: seq<byte> -> seq<byte>, data: seq<byte>, opts: ExtractionOptions)
    requires opts.minFileSize as int <= BufSize
    ensures DetectType(gunzip, data, opts) == DetectTypeAsWritten(gunzip, data, opts)
  {
    ReadSliceAgreesWithSource(data, opts);
    if ReadSlice(data, opts).Ok? {
      ReadSliceAgreesWithSource(gunzip(ReadSlice(data, opts).value), opts);
    }
  }

  /**
   * With a minimum above 280 bytes, detection as written refuses every
   * non-empty input as UnsupportedFormat, whatever its length and format.
   */
  lemma DetectTypeAsWrittenRefusesAll(gunzip: seq<byte> -> seq<byte>, data: seq<byte>, opts: ExtractionOptions)
    requires opts.minFileSize as int > BufSize && data != []
    ensures DetectTypeAsWritten(gunzip, data, opts) == Err(UnsupportedFormat)
  {
  }

  /** The read that a detection starts with must succeed for it to report a format. */
  lemma DetectTypeReadFails(gunzip: seq<byte> -> seq<byte>, data: seq<byte>, opts: ExtractionOptions)
    ensures data == [] ==> DetectType(gunzip, data, opts) == Err(Empty)
    ensures ReadSlice(data, opts).Err? ==> DetectType(gunzip, data, opts) == Err(ReadSlice(data, opts).error)
  {
  }

  /**
   * Once the read succeeds: the first of tar, zip, tar.gz whose predicate
   * holds on the input decides; if none holds the input is unsupported.
   */
  lemma DetectTypePriority(gunzip: seq<byte> -> seq<byte>, data: seq<byte>, opts: ExtractionOptions)
    requires ReadSlice(data, opts).Ok?
    ensures DetectType(gunzip, data, opts) == Ok(Tar) <==> IsTar(data)
    ensures DetectType(gunzip, data, opts) == Ok(Zip) <==> !IsTar(data) && IsZip(data)
    ensures DetectType(gunzip, data, opts) == Ok(TarGz) <==>
      !IsTar(data) && !IsZip(data) && IsTarGz(gunzip, ReadSlice(data, opts).value, opts) == Ok(true)
    ensures DetectType(gunzip, data, opts) == Err(UnsupportedFormat) <==>
      !IsTar(data) && !IsZip(data) && IsTarGz(gunzip, ReadSlice(data, opts).value, opts) in {Ok(false), Err(UnsupportedFormat)}
  {
    WindowDecides(data);
  }

  /** tar.gz is reported only for gzip magic whose decompressed prefix is a tar. */
  lemma TarGzNeedsGzipOfTar(gunzip: seq<byte> -> seq<byte>, data: seq<byte>, opts: ExtractionOptions)
    requires DetectType(gunzip, data, opts) == Ok(TarGz)
    ensures IsGzip(data) && !IsTar(data) && !IsZip(data)
    ensures IsTar(gunzip(data[..ReadCount(data)]))
  {
    WindowDecides(data);
  }

  /**
   * `try_from_path`: a file that cannot be opened (None) is an Io error;
   * otherwise detection runs over its contents.
   */
  function TryFromPath(gunzip: seq<byte> -> seq<byte>, file: Option<seq<byte>>, opts: ExtractionOptions): (r: Result<Format, FormatError>)
    ensures file.None? <==> r == Err(Io)
    ensures file.Some? ==> r == DetectType(gunzip, file.value, opts)
  {
    if file.None? then Err(Io) else DetectType(gunzip, file.value, opts)
  }

  /** Detection never reports Io: that error comes only from opening the file. */
  lemma DetectTypeNeverIo(gunzip: seq<byte> -> seq<byte>, data: seq<byte>, opts: ExtractionOptions)
    ensures DetectType(gunzip, data, opts) != Err(Io)
  {
  }
}
