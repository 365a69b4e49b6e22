/**
 * Entries seen while walking archives (src/anyreader_walker/entry.rs):
 * `EntryDetails` (a path and a size) with its `Display`, the format kinds
 * the reader detects, and `FileEntry` with its accessors and its `visit`
 * dispatch onto a walker.
 */
module Entry {
  import opened Base

  /** The details of an entry: its path and its size in bytes. */
  datatype EntryDetails = EntryDetails(path: string, size: u64)

  /** The paths of a sequence of entries, in order. */
  function PathsOf(ds: seq<EntryDetails>): (ps: seq<string>)
    ensures |ps| == |ds|
    ensures forall i :: 0 <= i < |ds| ==> ps[i] == ds[i].path
  {
    if ds == [] then [] else PathsOf(ds[..|ds| - 1]) + [ds[|ds| - 1].path]
  }

  // ---------------------------------------------------------------------
  // Decimal rendering of sizes, as `{}` formats an unsigned integer.

  predicate IsDigit(c: char) {
    '0' <= c <= '9'
  }

  function DigitChar(d: nat): (c: char)
    requires d < 10
    ensures IsDigit(c) && c as int - '0' as int == d
  {
    ('0' as int + d) as char
  }

  /** The decimal digits of `n`, most significant first, without leading zeros. */
  function Decimal(n: nat): string
    decreases n
  {
    if n < 10 then [DigitChar(n)] else Decimal(n / 10) + [DigitChar(n % 10)]
  }

  predicate AllDigits(s: string) {
    forall i :: 0 <= i < |s| ==> IsDigit(s[i])
  }

  /** The value of a string of decimal digits. */
  function ParseDecimal(s: string): nat
    requires AllDigits(s)
  {
    if s == [] then 0
    else ParseDecimal(s[..|s| - 1]) * 10 + (s[|s| - 1] as int - '0' as int)
  }

  /** A rendered number is a non-empty digit string with no leading zero. */
  lemma {:induction false} DecimalWellFormed(n: nat)
    ensures |Decimal(n)| > 0 && AllDigits(Decimal(n))
    ensures |Decimal(n)| > 1 ==> Decimal(n)[0] != '0'
    decreases n
  {
    if n >= 10 {
      DecimalWellFormed(n / 10);
      assert Decimal(n) == Decimal(n / 10) + [DigitChar(n % 10)];
      assert Decimal(n)[0] == Decimal(n / 10)[0];
      if |Decimal(n / 10)| == 1 {
        assert Decimal(n / 10)[0] != '0' by {
          if n / 10 >= 10 {
            DecimalWellFormed(n / 10);
          }
        }
      }
    }
  }

  /** Reading a rendered number back gives the number. */
  lemma {:induction false} ParseDecimalOfDecimal(n: nat)
    ensures AllDigits(Decimal(n)) && ParseDecimal(Decimal(n)) == n
    decreases n
  {
    DecimalWellFormed(n);
    if n >= 10 {
      var s := Decimal(n);
      assert s == Decimal(n / 10) + [DigitChar(n % 10)];
      assert s[..|s| - 1] == Decimal(n / 10);
      ParseDecimalOfDecimal(n / 10);
    }
  }

  // ---------------------------------------------------------------------
  // `impl Display for EntryDetails`: "<path> (<size> bytes)".

  const BytesSuffix: string := " bytes)"

  function Display(d: EntryDetails): (s: string)
    ensures |s| > |d.path| + 2 + |BytesSuffix|
    ensures s[..|d.path|] == d.path && s[|s| - |BytesSuffix|..] == BytesSuffix
  {
    DecimalWellFormed(d.size as int);
    d.path + " (" + Decimal(d.size as int) + BytesSuffix
  }

  /** The number of decimal digits at the end of `s`. */
  function DigitSuffixLen(s: string): (k: nat)
    ensures k <= |s|
  {
    if s != [] && IsDigit(s[|s| - 1]) then 1 + DigitSuffixLen(s[..|s| - 1]) else 0
  }

  lemma {:induction false} DigitSuffixLenAppend(p: string, ds: string)
    requires AllDigits(ds)
    ensures DigitSuffixLen(p + ds) == DigitSuffixLen(p) + |ds|
    decreases |ds|
  {
    if ds != [] {
      var init := ds[..|ds| - 1];
      assert (p + ds)[..|p + ds| - 1] == p + init;
      DigitSuffixLenAppend(p, init);
    } else {
      assert p + ds == p;
    }
  }

  /**
   * Reads details back from their display form: the size is the digit run
   * between the last " (" and the closing " bytes)"; everything before is
   * the path. Returns None for a string that is not such a form.
   */
  function ParseDisplay(s: string): Option<EntryDetails>
  {
    if |s| < |BytesSuffix| || s[|s| - |BytesSuffix|..] != BytesSuffix then None
    else
      var t := s[..|s| - |BytesSuffix|];
      var k := DigitSuffixLen(t);
      var rest := t[..|t| - k];
      if k == 0 || |rest| < 2 || rest[|rest| - 2..] != " (" then None
      else
        assert AllDigits(t[|t| - k..]) by { DigitSuffixIsDigits(t); }
        var n := ParseDecimal(t[|t| - k..]);
        if n > U64_MAX then None
        else Some(EntryDetails(rest[..|rest| - 2], n as u64))
  }

  lemma DigitSuffixIsDigits(t: string)
    ensures AllDigits(t[|t| - DigitSuffixLen(t)..])
  {
    DigitSuffixDigitsAt(t);
    var a := |t| - DigitSuffixLen(t);
    forall j | 0 <= j < |t| - a
      ensures IsDigit(t[a..][j])
    {
      assert t[a..][j] == t[a + j];
    }
  }

  /** Every character of the digit suffix is a digit. */
  lemma {:induction false} DigitSuffixDigitsAt(t: string)
    ensures forall i :: |t| - DigitSuffixLen(t) <= i < |t| ==> IsDigit(t[i])
    decreases |t|
  {
    if t != [] && IsDigit(t[|t| - 1]) {
      var init := t[..|t| - 1];
      DigitSuffixDigitsAt(init);
      assert DigitSuffixLen(t) == 1 + DigitSuffixLen(init);
      forall i | |t| - DigitSuffixLen(t) <= i < |t|
        ensures IsDigit(t[i])
      {
        if i < |t| - 1 {
          assert t[i] == init[i];
        }
      }
    }
  }

  /** The display form determines the details it was made from, whatever the path holds. */
  lemma DisplayRoundTrip(d: EntryDetails)
    ensures ParseDisplay(Display(d)) == Some(d)
  {
    var digits := Decimal(d.size as int);
    ParseDecimalOfDecimal(d.size as int);
    DecimalWellFormed(d.size as int);
    var s := Display(d);
    var t := d.path + " (" + digits;
    assert s == t + BytesSuffix;
    assert s[|s| - |BytesSuffix|..] == BytesSuffix;
    assert s[..|s| - |BytesSuffix|] == t;
    var head := d.path + " (";
    assert t == head + digits;
    DigitSuffixLenAppend(head, digits);
    assert head[|head| - 1] == '(';
    assert DigitSuffixLen(head) == 0;
    assert t[..|t| - |digits|] == head;
    assert t[|t| - |digits|..] == digits;
    assert head[|head| - 2..] == " (";
    assert head[..|head| - 2] == d.path;
  }

  // ---------------------------------------------------------------------
  // Format kinds and entries.

  /** The kinds the any-format reader distinguishes. */
  datatype FormatKind = Unknown | Gzip | Zstd | Bzip2 | Xz | Tar | Zip

  /**
   * What `AnyFormat::from_reader` produces: the detected kind and the bytes
   * that reading through it yields (decompressed where a codec was found).
   */
  datatype AnyFormat = AnyFormat(kind: FormatKind, stream: seq<byte>)

  /** A file in an archive: its details and the detected reader over it. */
  datatype FileEntry = FileEntry(details: EntryDetails, inner: AnyFormat)
  {
    function Path(): string { details.path }

    function Size(): u64 { details.size }

    function Format(): FormatKind { inner.kind }

    /** Only containers can be walked into. */
    predicate SupportsRecursion() {
      inner.kind == Tar || inner.kind == Zip
    }
  }

  /** `FileEntry::new`. */
  function NewEntry(path: string, size: u64, format: AnyFormat): (e: FileEntry)
    ensures e.Path() == path && e.Size() == size && e.inner == format
  {
    FileEntry(EntryDetails(path, size), format)
  }

  /** The I/O error `AnyFormat::from_reader` can fail with. */
  datatype IoError = IoError

  /**
   * `FileEntry::from_reader`: the caller gives the size; the reader is
   * classified, and a failure of the classifier is the result.
   */
  function FromReader(path: string, size: u64, reader: seq<byte>, classify: seq<byte> -> Result<AnyFormat, IoError>): (r: Result<FileEntry, IoError>)
    ensures r.Err? <==> classify(reader).Err?
    ensures r.Err? ==> r.error == classify(reader).error
    ensures r.Ok? ==> r.value.Path() == path && r.value.Size() == size && r.value.inner == classify(reader).value
  {
    match classify(reader)
    case Err(e) => Err(e)
    case Ok(format) => Ok(NewEntry(path, size, format))
  }

  /** `FileEntry::from_bytes`: the size is the length of the buffer; a failure of the classifier is the result. */
  function FromBytes(path: string, data: seq<byte>, classify: seq<byte> -> Result<AnyFormat, IoError>): (r: Result<FileEntry, IoError>)
    requires |data| <= U64_MAX
    ensures r.Err? <==> classify(data).Err?
    ensures r.Ok? ==> r.value.Path() == path && r.value.Size() as int == |data| && r.value.inner == classify(data).value
  {
    match classify(data)
    case Err(e) => Err(e)
    case Ok(inner) => Ok(FileEntry(EntryDetails(path, |data| as u64), inner))
  }

  /** The walker `visit` hands an entry to. */
  datatype WalkerKind = TarWalker | ZipWalker | FileWalker

  /**
   * `visit`: a Tar entry goes to the tar walker, a Zip entry to the zip
   * walker, and every other entry to the file walker; so an entry is walked
   * into as an archive exactly when it supports recursion.
   */
  function VisitWalker(e: FileEntry): (w: WalkerKind)
    ensures w == TarWalker <==> e.Format() == Tar
    ensures w == ZipWalker <==> e.Format() == Zip
    ensures w != FileWalker <==> e.SupportsRecursion()
  {
    match e.Format()
    case Tar => TarWalker
    case Zip => ZipWalker
    case _ => FileWalker
  }
}
