/**
 * Magic-byte predicates of the public container and codec formats, as the
 * sniffing code relies on them:
 *   gzip  ID1 ID2 = 1F 8B (section 2.3.1 of RFC 1952);
 *   zstd  frame magic 28 B5 2F FD (section 3.1.1 of RFC 8878);
 *   bzip2 stream header "BZh";
 *   xz    stream header magic FD 37 7A 58 5A 00 (section 2.1.1.1 of the
 *         .xz file format);
 *   zip   local file header signature "PK\x03\x04" (section 4.3.7 of the
 *         PKWARE APPNOTE);
 *   tar   the ustar `magic` field at offset 257 of the first header block,
 *         which starts with "ustar" (POSIX.1 ustar writes "ustar\0", GNU
 *         tar "ustar ").
 */
module Magic {
  import opened Base

  /** `s` begins with the bytes `m`. */
  predicate StartsWith(s: seq<byte>, m: seq<byte>) {
    |m| <= |s| && s[..|m|] == m
  }

  const GzipMagic: seq<byte> := [0x1F, 0x8B]
  const ZstdMagic: seq<byte> := [0x28, 0xB5, 0x2F, 0xFD]
  const Bzip2Magic: seq<byte> := [0x42, 0x5A, 0x68]
  const XzMagic: seq<byte> := [0xFD, 0x37, 0x7A, 0x58, 0x5A, 0x00]
  const ZipMagic: seq<byte> := [0x50, 0x4B, 0x03, 0x04]

  /** "ustar", and the offset of the ustar magic field in a tar header. */
  const UstarMagic: seq<byte> := [0x75, 0x73, 0x74, 0x61, 0x72]
  const UstarOffset: nat := 257

  predicate IsGzip(s: seq<byte>) { StartsWith(s, GzipMagic) }
  predicate IsZstd(s: seq<byte>) { StartsWith(s, ZstdMagic) }
  predicate IsBzip2(s: seq<byte>) { StartsWith(s, Bzip2Magic) }
  predicate IsXz(s: seq<byte>) { StartsWith(s, XzMagic) }
  predicate IsZip(s: seq<byte>) { StartsWith(s, ZipMagic) }

  predicate IsTar(s: seq<byte>) {
    UstarOffset + |UstarMagic| <= |s| && s[UstarOffset..UstarOffset + |UstarMagic|] == UstarMagic
  }

  /** The number of leading bytes each predicate looks at. */
  const TarWindow: nat := UstarOffset + |UstarMagic|

  /**
   * Every predicate depends only on the first `TarWindow` (262) bytes, so a
   * prefix of at least that length decides them all exactly as the whole
   * input does.
   */
  lemma PrefixDecides(s: seq<byte>, n: nat)
    requires TarWindow <= n <= |s|
    ensures IsTar(s[..n]) <==> IsTar(s)
    ensures IsZip(s[..n]) <==> IsZip(s)
    ensures IsGzip(s[..n]) <==> IsGzip(s)
    ensures IsZstd(s[..n]) <==> IsZstd(s)
    ensures IsBzip2(s[..n]) <==> IsBzip2(s)
    ensures IsXz(s[..n]) <==> IsXz(s)
  {
    assert s[..n][UstarOffset..TarWindow] == s[UstarOffset..TarWindow];
    assert s[..n][..4] == s[..4];
    assert s[..n][..2] == s[..2];
    assert s[..n][..3] == s[..3];
    assert s[..n][..6] == s[..6];
  }

  /** No input carries two different codec or zip magics: they differ in their first byte. */
  lemma MagicsExclusive(s: seq<byte>)
    ensures IsGzip(s) ==> !IsZstd(s) && !IsBzip2(s) && !IsXz(s) && !IsZip(s)
    ensures IsZstd(s) ==> !IsBzip2(s) && !IsXz(s) && !IsZip(s)
    ensures IsBzip2(s) ==> !IsXz(s) && !IsZip(s)
    ensures IsXz(s) ==> !IsZip(s)
  {
    if |s| > 0 {
      if IsGzip(s) { assert s[0] == 0x1F; }
      if IsZstd(s) { assert s[0] == 0x28; }
      if IsBzip2(s) { assert s[0] == 0x42; }
      if IsXz(s) { assert s[0] == 0xFD; }
      if IsZip(s) { assert s[0] == 0x50; }
    }
  }
}
