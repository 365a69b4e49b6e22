/**
 * Extraction options (src/lib.rs): the size filter applied to every
 * archive member and the depth budget for recursing into nested archives.
 */
module Options {
  import opened Base

  type PosNat = n: nat | n > 0 witness 1

  /** The Parquet output codec; carried unchanged, never interpreted here. */
  datatype Compression = Uncompressed | Compressed(codec: string)

  datatype ExtractionOptions = ExtractionOptions(
    minFileSize: u64,
    maxFileSize: Option<u64>,
    maxDepth: Option<PosNat>,
    onlyText: bool,
    threads: PosNat,
    unique: bool,
    ignoreUnsupported: bool,
    compression: Compression)
  {
    /**
     * `check_file_size`: a member is kept exactly when it is non-empty, at
     * least the minimum, and at most the maximum when one is set.
     */
    function CheckFileSize(size: u64): (ok: bool)
      ensures ok <==> size > 0 && size >= minFileSize && (maxFileSize.None? || size <= maxFileSize.value)
    {
      if size < minFileSize || size == 0 then false
      else if maxFileSize.Some? && size > maxFileSize.value then false
      else true
    }

    /**
     * How many more archive levels may be entered: `max_depth` as a count,
     * with None meaning none. (The formats code keeps the same budget as a
     * plain integer, recursing while it is above zero.)
     */
    function DepthBudget(): nat
    {
      if maxDepth.Some? then maxDepth.value else 0
    }

    /**
     * `decrement_max_depth`: a copy with one level less; a budget of one
     * becomes None. Demands a budget (the source panics on None).
     */
    function DecrementMaxDepth(): (o: ExtractionOptions)
      requires maxDepth.Some?
      ensures o.DepthBudget() == DepthBudget() - 1
      ensures o == this.(maxDepth := o.maxDepth)
    {
      var n := maxDepth.value;
      this.(maxDepth := if n > 1 then Some(n - 1) else None)
    }
  }

  /** The three ways a size is refused. */
  lemma CheckFileSizeRefusals(o: ExtractionOptions, size: u64)
    ensures size == 0 ==> !o.CheckFileSize(size)
    ensures size < o.minFileSize ==> !o.CheckFileSize(size)
    ensures o.maxFileSize.Some? && size > o.maxFileSize.value ==> !o.CheckFileSize(size)
  {
  }

  /** Decrementing maps Some(n) to Some(n - 1) above one and to None at one. */
  lemma DecrementMaxDepthCases(o: ExtractionOptions)
    requires o.maxDepth.Some?
    ensures o.maxDepth.value > 1 ==> o.DecrementMaxDepth().maxDepth == Some(o.maxDepth.value - 1)
    ensures o.maxDepth.value == 1 ==> o.DecrementMaxDepth().maxDepth == None
  {
  }
}
