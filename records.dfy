/**
 * The values extraction produces and counts: rows, rows with their content
 * hash (the Arrow batch columns `source`, `path`, `size`, `hash`,
 * `content`), the `Counts` record, and first-occurrence-wins selection by
 * hash, which both de-duplication stages use.
 */
module Records {
  import opened Base

  /** `HASH_WIDTH`: a SHA-256 digest is 32 bytes. */
  const HashWidth: nat := 32

  type Digest = s: seq<byte> | |s| == HashWidth witness seq(32, _ => 0 as byte)

  /** One extracted member, as handed to the row buffer. */
  datatype Row = Row(source: string, path: string, size: u64, content: seq<byte>)

  /** One row of a record batch; the hash column may hold nulls. */
  datatype BatchRow = BatchRow(source: string, path: string, size: u64, hash: Option<Digest>, content: seq<byte>)

  /** `Counts`: members read, members skipped, rows dropped as duplicates, rows written. */
  datatype Counts = Counts(read: nat, skipped: nat, deduplicated: nat, written: nat)
  {
    /** `+` / `+=`: field-wise sum. */
    function Plus(o: Counts): Counts
    {
      Counts(read + o.read, skipped + o.skipped, deduplicated + o.deduplicated, written + o.written)
    }

    /** `Counts::skipped()`: one more skipped member. */
    function Skip(): (c: Counts)
      ensures c == this.Plus(Counts(0, 1, 0, 0))
    {
      this.(skipped := skipped + 1)
    }
  }

  /** `Counts::default()`. */
  const NoCounts := Counts(0, 0, 0, 0)

  /** `Iterator::sum` over counts. */
  function Sum(cs: seq<Counts>): Counts
  {
    if cs == [] then NoCounts else Sum(cs[..|cs| - 1]).Plus(cs[|cs| - 1])
  }

  lemma PlusAssociative(x: Counts, y: Counts, z: Counts)
    ensures x.Plus(y).Plus(z) == x.Plus(y.Plus(z))
  {
  }

  lemma PlusZero(x: Counts)
    ensures x.Plus(NoCounts) == x
  {
  }

  /** Summing is a fold: each field of the sum is the sum of that field. */
  lemma {:induction false} SumAppend(a: seq<Counts>, b: seq<Counts>)
    ensures Sum(a + b) == Sum(a).Plus(Sum(b))
    decreases |b|
  {
    if b == [] {
      assert a + b == a;
      PlusZero(Sum(a));
    } else {
      var b' := b[..|b| - 1];
      var last := b[|b| - 1];
      assert (a + b)[..|a + b| - 1] == a + b';
      assert (a + b)[|a + b| - 1] == last;
      SumAppend(a, b');
      var x, y := Sum(a), Sum(b');
      assert Sum(a + b) == x.Plus(y).Plus(last);
      assert Sum(b) == y.Plus(last);
      PlusAssociative(x, y, last);
      assert Sum(a + b) == x.Plus(Sum(b));
    }
  }

  // ---------------------------------------------------------------------
  // Selection by mask, and the first-occurrence mask.

  /** The elements whose mask entry is true, in order (Arrow's `filter`). */
  function Select<T>(xs: seq<T>, mask: seq<bool>): (ys: seq<T>)
    requires |mask| == |xs|
    ensures |ys| <= |xs|
    decreases |xs|
  {
    if xs == [] then []
    else
      var n := |xs| - 1;
      Select(xs[..n], mask[..n]) + (if mask[n] then [xs[n]] else [])
  }

  /** How many entries of a mask are true. */
  function Count(mask: seq<bool>): nat
  {
    if mask == [] then 0 else Count(mask[..|mask| - 1]) + (if mask[|mask| - 1] then 1 else 0)
  }

  lemma {:induction false} SelectCount<T>(xs: seq<T>, mask: seq<bool>)
    requires |mask| == |xs|
    ensures |Select(xs, mask)| == Count(mask) <= |xs|
    decreases |xs|
  {
    if xs != [] {
      SelectCount(xs[..|xs| - 1], mask[..|mask| - 1]);
    }
  }

  /** The distinct digests in a sequence. */
  function Elems(hs: seq<Digest>): set<Digest>
  {
    set h | h in hs
  }

  /**
   * Row i is the first occurrence of its digest: neither in `seen` nor on
   * an earlier row.
   */
  predicate FirstSeen(seen: set<Digest>, hs: seq<Digest>, i: nat)
    requires i < |hs|
  {
    hs[i] !in seen && forall j :: 0 <= j < i ==> hs[j] != hs[i]
  }

  /**
   * The de-duplication mask: walking the rows in order with a set that
   * starts as `seen` and receives every digest met, a row is kept when its
   * digest is not yet in the set.
   */
  function Firsts(seen: set<Digest>, hs: seq<Digest>): (m: seq<bool>)
    ensures |m| == |hs|
    decreases |hs|
  {
    if hs == [] then []
    else
      var p := hs[..|hs| - 1];
      Firsts(seen, p) + [hs[|hs| - 1] !in seen + Elems(p)]
  }

  /** The walking mask keeps exactly the first occurrences. */
  lemma {:induction false} FirstsAreFirstSeen(seen: set<Digest>, hs: seq<Digest>)
    ensures forall i :: 0 <= i < |hs| ==> (Firsts(seen, hs)[i] <==> FirstSeen(seen, hs, i))
    decreases |hs|
  {
    if hs != [] {
      var n := |hs| - 1;
      var p := hs[..n];
      FirstsAreFirstSeen(seen, p);
      forall i | 0 <= i < |hs|
        ensures Firsts(seen, hs)[i] <==> FirstSeen(seen, hs, i)
      {
        if i < n {
          assert Firsts(seen, hs)[i] == Firsts(seen, p)[i];
          assert FirstSeen(seen, hs, i) == FirstSeen(seen, p, i);
        } else {
          if hs[n] in Elems(p) {
            var j :| 0 <= j < n && p[j] == hs[n];
            assert hs[j] == hs[n];
          }
        }
      }
    }
  }

  /**
   * What the first-occurrence selection keeps: digests not in `seen`, each
   * once; together with `seen` they cover every digest met.
   */
  lemma {:induction false} FirstsSelection(seen: set<Digest>, hs: seq<Digest>)
    ensures var kept := Select(hs, Firsts(seen, hs));
      && Distinct(kept)
      && Elems(kept) !! seen
      && seen + Elems(kept) == seen + Elems(hs)
    decreases |hs|
  {
    if hs != [] {
      var n := |hs| - 1;
      var p := hs[..n];
      FirstsSelection(seen, p);
      assert hs == p + [hs[n]];
      assert Elems(hs) == Elems(p) + {hs[n]};
      var kp := Select(p, Firsts(seen, p));
      assert Firsts(seen, hs)[..n] == Firsts(seen, p);
      if hs[n] !in seen + Elems(p) {
        var kept := kp + [hs[n]];
        assert Select(hs, Firsts(seen, hs)) == kept;
        assert Elems(kept) == Elems(kp) + {hs[n]};
      } else {
        assert Select(hs, Firsts(seen, hs)) == kp;
      }
    }
  }

  // ---------------------------------------------------------------------
  // Digest columns.

  predicate AllHashed(b: seq<BatchRow>)
  {
    forall i :: 0 <= i < |b| ==> b[i].hash.Some?
  }

  /** The hash column of a batch whose hashes are all present. */
  function DigestsOf(b: seq<BatchRow>): (hs: seq<Digest>)
    requires AllHashed(b)
    ensures |hs| == |b|
  {
    seq(|b|, i requires 0 <= i < |b| => b[i].hash.value)
  }

  /** No digest occurs twice. */
  predicate Distinct(hs: seq<Digest>)
  {
    forall i, j :: 0 <= i < j < |hs| ==> hs[i] != hs[j]
  }

  lemma ElemsAppend(a: seq<Digest>, b: seq<Digest>)
    ensures Elems(a + b) == Elems(a) + Elems(b)
  {
  }

  lemma DistinctAppend(a: seq<Digest>, b: seq<Digest>)
    requires Distinct(a) && Distinct(b) && Elems(a) !! Elems(b)
    ensures Distinct(a + b)
  {
    forall i, j | 0 <= i < j < |a + b|
      ensures (a + b)[i] != (a + b)[j]
    {
      if i < |a| && j >= |a| {
        assert (a + b)[i] in Elems(a) && (a + b)[j] in Elems(b);
      }
    }
  }

  lemma DigestsAppend(a: seq<BatchRow>, b: seq<BatchRow>)
    requires AllHashed(a) && AllHashed(b)
    ensures AllHashed(a + b) && DigestsOf(a + b) == DigestsOf(a) + DigestsOf(b)
  {
    assert AllHashed(a + b) by {
      forall i | 0 <= i < |a + b| ensures (a + b)[i].hash.Some? {
        if i < |a| { assert (a + b)[i] == a[i]; } else { assert (a + b)[i] == b[i - |a|]; }
      }
    }
  }

  /** One more hashed row extends the hash column, its set, and the first-occurrence mask. */
  lemma DigestsStep(seen: set<Digest>, b: seq<BatchRow>, n: nat)
    requires n < |b| && AllHashed(b[..n + 1])
    ensures AllHashed(b[..n])
    ensures DigestsOf(b[..n + 1]) == DigestsOf(b[..n]) + [b[n].hash.value]
    ensures Elems(DigestsOf(b[..n + 1])) == Elems(DigestsOf(b[..n])) + {b[n].hash.value}
    ensures Firsts(seen, DigestsOf(b[..n + 1])) ==
      Firsts(seen, DigestsOf(b[..n])) + [b[n].hash.value !in seen + Elems(DigestsOf(b[..n]))]
  {
    assert b[..n + 1][..n] == b[..n];
    assert AllHashed(b[..n]) by {
      forall i | 0 <= i < n ensures b[..n][i].hash.Some? {
        assert b[..n][i] == b[..n + 1][i];
      }
    }
    var hs := DigestsOf(b[..n + 1]);
    assert hs[..n] == DigestsOf(b[..n]);
  }

  /** Filtering rows filters their hash column the same way. */
  lemma {:induction false} SelectDigests(b: seq<BatchRow>, mask: seq<bool>)
    requires AllHashed(b) && |mask| == |b|
    ensures AllHashed(Select(b, mask))
    ensures DigestsOf(Select(b, mask)) == Select(DigestsOf(b), mask)
    decreases |b|
  {
    if b != [] {
      var n := |b| - 1;
      SelectDigests(b[..n], mask[..n]);
      assert DigestsOf(b)[..n] == DigestsOf(b[..n]);
    }
  }

  /**
   * De-duplicating twice, first within the batch (starting from nothing)
   * and then against `seen`, keeps exactly the rows that de-duplicating
   * once against `seen` keeps.
   */
  lemma {:induction false} DedupTwiceIsOnce(seen: set<Digest>, b: seq<BatchRow>)
    requires AllHashed(b)
    ensures var inner := Select(b, Firsts({}, DigestsOf(b)));
      AllHashed(inner) && Select(inner, Firsts(seen, DigestsOf(inner))) == Select(b, Firsts(seen, DigestsOf(b)))
    decreases |b|
  {
    if b == [] {
      SelectDigests(b, Firsts({}, DigestsOf(b)));
    } else {
      var p, x := PrefixHashed(b);
      DedupTwiceIsOnce(seen, p);
      DedupTwiceStep(seen, p, x);
    }
  }

  /** A hashed batch is its hashed prefix and its last row. */
  lemma PrefixHashed(b: seq<BatchRow>) returns (p: seq<BatchRow>, x: BatchRow)
    requires b != [] && AllHashed(b)
    ensures b == p + [x] && AllHashed(p) && x.hash.Some? && |p| < |b|
  {
    p, x := b[..|b| - 1], b[|b| - 1];
    assert b == p + [x];
    assert forall i :: 0 <= i < |p| ==> p[i] == b[i];
  }

  /** One more row, given the claim for the rows before it. */
  lemma DedupTwiceStep(seen: set<Digest>, p: seq<BatchRow>, x: BatchRow)
    requires AllHashed(p) && x.hash.Some?
    requires var ip := Select(p, Firsts({}, DigestsOf(p)));
      AllHashed(ip) && Select(ip, Firsts(seen, DigestsOf(ip))) == Select(p, Firsts(seen, DigestsOf(p)))
    ensures AllHashed(p + [x])
    ensures var inner := Select(p + [x], Firsts({}, DigestsOf(p + [x])));
      AllHashed(inner) && Select(inner, Firsts(seen, DigestsOf(inner))) == Select(p + [x], Firsts(seen, DigestsOf(p + [x])))
  {
    var hp := DigestsOf(p);
    var ip := Select(p, Firsts({}, hp));
    SelectDigests(p, Firsts({}, hp));
    FirstsSelection({}, hp);
    assert Elems(DigestsOf(ip)) == Elems(hp);
    if x.hash.value !in Elems(hp) {
      DedupKeepsLast(seen, p, x, ip);
    } else {
      SelectFirstsLast({}, p, x);
      assert Select(p + [x], Firsts({}, DigestsOf(p + [x]))) == ip + [];
      assert ip + [] == ip;
      SelectFirstsLast(seen, p, x);
      assert Select(p + [x], Firsts(seen, DigestsOf(p + [x]))) == Select(p, Firsts(seen, hp)) + [];
      assert Select(p, Firsts(seen, hp)) + [] == Select(p, Firsts(seen, hp));
    }
  }

  /** A last row with a new digest survives the inner pass and is judged against `seen` alone. */
  lemma DedupKeepsLast(seen: set<Digest>, p: seq<BatchRow>, x: BatchRow, ip: seq<BatchRow>)
    requires AllHashed(p) && x.hash.Some? && AllHashed(ip)
    requires ip == Select(p, Firsts({}, DigestsOf(p)))
    requires Elems(DigestsOf(ip)) == Elems(DigestsOf(p)) && x.hash.value !in Elems(DigestsOf(p))
    requires Select(ip, Firsts(seen, DigestsOf(ip))) == Select(p, Firsts(seen, DigestsOf(p)))
    ensures AllHashed(p + [x])
    ensures var inner := Select(p + [x], Firsts({}, DigestsOf(p + [x])));
      AllHashed(inner) && Select(inner, Firsts(seen, DigestsOf(inner))) == Select(p + [x], Firsts(seen, DigestsOf(p + [x])))
  {
    SelectFirstsLast({}, p, x);
    SelectFirstsLast(seen, ip, x);
    SelectFirstsLast(seen, p, x);
  }

  /** Selecting first occurrences of a batch with one more row: that row is kept exactly when its digest is new. */
  lemma SelectFirstsLast(seen: set<Digest>, a: seq<BatchRow>, x: BatchRow)
    requires AllHashed(a) && x.hash.Some?
    ensures AllHashed(a + [x]) && DigestsOf(a + [x]) == DigestsOf(a) + [x.hash.value]
    ensures Select(a + [x], Firsts(seen, DigestsOf(a + [x]))) ==
      Select(a, Firsts(seen, DigestsOf(a))) + (if x.hash.value !in seen + Elems(DigestsOf(a)) then [x] else [])
  {
    var b := a + [x];
    assert AllHashed(b) by {
      forall i | 0 <= i < |b| ensures b[i].hash.Some? {
        if i < |a| { assert b[i] == a[i]; }
      }
    }
    var d := DigestsOf(b);
    assert d == DigestsOf(a) + [x.hash.value];
    assert d[..|a|] == DigestsOf(a);
    assert b[..|a|] == a;
    assert Firsts(seen, d)[..|a|] == Firsts(seen, DigestsOf(a));
  }
}
