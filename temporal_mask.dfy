/** The free function `apply_temporal_mask`: gather the vectors of a batch
    that a boolean temporal mask selects, in row-major order, and split them
    back into as many rows as the batch has.

    A batch `x` of shape (N,S,...) is a sequence of N rows of S elements; an
    element stands for whatever lies below the first two axes (a feature
    vector of length M, or a single value). */
module TemporalMask {
  import opened Wrappers

  /** `x` has `rows` rows of `cols` elements each. */
  predicate IsMatrix<V>(x: seq<seq<V>>, rows: nat, cols: nat)
  {
    |x| == rows && forall n :: 0 <= n < rows ==> |x[n]| == cols
  }

  /** Boolean indexing needs the mask to have the shape of the indexed axes. */
  predicate SameShape<V>(x: seq<seq<V>>, mask: seq<seq<bool>>)
  {
    |x| == |mask| && forall n :: 0 <= n < |x| ==> |x[n]| == |mask[n]|
  }

  /** Number of set bits in one mask row. */
  function CountTrue(mask: seq<bool>): nat
  {
    if mask == [] then 0 else (if mask[0] then 1 else 0) + CountTrue(mask[1..])
  }

  /** Number of set bits in a whole mask. */
  function TotalTrue(mask: seq<seq<bool>>): nat
  {
    if mask == [] then 0 else CountTrue(mask[0]) + TotalTrue(mask[1..])
  }

  /** Row-major flattening: the rows of `x`, one after the other. */
  function Concat<V>(x: seq<seq<V>>): seq<V>
  {
    if x == [] then [] else x[0] + Concat(x[1..])
  }

  /** The elements of `row` whose mask bit is set, in their order. */
  function Select<V>(row: seq<V>, mask: seq<bool>): (r: seq<V>)
    requires |row| == |mask|
    ensures |r| == CountTrue(mask)
  {
    if row == [] then []
    else (if mask[0] then [row[0]] else []) + Select(row[1..], mask[1..])
  }

  /** `x[mask]` for a two-dimensional boolean mask: the selected elements of
      every row, row after row. */
  function Gather<V>(x: seq<seq<V>>, mask: seq<seq<bool>>): (r: seq<V>)
    requires SameShape(x, mask)
    ensures |r| == TotalTrue(mask)
  {
    if x == [] then [] else Select(x[0], mask[0]) + Gather(x[1..], mask[1..])
  }

  /** `unflatten(0, (n, k))` of a sequence of `n * k` elements: `n` rows of
      `k` consecutive elements. */
  function Chunk<V>(s: seq<V>, n: nat, k: nat): (r: seq<seq<V>>)
    requires |s| == n * k
    ensures IsMatrix(r, n, k)
    decreases n
  {
    if n == 0 then []
    else
      assert |s[k..]| == (n - 1) * k;
      [s[..k]] + Chunk(s[k..], n - 1, k)
  }

  /** Why `apply_temporal_mask` can fail: the boolean index has the wrong
      shape (an index error), or the gathered elements cannot be split into
      `x.size(0)` rows (the reshape fails; with zero rows the inferred size is
      ambiguous). */
  datatype MaskError = ShapeMismatch | CannotSplitIntoRows

  /** `apply_temporal_mask(x, temporal_mask)`: the masked elements of `x` in
      row-major order, split into `|x|` rows of equal length. Per-row counts
      need not be equal, only the total must divide by `|x|`; `x` itself is a
      value and is left as it was. */
  function ApplyTemporalMask<V>(x: seq<seq<V>>, mask: seq<seq<bool>>): (r: Result<seq<seq<V>>, MaskError>)
    ensures r.Success? <==> SameShape(x, mask) && |x| > 0 && TotalTrue(mask) % |x| == 0
    ensures r == Failure(ShapeMismatch) <==> !SameShape(x, mask)
    ensures r.Success? ==> IsMatrix(r.value, |x|, TotalTrue(mask) / |x|)
    ensures r.Success? ==> Concat(r.value) == Gather(x, mask)
  {
    if !SameShape(x, mask) then Failure(ShapeMismatch)
    else
      var gathered := Gather(x, mask);
      if |x| == 0 || |gathered| % |x| != 0 then Failure(CannotSplitIntoRows)
      else
        var k := |gathered| / |x|;
        assert |gathered| == |x| * k + |gathered| % |x|;
        ConcatChunk(gathered, |x|, k);
        Success(Chunk(gathered, |x|, k))
  }

  /** Splitting into rows and flattening again gives back the sequence. */
  lemma {:induction false} ConcatChunk<V>(s: seq<V>, n: nat, k: nat)
    requires |s| == n * k
    ensures Concat(Chunk(s, n, k)) == s
    decreases n
  {
    if n > 0 {
      assert |s[k..]| == (n - 1) * k;
      ConcatChunk(s[k..], n - 1, k);
      assert s == s[..k] + s[k..];
    }
  }

  /** Flattening `n` rows of `k` elements yields `n * k` elements. */
  lemma {:induction false} ConcatLength<V>(x: seq<seq<V>>, n: nat, k: nat)
    requires IsMatrix(x, n, k)
    ensures |Concat(x)| == n * k
    decreases n
  {
    if n > 0 {
      assert IsMatrix(x[1..], n - 1, k);
      ConcatLength(x[1..], n - 1, k);
    }
  }

  /** Flattening rows of equal length and splitting again gives back the rows. */
  lemma {:induction false} ChunkConcat<V>(x: seq<seq<V>>, n: nat, k: nat)
    requires IsMatrix(x, n, k)
    ensures |Concat(x)| == n * k
    ensures Chunk(Concat(x), n, k) == x
    decreases n
  {
    ConcatLength(x, n, k);
    if n > 0 {
      assert IsMatrix(x[1..], n - 1, k);
      ChunkConcat(x[1..], n - 1, k);
      assert Concat(x)[..k] == x[0];
      assert Concat(x)[k..] == Concat(x[1..]);
      assert x == [x[0]] + x[1..];
    }
  }

  /** Selecting from two concatenated pieces selects from each piece. */
  lemma {:induction false} SelectAppend<V>(a: seq<V>, ma: seq<bool>, b: seq<V>, mb: seq<bool>)
    requires |a| == |ma| && |b| == |mb|
    ensures Select(a + b, ma + mb) == Select(a, ma) + Select(b, mb)
    decreases |a|
  {
    if a != [] {
      assert (a + b)[1..] == a[1..] + b;
      assert (ma + mb)[1..] == ma[1..] + mb;
      SelectAppend(a[1..], ma[1..], b, mb);
    } else {
      assert a + b == b && ma + mb == mb;
    }
  }

  /** A mask of the shape of `x` flattens to as many bits as `x` has elements. */
  lemma {:induction false} ConcatSameLength<V>(x: seq<seq<V>>, mask: seq<seq<bool>>)
    requires SameShape(x, mask)
    ensures |Concat(x)| == |Concat(mask)|
  {
    if x != [] {
      ConcatSameLength(x[1..], mask[1..]);
    }
  }

  /** Row-major order: gathering row by row is the same as flattening the
      batch and the mask and selecting from the flat sequence. */
  lemma {:induction false} GatherIsFlatSelect<V>(x: seq<seq<V>>, mask: seq<seq<bool>>)
    requires SameShape(x, mask)
    ensures |Concat(x)| == |Concat(mask)|
    ensures Gather(x, mask) == Select(Concat(x), Concat(mask))
  {
    ConcatSameLength(x, mask);
    if x != [] {
      GatherIsFlatSelect(x[1..], mask[1..]);
      SelectAppend(x[0], mask[0], Concat(x[1..]), Concat(mask[1..]));
    }
  }

  /** The selected element at position `i` of a row lands at the index given
      by the number of set bits before `i`. */
  lemma {:induction false} SelectAt<V>(row: seq<V>, mask: seq<bool>, i: nat)
    requires |row| == |mask| && i < |row| && mask[i]
    ensures CountTrue(mask[..i]) < CountTrue(mask)
    ensures Select(row, mask)[CountTrue(mask[..i])] == row[i]
    decreases i
  {
    if i > 0 {
      SelectAt(row[1..], mask[1..], i - 1);
      assert mask[..i][1..] == mask[1..][..i - 1];
    }
  }

  /** Every masked element `x[n][s]` appears in the gathered sequence, after
      the masked elements of the rows before `n` and of row `n` before `s`. */
  lemma {:induction false} GatherAt<V>(x: seq<seq<V>>, mask: seq<seq<bool>>, n: nat, s: nat)
    requires SameShape(x, mask) && n < |x| && s < |x[n]| && mask[n][s]
    ensures TotalTrue(mask[..n]) + CountTrue(mask[n][..s]) < TotalTrue(mask)
    ensures Gather(x, mask)[TotalTrue(mask[..n]) + CountTrue(mask[n][..s])] == x[n][s]
    decreases n
  {
    if n == 0 {
      SelectAt(x[0], mask[0], s);
    } else {
      GatherAt(x[1..], mask[1..], n - 1, s);
      assert mask[..n][1..] == mask[1..][..n - 1];
    }
  }

  /** The masked elements of each row on their own: the result one would
      expect if every row kept its own masked vectors. */
  function SelectRows<V>(x: seq<seq<V>>, mask: seq<seq<bool>>): (r: seq<seq<V>>)
    requires SameShape(x, mask)
    ensures |r| == |x|
    ensures forall n :: 0 <= n < |x| ==> r[n] == Select(x[n], mask[n])
  {
    if x == [] then [] else [Select(x[0], mask[0])] + SelectRows(x[1..], mask[1..])
  }

  /** Gathering is flattening the per-row selections. */
  lemma {:induction false} GatherIsConcatOfRows<V>(x: seq<seq<V>>, mask: seq<seq<bool>>)
    requires SameShape(x, mask)
    ensures Gather(x, mask) == Concat(SelectRows(x, mask))
  {
    if x != [] {
      GatherIsConcatOfRows(x[1..], mask[1..]);
      assert SelectRows(x, mask)[1..] == SelectRows(x[1..], mask[1..]);
    }
  }

  /** When every row of the mask selects the same number `k` of elements,
      row `n` of the result is exactly the masked elements of row `n`. */
  lemma EqualCountsKeepRows<V>(x: seq<seq<V>>, mask: seq<seq<bool>>, k: nat)
    requires SameShape(x, mask) && |x| > 0
    requires forall n :: 0 <= n < |mask| ==> CountTrue(mask[n]) == k
    ensures ApplyTemporalMask(x, mask) == Success(SelectRows(x, mask))
  {
    var rows := SelectRows(x, mask);
    assert IsMatrix(rows, |x|, k);
    GatherIsConcatOfRows(x, mask);
    ChunkConcat(rows, |x|, k);
    var gathered := Gather(x, mask);
    assert |gathered| == |x| * k;
    Quotient(|x|, k);
    assert ApplyTemporalMask(x, mask) == Success(Chunk(gathered, |x|, k));
  }

  /** `n * k` divides evenly by `n`, with quotient `k`. */
  lemma Quotient(n: nat, k: nat)
    requires n > 0
    ensures (n * k) % n == 0 && (n * k) / n == k
  {
    var q, r := (n * k) / n, (n * k) % n;
    assert n * (k - q) == r;
    MultipleBounds(n, k - q);
  }

  /** A nonzero multiple of `n` is at least `n` away from zero. */
  lemma MultipleBounds(n: nat, d: int)
    ensures d >= 1 ==> n * d >= n
    ensures d <= -1 ==> n * d + n <= 0
  {
  }

  /** With unequal per-row counts the split ignores row boundaries: here row
      0 selects three vectors and row 1 one, and the third vector of input
      row 0 ends up in output row 1. */
  lemma RowsCanMix()
    ensures ApplyTemporalMask([[1, 2, 3], [4, 5, 6]], [[true, true, true], [true, false, false]])
         == Success([[1, 2], [3, 4]])
  {
    var x := [[1, 2, 3], [4, 5, 6]];
    var mask := [[true, true, true], [true, false, false]];
    assert Select(x[1], mask[1]) == [4];
    assert Select(x[0], mask[0]) == [1, 2, 3];
    assert Gather(x, mask) == [1, 2, 3, 4];
    assert TotalTrue(mask) == 4;
    var flat := [1, 2, 3, 4];
    var rest := [3, 4];
    assert flat[..2] == [1, 2] && flat[2..] == rest;
    assert rest[..2] == rest && rest[2..] == [];
    assert Chunk(rest, 1, 2) == [rest] + Chunk([], 0, 2);
    assert Chunk(flat, 2, 2) == [[1, 2], [3, 4]];
  }
}
