// Properties of the transpose-solve engine, stated about the folds of
// TsolveSpec that the imperative code in KluTsolve is proved to compute:
// where each phase reads and writes, that the off-diagonal correction of a
// block equals the plain sums over the entries before the solve, that a
// singleton division is undone by multiplying back, that the permute-out
// writes exactly the chunk's rows and leaves everything else alone, and
// that column c of a chunk goes through the same arithmetic as a chunk of
// that one column.
module TsolveProps {
  import opened KluCommon
  import opened TsolveSpec

  // ---------------------------------------------------------------------
  // Permute-in
  // ---------------------------------------------------------------------

  /** Entry c of row k of the first rows of the permuted chunk. */
  lemma {:induction false} PermInPrefixAt(t: GoodT, B: seq<real>, off: int, nr: int, K: nat,
                                          k: int, c: int)
    requires ChunkIn(t, |B|, off, nr) && K <= t.sym.n && 0 <= k < K && 0 <= c < nr
    ensures 0 <= nr * k + c < nr * K
    ensures 0 <= off + t.sym.Q[k] + c * t.d < |B|
    ensures PermInUpTo(t, B, off, nr, K)[nr * k + c] == B[off + t.sym.Q[k] + c * t.d]
  {
    Slot(nr, k, c, K);
    Stride(t, |B|, off, nr, c);
    var prev := PermInUpTo(t, B, off, nr, K - 1);
    assert PermInUpTo(t, B, off, nr, K) == prev + InRow(t, B, off, nr, K - 1);
    if k < K - 1 {
      PermInPrefixAt(t, B, off, nr, K - 1, k, c);
    } else {
      assert nr * k + c == |prev| + c;
    }
  }

  /** Permute-in: X[nr*k + c] = B[off + Q[k] + c*d] for every row k and
      column c of the chunk. */
  lemma PermInAt(t: GoodT, B: seq<real>, off: int, nr: int, k: int, c: int)
    requires ChunkIn(t, |B|, off, nr) && 0 <= k < t.sym.n && 0 <= c < nr
    ensures 0 <= nr * k + c < nr * t.sym.n
    ensures 0 <= off + t.sym.Q[k] + c * t.d < |B|
    ensures PermInUpTo(t, B, off, nr, t.sym.n)[nr * k + c] == B[off + t.sym.Q[k] + c * t.d]
  {
    PermInPrefixAt(t, B, off, nr, t.sym.n, k, c);
  }

  // ---------------------------------------------------------------------
  // Off-diagonal correction
  // ---------------------------------------------------------------------

  /** The sum for row k of block b reads only the rows before the block and
      entry c of row k itself. */
  lemma {:induction false} RowSumFrame(t: GoodT, W: seq<real>, W': seq<real>, nr: int, b: int,
                                       k: int, c: int, q: int)
    requires 1 <= nr && |W| == nr * t.sym.n && |W'| == |W| && InBlock(t, b, k) && 0 <= c < nr
    requires t.Offp[k] <= q <= t.Offp[k + 1] && nr * t.sym.R[b] <= |W|
    requires forall j :: 0 <= j < nr * t.sym.R[b] ==> W[j] == W'[j]
    requires 0 <= nr * k + c < |W| && W[nr * k + c] == W'[nr * k + c]
    ensures RowSum(t, W, nr, b, k, c, q) == RowSum(t, W', nr, b, k, c, q)
    decreases q
  {
    if q > t.Offp[k] {
      RowSumFrame(t, W, W', nr, b, k, c, q - 1);
      assert OffEntry(t, b, k, q - 1);
      Slot(nr, t.Offi[q - 1], c, t.sym.R[b]);
    }
  }

  /** One more corrected row of block b: row k = R[b] + i takes its
      corrected entries and every other entry stays. */
  lemma OffStepAt(t: GoodT, W: seq<real>, nr: int, b: int, i: nat, j: int)
    requires 1 <= nr && |W| == nr * t.sym.n
    requires 0 <= b < t.sym.nblocks && i < t.sym.R[b + 1] - t.sym.R[b] && 0 <= j < |W|
    ensures var k := t.sym.R[b] + i;
            var prev := OffUpTo(t, W, nr, b, i);
            OffUpTo(t, W, nr, b, i + 1)[j]
            == if nr * k <= j < nr * k + nr then OffRow(t, prev, nr, b, k)[j - nr * k] else prev[j]
  {
    var k := t.sym.R[b] + i;
    OffUpToNext(t, W, nr, b, i);
    var prev := OffUpTo(t, W, nr, b, i);
    var row := OffRow(t, prev, nr, b, k);
    assert Splice(prev, nr * k, row)[j]
           == if nr * k <= j < nr * k + nr then row[j - nr * k] else prev[j]
      by { SpliceAt(prev, nr * k, row); }
  }

  /** Correcting the first i rows of block b leaves every entry outside
      those rows as it was. */
  lemma {:induction false} OffPrefixKeeps(t: GoodT, W: seq<real>, nr: int, b: int, i: nat, j: int)
    requires 1 <= nr && |W| == nr * t.sym.n
    requires 0 <= b < t.sym.nblocks && i <= t.sym.R[b + 1] - t.sym.R[b]
    requires 0 <= j < |W| && (j < nr * t.sym.R[b] || nr * (t.sym.R[b] + i) <= j)
    ensures OffUpTo(t, W, nr, b, i)[j] == W[j]
  {
    if i > 0 {
      var k := t.sym.R[b] + i - 1;
      OffStepAt(t, W, nr, b, i - 1, j);
      MulMono(nr, t.sym.R[b], k);
      assert nr * (k + 1) == nr * k + nr;
      OffPrefixKeeps(t, W, nr, b, i - 1, j);
    }
  }

  /** The row corrected last reads the entries as they were before the
      correction began. */
  lemma OffLastRow(t: GoodT, W: seq<real>, nr: int, b: int, i: nat, c: int)
    requires 1 <= nr && |W| == nr * t.sym.n
    requires 0 <= b < t.sym.nblocks && i < t.sym.R[b + 1] - t.sym.R[b] && 0 <= c < nr
    ensures var k := t.sym.R[b] + i;
            0 <= nr * k + c < |W| &&
            OffRow(t, OffUpTo(t, W, nr, b, i), nr, b, k)[c] == RowSum(t, W, nr, b, k, c, t.Offp[k + 1])
  {
    var k := t.sym.R[b] + i;
    var prev := OffUpTo(t, W, nr, b, i);
    Slot(nr, k, c, t.sym.n);
    MulMono(nr, 0, t.sym.R[b]);
    MulMono(nr, t.sym.R[b], k);
    forall j | 0 <= j < nr * t.sym.R[b]
      ensures prev[j] == W[j]
    {
      OffPrefixKeeps(t, W, nr, b, i, j);
    }
    OffPrefixKeeps(t, W, nr, b, i, nr * k + c);
    RowSumFrame(t, prev, W, nr, b, k, c, t.Offp[k + 1]);
  }

  /** Row k of the first i rows of block b, once corrected, holds the sums
      over the entries as they were before the correction began: the rows
      corrected before it are never read. */
  lemma {:induction false} OffPrefixRow(t: GoodT, W: seq<real>, nr: int, b: int, i: nat,
                                        k: int, c: int)
    requires 1 <= nr && |W| == nr * t.sym.n
    requires 0 <= b < t.sym.nblocks && i <= t.sym.R[b + 1] - t.sym.R[b]
    requires t.sym.R[b] <= k < t.sym.R[b] + i && 0 <= c < nr
    ensures 0 <= nr * k + c < |W|
    ensures OffUpTo(t, W, nr, b, i)[nr * k + c] == RowSum(t, W, nr, b, k, c, t.Offp[k + 1])
  {
    Slot(nr, k, c, t.sym.n);
    var last := t.sym.R[b] + i - 1;
    var j := nr * k + c;
    var prev := OffUpTo(t, W, nr, b, i - 1);
    OffStepAt(t, W, nr, b, i - 1, j);
    if k < last {
      MulMono(nr, k + 1, last);
      assert j < nr * last;
      assert OffUpTo(t, W, nr, b, i)[j] == prev[j];
      OffPrefixRow(t, W, nr, b, i - 1, k, c);
    } else {
      assert j - nr * last == c;
      assert OffUpTo(t, W, nr, b, i)[j] == OffRow(t, prev, nr, b, last)[c];
      OffLastRow(t, W, nr, b, i - 1, c);
    }
  }

  /** The correction before the solve of block b: none for the first block;
      for a later block only its own rows change. */
  lemma CorrectedKeeps(t: GoodT, W: seq<real>, nr: int, b: int, j: int)
    requires 1 <= nr && |W| == nr * t.sym.n && 0 <= b < t.sym.nblocks && 0 <= j < |W|
    requires b == 0 || j < nr * t.sym.R[b] || nr * t.sym.R[b + 1] <= j
    ensures Corrected(t, W, nr, b)[j] == W[j]
  {
    if b > 0 {
      OffPrefixKeeps(t, W, nr, b, t.sym.R[b + 1] - t.sym.R[b], j);
    }
  }

  /** For a later block, entry c of each of its rows k becomes
      W[k, c] - sum of Offx[p] * W[Offi[p], c] over the entries p of row k of
      the transposed off-diagonal block. */
  lemma CorrectedRow(t: GoodT, W: seq<real>, nr: int, b: int, k: int, c: int)
    requires 1 <= nr && |W| == nr * t.sym.n && 0 < b && InBlock(t, b, k) && 0 <= c < nr
    ensures 0 <= nr * k + c < |W|
    ensures Corrected(t, W, nr, b)[nr * k + c] == RowSum(t, W, nr, b, k, c, t.Offp[k + 1])
  {
    OffPrefixRow(t, W, nr, b, t.sym.R[b + 1] - t.sym.R[b], k, c);
  }

  // ---------------------------------------------------------------------
  // Block solves and the sweep
  // ---------------------------------------------------------------------

  /** A singleton block divides the nr entries of its row by the block's
      diagonal entry of U and leaves every other entry. */
  lemma SingletonAt(t: GoodT, W: seq<real>, nr: int, b: int, j: int)
    requires 1 <= nr && |W| == nr * t.sym.n && 0 <= b < t.sym.nblocks && 0 <= j < |W|
    requires t.sym.R[b + 1] - t.sym.R[b] == 1
    ensures var k1 := t.sym.R[b];
            SolveBlock(t, W, nr, b)[j]
            == if nr * k1 <= j < nr * k1 + nr then Div(W[j], t.Udiag[k1]) else W[j]
  {
    DivideRowAt(t, W, nr, t.sym.R[b]);
  }

  /** With a nonzero diagonal entry, multiplying a divided entry back by it
      gives the entry before the solve: the singleton solve inverts
      U[k1, k1]. */
  lemma SingletonUndone(t: GoodT, W: seq<real>, nr: int, b: int, c: int)
    requires 1 <= nr && |W| == nr * t.sym.n && 0 <= b < t.sym.nblocks && 0 <= c < nr
    requires t.sym.R[b + 1] - t.sym.R[b] == 1 && t.Udiag[t.sym.R[b]] != 0.0
    ensures var k1 := t.sym.R[b];
            0 <= nr * k1 + c < |W| &&
            SolveBlock(t, W, nr, b)[nr * k1 + c] * t.Udiag[k1] == W[nr * k1 + c]
  {
    var k1 := t.sym.R[b];
    Slot(nr, k1, c, t.sym.n);
    SingletonAt(t, W, nr, b, nr * k1 + c);
  }

  /** Applying a block solve replaces W[lo..hi) by its result and keeps the
      rest. */
  lemma ApplyAt(f: BlockSolve, b: int, nr: int, W: seq<real>, lo: int, hi: int, j: int)
    requires 0 <= lo <= hi <= |W| && |f(b, nr, W[lo..hi])| == hi - lo && 0 <= j < |W|
    ensures Apply(f, b, nr, W, lo, hi)[j]
            == if lo <= j < hi then f(b, nr, W[lo..hi])[j - lo] else W[j]
  {
    SpliceAt(W, lo, f(b, nr, W[lo..hi]));
  }

  /** After a block solve, its slice is exactly the solve's result. */
  lemma ApplySlice(f: BlockSolve, b: int, nr: int, W: seq<real>, lo: int, hi: int)
    requires 0 <= lo <= hi <= |W| && |f(b, nr, W[lo..hi])| == hi - lo
    ensures Apply(f, b, nr, W, lo, hi)[lo..hi] == f(b, nr, W[lo..hi])
  {
    SpliceAt(W, lo, f(b, nr, W[lo..hi]));
  }

  /** A larger block hands its slice W[nr*k1 .. nr*k2) to the U' solve, then
      the result to the L' solve, and keeps every entry outside the slice. */
  lemma GeneralAt(t: GoodT, W: seq<real>, nr: int, b: int, j: int)
    requires 1 <= nr && |W| == nr * t.sym.n && 0 <= b < t.sym.nblocks && 0 <= j < |W|
    requires t.sym.R[b + 1] - t.sym.R[b] != 1
    ensures 0 <= nr * t.sym.R[b] <= nr * t.sym.R[b + 1] <= |W|
    ensures var lo, hi := nr * t.sym.R[b], nr * t.sym.R[b + 1];
            SolveBlock(t, W, nr, b)[j]
            == if lo <= j < hi then t.lt(b, nr, t.ut(b, nr, W[lo..hi]))[j - lo] else W[j]
  {
    BlockSlice(t, nr, b);
    var lo, hi := nr * t.sym.R[b], nr * t.sym.R[b + 1];
    var W1 := Apply(t.ut, b, nr, W, lo, hi);
    ApplySlice(t.ut, b, nr, W, lo, hi);
    ApplyAt(t.lt, b, nr, W1, lo, hi, j);
    ApplyAt(t.ut, b, nr, W, lo, hi, j);
  }

  /** Whatever kind it is, the solve of block b changes only the block's
      own rows. */
  lemma SolveBlockKeeps(t: GoodT, W: seq<real>, nr: int, b: int, j: int)
    requires 1 <= nr && |W| == nr * t.sym.n && 0 <= b < t.sym.nblocks && 0 <= j < |W|
    requires j < nr * t.sym.R[b] || nr * t.sym.R[b + 1] <= j
    ensures SolveBlock(t, W, nr, b)[j] == W[j]
  {
    if t.sym.R[b + 1] - t.sym.R[b] == 1 {
      SingletonAt(t, W, nr, b, j);
    } else {
      GeneralAt(t, W, nr, b, j);
    }
  }

  /** The sweep goes forward: after the first q blocks, the rows of the
      later blocks are still as permuted in. */
  lemma {:induction false} SweepKeepsLater(t: GoodT, W: seq<real>, nr: int, q: nat, j: int)
    requires 1 <= nr && |W| == nr * t.sym.n && q <= t.sym.nblocks
    requires nr * t.sym.R[q] <= j < |W|
    ensures SweepUpTo(t, W, nr, q)[j] == W[j]
  {
    if q > 0 {
      var b := q - 1;
      var prev := SweepUpTo(t, W, nr, b);
      var mid := Corrected(t, prev, nr, b);
      MulMono(nr, t.sym.R[b], t.sym.R[q]);
      assert nr * t.sym.R[b + 1] <= j;
      CorrectedKeeps(t, prev, nr, b, j);
      SolveBlockKeeps(t, mid, nr, b, j);
      assert SweepUpTo(t, W, nr, q) == SolveBlock(t, mid, nr, b);
      SweepKeepsLater(t, W, nr, b, j);
    }
  }

  // ---------------------------------------------------------------------
  // Permute-out
  // ---------------------------------------------------------------------

  /** The row permutation is one-to-one, as the factorization produces it. */
  ghost predicate PnumInjective(t: GoodT)
  {
    forall k1, k2 :: 0 <= k1 < k2 < t.sym.n ==> t.Pnum[k1] != t.Pnum[k2]
  }

  /** Position j of B is row Pnum[k] of column c of the chunk at off. */
  ghost predicate Hit(t: GoodT, off: int, k: int, c: int, j: int)
  {
    0 <= k < t.sym.n && j == off + t.Pnum[k] + c * t.d
  }

  /** Rows a and a2 below n of columns c and c2 of B are the same position
      only when the columns and the rows are the same. */
  lemma Apart(t: GoodT, a: int, c: int, a2: int, c2: int)
    requires 0 <= a < t.sym.n && 0 <= a2 < t.sym.n && 0 <= c && 0 <= c2
    requires a + c * t.d == a2 + c2 * t.d
    ensures c == c2 && a == a2
  {
    if c < c2 {
      MulStep(t.d, c, c2);
      assert false;
    } else if c2 < c {
      MulStep(t.d, c2, c);
      assert false;
    }
  }

  /** Storing the first c entries of row k leaves every position that is
      not row Pnum[k] of one of the columns 0 .. c-1. */
  lemma {:induction false} PutRowMiss(t: GoodT, B: seq<real>, off: int, nr: int, W: seq<real>,
                                      k: int, c: nat, j: int)
    requires ChunkIn(t, |B|, off, nr) && |W| == nr * t.sym.n && 0 <= k < t.sym.n && c <= nr
    requires 0 <= j < |B| && forall c0 :: 0 <= c0 < c ==> !Hit(t, off, k, c0, j)
    ensures PutRow(t, B, off, nr, W, k, c)[j] == B[j]
  {
    if c > 0 {
      assert !Hit(t, off, k, c - 1, j);
      PutRowMiss(t, B, off, nr, W, k, c - 1, j);
    }
  }

  /** Storing the first c entries of row k puts entry c0 < c, unscaled, at
      row Pnum[k] of column c0. */
  lemma {:induction false} PutRowHit(t: GoodT, B: seq<real>, off: int, nr: int, W: seq<real>,
                                     k: int, c: nat, c0: int, j: int)
    requires ChunkIn(t, |B|, off, nr) && |W| == nr * t.sym.n && 0 <= k < t.sym.n && c <= nr
    requires 0 <= c0 < c && Hit(t, off, k, c0, j)
    ensures 0 <= nr * k + c0 < |W| && 0 <= j < |B|
    ensures PutRow(t, B, off, nr, W, k, c)[j] == Unscale(t, W[nr * k + c0], k)
  {
    Slot(nr, k, c0, t.sym.n);
    Stride(t, |B|, off, nr, c0);
    Stride(t, |B|, off, nr, c - 1);
    if c0 < c - 1 {
      if j == off + t.Pnum[k] + (c - 1) * t.d {
        Apart(t, t.Pnum[k], c0, t.Pnum[k], c - 1);
        assert false;
      }
      PutRowHit(t, B, off, nr, W, k, c - 1, c0, j);
    }
  }

  /** Storing the first K rows leaves every position that is not row
      Pnum[k] of a chunk column for some k < K. */
  lemma {:induction false} OutPrefixMiss(t: GoodT, B: seq<real>, off: int, nr: int, W: seq<real>,
                                         K: nat, j: int)
    requires ChunkIn(t, |B|, off, nr) && |W| == nr * t.sym.n && K <= t.sym.n
    requires 0 <= j < |B|
    requires forall k, c :: 0 <= k < K && 0 <= c < nr ==> !Hit(t, off, k, c, j)
    ensures OutUpTo(t, B, off, nr, W, K)[j] == B[j]
  {
    if K > 0 {
      var prev := OutUpTo(t, B, off, nr, W, K - 1);
      assert OutUpTo(t, B, off, nr, W, K) == PutRow(t, prev, off, nr, W, K - 1, nr);
      OutPrefixMiss(t, B, off, nr, W, K - 1, j);
      PutRowMiss(t, prev, off, nr, W, K - 1, nr, j);
    }
  }

  /** Storing the first K rows puts entry c of row k < K, unscaled, at row
      Pnum[k] of column c, when the row permutation is one-to-one. */
  lemma {:induction false} OutPrefixHit(t: GoodT, B: seq<real>, off: int, nr: int, W: seq<real>,
                                        K: nat, k: int, c: int, j: int)
    requires ChunkIn(t, |B|, off, nr) && |W| == nr * t.sym.n && K <= t.sym.n && PnumInjective(t)
    requires 0 <= k < K && 0 <= c < nr && Hit(t, off, k, c, j)
    ensures 0 <= nr * k + c < |W| && 0 <= j < |B|
    ensures OutUpTo(t, B, off, nr, W, K)[j] == Unscale(t, W[nr * k + c], k)
  {
    Slot(nr, k, c, t.sym.n);
    Stride(t, |B|, off, nr, c);
    var last := K - 1;
    var prev := OutUpTo(t, B, off, nr, W, last);
    assert OutUpTo(t, B, off, nr, W, K) == PutRow(t, prev, off, nr, W, last, nr);
    if k == last {
      PutRowHit(t, prev, off, nr, W, last, nr, c, j);
    } else {
      forall c2 | 0 <= c2 < nr
        ensures !Hit(t, off, last, c2, j)
      {
        OtherRowMiss(t, off, k, c, last, c2, j);
      }
      PutRowMiss(t, prev, off, nr, W, last, nr, j);
      OutPrefixHit(t, B, off, nr, W, K - 1, k, c, j);
    }
  }

  /** Distinct rows k and k2 are stored at distinct positions, when the
      row permutation is one-to-one. */
  lemma OtherRowMiss(t: GoodT, off: int, k: int, c: int, k2: int, c2: int, j: int)
    requires PnumInjective(t) && 0 <= c && 0 <= c2 && 0 <= k2 < t.sym.n && k != k2
    requires Hit(t, off, k, c, j)
    ensures !Hit(t, off, k2, c2, j)
  {
    if Hit(t, off, k2, c2, j) {
      Apart(t, t.Pnum[k], c, t.Pnum[k2], c2);
      assert false;
    }
  }

  /** Permute-out: row Pnum[k] of column c of the chunk receives entry c of
      row k of the workspace, divided by Rs[k] when scaling is on. */
  lemma OutAt(t: GoodT, B: seq<real>, off: int, nr: int, W: seq<real>, k: int, c: int)
    requires ChunkIn(t, |B|, off, nr) && |W| == nr * t.sym.n && PnumInjective(t)
    requires 0 <= k < t.sym.n && 0 <= c < nr
    ensures 0 <= nr * k + c < |W| && 0 <= off + t.Pnum[k] + c * t.d < |B|
    ensures OutUpTo(t, B, off, nr, W, t.sym.n)[off + t.Pnum[k] + c * t.d] == Unscale(t, W[nr * k + c], k)
  {
    OutPrefixHit(t, B, off, nr, W, t.sym.n, k, c, off + t.Pnum[k] + c * t.d);
  }

  /** Permute-out writes nothing before the chunk or after its last column. */
  lemma OutKeepsOutside(t: GoodT, B: seq<real>, off: int, nr: int, W: seq<real>, j: int)
    requires ChunkIn(t, |B|, off, nr) && |W| == nr * t.sym.n
    requires 0 <= j < |B| && (j < off || off + (nr - 1) * t.d + t.sym.n <= j)
    ensures OutUpTo(t, B, off, nr, W, t.sym.n)[j] == B[j]
  {
    forall k, c | 0 <= k < t.sym.n && 0 <= c < nr
      ensures !Hit(t, off, k, c, j)
    {
      OutsideMiss(t, off, nr, j, k, c);
    }
    OutPrefixMiss(t, B, off, nr, W, t.sym.n, j);
  }

  /** A position before the chunk or after its last column is no row
      Pnum[k] of any of its columns. */
  lemma OutsideMiss(t: GoodT, off: int, nr: int, j: int, k: int, c: int)
    requires 0 <= k < t.sym.n && 0 <= c < nr
    requires j < off || off + (nr - 1) * t.d + t.sym.n <= j
    ensures !Hit(t, off, k, c, j)
  {
    if Hit(t, off, k, c, j) {
      MulMono(t.d, 0, c);
      MulMono(t.d, c, nr - 1);
      assert false;
    }
  }

  /** Row r of column c, with n <= r < d, is no row Pnum[k] of any column. */
  lemma PadMiss(t: GoodT, off: int, c: int, r: int, k: int, c2: int)
    requires 0 <= c && 0 <= c2 && t.sym.n <= r < t.d && 0 <= k < t.sym.n
    ensures !Hit(t, off, k, c2, off + c * t.d + r)
  {
    if Hit(t, off, k, c2, off + c * t.d + r) {
      if c2 <= c {
        MulMono(t.d, c2, c);
      } else {
        MulStep(t.d, c, c2);
      }
      assert false;
    }
  }

  /** Permute-out never writes rows n .. d-1 of the chunk's columns. */
  lemma OutKeepsPadding(t: GoodT, B: seq<real>, off: int, nr: int, W: seq<real>, c: int, r: int)
    requires ChunkIn(t, |B|, off, nr) && |W| == nr * t.sym.n
    requires 0 <= c < nr && t.sym.n <= r < t.d && off + c * t.d + r < |B|
    ensures 0 <= off + c * t.d + r
    ensures OutUpTo(t, B, off, nr, W, t.sym.n)[off + c * t.d + r] == B[off + c * t.d + r]
  {
    var j := off + c * t.d + r;
    MulMono(t.d, 0, c);
    forall k, c2 | 0 <= k < t.sym.n && 0 <= c2 < nr
      ensures !Hit(t, off, k, c2, j)
    {
      PadMiss(t, off, c, r, k, c2);
    }
    OutPrefixMiss(t, B, off, nr, W, t.sym.n, j);
  }

  // ---------------------------------------------------------------------
  // The whole solve
  // ---------------------------------------------------------------------

  /** A solved chunk leaves B alone before its first column and after its
      last. */
  lemma ChunkKeepsOutside(t: GoodT, B: seq<real>, off: int, nr: int, j: int)
    requires ChunkIn(t, |B|, off, nr)
    requires 0 <= j < |B| && (j < off || off + (nr - 1) * t.d + t.sym.n <= j)
    ensures ChunkB(t, B, off, nr)[j] == B[j]
  {
    OutKeepsOutside(t, B, off, nr, Solved(t, B, off, nr), j);
  }

  /** A solved chunk leaves rows n .. d-1 of its columns alone. */
  lemma ChunkKeepsPadding(t: GoodT, B: seq<real>, off: int, nr: int, c: int, r: int)
    requires ChunkIn(t, |B|, off, nr)
    requires 0 <= c < nr && t.sym.n <= r < t.d && off + c * t.d + r < |B|
    ensures 0 <= off + c * t.d + r
    ensures ChunkB(t, B, off, nr)[off + c * t.d + r] == B[off + c * t.d + r]
  {
    OutKeepsPadding(t, B, off, nr, Solved(t, B, off, nr), c, r);
  }

  /** A last chunk of at most four columns writes nothing outside them. */
  lemma LastChunkKeepsOutside(t: GoodT, B: seq<real>, off: int, rem: int, j: int)
    requires Fits(t, |B|, off, rem) && 0 < rem <= 4 && 0 <= j < |B|
    requires j < off || off + (rem - 1) * t.d + t.sym.n <= j
    ensures SolveRest(t, B, off, rem)[j] == B[j]
  {
    FitsNext(t, |B|, off, rem);
    var B1 := ChunkB(t, B, off, rem);
    SolveFromNext(t, B, B1, off, off + 4 * t.d, rem, rem - 4);
    ChunkKeepsOutside(t, B, off, rem, j);
    SolveFromDone(t, B1, off + 4 * t.d, rem - 4);
  }

  /** The chunks of the solve write nothing before the first column at off
      or after the last of the rem columns. */
  lemma {:induction false} SolveFromKeepsOutside(t: GoodT, B: seq<real>, off: int, rem: int, j: int)
    requires Fits(t, |B|, off, rem) && 0 <= j < |B|
    requires j < off || (rem > 0 && off + (rem - 1) * t.d + t.sym.n <= j)
    ensures SolveRest(t, B, off, rem)[j] == B[j]
    decreases rem
  {
    if rem <= 0 {
      SolveFromDone(t, B, off, rem);
    } else if rem <= 4 {
      LastChunkKeepsOutside(t, B, off, rem, j);
    } else {
      var B1 := FirstChunkKeepsOutside(t, B, off, rem, j);
      SolveFromKeepsOutside(t, B1, off + 4 * t.d, rem - 4, j);
    }
  }

  /** Of more than four columns, the first chunk of four writes nothing
      outside them, and what lies outside them lies outside the rest. */
  lemma FirstChunkKeepsOutside(t: GoodT, B: seq<real>, off: int, rem: int, j: int)
      returns (B1: seq<real>)
    requires Fits(t, |B|, off, rem) && rem > 4 && 0 <= j < |B|
    requires j < off || off + (rem - 1) * t.d + t.sym.n <= j
    ensures Fits(t, |B1|, off + 4 * t.d, rem - 4) && j < |B1| && B1[j] == B[j]
    ensures SolveRest(t, B1, off + 4 * t.d, rem - 4) == SolveRest(t, B, off, rem)
    ensures j < off + 4 * t.d || off + 4 * t.d + (rem - 4 - 1) * t.d + t.sym.n <= j
  {
    if off <= j {
      PastFirstFour(t.d, t.sym.n, off, rem, j);
    } else {
      MulMono(t.d, 0, 4);
    }
    FitsNext(t, |B|, off, rem);
    B1 := ChunkB(t, B, off, 4);
    SolveFromNext(t, B, B1, off, off + 4 * t.d, rem, rem - 4);
    ChunkKeepsOutside(t, B, off, 4, j);
  }

  /** The solve never writes rows n .. d-1 of any of its rem columns: row
      r of column c, which starts at at. */
  lemma {:induction false} SolveFromKeepsPadding(t: GoodT, B: seq<real>, off: int, rem: int,
                                                 c: int, at: int, r: int)
    requires Fits(t, |B|, off, rem) && 0 <= c < rem && at == off + c * t.d
    requires t.sym.n <= r < t.d && at + r < |B|
    ensures 0 <= at + r
    ensures SolveRest(t, B, off, rem)[at + r] == B[at + r]
    decreases rem
  {
    if rem <= 4 || c < 4 {
      FirstChunkKeepsPadding(t, B, off, rem, c, at, r);
    } else {
      var B1 := LaterChunkKeepsPadding(t, B, off, rem, c, at, r);
      SolveFromKeepsPadding(t, B1, off + 4 * t.d, rem - 4, c - 4, at, r);
    }
  }

  /** Padding of a column in the first chunk: that chunk leaves it, and the
      chunks after it, if any, lie beyond it. */
  lemma FirstChunkKeepsPadding(t: GoodT, B: seq<real>, off: int, rem: int, c: int, at: int, r: int)
    requires Fits(t, |B|, off, rem) && 0 <= c < rem && at == off + c * t.d
    requires t.sym.n <= r < t.d && at + r < |B|
    requires rem <= 4 || c < 4
    ensures 0 <= at + r
    ensures SolveRest(t, B, off, rem)[at + r] == B[at + r]
  {
    if rem <= 4 {
      LastChunkKeepsPadding(t, B, off, rem, c, at, r);
    } else {
      EarlyChunkKeepsPadding(t, B, off, rem, c, at, r);
    }
  }

  /** Padding of a column in a full first chunk with more columns after it:
      the chunk leaves it, and the later chunks lie beyond it. */
  lemma EarlyChunkKeepsPadding(t: GoodT, B: seq<real>, off: int, rem: int, c: int, at: int, r: int)
    requires Fits(t, |B|, off, rem) && 0 <= c < 4 < rem && at == off + c * t.d
    requires t.sym.n <= r < t.d && at + r < |B|
    ensures 0 <= at + r
    ensures SolveRest(t, B, off, rem)[at + r] == B[at + r]
  {
    InFirstFour(t.d, off, c, at, r);
    FitsNext(t, |B|, off, rem);
    var B1 := ChunkB(t, B, off, 4);
    SolveFromNext(t, B, B1, off, off + 4 * t.d, rem, rem - 4);
    ChunkKeepsPadding(t, B, off, 4, c, r);
    SolveFromKeepsOutside(t, B1, off + 4 * t.d, rem - 4, at + r);
  }

  /** Padding of a column in a last chunk of at most four columns. */
  lemma LastChunkKeepsPadding(t: GoodT, B: seq<real>, off: int, rem: int, c: int, at: int, r: int)
    requires Fits(t, |B|, off, rem) && 0 <= c < rem <= 4 && at == off + c * t.d
    requires t.sym.n <= r < t.d && at + r < |B|
    ensures 0 <= at + r
    ensures SolveRest(t, B, off, rem)[at + r] == B[at + r]
  {
    FitsNext(t, |B|, off, rem);
    var B1 := ChunkB(t, B, off, rem);
    SolveFromNext(t, B, B1, off, off + 4 * t.d, rem, rem - 4);
    ChunkKeepsPadding(t, B, off, rem, c, r);
    SolveFromDone(t, B1, off + 4 * t.d, rem - 4);
  }

  /** Padding of a column past the first chunk: that chunk leaves it, and it
      is column c - 4 of the rest. */
  lemma LaterChunkKeepsPadding(t: GoodT, B: seq<real>, off: int, rem: int, c: int, at: int, r: int)
      returns (B1: seq<real>)
    requires Fits(t, |B|, off, rem) && 4 <= c < rem && at == off + c * t.d
    requires t.sym.n <= r < t.d && at + r < |B|
    ensures Fits(t, |B1|, off + 4 * t.d, rem - 4) && |B1| == |B| && B1[at + r] == B[at + r]
    ensures SolveRest(t, B1, off + 4 * t.d, rem - 4) == SolveRest(t, B, off, rem)
    ensures at == off + 4 * t.d + (c - 4) * t.d
  {
    PastFour(t.d, off, c, at);
    FitsNext(t, |B|, off, rem);
    B1 := ChunkB(t, B, off, 4);
    SolveFromNext(t, B, B1, off, off + 4 * t.d, rem, rem - 4);
    ChunkKeepsOutside(t, B, off, 4, at + r);
  }

  // ---------------------------------------------------------------------
  // A chunk's columns are independent
  // ---------------------------------------------------------------------

  /** Column c of an interleaved workspace of m rows. */
  function ColOf(W: seq<real>, nr: int, m: int, c: int): (col: seq<real>)
    requires 0 <= c < nr && 0 <= m && |W| == nr * m
    ensures |col| == m
  {
    seq(m, k requires 0 <= k < m => Slot(nr, k, c, m); W[nr * k + c])
  }

  /** Row k of column c is entry nr*k + c of the workspace. */
  lemma ColOfAt(W: seq<real>, nr: int, m: int, c: int, k: int)
    requires 0 <= c < nr && 0 <= m && |W| == nr * m && 0 <= k < m
    ensures 0 <= nr * k + c < |W| && ColOf(W, nr, m, c)[k] == W[nr * k + c]
  {
    Slot(nr, k, c, m);
  }

  /** Permuting in nr columns and taking column c is permuting in that
      column alone. */
  lemma PermInColumn(t: GoodT, B: seq<real>, off: int, nr: int, c: int)
    requires ChunkIn(t, |B|, off, nr) && 0 <= c < nr
    ensures ChunkIn(t, |B|, off + c * t.d, 1)
    ensures ColOf(PermInUpTo(t, B, off, nr, t.sym.n), nr, t.sym.n, c)
            == PermInUpTo(t, B, off + c * t.d, 1, t.sym.n)
  {
    Stride(t, |B|, off, nr, c);
    var n := t.sym.n;
    var W := PermInUpTo(t, B, off, nr, n);
    var lhs := ColOf(W, nr, n, c);
    var rhs := PermInUpTo(t, B, off + c * t.d, 1, n);
    forall k | 0 <= k < n
      ensures lhs[k] == rhs[k]
    {
      ColOfAt(W, nr, n, c, k);
      PermInAt(t, B, off, nr, k, c);
      PermInAt(t, B, off + c * t.d, 1, k, 0);
    }
  }

  /** The sum for entry c of row k over nr columns is the sum over column c
      alone. */
  lemma {:induction false} RowSumColumn(t: GoodT, W: seq<real>, nr: int, b: int, k: int, c: int, q: int)
    requires 1 <= nr && |W| == nr * t.sym.n && InBlock(t, b, k) && 0 <= c < nr
    requires t.Offp[k] <= q <= t.Offp[k + 1]
    ensures RowSum(t, W, nr, b, k, c, q) == RowSum(t, ColOf(W, nr, t.sym.n, c), 1, b, k, 0, q)
    decreases q
  {
    var n := t.sym.n;
    ColOfAt(W, nr, n, c, k);
    if q > t.Offp[k] {
      RowSumColumn(t, W, nr, b, k, c, q - 1);
      assert OffEntry(t, b, k, q - 1);
      ColOfAt(W, nr, n, c, t.Offi[q - 1]);
    }
  }

  /** Entry c of row k, where row k lies outside rows k1 .. k2-1, lies
      outside W[nr*k1 .. nr*k2). */
  lemma OutsideRows(nr: int, k: int, c: int, k1: int, k2: int)
    requires 0 <= c < nr && 0 <= k && 0 <= k1 <= k2 && (k < k1 || k2 <= k)
    ensures nr * k + c < nr * k1 || nr * k2 <= nr * k + c
  {
    if k < k1 {
      MulMono(nr, k + 1, k1);
    } else {
      MulMono(nr, k2, k);
    }
  }

  /** Row k of column c of the corrected workspace. */
  lemma CorrectedColumnAt(t: GoodT, W: seq<real>, nr: int, b: int, c: int, k: int)
    requires 1 <= nr && |W| == nr * t.sym.n && 0 <= b < t.sym.nblocks && 0 <= c < nr
    requires 0 <= k < t.sym.n
    ensures ColOf(Corrected(t, W, nr, b), nr, t.sym.n, c)[k]
            == Corrected(t, ColOf(W, nr, t.sym.n, c), 1, b)[k]
  {
    var n := t.sym.n;
    var V := ColOf(W, nr, n, c);
    ColOfAt(W, nr, n, c, k);
    ColOfAt(Corrected(t, W, nr, b), nr, n, c, k);
    if b > 0 && InBlock(t, b, k) {
      CorrectedRow(t, W, nr, b, k, c);
      CorrectedRow(t, V, 1, b, k, 0);
      RowSumColumn(t, W, nr, b, k, c, t.Offp[k + 1]);
    } else {
      if b > 0 {
        OutsideRows(nr, k, c, t.sym.R[b], t.sym.R[b + 1]);
        OutsideRows(1, k, 0, t.sym.R[b], t.sym.R[b + 1]);
      }
      CorrectedKeeps(t, W, nr, b, nr * k + c);
      CorrectedKeeps(t, V, 1, b, k);
    }
  }

  /** The off-diagonal correction of nr columns, taken at column c, is the
      correction of column c alone. */
  lemma CorrectedColumn(t: GoodT, W: seq<real>, nr: int, b: int, c: int)
    requires 1 <= nr && |W| == nr * t.sym.n && 0 <= b < t.sym.nblocks && 0 <= c < nr
    ensures ColOf(Corrected(t, W, nr, b), nr, t.sym.n, c)
            == Corrected(t, ColOf(W, nr, t.sym.n, c), 1, b)
  {
    forall k | 0 <= k < t.sym.n
      ensures ColOf(Corrected(t, W, nr, b), nr, t.sym.n, c)[k]
              == Corrected(t, ColOf(W, nr, t.sym.n, c), 1, b)[k]
    {
      CorrectedColumnAt(t, W, nr, b, c, k);
    }
  }

  /** Row k of column c of a row divided by its diagonal entry. */
  lemma DivideRowColumnAt(t: GoodT, W: seq<real>, nr: int, k1: int, c: int, k: int)
    requires 1 <= nr && |W| == nr * t.sym.n && 0 <= k1 < t.sym.n && 0 <= c < nr
    requires 0 <= k < t.sym.n
    ensures ColOf(DivideRow(t, W, nr, k1), nr, t.sym.n, c)[k]
            == DivideRow(t, ColOf(W, nr, t.sym.n, c), 1, k1)[k]
  {
    var n := t.sym.n;
    var V := ColOf(W, nr, n, c);
    ColOfAt(W, nr, n, c, k);
    ColOfAt(DivideRow(t, W, nr, k1), nr, n, c, k);
    var j := nr * k + c;
    DivideRowEntry(t, W, nr, k1, j);
    DivideRowEntry(t, V, 1, k1, k);
    if k == k1 {
      assert j == nr * k1 + c;
      assert DivideRow(t, W, nr, k1)[j] == Div(W[j], t.Udiag[k1]);
    } else {
      OutsideRows(nr, k, c, k1, k1 + 1);
      assert nr * (k1 + 1) == nr * k1 + nr;
      assert DivideRow(t, W, nr, k1)[j] == W[j];
    }
  }

  /** Entry j of a row division. */
  lemma DivideRowEntry(t: GoodT, W: seq<real>, nr: int, k1: int, j: int)
    requires 1 <= nr && |W| == nr * t.sym.n && 0 <= k1 < t.sym.n && 0 <= j < |W|
    ensures DivideRow(t, W, nr, k1)[j]
            == if nr * k1 <= j < nr * k1 + nr then Div(W[j], t.Udiag[k1]) else W[j]
  {
    DivideRowAt(t, W, nr, k1);
  }

  /** A singleton block's division of nr columns, taken at column c, is
      the division of column c alone. */
  lemma DivideRowColumn(t: GoodT, W: seq<real>, nr: int, k1: int, c: int)
    requires 1 <= nr && |W| == nr * t.sym.n && 0 <= k1 < t.sym.n && 0 <= c < nr
    ensures ColOf(DivideRow(t, W, nr, k1), nr, t.sym.n, c)
            == DivideRow(t, ColOf(W, nr, t.sym.n, c), 1, k1)
  {
    forall k | 0 <= k < t.sym.n
      ensures ColOf(DivideRow(t, W, nr, k1), nr, t.sym.n, c)[k]
              == DivideRow(t, ColOf(W, nr, t.sym.n, c), 1, k1)[k]
    {
      DivideRowColumnAt(t, W, nr, k1, c, k);
    }
  }
}
