// The transpose-solve engine klu_z_tsolve (DZklu_tsolve.java): imperative
// code over the caller's right-hand-side buffer B and the workspace Xwork of
// the numeric descriptor, proved equal to the folds of TsolveSpec. The four
// copies of each loop that the source specialises for chunk widths 1 to 4
// are one loop over the nr columns of the chunk here.
module KluTsolve {
  import opened KluCommon
  import opened TsolveSpec

  /** The read-only inputs of a solve, read from the descriptors. */
  ghost function TCtxOf(sym: Symbolic, numeric: Numeric, d: int, ut: BlockSolve, lt: BlockSolve): TCtx
    reads numeric, numeric.Offx, numeric.Udiag
    reads if numeric.Rs == null then {} else {numeric.Rs}
  {
    TCtx(sym, numeric.Pnum, numeric.Offp, numeric.Offi, numeric.Offx[..], numeric.Udiag[..],
         if numeric.Rs == null then None else Some(numeric.Rs[..]), d, ut, lt)
  }

  /** The block solves write exactly the slice they are given. */
  ghost predicate KeepLength(f: BlockSolve)
  {
    forall b, nr, s :: |f(b, nr, s)| == |s|
  }

  /** What a solve with valid arguments needs of them: descriptors from a
      factorization of the matrix sym describes, a workspace of 4 n entries,
      and a right-hand-side buffer, distinct from the descriptor's arrays,
      that holds nrhs columns of n entries d apart from B_offset on. */
  ghost predicate Ready(sym: Symbolic, numeric: Numeric, d: int, nrhs: int, B: array<real>,
                        Boff: int, ut: BlockSolve, lt: BlockSolve)
    reads numeric
  {
    && numeric.Valid(sym) && numeric.OffDiagonalValid(sym)
    && 4 * sym.n <= numeric.Xwork.Length
    && numeric.Apart(B) && B != numeric.Rs
    && sym.n <= d
    && 0 <= Boff && (nrhs > 0 ==> Boff + (nrhs - 1) * d + sym.n <= B.Length)
    && KeepLength(ut) && KeepLength(lt)
  }

  lemma ReadyCtx(sym: Symbolic, numeric: Numeric, d: int, nrhs: int, B: array<real>,
                 Boff: int, ut: BlockSolve, lt: BlockSolve)
    requires Ready(sym, numeric, d, nrhs, B, Boff, ut, lt)
    ensures TCtxOk(TCtxOf(sym, numeric, d, ut, lt))
  {
    var t := TCtxOf(sym, numeric, d, ut, lt);
    forall b, k, p | OffEntry(t, b, k, p)
      ensures 0 <= t.Offi[p] < t.sym.R[b]
    {
      assert numeric.OffEntry(sym, b, k, p);
    }
  }

  // ---------------------------------------------------------------------
  // Permute-in
  // ---------------------------------------------------------------------

  /** X = Q' B for the chunk of nr columns at off (DZklu_tsolve.java:134-178). */
  method PermuteIn(ghost t: GoodT, Q: seq<int>, d: int, B: array<real>, off: int, nr: int,
                   X: array<real>)
    requires Q == t.sym.Q && d == t.d
    requires ChunkIn(t, B.Length, off, nr) && nr * t.sym.n <= X.Length && B != X
    modifies X
    ensures X[..nr * t.sym.n] == PermInUpTo(t, B[..], off, nr, t.sym.n)
  {
    var n := |Q|;
    var k := 0;
    while k < n
      invariant 0 <= k <= n && nr * k <= X.Length
      invariant X[..nr * k] == PermInUpTo(t, B[..], off, nr, k)
    {
      Slot(nr, k, nr - 1, n);
      ghost var row := InRow(t, B[..], off, nr, k);
      var i := Q[k];
      var c := 0;
      while c < nr
        invariant 0 <= c <= nr
        invariant X[..nr * k + c] == PermInUpTo(t, B[..], off, nr, k) + row[..c]
      {
        Stride(t, B.Length, off, nr, c);
        X[nr * k + c] := B[off + i + c * d];
        assert row[..c + 1] == row[..c] + [row[c]];
        c := c + 1;
      }
      assert row[..nr] == row;
      k := k + 1;
    }
  }

  // ---------------------------------------------------------------------
  // Writing a run of workspace entries
  // ---------------------------------------------------------------------

  /** Store vals at X[at..at+|vals|), inside the first m entries. */
  method Store(X: array<real>, m: int, at: int, vals: seq<real>)
    requires 0 <= at && at + |vals| <= m <= X.Length
    modifies X
    ensures X[..m] == Splice(old(X[..m]), at, vals)
  {
    ghost var W := X[..m];
    var c := 0;
    while c < |vals|
      invariant 0 <= c <= |vals|
      invariant forall j :: 0 <= j < m ==> X[j] == if at <= j < at + c then vals[j - at] else W[j]
    {
      X[at + c] := vals[c];
      c := c + 1;
    }
    SpliceAt(W, at, vals);
    assert X[..m] == Splice(W, at, vals);
  }

  /** A slice of a prefix is the same slice of the whole. */
  lemma PrefixSlice(s: seq<real>, m: int, lo: int, hi: int)
    requires 0 <= lo <= hi <= m <= |s|
    ensures s[..m][lo..hi] == s[lo..hi]
  { }

  // ---------------------------------------------------------------------
  // Off-diagonal correction
  // ---------------------------------------------------------------------

  /** Row k of block b less each of its off-diagonal entries times the entry
      of the earlier row it refers to, accumulated for the nr columns at once
      (DZklu_tsolve.java:207-216, 222-240, 245-267, 272-298). */
  method CorrectRow(ghost t: GoodT, Offp: seq<int>, Offi: seq<int>, Offx: array<real>,
                    X: array<real>, nr: int, ghost b: int, k: int)
    returns (x: seq<real>)
    requires Offp == t.Offp && Offi == t.Offi && Offx[..] == t.Offx
    requires 1 <= nr && nr * t.sym.n <= X.Length && InBlock(t, b, k)
    ensures x == OffRow(t, X[..nr * t.sym.n], nr, b, k)
  {
    ghost var n := t.sym.n;
    ghost var W := X[..nr * n];
    Slot(nr, k, nr - 1, n);
    x := X[nr * k .. nr * k + nr];
    var p := Offp[k];
    var pend := Offp[k + 1];
    while p < pend
      invariant Offp[k] <= p <= pend && |x| == nr
      invariant forall c :: 0 <= c < nr ==> x[c] == RowSum(t, W, nr, b, k, c, p)
    {
      assert OffEntry(t, b, k, p);
      var i := Offi[p];
      var offik := Offx[p];
      var c := 0;
      while c < nr
        invariant 0 <= c <= nr && |x| == nr
        invariant forall c' :: 0 <= c' < c ==> x[c'] == RowSum(t, W, nr, b, k, c', p + 1)
        invariant forall c' :: c <= c' < nr ==> x[c'] == RowSum(t, W, nr, b, k, c', p)
      {
        Slot(nr, i, c, n);
        x := x[c := MultSub(x[c], offik, X[nr * i + c])];
        c := c + 1;
      }
      p := p + 1;
    }
  }

  /** The off-diagonal correction of block b, row by row
      (DZklu_tsolve.java:200-301). */
  method OffDiagonal(ghost t: GoodT, Offp: seq<int>, Offi: seq<int>, Offx: array<real>,
                     X: array<real>, n: int, nr: int, b: int, k1: int, k2: int)
    requires n == t.sym.n
    requires Offp == t.Offp && Offi == t.Offi && Offx[..] == t.Offx && Offx != X
    requires 1 <= nr && nr * t.sym.n <= X.Length
    requires 0 <= b < t.sym.nblocks && k1 == t.sym.R[b] && k2 == t.sym.R[b + 1]
    modifies X
    ensures X[..nr * t.sym.n] == OffUpTo(t, old(X[..nr * t.sym.n]), nr, b, k2 - k1)
  {
    var m := nr * n;
    ghost var W := X[..m];
    var k := k1;
    while k < k2
      invariant k1 <= k <= k2
      invariant X[..m] == OffDone(t, W, nr, b, k - k1)
    {
      var x := CorrectRow(t, Offp, Offi, Offx, X, nr, b, k);
      OffUpToNext(t, W, nr, b, k - k1);
      Store(X, m, nr * k, x);
      k := k + 1;
    }
  }

  // ---------------------------------------------------------------------
  // Block solves
  // ---------------------------------------------------------------------

  /** A singleton block: each entry of its row divided by the block's
      diagonal entry of U (DZklu_tsolve.java:307-348). */
  method DivideSingleton(ghost t: GoodT, Udiag: array<real>, X: array<real>, n: int, nr: int,
                         b: int, k1: int)
    requires n == t.sym.n && Udiag[..] == t.Udiag && Udiag != X
    requires 1 <= nr && nr * n <= X.Length
    requires 0 <= b < t.sym.nblocks && k1 == t.sym.R[b] && t.sym.R[b + 1] == k1 + 1
    modifies X
    ensures X[..nr * n] == SolveBlock(t, old(X[..nr * n]), nr, b)
  {
    ghost var W := X[..nr * n];
    Slot(nr, k1, nr - 1, n);
    var s := Udiag[k1];
    var c := 0;
    while c < nr
      invariant 0 <= c <= nr
      invariant forall j :: 0 <= j < nr * n ==>
                  X[j] == if nr * k1 <= j < nr * k1 + c then Div(W[j], s) else W[j]
    {
      X[nr * k1 + c] := Div(X[nr * k1 + c], s);
      c := c + 1;
    }
    DivideRowAt(t, W, nr, k1);
    assert X[..nr * n] == DivideRow(t, W, nr, k1);
  }

  /** A larger block: the U' solve and then the L' solve, each in place on
      the block's slice of the workspace (DZklu_tsolve.java:349-355). */
  method SolveGeneral(ghost t: GoodT, ut: BlockSolve, lt: BlockSolve, X: array<real>,
                      n: int, nr: int, b: int, k1: int, k2: int)
    requires n == t.sym.n && ut == t.ut && lt == t.lt
    requires 1 <= nr && nr * n <= X.Length
    requires 0 <= b < t.sym.nblocks && k1 == t.sym.R[b] && k2 == t.sym.R[b + 1] && k2 - k1 != 1
    modifies X
    ensures X[..nr * n] == SolveBlock(t, old(X[..nr * n]), nr, b)
  {
    var m := nr * n;
    ghost var W := X[..m];
    BlockSlice(t, nr, b);
    var lo, hi := nr * k1, nr * k2;
    PrefixSlice(X[..], m, lo, hi);
    var s := ut(b, nr, X[lo..hi]);
    Store(X, m, lo, s);
    ghost var W1 := X[..m];
    PrefixSlice(X[..], m, lo, hi);
    var s2 := lt(b, nr, X[lo..hi]);
    Store(X, m, lo, s2);
  }

  /** One block of the forward sweep: the off-diagonal correction for every
      block after the first, then the block solve (DZklu_tsolve.java:184-356). */
  method SweepBlock(ghost t: GoodT, R: seq<int>, Offp: seq<int>, Offi: seq<int>,
                    Offx: array<real>, Udiag: array<real>, ut: BlockSolve, lt: BlockSolve,
                    X: array<real>, n: int, nr: int, b: int)
    requires n == t.sym.n && R == t.sym.R && ut == t.ut && lt == t.lt
    requires Offp == t.Offp && Offi == t.Offi && Offx[..] == t.Offx && Udiag[..] == t.Udiag
    requires Offx != X && Udiag != X
    requires 1 <= nr && nr * n <= X.Length && 0 <= b < t.sym.nblocks
    modifies X
    ensures X[..nr * n] == BlockStep(t, old(X[..nr * n]), nr, b)
  {
    var k1 := R[b];
    var k2 := R[b + 1];
    var nk := k2 - k1;
    ghost var m := nr * n;
    ghost var W := X[..m];
    if b > 0 {
      OffDiagonal(t, Offp, Offi, Offx, X, n, nr, b, k1, k2);
    }
    assert X[..m] == Corrected(t, W, nr, b);
    if nk == 1 {
      DivideSingleton(t, Udiag, X, n, nr, b, k1);
    } else {
      SolveGeneral(t, ut, lt, X, n, nr, b, k1, k2);
    }
  }

  /** X = (L U + Off)' \ X, block by block (DZklu_tsolve.java:184-356). */
  method Sweep(ghost t: GoodT, R: seq<int>, nblocks: int, Offp: seq<int>, Offi: seq<int>,
               Offx: array<real>, Udiag: array<real>, ut: BlockSolve, lt: BlockSolve,
               X: array<real>, n: int, nr: int)
    requires n == t.sym.n && R == t.sym.R && nblocks == t.sym.nblocks && ut == t.ut && lt == t.lt
    requires Offp == t.Offp && Offi == t.Offi && Offx[..] == t.Offx && Udiag[..] == t.Udiag
    requires Offx != X && Udiag != X
    requires 1 <= nr && nr * n <= X.Length
    modifies X
    ensures X[..nr * n] == SweepUpTo(t, old(X[..nr * n]), nr, t.sym.nblocks)
  {
    ghost var W := X[..nr * n];
    var block := 0;
    while block < nblocks
      invariant 0 <= block <= nblocks
      invariant X[..nr * n] == SweepDone(t, W, nr, block)
    {
      SweepBlock(t, R, Offp, Offi, Offx, Udiag, ut, lt, X, n, nr, block);
      block := block + 1;
    }
  }

  // ---------------------------------------------------------------------
  // Permute-out
  // ---------------------------------------------------------------------

  /** B = P' (R \ X) for the chunk: row k of the workspace goes to row
      Pnum[k] of the chunk's columns, divided by the row's scale factor when
      scaling is on (DZklu_tsolve.java:362-472). */
  method PermuteOut(ghost t: GoodT, Pnum: seq<int>, Rs: array?<real>, d: int, B: array<real>,
                    off: int, nr: int, X: array<real>, n: int)
    requires Pnum == t.Pnum && d == t.d && n == t.sym.n
    requires (Rs == null <==> t.Rs.None?) && (Rs != null ==> Rs[..] == t.Rs.value)
    requires ChunkIn(t, B.Length, off, nr) && nr * n <= X.Length && B != X && B != Rs
    modifies B
    ensures B[..] == OutUpTo(t, old(B[..]), off, nr, X[..nr * n], n)
  {
    ghost var B0 := B[..];
    var k := 0;
    while k < n
      invariant 0 <= k <= n
      invariant B[..] == OutDone(t, B0, off, nr, X[..nr * n], k)
    {
      PutOut(t, Pnum[k], Rs, d, B, off, nr, X, n, k);
      k := k + 1;
    }
  }

  /** Stores the nr entries of workspace row k at row Pnum[k] of the
      chunk's columns. */
  method PutOut(ghost t: GoodT, i: int, Rs: array?<real>, d: int, B: array<real>,
                off: int, nr: int, X: array<real>, n: int, k: int)
    requires d == t.d && n == t.sym.n && 0 <= k < n && i == t.Pnum[k]
    requires (Rs == null <==> t.Rs.None?) && (Rs != null ==> Rs[..] == t.Rs.value)
    requires ChunkIn(t, B.Length, off, nr) && nr * n <= X.Length && B != X && B != Rs
    modifies B
    ensures B[..] == PutRow(t, old(B[..]), off, nr, X[..nr * n], k, nr)
  {
    ghost var B0 := B[..];
    ghost var W := X[..nr * n];
    var c := 0;
    while c < nr
      invariant 0 <= c <= nr
      invariant B[..] == PutRow(t, B0, off, nr, W, k, c)
    {
      Slot(nr, k, c, n);
      Stride(t, B.Length, off, nr, c);
      var v := X[nr * k + c];
      if Rs != null {
        v := Div(v, Rs[k]);
      }
      B[off + i + c * d] := v;
      c := c + 1;
    }
  }

  // ---------------------------------------------------------------------
  // Chunks and the whole solve
  // ---------------------------------------------------------------------

  /** The numeric descriptor's arrays hold what t says, and B and the
      workspace are apart from them and from each other. */
  ghost predicate Wired(t: GoodT, numeric: Numeric, B: array<real>)
    reads numeric, numeric.Offx, numeric.Udiag
    reads if numeric.Rs == null then {} else {numeric.Rs}
  {
    && numeric.n == t.sym.n && numeric.nblocks == t.sym.nblocks
    && numeric.Pnum == t.Pnum && numeric.Offp == t.Offp && numeric.Offi == t.Offi
    && numeric.Offx[..] == t.Offx && numeric.Udiag[..] == t.Udiag
    && (numeric.Rs == null <==> t.Rs.None?)
    && (numeric.Rs != null ==> numeric.Rs[..] == t.Rs.value)
    && 4 * t.sym.n <= numeric.Xwork.Length
    && numeric.Offx != numeric.Xwork && numeric.Udiag != numeric.Xwork
    && B != numeric.Xwork && B != numeric.Rs && B != numeric.Offx && B != numeric.Udiag
  }

  /** One chunk of nr columns: permute in, sweep, permute out
      (DZklu_tsolve.java:128-472). */
  method SolveChunk(ghost t: GoodT, sym: Symbolic, numeric: Numeric, ut: BlockSolve,
                    lt: BlockSolve, d: int, B: array<real>, off: int, nr: int)
    requires sym == t.sym && ut == t.ut && lt == t.lt && d == t.d
    requires Wired(t, numeric, B) && ChunkIn(t, B.Length, off, nr)
    modifies B, numeric.Xwork
    ensures B[..] == ChunkB(t, old(B[..]), off, nr)
  {
    var X := numeric.Xwork;
    var n := numeric.n;
    Slot(nr, 0, 0, 1);
    MulMono(n, nr, 4);
    PermuteIn(t, sym.Q, d, B, off, nr, X);
    Sweep(t, sym.R, sym.nblocks, numeric.Offp, numeric.Offi, numeric.Offx, numeric.Udiag, ut, lt,
          X, n, nr);
    PermuteOut(t, numeric.Pnum, numeric.Rs, d, B, off, nr, X, n);
  }

  /** The chunk loop: chunks of min(nrhs - chunk, 4) columns, each 4 d
      further on in B (DZklu_tsolve.java:121-128, 478). */
  method ChunkLoop(ghost t: GoodT, sym: Symbolic, numeric: Numeric, ut: BlockSolve,
                   lt: BlockSolve, d: int, nrhs: int, B: array<real>, Boff: int)
    requires sym == t.sym && ut == t.ut && lt == t.lt && d == t.d
    requires Wired(t, numeric, B) && Fits(t, B.Length, Boff, nrhs)
    modifies B, numeric.Xwork
    ensures B[..] == SolveFrom(t, old(B[..]), Boff, nrhs)
  {
    ghost var B0 := B[..];
    var chunk := 0;
    var off := Boff;
    ghost var rem := nrhs;
    while chunk < nrhs
      invariant rem == nrhs - chunk
      invariant Wired(t, numeric, B)
      invariant Fits(t, B.Length, off, rem)
      invariant SolveRest(t, B[..], off, rem) == SolveRest(t, B0, Boff, nrhs)
    {
      var nr := Min(nrhs - chunk, 4);
      FitsNext(t, B.Length, off, rem);
      ghost var before, off0, rem0 := B[..], off, rem;
      SolveChunk(t, sym, numeric, ut, lt, d, B, off, nr);
      off := off + 4 * d;
      chunk := chunk + 4;
      rem := rem - 4;
      SolveFromNext(t, before, B[..], off0, off, rem0, rem);
    }
    SolveFromDone(t, B[..], off, rem);
  }

  /** The arguments pass the checks of klu_z_tsolve. */
  predicate ArgsOk(sym: Option<Symbolic>, numeric: Numeric?, d: int, nrhs: int, B: array?<real>)
  {
    numeric != null && sym.Some? && d >= sym.value.n && nrhs >= 0 && B != null
  }

  /** klu_z_tsolve on valid arguments (DZklu_tsolve.java:84-480). */
  method SolveAll(sym: Symbolic, numeric: Numeric, d: int, nrhs: int, B: array<real>,
                  Boff: int, common: Common, ut: BlockSolve, lt: BlockSolve)
    returns (ok: int)
    requires Ready(sym, numeric, d, nrhs, B, Boff, ut, lt)
    modifies common`status, B, numeric.Xwork
    ensures ok == TRUE && common.status == KLU_OK
    ensures TCtxOk(TCtxOf(sym, numeric, d, ut, lt))
    ensures Fits(TCtxOf(sym, numeric, d, ut, lt), B.Length, Boff, nrhs)
    ensures B[..] == SolveFrom(TCtxOf(sym, numeric, d, ut, lt), old(B[..]), Boff, nrhs)
  {
    common.status := KLU_OK;
    ReadyCtx(sym, numeric, d, nrhs, B, Boff, ut, lt);
    ghost var t: GoodT := TCtxOf(sym, numeric, d, ut, lt);
    ChunkLoop(t, sym, numeric, ut, lt, d, nrhs, B, Boff);
    return TRUE;
  }

  /** klu_z_tsolve (DZklu_tsolve.java:57-481): solve A' x = b for the nrhs
      columns of B, d apart from Boff on, overwriting them with the solution.
      ut and lt are the block solves with the transposed factors; conjSolve
      is not read. Only the status field of the status object changes. */
  method Tsolve(sym: Option<Symbolic>, numeric: Numeric?, d: int, nrhs: int, B: array?<real>,
                Boff: int, conjSolve: int, common: Common?, ut: BlockSolve, lt: BlockSolve)
    returns (ok: int)
    requires common != null && ArgsOk(sym, numeric, d, nrhs, B)
             ==> Ready(sym.value, numeric, d, nrhs, B, Boff, ut, lt)
    modifies common
    modifies if B == null then {} else {B}
    modifies if numeric == null then {} else {numeric.Xwork}
    // without a status object nothing is touched
    ensures common == null ==> ok == FALSE
    ensures common == null && B != null ==> B[..] == old(B[..])
    ensures common == null && numeric != null ==> numeric.Xwork[..] == old(numeric.Xwork[..])
    ensures common != null ==>
              && common.numericalRank == old(common.numericalRank)
              && common.singularCol == old(common.singularCol)
              && common.haltIfSingular == old(common.haltIfSingular)
              && common.scale == old(common.scale) && common.nrealloc == old(common.nrealloc)
    // invalid arguments: KLU_INVALID and B untouched
    ensures common != null && !ArgsOk(sym, numeric, d, nrhs, B) ==>
              ok == FALSE && common.status == KLU_INVALID && (B != null ==> B[..] == old(B[..]))
    // otherwise every column is solved
    ensures common != null && ArgsOk(sym, numeric, d, nrhs, B) ==>
              && ok == TRUE && common.status == KLU_OK
              && TCtxOk(TCtxOf(sym.value, numeric, d, ut, lt))
              && Fits(TCtxOf(sym.value, numeric, d, ut, lt), B.Length, Boff, nrhs)
              && B[..] == SolveFrom(TCtxOf(sym.value, numeric, d, ut, lt), old(B[..]), Boff, nrhs)
  {
    if common == null {
      return FALSE;
    }
    if numeric == null || sym.None? || d < sym.value.n || nrhs < 0 || B == null {
      common.status := KLU_INVALID;
      return FALSE;
    }
    ok := SolveAll(sym.value, numeric, d, nrhs, B, Boff, common, ut, lt);
  }
}
