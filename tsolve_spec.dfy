// The transpose-solve engine as pure functions. A chunk of nr <= 4
// right-hand sides is held in an interleaved workspace W of nr * n entries:
// entry c of row k (unknown k of right-hand side c) sits at W[nr * k + c].
// Every loop of the engine is a left fold of one step over W or over B, so
// that the imperative code can be proved equal to these folds and the
// properties of the engine proved about them.
module TsolveSpec {
  import opened KluCommon

  datatype Option<T> = None | Some(value: T)

  /** A block solve with the transposed factors of one diagonal block (the
      helpers klu_z_utsolve and klu_z_ltsolve, which are not part of this
      model): given the block index, the chunk width nr and the block's slice
      of the interleaved workspace, the slice it leaves in place of it. */
  type BlockSolve = (int, int, seq<real>) -> seq<real>

  /** The read-only inputs of one transpose solve: the symbolic descriptor,
      the row permutation, the off-diagonal block in compressed form, the
      diagonal of U, the row scale factors when scaling is on, the leading
      dimension of B, and the two block solves. */
  datatype TCtx = TCtx(sym: Symbolic, Pnum: seq<int>, Offp: seq<int>, Offi: seq<int>,
                       Offx: seq<real>, Udiag: seq<real>, Rs: Option<seq<real>>, d: int,
                       ut: BlockSolve, lt: BlockSolve)

  ghost predicate TCtxOk(t: TCtx)
  {
    && SymbolicOk(t.sym)
    && |t.Pnum| == t.sym.n
    && (forall k :: 0 <= k < t.sym.n ==> 0 <= t.Pnum[k] < t.sym.n)
    && |t.Offp| == t.sym.n + 1
    && 0 <= t.Offp[0]
    && (forall k1, k2 :: 0 <= k1 <= k2 <= t.sym.n ==> t.Offp[k1] <= t.Offp[k2])
    && t.Offp[t.sym.n] <= |t.Offi| && t.Offp[t.sym.n] <= |t.Offx|
    && (forall b, k, p {:trigger OffEntry(t, b, k, p)} ::
          OffEntry(t, b, k, p) ==> 0 <= t.Offi[p] < t.sym.R[b])
    && |t.Udiag| == t.sym.n
    && (t.Rs.Some? ==> |t.Rs.value| == t.sym.n)
    && t.sym.n <= t.d
    && (forall b, nr, s :: |t.ut(b, nr, s)| == |s|)
    && (forall b, nr, s :: |t.lt(b, nr, s)| == |s|)
  }

  /** Entry p belongs to row k of the transposed off-diagonal block, and
      row k to block b. */
  ghost predicate OffEntry(t: TCtx, b: int, k: int, p: int)
  {
    && 0 <= b && b + 1 < |t.sym.R| && t.sym.R[b] <= k < t.sym.R[b + 1]
    && 0 <= k && k + 1 < |t.Offp| && t.Offp[k] <= p < t.Offp[k + 1]
  }

  /** A context whose inputs are well-formed. */
  type GoodT = t: TCtx | TCtxOk(t)
    witness TCtx(Symbolic(0, [], [0], 0, 0, 0), [], [0], [], [], [], None, 0,
                 (b: int, nr: int, s: seq<real>) => s, (b: int, nr: int, s: seq<real>) => s)

  // ---------------------------------------------------------------------
  // Index arithmetic
  // ---------------------------------------------------------------------

  lemma MulMono(a: int, b1: int, b2: int)
    requires 0 <= a && b1 <= b2
    ensures a * b1 <= a * b2
  {
    assert a * b2 - a * b1 == a * (b2 - b1);
  }

  /** A strictly larger factor adds at least one more a. */
  lemma MulStep(a: int, b1: int, b2: int)
    requires 0 <= a && b1 < b2
    ensures a * b1 + a <= a * b2
  {
    MulMono(a, b1 + 1, b2);
    assert a * (b1 + 1) == a * b1 + a;
  }

  /** Multiplication distributes over a sum of two factors. */
  lemma MulSplit(a: int, b: int, c: int)
    ensures (b + c) * a == b * a + c * a
  {
  }

  /** An entry at or past the last of rem > 4 columns lies past the first
      four of them, and past the last column of the rest. */
  lemma PastFirstFour(d: int, n: int, off: int, rem: int, j: int)
    requires 0 <= d && rem > 4 && off + (rem - 1) * d + n <= j
    ensures off + 3 * d + n <= j && off + 4 * d + (rem - 4 - 1) * d + n <= j
  {
    MulMono(d, 3, rem - 1);
    MulSplit(d, rem - 5, 4);
  }

  /** Row r < d of column c < 4 lies inside the first four columns. */
  lemma InFirstFour(d: int, off: int, c: int, at: int, r: int)
    requires 0 <= c < 4 && 0 <= r < d && at == off + c * d
    ensures off <= at && at + r < off + 4 * d
  {
    MulMono(d, 0, c);
    MulMono(d, c + 1, 4);
    MulSplit(d, c, 1);
  }

  /** Column c >= 4 starts past the first four columns, as column c - 4 of
      the rest. */
  lemma PastFour(d: int, off: int, c: int, at: int)
    requires 0 <= d && 4 <= c && at == off + c * d
    ensures off + 4 * d <= at && at == off + 4 * d + (c - 4) * d
  {
    MulMono(d, 4, c);
    MulSplit(d, c - 4, 4);
  }

  /** Entry c of row k lies inside row k, and row k inside the first m rows. */
  lemma Slot(nr: int, k: int, c: int, m: int)
    requires 0 <= c < nr && 0 <= k < m
    ensures 0 <= nr * k && nr * k + c < nr * (k + 1) <= nr * m
  {
    MulMono(nr, 0, k);
    MulMono(nr, k + 1, m);
  }

  /** Columns off, off + d, ... of B hold n entries each: the nr columns of
      B starting at off fit in a buffer of length len. */
  ghost predicate Fits(t: TCtx, len: int, off: int, nr: int)
  {
    0 <= off && (nr > 0 ==> off + (nr - 1) * t.d + t.sym.n <= len)
  }

  /** A chunk of nr columns starting at off. */
  ghost predicate ChunkIn(t: TCtx, len: int, off: int, nr: int)
  {
    1 <= nr <= 4 && Fits(t, len, off, nr)
  }

  /** Column c of a fitting chunk lies inside B, and below column c + 1. */
  lemma Stride(t: GoodT, len: int, off: int, nr: int, c: int)
    requires Fits(t, len, off, nr) && 0 <= c < nr
    ensures 0 <= off + c * t.d && off + c * t.d + t.sym.n <= len
    ensures off + c * t.d + t.d == off + (c + 1) * t.d
  {
    MulMono(t.d, 0, c);
    MulMono(t.d, c, nr - 1);
  }

  /** X with the entries at..at+|vals|-1 replaced by vals. */
  function Splice(X: seq<real>, at: int, vals: seq<real>): (r: seq<real>)
    requires 0 <= at && at + |vals| <= |X|
    ensures |r| == |X|
    decreases |vals|
  {
    if |vals| == 0 then X else Splice(X[at := vals[0]], at + 1, vals[1..])
  }

  /** Splice replaces exactly the entries at..at+|vals|-1 and keeps the rest. */
  lemma {:induction false} SpliceAt(X: seq<real>, at: int, vals: seq<real>)
    requires 0 <= at && at + |vals| <= |X|
    ensures forall j :: 0 <= j < |X| ==>
              Splice(X, at, vals)[j] == if at <= j < at + |vals| then vals[j - at] else X[j]
    decreases |vals|
  {
    if |vals| > 0 {
      SpliceAt(X[at := vals[0]], at + 1, vals[1..]);
    }
  }

  // ---------------------------------------------------------------------
  // Permute-in: W = Q' B for the chunk
  // ---------------------------------------------------------------------

  /** Row k of the permuted chunk: entry Q[k] of each of its nr columns. */
  function InRow(t: GoodT, B: seq<real>, off: int, nr: int, k: int): (row: seq<real>)
    requires ChunkIn(t, |B|, off, nr) && 0 <= k < t.sym.n
    ensures |row| == nr
  {
    seq(nr, c requires 0 <= c < nr => Stride(t, |B|, off, nr, c); B[off + t.sym.Q[k] + c * t.d])
  }

  /** The first k rows of the permuted chunk. */
  function PermInUpTo(t: GoodT, B: seq<real>, off: int, nr: int, k: nat): (W: seq<real>)
    requires ChunkIn(t, |B|, off, nr) && k <= t.sym.n
    ensures |W| == nr * k
  {
    if k == 0 then [] else PermInUpTo(t, B, off, nr, k - 1) + InRow(t, B, off, nr, k - 1)
  }

  // ---------------------------------------------------------------------
  // Off-diagonal correction of block b
  // ---------------------------------------------------------------------

  /** Block b's rows are in [R[b], R[b+1]). */
  ghost predicate InBlock(t: GoodT, b: int, k: int)
  {
    0 <= b < t.sym.nblocks && t.sym.R[b] <= k < t.sym.R[b + 1]
  }

  /** Entry c of row k less the off-diagonal entries Offp[k] .. q-1 of row k,
      each times entry c of the earlier row it refers to. */
  function RowSum(t: GoodT, W: seq<real>, nr: int, b: int, k: int, c: int, q: int): real
    requires 1 <= nr && |W| == nr * t.sym.n && InBlock(t, b, k) && 0 <= c < nr
    requires t.Offp[k] <= q <= t.Offp[k + 1]
    decreases q
  {
    Slot(nr, k, c, t.sym.n);
    if q == t.Offp[k] then W[nr * k + c]
    else
      assert OffEntry(t, b, k, q - 1);
      var i := t.Offi[q - 1];
      Slot(nr, i, c, t.sym.n);
      MultSub(RowSum(t, W, nr, b, k, c, q - 1), t.Offx[q - 1], W[nr * i + c])
  }

  /** Row k after its off-diagonal correction. */
  function OffRow(t: GoodT, W: seq<real>, nr: int, b: int, k: int): (row: seq<real>)
    requires 1 <= nr && |W| == nr * t.sym.n && InBlock(t, b, k)
    ensures |row| == nr
  {
    seq(nr, c requires 0 <= c < nr => RowSum(t, W, nr, b, k, c, t.Offp[k + 1]))
  }

  /** The first i rows of block b corrected, in order. */
  function OffUpTo(t: GoodT, W: seq<real>, nr: int, b: int, i: nat): (W': seq<real>)
    requires 1 <= nr && |W| == nr * t.sym.n
    requires 0 <= b < t.sym.nblocks && i <= t.sym.R[b + 1] - t.sym.R[b]
    ensures |W'| == |W|
  {
    if i == 0 then W
    else
      var prev := OffUpTo(t, W, nr, b, i - 1);
      var k := t.sym.R[b] + i - 1;
      Slot(nr, k, 0, t.sym.n);
      Splice(prev, nr * k, OffRow(t, prev, nr, b, k))
  }

  /** OffUpTo, named so that a proof may mention it without unfolding it. */
  ghost function OffDone(t: GoodT, W: seq<real>, nr: int, b: int, i: nat): seq<real>
    requires 1 <= nr && |W| == nr * t.sym.n
    requires 0 <= b < t.sym.nblocks && i <= t.sym.R[b + 1] - t.sym.R[b]
  {
    OffUpTo(t, W, nr, b, i)
  }

  /** Correcting one more row of block b splices it into the workspace. */
  lemma OffUpToNext(t: GoodT, W: seq<real>, nr: int, b: int, i: nat)
    requires 1 <= nr && |W| == nr * t.sym.n
    requires 0 <= b < t.sym.nblocks && i < t.sym.R[b + 1] - t.sym.R[b]
    ensures var k := t.sym.R[b] + i;
            0 <= nr * k && nr * k + nr <= |W| &&
            OffUpTo(t, W, nr, b, i + 1)
            == Splice(OffUpTo(t, W, nr, b, i), nr * k, OffRow(t, OffUpTo(t, W, nr, b, i), nr, b, k))
  {
    Slot(nr, t.sym.R[b] + i, nr - 1, t.sym.n);
  }

  // ---------------------------------------------------------------------
  // Block solve and the forward sweep over the blocks
  // ---------------------------------------------------------------------

  /** Rows k1 .. k2-1 occupy W[nr * k1 .. nr * k2). */
  lemma BlockSlice(t: GoodT, nr: int, b: int)
    requires 1 <= nr && 0 <= b < t.sym.nblocks
    ensures 0 <= nr * t.sym.R[b] <= nr * t.sym.R[b + 1] <= nr * t.sym.n
  {
    assert t.sym.R[0] <= t.sym.R[b] <= t.sym.R[b + 1] <= t.sym.R[t.sym.nblocks];
    MulMono(nr, 0, t.sym.R[b]);
    MulMono(nr, t.sym.R[b], t.sym.R[b + 1]);
    MulMono(nr, t.sym.R[b + 1], t.sym.n);
  }

  /** Row k divided by the diagonal entry of U in that row. */
  function DivideRow(t: GoodT, W: seq<real>, nr: int, k: int): (W': seq<real>)
    requires 1 <= nr && |W| == nr * t.sym.n && 0 <= k < t.sym.n
    ensures |W'| == |W|
  {
    Slot(nr, k, nr - 1, t.sym.n);
    Splice(W, nr * k, seq(nr, c requires 0 <= c < nr =>
                              Slot(nr, k, c, t.sym.n); Div(W[nr * k + c], t.Udiag[k])))
  }

  /** DivideRow divides the nr entries of row k and keeps every other entry. */
  lemma DivideRowAt(t: GoodT, W: seq<real>, nr: int, k: int)
    requires 1 <= nr && |W| == nr * t.sym.n && 0 <= k < t.sym.n
    ensures forall j :: 0 <= j < |W| ==>
              DivideRow(t, W, nr, k)[j]
              == if nr * k <= j < nr * k + nr then Div(W[j], t.Udiag[k]) else W[j]
  {
    Slot(nr, k, nr - 1, t.sym.n);
    var vals := seq(nr, c requires 0 <= c < nr =>
                          Slot(nr, k, c, t.sym.n); Div(W[nr * k + c], t.Udiag[k]));
    SpliceAt(W, nr * k, vals);
  }

  /** The slice W[lo..hi) handed to a block solve and replaced by its result. */
  function Apply(f: BlockSolve, b: int, nr: int, W: seq<real>, lo: int, hi: int): (W': seq<real>)
    requires 0 <= lo <= hi <= |W| && |f(b, nr, W[lo..hi])| == hi - lo
    ensures |W'| == |W|
  {
    Splice(W, lo, f(b, nr, W[lo..hi]))
  }

  /** Block b solved: a singleton divides its row by its diagonal entry of
      U; a larger block applies the U' solve and then the L' solve to its
      slice. */
  function SolveBlock(t: GoodT, W: seq<real>, nr: int, b: int): (W': seq<real>)
    requires 1 <= nr && |W| == nr * t.sym.n && 0 <= b < t.sym.nblocks
    ensures |W'| == |W|
  {
    var k1, k2 := t.sym.R[b], t.sym.R[b + 1];
    if k2 - k1 == 1 then DivideRow(t, W, nr, k1)
    else
      BlockSlice(t, nr, b);
      var lo, hi := nr * k1, nr * k2;
      Apply(t.lt, b, nr, Apply(t.ut, b, nr, W, lo, hi), lo, hi)
  }

  /** The workspace entering the solve of block b: corrected by the
      off-diagonal entries of its columns, except for the first block. */
  function Corrected(t: GoodT, W: seq<real>, nr: int, b: int): (W': seq<real>)
    requires 1 <= nr && |W| == nr * t.sym.n && 0 <= b < t.sym.nblocks
    ensures |W'| == |W|
  {
    if b > 0 then OffUpTo(t, W, nr, b, t.sym.R[b + 1] - t.sym.R[b]) else W
  }

  /** One block of the sweep: the correction, then the block solve. */
  function BlockStep(t: GoodT, W: seq<real>, nr: int, b: int): (W': seq<real>)
    requires 1 <= nr && |W| == nr * t.sym.n && 0 <= b < t.sym.nblocks
    ensures |W'| == |W|
  {
    SolveBlock(t, Corrected(t, W, nr, b), nr, b)
  }

  /** The workspace after the first q blocks of the sweep. */
  function SweepUpTo(t: GoodT, W: seq<real>, nr: int, q: nat): (W': seq<real>)
    requires 1 <= nr && |W| == nr * t.sym.n && q <= t.sym.nblocks
    ensures |W'| == |W|
  {
    if q == 0 then W else BlockStep(t, SweepUpTo(t, W, nr, q - 1), nr, q - 1)
  }

  /** SweepUpTo, named so that a proof may mention it without unfolding it. */
  ghost function SweepDone(t: GoodT, W: seq<real>, nr: int, q: nat): seq<real>
    requires 1 <= nr && |W| == nr * t.sym.n && q <= t.sym.nblocks
  {
    SweepUpTo(t, W, nr, q)
  }

  // ---------------------------------------------------------------------
  // Permute-out: B = P' (R \ W) for the chunk
  // ---------------------------------------------------------------------

  /** Entry x of row k, divided by the row's scale factor when scaling is on. */
  function Unscale(t: GoodT, x: real, k: int): real
    requires 0 <= k < t.sym.n
  {
    match t.Rs
    case None => x
    case Some(rs) => Div(x, rs[k])
  }

  /** B after entries 0 .. c-1 of row k are stored at row Pnum[k] of the
      chunk's columns. */
  function PutRow(t: GoodT, B: seq<real>, off: int, nr: int, W: seq<real>, k: int, c: nat): (B': seq<real>)
    requires ChunkIn(t, |B|, off, nr) && |W| == nr * t.sym.n && 0 <= k < t.sym.n && c <= nr
    ensures |B'| == |B|
  {
    if c == 0 then B
    else
      Slot(nr, k, c - 1, t.sym.n);
      Stride(t, |B|, off, nr, c - 1);
      PutRow(t, B, off, nr, W, k, c - 1)[off + t.Pnum[k] + (c - 1) * t.d
                                         := Unscale(t, W[nr * k + c - 1], k)]
  }

  /** B after the first k rows of the workspace are stored. */
  function OutUpTo(t: GoodT, B: seq<real>, off: int, nr: int, W: seq<real>, k: nat): (B': seq<real>)
    requires ChunkIn(t, |B|, off, nr) && |W| == nr * t.sym.n && k <= t.sym.n
    ensures |B'| == |B|
  {
    if k == 0 then B else PutRow(t, OutUpTo(t, B, off, nr, W, k - 1), off, nr, W, k - 1, nr)
  }

  /** OutUpTo, named so that a proof may mention it without unfolding it. */
  ghost function OutDone(t: GoodT, B: seq<real>, off: int, nr: int, W: seq<real>, k: nat): seq<real>
    requires ChunkIn(t, |B|, off, nr) && |W| == nr * t.sym.n && k <= t.sym.n
  {
    OutUpTo(t, B, off, nr, W, k)
  }

  // ---------------------------------------------------------------------
  // Chunks
  // ---------------------------------------------------------------------

  /** The chunk's solved workspace: permuted in and swept over all blocks. */
  function Solved(t: GoodT, B: seq<real>, off: int, nr: int): (W: seq<real>)
    requires ChunkIn(t, |B|, off, nr)
    ensures |W| == nr * t.sym.n
  {
    SweepUpTo(t, PermInUpTo(t, B, off, nr, t.sym.n), nr, t.sym.nblocks)
  }

  /** B after the chunk of nr columns starting at off is solved. */
  function ChunkB(t: GoodT, B: seq<real>, off: int, nr: int): (B': seq<real>)
    requires ChunkIn(t, |B|, off, nr)
    ensures |B'| == |B|
  {
    OutUpTo(t, B, off, nr, Solved(t, B, off, nr), t.sym.n)
  }

  /** The first chunk of the remaining rem columns fits, and so do the
      columns after it. */
  lemma FitsNext(t: GoodT, len: int, off: int, rem: int)
    requires Fits(t, len, off, rem) && rem > 0
    ensures ChunkIn(t, len, off, Min(rem, 4))
    ensures Fits(t, len, off + 4 * t.d, rem - 4)
  {
    MulMono(t.d, Min(rem, 4) - 1, rem - 1);
    MulMono(t.d, 0, 4);
    assert (rem - 5) * t.d + 4 * t.d == (rem - 1) * t.d;
  }

  /** B after the remaining rem columns, starting at off, are solved four at
      a time: each chunk takes min(rem, 4) columns and the next starts 4 d
      further on. */
  function SolveFrom(t: GoodT, B: seq<real>, off: int, rem: int): (B': seq<real>)
    requires Fits(t, |B|, off, rem)
    ensures |B'| == |B|
    decreases rem
  {
    if rem <= 0 then B
    else
      FitsNext(t, |B|, off, rem);
      SolveFrom(t, ChunkB(t, B, off, Min(rem, 4)), off + 4 * t.d, rem - 4)
  }

  /** SolveFrom, named so that a proof may mention it without unfolding it. */
  ghost function SolveRest(t: GoodT, B: seq<real>, off: int, rem: int): seq<real>
    requires Fits(t, |B|, off, rem)
  {
    SolveFrom(t, B, off, rem)
  }

  /** Once no columns remain, B is as it stands. */
  lemma SolveFromDone(t: GoodT, B: seq<real>, off: int, rem: int)
    requires Fits(t, |B|, off, rem) && rem <= 0
    ensures SolveRest(t, B, off, rem) == B
  { }

  /** Solving the first chunk, then the columns after it, solves them all. */
  lemma SolveFromNext(t: GoodT, B: seq<real>, B': seq<real>, off: int, off': int, rem: int, rem': int)
    requires Fits(t, |B|, off, rem) && rem > 0
    requires off' == off + 4 * t.d && rem' == rem - 4
    requires ChunkIn(t, |B|, off, Min(rem, 4)) && B' == ChunkB(t, B, off, Min(rem, 4))
    ensures Fits(t, |B'|, off', rem')
    ensures SolveRest(t, B', off', rem') == SolveRest(t, B, off, rem)
  {
    FitsNext(t, |B|, off, rem);
  }
}
