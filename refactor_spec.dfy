// The refactorization engine as pure functions: every loop of the engine is a
// left fold of one step function, so that the imperative code can be proved
// equal to these folds and the properties of the engine proved about them.
module RefactorSpec {
  import opened KluCommon

  /** The read-only inputs of one refactorization: the symbolic descriptor,
      the new matrix in compressed-column form, the fixed pattern of the
      numeric descriptor, whether entries are divided by row scale factors
      (and which), the halt-on-singular policy, and the lengths of the
      workspace, of the off-diagonal values and of each block buffer. */
  datatype Ctx = Ctx(sym: Symbolic, Ap: seq<int>, Ai: seq<int>, Ax: seq<real>,
                     Pinv: seq<int>, Lcol: seq<Column>, Ucol: seq<Column>,
                     scaled: bool, rs: seq<real>, halt: bool,
                     xlen: nat, offlen: nat, lens: seq<nat>)

  /** A compressed-column matrix of order n with row indices in range. */
  ghost predicate MatrixOk(n: nat, Ap: seq<int>, Ai: seq<int>, Ax: seq<real>)
  {
    && |Ap| == n + 1
    && |Ai| == |Ax|
    && 0 <= Ap[0]
    && (forall j1, j2 :: 0 <= j1 <= j2 <= n ==> Ap[j1] <= Ap[j2])
    && Ap[n] <= |Ai|
    && (forall p :: Ap[0] <= p < Ap[n] ==> 0 <= Ai[p] < n)
  }

  ghost predicate CtxOk(c: Ctx)
  {
    && SymbolicOk(c.sym)
    && MatrixOk(c.sym.n, c.Ap, c.Ai, c.Ax)
    && |c.Pinv| == c.sym.n
    && (forall k :: 0 <= k < c.sym.n ==> 0 <= c.Pinv[k] < c.sym.n)
    && |c.Lcol| == c.sym.n && |c.Ucol| == c.sym.n
    && (c.scaled ==> |c.rs| == c.sym.n)
    && c.sym.n <= c.xlen && c.sym.maxblock <= c.xlen && c.sym.nzoff <= c.offlen
    && |c.lens| == c.sym.nblocks
    && (forall b :: 0 <= b < c.sym.nblocks ==>
          BlockFits(c, c.sym.R[b], c.sym.R[b + 1] - c.sym.R[b], c.lens[b]))
  }

  /** A context whose inputs are well-formed. */
  type GoodCtx = c: Ctx | CtxOk(c)
    witness Ctx(Symbolic(0, [], [0], 0, 0, 0), [0], [], [], [], [], [], false, [], false, 0, 0, [])

  /** p is the position of an entry of the matrix. */
  ghost predicate InMatrix(c: GoodCtx, p: int)
  {
    c.Ap[0] <= p < c.Ap[c.sym.n]
  }

  /** Row of entry p in pivotal order, relative to the block starting at k1:
      negative when the row lies in an earlier block. */
  function NewRow(c: GoodCtx, k1: int, p: int): int
    requires InMatrix(c, p)
  {
    c.Pinv[c.Ai[p]] - k1
  }

  /** The value of entry p as the engine uses it: divided by the scale factor
      of its original (unpermuted) row when scaling is on. */
  function Value(c: GoodCtx, p: int): real
    requires InMatrix(c, p)
  {
    if c.scaled then Div(c.Ax[p], c.rs[c.Ai[p]]) else c.Ax[p]
  }

  /** Columns k1 .. k1+nk-1 have rows in [0, nk) and values inside a block
      buffer of length len. */
  ghost predicate BlockFits(c: Ctx, k1: int, nk: int, len: int)
    requires |c.Lcol| == c.sym.n && |c.Ucol| == c.sym.n
  {
    forall k :: k1 <= k < k1 + nk && 0 <= k < c.sym.n ==>
      ColumnFits(c.Lcol[k], nk, len) && ColumnFits(c.Ucol[k], nk, len)
  }

  // ---------------------------------------------------------------------
  // Scatter of one column of a general block
  // ---------------------------------------------------------------------

  /** Workspace X, off-diagonal values, the off-diagonal cursor and whether an
      index fault (an entry written at a negative workspace position) ended
      the run. */
  datatype Routed = Routed(x: seq<real>, offx: seq<real>, poff: int, fault: bool)

  ghost predicate RoutedOk(c: Ctx, r: Routed)
  {
    && c.sym.n <= |r.x|
    && c.sym.nzoff <= |r.offx|
    && 0 <= r.poff <= c.sym.nzoff
  }

  /** One entry of the scatter: to Offx at the cursor when its row lies before
      the block and the cursor is below nzoff, otherwise into X at its
      block-relative row, which faults when that row is negative. */
  function ScatterEntry(c: GoodCtx, k1: int, r: Routed, p: int): (r': Routed)
    requires RoutedOk(c, r) && 0 <= k1 && InMatrix(c, p)
    ensures RoutedOk(c, r') && |r'.x| == |r.x| && |r'.offx| == |r.offx|
  {
    if r.fault then r
    else
      var newrow := NewRow(c, k1, p);
      if newrow < 0 && r.poff < c.sym.nzoff then
        r.(offx := r.offx[r.poff := Value(c, p)], poff := r.poff + 1)
      else if newrow < 0 then
        r.(fault := true)
      else
        r.(x := r.x[newrow := Value(c, p)])
  }

  /** The scatter of the entries p0 .. q-1, in that order. */
  function ScatterUpTo(c: GoodCtx, k1: int, r: Routed, p0: int, q: int): (r': Routed)
    requires RoutedOk(c, r) && 0 <= k1
    requires c.Ap[0] <= p0 <= q <= c.Ap[c.sym.n]
    ensures RoutedOk(c, r') && |r'.x| == |r.x| && |r'.offx| == |r.offx|
    decreases q - p0
  {
    if q == p0 then r else ScatterEntry(c, k1, ScatterUpTo(c, k1, r, p0, q - 1), q - 1)
  }

  // ---------------------------------------------------------------------
  // Scan of the column of a singleton block
  // ---------------------------------------------------------------------

  /** Off-diagonal values, cursor and the running diagonal value s. */
  datatype Scanned = Scanned(offx: seq<real>, poff: int, s: real)

  ghost predicate ScannedOk(c: Ctx, sc: Scanned)
  {
    c.sym.nzoff <= |sc.offx| && 0 <= sc.poff <= c.sym.nzoff
  }

  function SingletonEntry(c: GoodCtx, k1: int, sc: Scanned, p: int): (sc': Scanned)
    requires ScannedOk(c, sc) && InMatrix(c, p)
    ensures ScannedOk(c, sc') && |sc'.offx| == |sc.offx|
  {
    if NewRow(c, k1, p) < 0 && sc.poff < c.sym.nzoff then
      sc.(offx := sc.offx[sc.poff := Value(c, p)], poff := sc.poff + 1)
    else
      sc.(s := Value(c, p))
  }

  function SingletonUpTo(c: GoodCtx, k1: int, sc: Scanned, p0: int, q: int): (sc': Scanned)
    requires ScannedOk(c, sc)
    requires c.Ap[0] <= p0 <= q <= c.Ap[c.sym.n]
    ensures ScannedOk(c, sc') && |sc'.offx| == |sc.offx|
    decreases q - p0
  {
    if q == p0 then sc else SingletonEntry(c, k1, SingletonUpTo(c, k1, sc, p0, q - 1), q - 1)
  }

  // ---------------------------------------------------------------------
  // Update along U's pattern, and gather into L's pattern
  // ---------------------------------------------------------------------

  /** Workspace X and the value buffer of the current block. */
  datatype Work = Work(x: seq<real>, lub: seq<real>)

  /** The first q updates X[rows[p]] -= Lx[p] * ujk of column col of L, where
      Lx[p] is the value at offset xOff + p of the block buffer. */
  function MultSubUpTo(x: seq<real>, lub: seq<real>, col: Column, ujk: real, q: nat): (y: seq<real>)
    requires q <= |col.rows| && ColumnFits(col, |x|, |lub|)
    ensures |y| == |x|
  {
    if q == 0 then x
    else
      var y := MultSubUpTo(x, lub, col, ujk, q - 1);
      var i := col.rows[q - 1];
      y[i := MultSub(y[i], lub[col.xOff + q - 1], ujk)]
  }

  /** The first q steps along U's pattern of column k of the block at k1:
      read U(j,k) from X[j], clear X[j], store U(j,k), then update X along
      column j of L. */
  function UUpdateUpTo(c: Ctx, k1: int, nk: int, k: int, w: Work, q: nat): (w': Work)
    requires |c.Lcol| == c.sym.n && |c.Ucol| == c.sym.n && 0 <= k1 && k1 + nk <= c.sym.n && 0 <= k < nk <= |w.x|
    requires BlockFits(c, k1, nk, |w.lub|)
    requires q <= |c.Ucol[k1 + k].rows|
    ensures |w'.x| == |w.x| && |w'.lub| == |w.lub|
  {
    if q == 0 then w
    else
      var w1 := UUpdateUpTo(c, k1, nk, k, w, q - 1);
      var ucol := c.Ucol[k1 + k];
      var j := ucol.rows[q - 1];
      var ujk := w1.x[j];
      var lub1 := w1.lub[ucol.xOff + q - 1 := ujk];
      Work(MultSubUpTo(w1.x[j := 0.0], lub1, c.Lcol[k1 + j], ujk, |c.Lcol[k1 + j].rows|), lub1)
  }

  /** The first q steps of the gather into column col of L: L(i,k) = X[i] / ukk
      stored at offset xOff + p, then X[i] cleared. */
  function GatherUpTo(w: Work, col: Column, ukk: real, q: nat): (w': Work)
    requires q <= |col.rows| && ColumnFits(col, |w.x|, |w.lub|)
    ensures |w'.x| == |w.x| && |w'.lub| == |w.lub|
  {
    if q == 0 then w
    else
      var w1 := GatherUpTo(w, col, ukk, q - 1);
      var i := col.rows[q - 1];
      Work(w1.x[i := 0.0], w1.lub[col.xOff + q - 1 := Div(w1.x[i], ukk)])
  }

  // ---------------------------------------------------------------------
  // The whole state, columns, blocks
  // ---------------------------------------------------------------------

  /** Why the run stopped early, if it did. */
  datatype Halt = Running | HaltedSingular | OutOfBounds

  /** Everything the engine changes: workspace, off-diagonal values, the
      diagonal of U, the value buffer of every block, the cursor, the status
      fields and whether the run stopped. */
  datatype RState = RState(x: seq<real>, offx: seq<real>, udiag: seq<real>,
                           lu: seq<seq<real>>, poff: int, status: int,
                           rank: int, singCol: int, halt: Halt)

  /** Every buffer of st has the length the context records. */
  ghost predicate StateOk(c: Ctx, st: RState)
  {
    && |st.x| == c.xlen
    && |st.offx| == c.offlen
    && 0 <= st.poff <= c.sym.nzoff
    && |st.udiag| == c.sym.n
    && |st.lu| == c.sym.nblocks == |c.lens|
    && (forall b :: 0 <= b < |st.lu| ==> |st.lu[b]| == c.lens[b])
  }

  /** The singular-pivot bookkeeping for global column col with pivot ukk. */
  function Pivot(c: GoodCtx, st: RState, col: int, ukk: real): RState
    requires 0 <= col < c.sym.n
  {
    if ukk != 0.0 then st
    else
      var first := st.rank == EMPTY;
      var st1 := st.(status := KLU_SINGULAR,
                     rank := if first then col else st.rank,
                     singCol := if first then c.sym.Q[col] else st.singCol);
      if c.halt then st1.(halt := HaltedSingular) else st1
  }

  /** Column k (block-relative) of the general block b: scatter, update along
      U, pivot, gather into L. A stopped run is left as it is. */
  function FactorColumn(c: GoodCtx, st: RState, b: int, k: int): (st': RState)
    requires StateOk(c, st)
    requires 0 <= b < c.sym.nblocks && 0 <= k < c.sym.R[b + 1] - c.sym.R[b]
    ensures StateOk(c, st')
  {
    if st.halt != Running then st
    else
      var r := ScatterOf(c, st, b, k);
      if r.fault then st.(x := r.x, offx := r.offx, poff := r.poff, halt := OutOfBounds)
      else EliminateColumn(c, st, b, k, r)
  }

  /** The scatter of column k of block b, starting from the cursor of st. */
  function ScatterOf(c: GoodCtx, st: RState, b: int, k: int): (r: Routed)
    requires StateOk(c, st)
    requires 0 <= b < c.sym.nblocks && 0 <= k < c.sym.R[b + 1] - c.sym.R[b]
    ensures RoutedOk(c, r) && |r.x| == |st.x| && |r.offx| == |st.offx|
  {
    var oldcol := c.sym.Q[k + c.sym.R[b]];
    ScatterUpTo(c, c.sym.R[b], Routed(st.x, st.offx, st.poff, false),
                c.Ap[oldcol], c.Ap[oldcol + 1])
  }

  /** After a scatter r that did not fault: update along U, take and clear
      the pivot entry, then finish the column. */
  function EliminateColumn(c: GoodCtx, st: RState, b: int, k: int, r: Routed): (st': RState)
    requires StateOk(c, st) && RoutedOk(c, r)
    requires |r.x| == |st.x| && |r.offx| == |st.offx|
    requires 0 <= b < c.sym.nblocks && 0 <= k < c.sym.R[b + 1] - c.sym.R[b]
    ensures StateOk(c, st')
  {
    var w := UpdateOf(c, st, b, k, r);
    FinishColumn(c, st.(x := w.x[k := 0.0], offx := r.offx, poff := r.poff,
                        lu := st.lu[b := w.lub]), b, k, w.x[k])
  }

  /** The update along U of column k of block b, from the scattered X of r
      and the block buffer of st. */
  function UpdateOf(c: GoodCtx, st: RState, b: int, k: int, r: Routed): (w: Work)
    requires StateOk(c, st) && RoutedOk(c, r) && |r.x| == |st.x|
    requires 0 <= b < c.sym.nblocks && 0 <= k < c.sym.R[b + 1] - c.sym.R[b]
    ensures |w.x| == |st.x| && |w.lub| == |st.lu[b]|
  {
    UUpdateUpTo(c, c.sym.R[b], c.sym.R[b + 1] - c.sym.R[b], k, Work(r.x, st.lu[b]),
                |c.Ucol[c.sym.R[b] + k].rows|)
  }

  /** Record the pivot ukk of column k of block b and, unless the run stops
      there, gather the column into L. */
  function FinishColumn(c: GoodCtx, st: RState, b: int, k: int, ukk: real): (st': RState)
    requires StateOk(c, st)
    requires 0 <= b < c.sym.nblocks && 0 <= k < c.sym.R[b + 1] - c.sym.R[b]
    ensures StateOk(c, st')
  {
    var st1 := Pivot(c, st, c.sym.R[b] + k, ukk);
    if st1.halt != Running then st1 else GatherColumn(c, st1, b, k, ukk)
  }

  /** Divide column k of block b by the pivot ukk into L and store ukk on the
      diagonal of U. */
  function GatherColumn(c: GoodCtx, st: RState, b: int, k: int, ukk: real): (st': RState)
    requires StateOk(c, st)
    requires 0 <= b < c.sym.nblocks && 0 <= k < c.sym.R[b + 1] - c.sym.R[b]
    ensures StateOk(c, st')
  {
    var col := c.Lcol[c.sym.R[b] + k];
    var g := GatherUpTo(Work(st.x, st.lu[b]), col, ukk, |col.rows|);
    st.(x := g.x, udiag := st.udiag[c.sym.R[b] + k := ukk], lu := st.lu[b := g.lub])
  }

  /** The first q columns of the general block b. */
  function ColumnsUpTo(c: GoodCtx, st: RState, b: int, q: nat): (st': RState)
    requires StateOk(c, st)
    requires 0 <= b < c.sym.nblocks && q <= c.sym.R[b + 1] - c.sym.R[b]
    ensures StateOk(c, st')
    decreases q, 1
  {
    if q == 0 then st else ColumnAfter(c, st, b, q - 1)
  }

  /** The state after column k of the general block b. */
  function ColumnAfter(c: GoodCtx, st: RState, b: int, k: nat): (st': RState)
    requires StateOk(c, st)
    requires 0 <= b < c.sym.nblocks && k < c.sym.R[b + 1] - c.sym.R[b]
    ensures StateOk(c, st')
    decreases k + 1, 0
  {
    FactorColumn(c, ColumnsUpTo(c, st, b, k), b, k)
  }

  /** The singleton block b: scan its one column; Udiag[k1] is the last value
      not routed to Offx, or zero. */
  function SingletonBlock(c: GoodCtx, st: RState, b: int): (st': RState)
    requires StateOk(c, st)
    requires 0 <= b < c.sym.nblocks && c.sym.R[b + 1] - c.sym.R[b] == 1
    ensures StateOk(c, st')
  {
    if st.halt != Running then st
    else
      var k1 := c.sym.R[b];
      var oldcol := c.sym.Q[k1];
      var sc := SingletonUpTo(c, k1, Scanned(st.offx, st.poff, 0.0),
                              c.Ap[oldcol], c.Ap[oldcol + 1]);
      st.(offx := sc.offx, poff := sc.poff, udiag := st.udiag[k1 := sc.s])
  }

  function FactorBlock(c: GoodCtx, st: RState, b: int): (st': RState)
    requires StateOk(c, st) && 0 <= b < c.sym.nblocks
    ensures StateOk(c, st')
  {
    var nk := c.sym.R[b + 1] - c.sym.R[b];
    if nk == 1 then SingletonBlock(c, st, b) else ColumnsUpTo(c, st, b, nk)
  }

  /** The first q blocks, in block order. */
  function BlocksUpTo(c: GoodCtx, st: RState, q: nat): (st': RState)
    requires StateOk(c, st) && q <= c.sym.nblocks
    ensures StateOk(c, st')
  {
    if q == 0 then st else FactorBlock(c, BlocksUpTo(c, st, q - 1), q - 1)
  }

  /** X with its first m slots cleared. */
  function ClearUpTo(x: seq<real>, m: int): seq<real>
  {
    seq(|x|, i requires 0 <= i < |x| => if i < m then 0.0 else x[i])
  }

  /** The state the block loop starts from: X[0 .. maxblock) cleared, cursor
      zero, status OK, rank and singular column EMPTY. */
  function StartState(c: Ctx, x: seq<real>, offx: seq<real>, udiag: seq<real>,
                      lu: seq<seq<real>>): RState
  {
    RState(ClearUpTo(x, c.sym.maxblock), offx, udiag, lu, 0, KLU_OK, EMPTY, EMPTY, Running)
  }

  /** Scale factors in pivotal row order: entry k is rs[Pnum[k]]. */
  function PermuteScale(rs: seq<real>, Pnum: seq<int>): (r: seq<real>)
    requires forall k :: 0 <= k < |Pnum| ==> 0 <= Pnum[k] < |rs|
  {
    seq(|Pnum|, k requires 0 <= k < |Pnum| => rs[Pnum[k]])
  }

  // ---------------------------------------------------------------------
  // A stopped run stays stopped
  // ---------------------------------------------------------------------

  lemma {:induction false} ColumnsFromStopped(c: GoodCtx, st: RState, b: int, q: nat)
    requires StateOk(c, st) && st.halt != Running
    requires 0 <= b < c.sym.nblocks && q <= c.sym.R[b + 1] - c.sym.R[b]
    ensures ColumnsUpTo(c, st, b, q) == st
  {
    if q > 0 {
      ColumnsFromStopped(c, st, b, q - 1);
    }
  }

  lemma {:induction false} ColumnsStopStays(c: GoodCtx, st: RState, b: int, q1: nat, q2: nat)
    requires StateOk(c, st)
    requires 0 <= b < c.sym.nblocks && q1 <= q2 <= c.sym.R[b + 1] - c.sym.R[b]
    requires ColumnsUpTo(c, st, b, q1).halt != Running
    ensures ColumnsUpTo(c, st, b, q2) == ColumnsUpTo(c, st, b, q1)
    decreases q2 - q1
  {
    if q2 > q1 {
      ColumnsStopStays(c, st, b, q1, q2 - 1);
    }
  }

  lemma FactorBlockFromStopped(c: GoodCtx, st: RState, b: int)
    requires StateOk(c, st) && st.halt != Running && 0 <= b < c.sym.nblocks
    ensures FactorBlock(c, st, b) == st
  {
    if c.sym.R[b + 1] - c.sym.R[b] != 1 {
      ColumnsFromStopped(c, st, b, c.sym.R[b + 1] - c.sym.R[b]);
    }
  }

  lemma {:induction false} BlocksStopStays(c: GoodCtx, st: RState, q1: nat, q2: nat)
    requires StateOk(c, st) && q1 <= q2 <= c.sym.nblocks
    requires BlocksUpTo(c, st, q1).halt != Running
    ensures BlocksUpTo(c, st, q2) == BlocksUpTo(c, st, q1)
    decreases q2 - q1
  {
    if q2 > q1 {
      BlocksStopStays(c, st, q1, q2 - 1);
      FactorBlockFromStopped(c, BlocksUpTo(c, st, q2 - 1), q2 - 1);
    }
  }
}
