// The refactorization engine (klu_z_refactor) over the numeric descriptor's
// arrays, each loop proved equal to its fold in RefactorSpec.
module KluRefactor {
  import opened KluCommon
  import opened RefactorSpec

  /** What the scaling helper (which checks the matrix and, for a positive
      scale mode, computes row scale factors) reports: a rejection with the
      status it leaves, or the scale factors of the rows. */
  datatype ScaleOutcome = Rejected(status: int) | Factors(rs: seq<real>)

  /** How a call ends: returning TRUE or FALSE, or with the index fault the
      runtime raises when an entry is scattered to a negative workspace slot. */
  datatype Outcome = Returned(ok: bool) | IndexOutOfBounds

  /** The values of every block buffer. */
  ghost function LuContents(numeric: Numeric): (lu: seq<seq<real>>)
    reads numeric.LUbx
    ensures |lu| == |numeric.LUbx|
    ensures forall b :: 0 <= b < |lu| ==> lu[b] == numeric.LUbx[b][..]
  {
    seq(|numeric.LUbx|, b requires 0 <= b < |numeric.LUbx| reads numeric.LUbx =>
      numeric.LUbx[b][..])
  }

  /** The engine's state as RefactorSpec sees it. */
  ghost function Snapshot(numeric: Numeric, common: Common, poff: int, halt: Halt): RState
    reads numeric.Xwork, numeric.Offx, numeric.Udiag, numeric.LUbx, common
  {
    RState(numeric.Xwork[..], numeric.Offx[..], numeric.Udiag[..], LuContents(numeric),
           poff, common.status, common.numericalRank, common.singularCol, halt)
  }

  /** The context records the pattern and buffer lengths of the descriptor,
      whose buffers are distinct objects. */
  ghost predicate Mirrors(c: Ctx, numeric: Numeric)
  {
    && numeric.Distinct()
    && numeric.n == c.sym.n && numeric.nblocks == c.sym.nblocks
    && c.Pinv == numeric.Pinv && c.Lcol == numeric.Lcol && c.Ucol == numeric.Ucol
    && c.xlen == numeric.Xwork.Length && c.offlen == numeric.Offx.Length
    && numeric.Udiag.Length == c.sym.n
    && |c.lens| == |numeric.LUbx|
    && (forall b :: 0 <= b < |c.lens| ==> c.lens[b] == numeric.LUbx[b].Length)
  }

  /** The context also describes these arguments and the scale factors Rs
      (the descriptor's, read once at the start of the run). */
  ghost predicate Agrees(c: Ctx, sym: Symbolic, numeric: Numeric, Rs: array?<real>,
                         Ap: seq<int>, Ai: seq<int>, Ax: seq<real>, scaled: bool)
    reads Rs
  {
    && Mirrors(c, numeric)
    && c.sym == sym && c.Ap == Ap && c.Ai == Ai && c.Ax == Ax
    && c.scaled == scaled
    && (scaled ==> Rs != null && Rs[..] == c.rs)
    && (Rs != null ==> numeric.Apart(Rs))
  }

  /** Once the scatter has faulted, further entries change nothing. */
  lemma {:induction false} ScatterFaultStays(c: GoodCtx, k1: int, r: Routed, p0: int, q1: int, q2: int)
    requires RoutedOk(c, r) && 0 <= k1
    requires c.Ap[0] <= p0 <= q1 <= q2 <= c.Ap[c.sym.n]
    requires ScatterUpTo(c, k1, r, p0, q1).fault
    ensures ScatterUpTo(c, k1, r, p0, q2) == ScatterUpTo(c, k1, r, p0, q1)
    decreases q2 - q1
  {
    if q2 > q1 {
      ScatterFaultStays(c, k1, r, p0, q1, q2 - 1);
    }
  }

  /** Scatter of column oldcol into X, routing entries of earlier blocks to
      Offx through the cursor (DZklu_refactor.java:246-262, 398-417). */
  method ScatterColumn(ghost c: GoodCtx, sym: Symbolic, numeric: Numeric, Rs: array?<real>, Ap: seq<int>,
                       Ai: seq<int>, Ax: seq<real>, scaled: bool, k1: int, oldcol: int,
                       poff0: int)
    returns (poff: int, fault: bool)
    requires Agrees(c, sym, numeric, Rs, Ap, Ai, Ax, scaled)
    requires 0 <= k1 <= sym.n && 0 <= oldcol < sym.n && 0 <= poff0 <= sym.nzoff
    modifies numeric.Xwork, numeric.Offx
    ensures Routed(numeric.Xwork[..], numeric.Offx[..], poff, fault)
         == ScatterUpTo(c, k1, Routed(old(numeric.Xwork[..]), old(numeric.Offx[..]), poff0, false),
                        Ap[oldcol], Ap[oldcol + 1])
  {
    var X, Offx := numeric.Xwork, numeric.Offx;
    ghost var r0 := Routed(X[..], Offx[..], poff0, false);
    poff, fault := poff0, false;
    var pend := Ap[oldcol + 1];
    var p := Ap[oldcol];
    while p < pend
      invariant Ap[oldcol] <= p <= pend
      invariant !fault
      invariant Routed(X[..], Offx[..], poff, fault) == ScatterUpTo(c, k1, r0, Ap[oldcol], p)
    {
      var oldrow := Ai[p];
      var newrow := numeric.Pinv[oldrow] - k1;
      var v := if scaled then Div(Ax[p], Rs[oldrow]) else Ax[p];
      if newrow < 0 && poff < sym.nzoff {
        Offx[poff] := v;
        poff := poff + 1;
      } else if newrow < 0 {
        fault := true;
        ScatterFaultStays(c, k1, r0, Ap[oldcol], p + 1, pend);
        return;
      } else {
        X[newrow] := v;
      }
      p := p + 1;
    }
  }

  /** Scan of the one column of a singleton block (DZklu_refactor.java:201-219,
      350-371): returns the cursor and the diagonal value s. */
  method ScanSingleton(ghost c: GoodCtx, sym: Symbolic, numeric: Numeric, Rs: array?<real>, Ap: seq<int>,
                       Ai: seq<int>, Ax: seq<real>, scaled: bool, k1: int, oldcol: int,
                       poff0: int)
    returns (poff: int, s: real)
    requires Agrees(c, sym, numeric, Rs, Ap, Ai, Ax, scaled)
    requires 0 <= oldcol < sym.n && 0 <= poff0 <= sym.nzoff
    modifies numeric.Offx
    ensures Scanned(numeric.Offx[..], poff, s)
         == SingletonUpTo(c, k1, Scanned(old(numeric.Offx[..]), poff0, 0.0),
                          Ap[oldcol], Ap[oldcol + 1])
  {
    var Offx := numeric.Offx;
    ghost var sc0 := Scanned(Offx[..], poff0, 0.0);
    poff, s := poff0, 0.0;
    var pend := Ap[oldcol + 1];
    var p := Ap[oldcol];
    while p < pend
      invariant Ap[oldcol] <= p <= pend
      invariant Scanned(Offx[..], poff, s) == SingletonUpTo(c, k1, sc0, Ap[oldcol], p)
    {
      var oldrow := Ai[p];
      var newrow := numeric.Pinv[oldrow] - k1;
      var v := if scaled then Div(Ax[p], Rs[oldrow]) else Ax[p];
      if newrow < 0 && poff < sym.nzoff {
        Offx[poff] := v;
        poff := poff + 1;
      } else {
        s := v;
      }
      p := p + 1;
    }
  }

  /** X[rows[p]] -= Lx[p] * ujk along column col of L
      (DZklu_refactor.java:281-285). */
  method MultSubColumn(X: array<real>, LU: array<real>, col: Column, ujk: real)
    requires X != LU && ColumnFits(col, X.Length, LU.Length)
    modifies X
    ensures X[..] == MultSubUpTo(old(X[..]), LU[..], col, ujk, |col.rows|)
  {
    var p := 0;
    while p < |col.rows|
      invariant 0 <= p <= |col.rows|
      invariant X[..] == MultSubUpTo(old(X[..]), LU[..], col, ujk, p)
    {
      var i := col.rows[p];
      X[i] := MultSub(X[i], LU[col.xOff + p], ujk);
      p := p + 1;
    }
  }

  lemma ColumnFitsWider(col: Column, nk: int, m: int, len: int)
    requires ColumnFits(col, nk, len) && nk <= m
    ensures ColumnFits(col, m, len)
  {
  }

  /** The kth column of U and the update of the kth column of A
      (DZklu_refactor.java:268-286). */
  method UpdateU(ghost c: Ctx, Lcol: seq<Column>, Ucol: seq<Column>, X: array<real>,
                 LU: array<real>, k1: int, nk: int, k: int)
    requires |Lcol| == c.sym.n && |Ucol| == c.sym.n && c.Lcol == Lcol && c.Ucol == Ucol && X != LU
    requires 0 <= k1 && k1 + nk <= c.sym.n && 0 <= k < nk <= X.Length
    requires BlockFits(c, k1, nk, LU.Length)
    modifies X, LU
    ensures Work(X[..], LU[..])
         == UUpdateUpTo(c, k1, nk, k, Work(old(X[..]), old(LU[..])), |Ucol[k1 + k].rows|)
  {
    ghost var w0 := Work(X[..], LU[..]);
    var up := 0;
    while up < |Ucol[k1 + k].rows|
      invariant 0 <= up <= |Ucol[k1 + k].rows|
      invariant Work(X[..], LU[..]) == UUpdateUpTo(c, k1, nk, k, w0, up)
    {
      UpdateStep(c, Lcol, Ucol, X, LU, k1, nk, k, up, w0);
      up := up + 1;
    }
  }

  /** Step up of the update along U: entry up of U's pattern of column k. */
  method UpdateStep(ghost c: Ctx, Lcol: seq<Column>, Ucol: seq<Column>, X: array<real>,
                    LU: array<real>, k1: int, nk: int, k: int, up: int, ghost w0: Work)
    requires |Lcol| == c.sym.n && |Ucol| == c.sym.n && c.Lcol == Lcol && c.Ucol == Ucol && X != LU
    requires 0 <= k1 && k1 + nk <= c.sym.n && 0 <= k < nk <= X.Length
    requires BlockFits(c, k1, nk, LU.Length)
    requires 0 <= up < |Ucol[k1 + k].rows| && |w0.x| == X.Length && |w0.lub| == LU.Length
    requires Work(X[..], LU[..]) == UUpdateUpTo(c, k1, nk, k, w0, up)
    modifies X, LU
    ensures Work(X[..], LU[..]) == UUpdateUpTo(c, k1, nk, k, w0, up + 1)
  {
    var ucol := Ucol[k1 + k];
    var j := ucol.rows[up];
    var ujk := X[j];
    X[j] := 0.0;
    LU[ucol.xOff + up] := ujk;
    ColumnFitsWider(Lcol[k1 + j], nk, X.Length, LU.Length);
    MultSubColumn(X, LU, Lcol[k1 + j], ujk);
  }

  /** Gather and divide by the pivot into the kth column of L
      (DZklu_refactor.java:309-318). */
  method GatherL(X: array<real>, LU: array<real>, col: Column, ukk: real)
    requires X != LU && ColumnFits(col, X.Length, LU.Length)
    modifies X, LU
    ensures Work(X[..], LU[..]) == GatherUpTo(Work(old(X[..]), old(LU[..])), col, ukk, |col.rows|)
  {
    ghost var w0 := Work(X[..], LU[..]);
    var p := 0;
    while p < |col.rows|
      invariant 0 <= p <= |col.rows|
      invariant Work(X[..], LU[..]) == GatherUpTo(w0, col, ukk, p)
    {
      var i := col.rows[p];
      LU[col.xOff + p] := Div(X[i], ukk);
      X[i] := 0.0;
      p := p + 1;
    }
  }

  /** The descriptor seen through a context that mirrors it is a
      well-formed engine state. */
  lemma SnapshotOk(c: GoodCtx, numeric: Numeric, common: Common, poff: int, halt: Halt)
    requires Mirrors(c, numeric) && 0 <= poff <= c.sym.nzoff
    ensures StateOk(c, Snapshot(numeric, common, poff, halt))
  {
  }

  /** Block buffer values that differ from lu0 at most in block b. */
  lemma LuContentsOneBlock(numeric: Numeric, lu0: seq<seq<real>>, b: int)
    requires 0 <= b < |numeric.LUbx| == |lu0|
    requires forall b' :: 0 <= b' < |lu0| && b' != b ==> lu0[b'] == numeric.LUbx[b'][..]
    ensures LuContents(numeric) == lu0[b := numeric.LUbx[b][..]]
  {
    var lu := LuContents(numeric);
    assert forall b' :: 0 <= b' < |lu| ==> lu[b'] == lu0[b := numeric.LUbx[b][..]][b'];
  }

  /** Column k of the general block b (DZklu_refactor.java:244-319, 396-473):
      the engine's state afterwards is FactorColumn of its state before. */
  method RefactorColumn(ghost c: GoodCtx, sym: Symbolic, numeric: Numeric, Rs: array?<real>, common: Common,
                        Ap: seq<int>, Ai: seq<int>, Ax: seq<real>, scaled: bool,
                        b: int, k: int, poff0: int)
    returns (poff: int, halt: Halt)
    requires Agrees(c, sym, numeric, Rs, Ap, Ai, Ax, scaled)
    requires c.halt == (common.haltIfSingular != 0)
    requires 0 <= b < sym.nblocks && 0 <= k < sym.R[b + 1] - sym.R[b]
    requires 0 <= poff0 <= sym.nzoff
    modifies numeric.Xwork, numeric.Offx, numeric.Udiag, numeric.LUbx[b]
    modifies common`status, common`numericalRank, common`singularCol
    ensures StateOk(c, old(Snapshot(numeric, common, poff0, Running)))
    ensures Snapshot(numeric, common, poff, halt)
         == FactorColumn(c, old(Snapshot(numeric, common, poff0, Running)), b, k)
  {
    SnapshotOk(c, numeric, common, poff0, Running);
    ghost var st := Snapshot(numeric, common, poff0, Running);
    ghost var r := ScatterOf(c, st, b, k);
    var fault;
    poff, fault := ScatterColumn(c, sym, numeric, Rs, Ap, Ai, Ax, scaled, sym.R[b], sym.Q[k + sym.R[b]], poff0);
    assert numeric.Xwork[..] == r.x && numeric.Offx[..] == r.offx && poff == r.poff && fault == r.fault;
    if fault {
      halt := OutOfBounds;
      return;
    }
    halt := EliminateInPlace(c, sym, numeric, common, b, k, st, r);
  }

  /** Update along U, pivot and gather for a column whose scatter r did not
      fault (DZklu_refactor.java:264-318, 419-473). */
  method EliminateInPlace(ghost c: GoodCtx, sym: Symbolic, numeric: Numeric, common: Common,
                          b: int, k: int, ghost st: RState, ghost r: Routed)
    returns (halt: Halt)
    requires Mirrors(c, numeric) && c.sym == sym
    requires c.halt == (common.haltIfSingular != 0)
    requires 0 <= b < sym.nblocks && 0 <= k < sym.R[b + 1] - sym.R[b]
    requires StateOk(c, st) && RoutedOk(c, r) && |r.x| == |st.x| && |r.offx| == |st.offx|
    requires Snapshot(numeric, common, r.poff, Running) == st.(x := r.x, offx := r.offx, poff := r.poff)
    modifies numeric.Xwork, numeric.Udiag, numeric.LUbx[b]
    modifies common`status, common`numericalRank, common`singularCol
    ensures Snapshot(numeric, common, r.poff, halt) == EliminateColumn(c, st, b, k, r)
  {
    ghost var w := UpdateOf(c, st, b, k, r);
    ghost var st0 := st.(x := w.x[k := 0.0], offx := r.offx, poff := r.poff,
                         lu := st.lu[b := w.lub]);
    var ukk := UpdateInPlace(c, sym, numeric, common, b, k, st, r, w, st0);
    halt := FinishInPlace(c, sym, numeric, common, b, k, ukk, st0);
  }

  /** Update along U, then take and clear the pivot entry of X. */
  method UpdateInPlace(ghost c: GoodCtx, sym: Symbolic, numeric: Numeric, common: Common,
                       b: int, k: int, ghost st: RState, ghost r: Routed,
                       ghost w: Work, ghost st0: RState)
    returns (ukk: real)
    requires Mirrors(c, numeric) && c.sym == sym
    requires 0 <= b < sym.nblocks && 0 <= k < sym.R[b + 1] - sym.R[b]
    requires StateOk(c, st) && RoutedOk(c, r) && |r.x| == |st.x| && |r.offx| == |st.offx|
    requires Snapshot(numeric, common, r.poff, Running) == st.(x := r.x, offx := r.offx, poff := r.poff)
    modifies numeric.Xwork, numeric.LUbx[b]
    requires w == UpdateOf(c, st, b, k, r)
    requires st0 == st.(x := w.x[k := 0.0], offx := r.offx, poff := r.poff, lu := st.lu[b := w.lub])
    ensures ukk == w.x[k] && Snapshot(numeric, common, r.poff, Running) == st0
  {
    var k1 := sym.R[b];
    var X, LU := numeric.Xwork, numeric.LUbx[b];
    UpdateU(c, numeric.Lcol, numeric.Ucol, X, LU, k1, sym.R[b + 1] - k1, k);
    ukk := X[k];
    X[k] := 0.0;
    LuContentsOneBlock(numeric, st.lu, b);
  }

  /** Record the pivot and, unless the run stops, gather the column. */
  method FinishInPlace(ghost c: GoodCtx, sym: Symbolic, numeric: Numeric, common: Common,
                       b: int, k: int, ukk: real, ghost st: RState)
    returns (halt: Halt)
    requires Mirrors(c, numeric) && c.sym == sym
    requires c.halt == (common.haltIfSingular != 0)
    requires 0 <= b < sym.nblocks && 0 <= k < sym.R[b + 1] - sym.R[b]
    requires StateOk(c, st) && st.halt == Running
    requires Snapshot(numeric, common, st.poff, Running) == st
    modifies numeric.Xwork, numeric.Udiag, numeric.LUbx[b]
    modifies common`status, common`numericalRank, common`singularCol
    ensures Snapshot(numeric, common, st.poff, halt) == FinishColumn(c, st, b, k, ukk)
  {
    halt := PivotInPlace(c, sym, numeric, common, sym.R[b] + k, ukk, st);
    if halt != Running {
      return;
    }
    GatherInPlace(c, sym, numeric, common, b, k, ukk, Pivot(c, st, sym.R[b] + k, ukk));
  }

  /** The pivot bookkeeping seen as a change of the engine's state. */
  method PivotInPlace(ghost c: GoodCtx, sym: Symbolic, numeric: Numeric, common: Common,
                      col: int, ukk: real, ghost st: RState)
    returns (halt: Halt)
    requires c.sym == sym && 0 <= col < sym.n
    requires c.halt == (common.haltIfSingular != 0)
    requires st.halt == Running && Snapshot(numeric, common, st.poff, Running) == st
    modifies common`status, common`numericalRank, common`singularCol
    ensures Snapshot(numeric, common, st.poff, halt) == Pivot(c, st, col, ukk)
  {
    halt := RecordPivot(c, sym, common, col, ukk);
  }

  /** Gather into L and store the pivot (DZklu_refactor.java:307-318, 462-473). */
  method GatherInPlace(ghost c: GoodCtx, sym: Symbolic, numeric: Numeric, common: Common,
                       b: int, k: int, ukk: real, ghost st: RState)
    requires Mirrors(c, numeric) && c.sym == sym
    requires 0 <= b < sym.nblocks && 0 <= k < sym.R[b + 1] - sym.R[b]
    requires StateOk(c, st) && Snapshot(numeric, common, st.poff, st.halt) == st
    modifies numeric.Xwork, numeric.Udiag, numeric.LUbx[b]
    ensures Snapshot(numeric, common, st.poff, st.halt) == GatherColumn(c, st, b, k, ukk)
  {
    var k1 := sym.R[b];
    var X, LU := numeric.Xwork, numeric.LUbx[b];
    numeric.Udiag[k + k1] := ukk;
    ColumnFitsWider(numeric.Lcol[k1 + k], sym.R[b + 1] - k1, X.Length, LU.Length);
    GatherL(X, LU, numeric.Lcol[k + k1], ukk);
    LuContentsOneBlock(numeric, st.lu, b);
  }

  /** Singular-pivot bookkeeping for global column col
      (DZklu_refactor.java:292-306, 443-461). */
  method RecordPivot(ghost c: GoodCtx, sym: Symbolic, common: Common, col: int, ukk: real)
    returns (halt: Halt)
    requires c.sym == sym && 0 <= col < c.sym.n && c.halt == (common.haltIfSingular != 0)
    modifies common`status, common`numericalRank, common`singularCol
    ensures forall st: RState ::
              st.status == old(common.status) && st.rank == old(common.numericalRank)
              && st.singCol == old(common.singularCol) && st.halt == Running ==>
              var st1 := Pivot(c, st, col, ukk);
              st1.status == common.status && st1.rank == common.numericalRank
              && st1.singCol == common.singularCol && st1.halt == halt
  {
    halt := Running;
    if ukk == 0.0 {
      common.status := KLU_SINGULAR;
      if common.numericalRank == EMPTY {
        common.numericalRank := col;
        common.singularCol := sym.Q[col];
      }
      if common.haltIfSingular != 0 {
        halt := HaltedSingular;
      }
    }
  }

  /** Block b (DZklu_refactor.java:188-323, 344-476): a singleton block is
      scanned, a general block factored column by column. The engine's state
      afterwards is FactorBlock of its state before. */
  method RefactorBlock(ghost c: GoodCtx, sym: Symbolic, numeric: Numeric, Rs: array?<real>, common: Common,
                       Ap: seq<int>, Ai: seq<int>, Ax: seq<real>, scaled: bool,
                       b: int, poff0: int)
    returns (poff: int, halt: Halt)
    requires Agrees(c, sym, numeric, Rs, Ap, Ai, Ax, scaled)
    requires c.halt == (common.haltIfSingular != 0)
    requires 0 <= b < sym.nblocks && 0 <= poff0 <= sym.nzoff
    modifies numeric.Xwork, numeric.Offx, numeric.Udiag, numeric.LUbx[b]
    modifies common`status, common`numericalRank, common`singularCol
    ensures StateOk(c, old(Snapshot(numeric, common, poff0, Running)))
    ensures Snapshot(numeric, common, poff, halt)
         == FactorBlock(c, old(Snapshot(numeric, common, poff0, Running)), b)
  {
    if sym.R[b + 1] - sym.R[b] == 1 {
      poff := RefactorSingleton(c, sym, numeric, Rs, common, Ap, Ai, Ax, scaled, b, poff0);
      halt := Running;
    } else {
      poff, halt := RefactorColumns(c, sym, numeric, Rs, common, Ap, Ai, Ax, scaled, b, poff0);
    }
  }

  /** A singleton block (DZklu_refactor.java:199-220, 348-372): the diagonal
      entry is the value the scan of its column leaves. */
  method RefactorSingleton(ghost c: GoodCtx, sym: Symbolic, numeric: Numeric, Rs: array?<real>, common: Common,
                           Ap: seq<int>, Ai: seq<int>, Ax: seq<real>, scaled: bool,
                           b: int, poff0: int)
    returns (poff: int)
    requires Agrees(c, sym, numeric, Rs, Ap, Ai, Ax, scaled)
    requires 0 <= b < sym.nblocks && sym.R[b + 1] - sym.R[b] == 1 && 0 <= poff0 <= sym.nzoff
    modifies numeric.Offx, numeric.Udiag
    ensures StateOk(c, old(Snapshot(numeric, common, poff0, Running)))
    ensures Snapshot(numeric, common, poff, Running)
         == SingletonBlock(c, old(Snapshot(numeric, common, poff0, Running)), b)
  {
    SnapshotOk(c, numeric, common, poff0, Running);
    var k1 := sym.R[b];
    var s;
    poff, s := ScanSingleton(c, sym, numeric, Rs, Ap, Ai, Ax, scaled, k1, sym.Q[k1], poff0);
    numeric.Udiag[k1] := s;
  }

  /** A general block, column by column (DZklu_refactor.java:222-321,
      374-475); a stop in one column ends the block. */
  method RefactorColumns(ghost c: GoodCtx, sym: Symbolic, numeric: Numeric, Rs: array?<real>, common: Common,
                         Ap: seq<int>, Ai: seq<int>, Ax: seq<real>, scaled: bool,
                         b: int, poff0: int)
    returns (poff: int, halt: Halt)
    requires Agrees(c, sym, numeric, Rs, Ap, Ai, Ax, scaled)
    requires c.halt == (common.haltIfSingular != 0)
    requires 0 <= b < sym.nblocks && 0 <= poff0 <= sym.nzoff
    modifies numeric.Xwork, numeric.Offx, numeric.Udiag, numeric.LUbx[b]
    modifies common`status, common`numericalRank, common`singularCol
    ensures StateOk(c, old(Snapshot(numeric, common, poff0, Running)))
    ensures Snapshot(numeric, common, poff, halt)
         == ColumnsUpTo(c, old(Snapshot(numeric, common, poff0, Running)), b,
                        sym.R[b + 1] - sym.R[b])
  {
    SnapshotOk(c, numeric, common, poff0, Running);
    poff, halt := ColumnLoop(c, sym, numeric, Rs, common, Ap, Ai, Ax, scaled, b, poff0,
                             Snapshot(numeric, common, poff0, Running));
  }

  /** The column loop of a general block from the engine state st. */
  method ColumnLoop(ghost c: GoodCtx, sym: Symbolic, numeric: Numeric, Rs: array?<real>, common: Common,
                    Ap: seq<int>, Ai: seq<int>, Ax: seq<real>, scaled: bool,
                    b: int, poff0: int, ghost st: RState)
    returns (poff: int, halt: Halt)
    requires Agrees(c, sym, numeric, Rs, Ap, Ai, Ax, scaled)
    requires c.halt == (common.haltIfSingular != 0)
    requires 0 <= b < sym.nblocks && StateOk(c, st)
    requires Snapshot(numeric, common, poff0, Running) == st
    modifies numeric.Xwork, numeric.Offx, numeric.Udiag, numeric.LUbx[b]
    modifies common`status, common`numericalRank, common`singularCol
    ensures Snapshot(numeric, common, poff, halt) == ColumnsUpTo(c, st, b, sym.R[b + 1] - sym.R[b])
  {
    var nk := sym.R[b + 1] - sym.R[b];
    poff, halt := poff0, Running;
    var k := 0;
    while k < nk && halt == Running
      invariant 0 <= k <= nk
      invariant Snapshot(numeric, common, poff, halt) == Reached(c, st, b, k)
    {
      poff, halt := RefactorColumnStep(c, sym, numeric, Rs, common, Ap, Ai, Ax, scaled, b, k, poff, st);
      k := k + 1;
    }
    if k < nk {
      ColumnsStopStays(c, st, b, k, nk);
    }
  }

  /** The block's state after its first k columns, named without unfolding
      the columns themselves, which keeps the loop's proof small. */
  ghost function Reached(c: GoodCtx, st: RState, b: int, k: nat): RState
    requires StateOk(c, st)
    requires 0 <= b < c.sym.nblocks && k <= c.sym.R[b + 1] - c.sym.R[b]
  {
    ColumnsUpTo(c, st, b, k)
  }

  /** Factoring one more column extends the column fold by one step. */
  lemma ColumnsNext(c: GoodCtx, st: RState, b: int, k: nat)
    requires StateOk(c, st)
    requires 0 <= b < c.sym.nblocks && k < c.sym.R[b + 1] - c.sym.R[b]
    ensures ColumnsUpTo(c, st, b, k + 1) == FactorColumn(c, ColumnsUpTo(c, st, b, k), b, k)
  {
  }

  /** One pass of the column loop: column k advances the fold by one step. */
  method RefactorColumnStep(ghost c: GoodCtx, sym: Symbolic, numeric: Numeric, Rs: array?<real>, common: Common,
                            Ap: seq<int>, Ai: seq<int>, Ax: seq<real>, scaled: bool,
                            b: int, k: int, poff0: int, ghost st: RState)
    returns (poff: int, halt: Halt)
    requires Agrees(c, sym, numeric, Rs, Ap, Ai, Ax, scaled)
    requires c.halt == (common.haltIfSingular != 0)
    requires 0 <= b < sym.nblocks && 0 <= k < sym.R[b + 1] - sym.R[b] && StateOk(c, st)
    requires Snapshot(numeric, common, poff0, Running) == Reached(c, st, b, k)
    modifies numeric.Xwork, numeric.Offx, numeric.Udiag, numeric.LUbx[b]
    modifies common`status, common`numericalRank, common`singularCol
    ensures Snapshot(numeric, common, poff, halt) == Reached(c, st, b, k + 1)
  {
    ColumnsNext(c, st, b, k);
    poff, halt := RefactorColumn(c, sym, numeric, Rs, common, Ap, Ai, Ax, scaled, b, k, poff0);
  }

  /** The context of a refactorization of (Ap, Ai, Ax) into numeric. */
  ghost function RunCtx(sym: Symbolic, numeric: Numeric, Ap: seq<int>, Ai: seq<int>,
                        Ax: seq<real>, scaled: bool, rs: seq<real>, halt: bool): Ctx
  {
    Ctx(sym, Ap, Ai, Ax, numeric.Pinv, numeric.Lcol, numeric.Ucol, scaled, rs, halt,
        numeric.Xwork.Length, numeric.Offx.Length,
        seq(|numeric.LUbx|, b requires 0 <= b < |numeric.LUbx| => numeric.LUbx[b].Length))
  }

  lemma RunCtxOk(sym: Symbolic, numeric: Numeric, Ap: seq<int>, Ai: seq<int>,
                 Ax: seq<real>, scaled: bool, rs: seq<real>, halt: bool)
    requires numeric.Valid(sym) && MatrixOk(sym.n, Ap, Ai, Ax)
    requires scaled ==> |rs| == sym.n
    ensures CtxOk(RunCtx(sym, numeric, Ap, Ai, Ax, scaled, rs, halt))
    ensures Mirrors(RunCtx(sym, numeric, Ap, Ai, Ax, scaled, rs, halt), numeric)
  {
  }

  /** The block loop (DZklu_refactor.java:176-324, 332-477): the state
      afterwards is BlocksUpTo over all blocks of the state before. */
  method RefactorBlocks(ghost c: GoodCtx, sym: Symbolic, numeric: Numeric, Rs: array?<real>, common: Common,
                        Ap: seq<int>, Ai: seq<int>, Ax: seq<real>, scaled: bool)
    returns (poff: int, halt: Halt)
    requires Agrees(c, sym, numeric, Rs, Ap, Ai, Ax, scaled)
    requires c.halt == (common.haltIfSingular != 0)
    modifies numeric.Xwork, numeric.Offx, numeric.Udiag, numeric.LUbx
    modifies common`status, common`numericalRank, common`singularCol
    ensures StateOk(c, old(Snapshot(numeric, common, 0, Running)))
    ensures Snapshot(numeric, common, poff, halt)
         == BlocksUpTo(c, old(Snapshot(numeric, common, 0, Running)), sym.nblocks)
  {
    SnapshotOk(c, numeric, common, 0, Running);
    ghost var st := Snapshot(numeric, common, 0, Running);
    poff := 0;
    halt := Running;
    var block := 0;
    while block < sym.nblocks
      invariant 0 <= block <= sym.nblocks && 0 <= poff <= sym.nzoff
      invariant halt == Running
      invariant Snapshot(numeric, common, poff, Running) == BlocksUpTo(c, st, block)
    {
      poff, halt := RefactorBlock(c, sym, numeric, Rs, common, Ap, Ai, Ax, scaled, block, poff);
      if halt != Running {
        BlocksStopStays(c, st, block + 1, sym.nblocks);
        return;
      }
      block := block + 1;
    }
  }

  /** Scale factors into pivotal row order through the workspace
      (DZklu_refactor.java:483-495). */
  method PermuteScaleFactors(numeric: Numeric)
    requires numeric.Rs != null && numeric.Rs != numeric.Xwork
    requires |numeric.Pnum| <= numeric.Xwork.Length && |numeric.Pnum| <= numeric.Rs.Length
    requires forall k :: 0 <= k < |numeric.Pnum| ==> 0 <= numeric.Pnum[k] < numeric.Rs.Length
    modifies numeric.Xwork, numeric.Rs
    ensures numeric.Rs[..|numeric.Pnum|] == PermuteScale(old(numeric.Rs[..]), numeric.Pnum)
    ensures numeric.Rs[|numeric.Pnum|..] == old(numeric.Rs[|numeric.Pnum|..])
    ensures numeric.Xwork[..|numeric.Pnum|] == PermuteScale(old(numeric.Rs[..]), numeric.Pnum)
    ensures numeric.Xwork[|numeric.Pnum|..] == old(numeric.Xwork[|numeric.Pnum|..])
  {
    var X, Rs, n := numeric.Xwork, numeric.Rs, |numeric.Pnum|;
    ghost var perm := PermuteScale(Rs[..], numeric.Pnum);
    var k := 0;
    while k < n
      invariant 0 <= k <= n
      invariant X[..k] == perm[..k] && X[n..] == old(X[n..]) && Rs[..] == old(Rs[..])
    {
      X[k] := Rs[numeric.Pnum[k]];
      k := k + 1;
    }
    k := 0;
    while k < n
      invariant 0 <= k <= n
      invariant Rs[..k] == perm[..k] && Rs[n..] == old(Rs[n..])
      invariant X[..n] == perm && X[n..] == old(X[n..])
    {
      Rs[k] := X[k];
      k := k + 1;
    }
  }

  /** The state the block loop of a refactorization of (Ap, Ai, Ax) into
      numeric ends in, from workspace x, off-diagonal values offx, diagonal
      udiag and block buffers lu. */
  ghost function Refactored(sym: Symbolic, numeric: Numeric, Ap: seq<int>, Ai: seq<int>,
                            Ax: seq<real>, scaled: bool, rs: seq<real>, halt: bool,
                            x: seq<real>, offx: seq<real>, udiag: seq<real>,
                            lu: seq<seq<real>>): RState
    reads numeric
    requires numeric.Valid(sym) && MatrixOk(sym.n, Ap, Ai, Ax) && (scaled ==> |rs| == sym.n)
    requires |x| == numeric.Xwork.Length && |offx| == numeric.Offx.Length && |udiag| == sym.n
    requires |lu| == sym.nblocks
    requires forall b :: 0 <= b < |lu| ==> |lu[b]| == numeric.LUbx[b].Length
  {
    var c := RunCtx(sym, numeric, Ap, Ai, Ax, scaled, rs, halt);
    RunCtxOk(sym, numeric, Ap, Ai, Ax, scaled, rs, halt);
    BlocksUpTo(c, StartState(c, x, offx, udiag, lu), sym.nblocks)
  }

  /** What a refactorization that reached the block loop leaves, starting
      from workspace x0, off-diagonal values offx0, diagonal udiag0 and block
      buffers lu0: the factors of Refactored, its status and the result it
      returns; with scaling on and no early return, the scale factors in
      pivotal row order in Rs and in the first n slots of X. */
  ghost predicate FactorsOf(sym: Symbolic, numeric: Numeric, common: Common, Ap: seq<int>,
                            Ai: seq<int>, Ax: seq<real>, scaled: bool, rs: seq<real>,
                            halt: bool, x0: seq<real>, offx0: seq<real>, udiag0: seq<real>,
                            lu0: seq<seq<real>>, result: Outcome)
    reads numeric, numeric.Xwork, numeric.Offx, numeric.Udiag, numeric.LUbx,
          numeric.Rs, common
    requires numeric.Valid(sym) && MatrixOk(sym.n, Ap, Ai, Ax) && (scaled ==> |rs| == sym.n)
    requires |x0| == numeric.Xwork.Length && |offx0| == numeric.Offx.Length
    requires |udiag0| == sym.n && |lu0| == sym.nblocks
    requires forall b :: 0 <= b < |lu0| ==> |lu0[b]| == numeric.LUbx[b].Length
  {
    var fin := Refactored(sym, numeric, Ap, Ai, Ax, scaled, rs, halt, x0, offx0, udiag0, lu0);
    && numeric.Offx[..] == fin.offx && numeric.Udiag[..] == fin.udiag
    && LuContents(numeric) == fin.lu
    && common.status == fin.status
    && common.numericalRank == fin.rank && common.singularCol == fin.singCol
    && result == (match fin.halt
                  case Running => Returned(true)
                  case HaltedSingular => Returned(false)
                  case OutOfBounds => IndexOutOfBounds)
    && (!scaled || fin.halt != Running ==> numeric.Xwork[..] == fin.x)
    && (scaled ==> numeric.Rs != null)
    && (scaled && fin.halt != Running ==> numeric.Rs[..] == rs)
    && (scaled && fin.halt == Running ==>
          && numeric.Rs[..] == PermuteScale(rs, numeric.Pnum)
          && numeric.Xwork[..sym.n] == numeric.Rs[..]
          && numeric.Xwork[sym.n..] == fin.x[sym.n..])
  }

  /** The engine proper, once the arguments are checked and the scale
      factors (if any) are in Rs (DZklu_refactor.java:160-495). */
  method RunEngine(sym: Symbolic, numeric: Numeric, common: Common, Ap: seq<int>,
                   Ai: seq<int>, Ax: seq<real>, scaled: bool, ghost rs: seq<real>,
                   ghost x0: seq<real>, ghost offx0: seq<real>, ghost udiag0: seq<real>,
                   ghost lu0: seq<seq<real>>)
    returns (result: Outcome)
    requires numeric.Valid(sym) && MatrixOk(sym.n, Ap, Ai, Ax)
    requires x0 == numeric.Xwork[..] && offx0 == numeric.Offx[..]
    requires udiag0 == numeric.Udiag[..] && lu0 == LuContents(numeric)
    requires scaled ==> numeric.Rs != null && numeric.Rs[..] == rs
    requires common.status == KLU_OK
    requires common.numericalRank == EMPTY && common.singularCol == EMPTY
    modifies numeric.Xwork, numeric.Offx, numeric.Udiag, numeric.LUbx
    modifies if scaled then {numeric.Rs} else {}
    modifies common`status, common`numericalRank, common`singularCol
    ensures FactorsOf(sym, numeric, common, Ap, Ai, Ax, scaled, rs, common.haltIfSingular != 0,
                      x0, offx0, udiag0, lu0, result)
  {
    ClearWorkspace(numeric.Xwork, sym.maxblock);
    ghost var c := RunCtx(sym, numeric, Ap, Ai, Ax, scaled, rs, common.haltIfSingular != 0);
    RunCtxOk(sym, numeric, Ap, Ai, Ax, scaled, rs, common.haltIfSingular != 0);
    var Rs := numeric.Rs;
    var poff, halt := RefactorBlocks(c, sym, numeric, Rs, common, Ap, Ai, Ax, scaled);
    if halt == OutOfBounds {
      return IndexOutOfBounds;
    } else if halt == HaltedSingular {
      return Returned(false);
    }
    if scaled {
      PermuteScaleFactors(numeric);
    }
    return Returned(true);
  }

  /** klu_z_refactor (DZklu_refactor.java:51-541): refactor the matrix
      (Ap, Ai, Ax) with the pivot order and patterns of numeric. scaling is
      what the scaling helper reports for this matrix and scale mode. */
  method Refactor(Ap: seq<int>, Ai: seq<int>, Ax: seq<real>, sym: Symbolic,
                  numeric: Numeric?, common: Common?, scaling: ScaleOutcome)
    returns (result: Outcome)
    requires common != null && numeric != null ==> numeric.Valid(sym)
    requires common != null && numeric != null && (common.scale < 0 || scaling.Factors?)
             ==> MatrixOk(sym.n, Ap, Ai, Ax)
    requires common != null && numeric != null && common.scale > 0 && scaling.Factors?
             ==> |scaling.rs| == sym.n
    modifies common
    modifies if numeric == null then {} else numeric.Buffers()
    // without a status object nothing is touched
    ensures common == null ==> result == Returned(false)
    ensures common == null && numeric != null ==> unchanged(numeric) && unchanged(numeric.Buffers())
    ensures common != null ==>
              common.haltIfSingular == old(common.haltIfSingular) && common.scale == old(common.scale)
    // without a numeric object the call is invalid
    ensures common != null && numeric == null ==>
              result == Returned(false) && common.status == KLU_INVALID
              && common.numericalRank == old(common.numericalRank)
              && common.singularCol == old(common.singularCol)
    ensures common != null && numeric != null ==>
              RefactorPost(Ap, Ai, Ax, sym, numeric, common, scaling, old(numeric.Rs),
                           old(numeric.Xwork[..]), old(numeric.Offx[..]), old(numeric.Udiag[..]),
                           old(LuContents(numeric)), result)
  {
    if common == null {
      return Returned(false);
    }
    common.status := KLU_OK;
    if numeric == null {
      common.status := KLU_INVALID;
      return Returned(false);
    }
    result := RefactorChecked(Ap, Ai, Ax, sym, numeric, common, scaling);
  }

  /** What a refactorization with both objects present leaves: a valid
      descriptor whose Rs holds scale factors exactly when scaling is on;
      after a rejection by the scaling helper its status and no factors;
      otherwise the factors of the block loop (FactorsOf). */
  ghost predicate RefactorPost(Ap: seq<int>, Ai: seq<int>, Ax: seq<real>, sym: Symbolic,
                               numeric: Numeric, common: Common, scaling: ScaleOutcome,
                               Rs0: array?<real>, x0: seq<real>, offx0: seq<real>,
                               udiag0: seq<real>, lu0: seq<seq<real>>, result: Outcome)
    reads numeric, numeric.Xwork, numeric.Offx, numeric.Udiag, numeric.LUbx,
          numeric.Rs, common
  {
    && numeric.Valid(sym) && common.nrealloc == 0
    && (common.scale > 0 <==> numeric.Rs != null)
    && (common.scale > 0 && Rs0 != null ==> numeric.Rs == Rs0)
    && (common.scale >= 0 && scaling.Rejected? ==>
          && result == Returned(false) && common.status == scaling.status
          && common.numericalRank == EMPTY && common.singularCol == EMPTY
          && numeric.Xwork[..] == x0 && numeric.Offx[..] == offx0
          && numeric.Udiag[..] == udiag0 && LuContents(numeric) == lu0)
    && (common.scale < 0 || scaling.Factors? ==>
          && MatrixOk(sym.n, Ap, Ai, Ax)
          && (common.scale > 0 ==> |scaling.rs| == sym.n)
          && |x0| == numeric.Xwork.Length && |offx0| == numeric.Offx.Length
          && |udiag0| == sym.n && |lu0| == sym.nblocks
          && (forall b :: 0 <= b < |lu0| ==> |lu0[b]| == numeric.LUbx[b].Length)
          && FactorsOf(sym, numeric, common, Ap, Ai, Ax, common.scale > 0,
                       if common.scale > 0 then scaling.rs else [], common.haltIfSingular != 0,
                       x0, offx0, udiag0, lu0, result))
  }

  /** klu_z_refactor once both objects are known to be present
      (DZklu_refactor.java:82-541). */
  method RefactorChecked(Ap: seq<int>, Ai: seq<int>, Ax: seq<real>, sym: Symbolic,
                         numeric: Numeric, common: Common, scaling: ScaleOutcome)
    returns (result: Outcome)
    requires numeric.Valid(sym)
    requires common.scale < 0 || scaling.Factors? ==> MatrixOk(sym.n, Ap, Ai, Ax)
    requires common.scale > 0 && scaling.Factors? ==> |scaling.rs| == sym.n
    requires common.status == KLU_OK
    modifies common`status, common`numericalRank, common`singularCol, common`nrealloc
    modifies numeric.Buffers()
    ensures RefactorPost(Ap, Ai, Ax, sym, numeric, common, scaling, old(numeric.Rs),
                         old(numeric.Xwork[..]), old(numeric.Offx[..]), old(numeric.Udiag[..]),
                         old(LuContents(numeric)), result)
    ensures numeric.Rs != null && numeric.Rs != old(numeric.Rs) ==> fresh(numeric.Rs)
  {
    ghost var x0, offx0, udiag0, lu0 := numeric.Xwork[..], numeric.Offx[..], numeric.Udiag[..],
                                        LuContents(numeric);
    var ok := PrepareScaleFactors(sym, numeric, common, scaling);
    if !ok {
      return Returned(false);
    }
    var scale := common.scale;
    result := RunEngine(sym, numeric, common, Ap, Ai, Ax, scale > 0,
                        if scale > 0 then scaling.rs else [], x0, offx0, udiag0, lu0);
  }

  /** Reset the rank fields, make Rs present exactly when scaling is on, and
      take the scaling helper's verdict (DZklu_refactor.java:91-158). */
  method PrepareScaleFactors(sym: Symbolic, numeric: Numeric, common: Common,
                             scaling: ScaleOutcome)
    returns (ok: bool)
    requires numeric.Valid(sym)
    requires common.scale > 0 && scaling.Factors? ==> |scaling.rs| == sym.n
    modifies common`status, common`numericalRank, common`singularCol, common`nrealloc
    modifies numeric`Rs, numeric.Rs
    ensures numeric.Valid(sym) && common.nrealloc == 0
    ensures common.numericalRank == EMPTY && common.singularCol == EMPTY
    ensures (common.scale > 0 <==> numeric.Rs != null)
    ensures common.scale > 0 && old(numeric.Rs) != null ==> numeric.Rs == old(numeric.Rs)
    ensures numeric.Rs != null && numeric.Rs != old(numeric.Rs) ==> fresh(numeric.Rs)
    ensures ok <==> common.scale < 0 || scaling.Factors?
    ensures ok ==> common.status == old(common.status)
    ensures !ok ==> common.status == scaling.status
    ensures ok && common.scale > 0 ==> numeric.Rs[..] == scaling.rs
  {
    common.numericalRank := EMPTY;
    common.singularCol := EMPTY;
    var scale := common.scale;
    if scale > 0 {
      if numeric.Rs == null {
        numeric.Rs := new real[sym.n];
      }
    } else {
      numeric.Rs := null;
    }
    common.nrealloc := 0;
    ok := true;
    if scale >= 0 {
      if scaling.Rejected? {
        common.status := scaling.status;
        return false;
      }
      if scale > 0 {
        CopyScaleFactors(numeric.Rs, scaling.rs);
      }
    }
  }

  /** Rs[0 .. n) := rs, as the scaling helper leaves it. */
  method CopyScaleFactors(Rs: array<real>, rs: seq<real>)
    requires Rs.Length == |rs|
    modifies Rs
    ensures Rs[..] == rs
  {
    var k := 0;
    while k < |rs|
      invariant 0 <= k <= |rs| && Rs[..k] == rs[..k]
    {
      Rs[k] := rs[k];
      k := k + 1;
    }
  }

  /** Clear X[0 .. maxblock) (DZklu_refactor.java:164-168). */
  method ClearWorkspace(X: array<real>, maxblock: nat)
    requires maxblock <= X.Length
    modifies X
    ensures X[..] == ClearUpTo(old(X[..]), maxblock)
  {
    var k := 0;
    while k < maxblock
      invariant 0 <= k <= maxblock
      invariant forall i :: 0 <= i < X.Length ==> X[i] == (if i < k then 0.0 else old(X[i]))
    {
      X[k] := 0.0;
      k := k + 1;
    }
  }
}
