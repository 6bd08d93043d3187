// Properties of the refactorization engine, proved about the folds of
// RefactorSpec (which the imperative engine of KluRefactor is proved equal to).
module RefactorProps {
  import opened KluCommon
  import opened RefactorSpec

  // ---------------------------------------------------------------------
  // The off-diagonal cursor
  // ---------------------------------------------------------------------

  /** How many of the entries p0 .. q-1 have their row in an earlier block
      than the block starting at k1. */
  function OffCount(c: GoodCtx, k1: int, p0: int, q: int): (m: nat)
    requires c.Ap[0] <= p0 <= q <= c.Ap[c.sym.n]
    ensures m <= q - p0
    decreases q - p0
  {
    if q == p0 then 0
    else OffCount(c, k1, p0, q - 1) + (if NewRow(c, k1, q - 1) < 0 then 1 else 0)
  }

  /** The values of the entries p0 .. q-1 whose row lies in an earlier block
      than the block starting at k1, in scan order: what the engine routes
      to Offx. */
  function OffVals(c: GoodCtx, k1: int, p0: int, q: int): (v: seq<real>)
    requires c.Ap[0] <= p0 <= q <= c.Ap[c.sym.n]
    ensures |v| == OffCount(c, k1, p0, q)
    decreases q - p0
  {
    if q == p0 then []
    else OffVals(c, k1, p0, q - 1) + (if NewRow(c, k1, q - 1) < 0 then [Value(c, q - 1)] else [])
  }

  /** An entry p of an earlier block is the routed value numbered by how
      many such entries precede it. */
  lemma {:induction false} OffValsAt(c: GoodCtx, k1: int, p0: int, q: int, p: int)
    requires c.Ap[0] <= p0 <= p < q <= c.Ap[c.sym.n] && NewRow(c, k1, p) < 0
    ensures OffCount(c, k1, p0, p) < OffCount(c, k1, p0, q)
    ensures OffVals(c, k1, p0, q)[OffCount(c, k1, p0, p)] == Value(c, p)
    decreases q - p0
  {
    if p < q - 1 {
      OffValsAt(c, k1, p0, q - 1, p);
      var v1 := OffVals(c, k1, p0, q - 1);
      assert OffVals(c, k1, p0, q)[OffCount(c, k1, p0, p)] == v1[OffCount(c, k1, p0, p)];
    }
  }

  /** Slots lo .. hi-1 of offx hold the first hi - lo of vals, in order. */
  ghost predicate StoresPrefix(offx: seq<real>, lo: int, hi: int, vals: seq<real>)
  {
    && 0 <= lo <= hi <= |offx| && hi - lo <= |vals|
    && forall i :: lo <= i < hi ==> offx[i] == vals[i - lo]
  }

  /** Offx changes only in the slots the cursor moved over, and the cursor
      never moves back. */
  ghost predicate CursorMoves(offx: seq<real>, poff: int, offx': seq<real>, poff': int)
  {
    && poff <= poff'
    && |offx'| == |offx|
    && forall i :: 0 <= i < |offx| && !(poff <= i < poff') ==> offx'[i] == offx[i]
  }

  lemma CursorMovesTrans(o1: seq<real>, p1: int, o2: seq<real>, p2: int, o3: seq<real>, p3: int)
    requires CursorMoves(o1, p1, o2, p2) && CursorMoves(o2, p2, o3, p3)
    ensures CursorMoves(o1, p1, o3, p3)
  {
  }

  /** The scatter of a column: it faults exactly when the entries of earlier
      blocks do not fit in the slots left below nzoff; otherwise the cursor
      advances by their number. Only slots the cursor passes are written,
      and they receive the values of those entries in scan order. */
  lemma {:induction false} ScatterCursor(c: GoodCtx, k1: int, r: Routed, p0: int, q: int)
    requires RoutedOk(c, r) && !r.fault && 0 <= k1
    requires c.Ap[0] <= p0 <= q <= c.Ap[c.sym.n]
    ensures var r' := ScatterUpTo(c, k1, r, p0, q);
      && (r'.fault <==> r.poff + OffCount(c, k1, p0, q) > c.sym.nzoff)
      && (!r'.fault ==> r'.poff == r.poff + OffCount(c, k1, p0, q))
      && (r'.fault ==> r'.poff == c.sym.nzoff)
      && CursorMoves(r.offx, r.poff, r'.offx, r'.poff)
      && StoresPrefix(r'.offx, r.poff, r'.poff, OffVals(c, k1, p0, q))
    decreases q - p0
  {
    if q > p0 {
      ScatterCursor(c, k1, r, p0, q - 1);
      var r1 := ScatterUpTo(c, k1, r, p0, q - 1);
      var r' := ScatterEntry(c, k1, r1, q - 1);
      assert ScatterUpTo(c, k1, r, p0, q) == r';
      CursorMovesTrans(r.offx, r.poff, r1.offx, r1.poff, r'.offx, r'.poff);
      OffValsGrow(c, k1, p0, q);
    }
  }

  /** The routed values of one more entry extend those before it. */
  lemma OffValsGrow(c: GoodCtx, k1: int, p0: int, q: int)
    requires c.Ap[0] <= p0 < q <= c.Ap[c.sym.n]
    ensures var v1, v := OffVals(c, k1, p0, q - 1), OffVals(c, k1, p0, q);
      && (forall i :: 0 <= i < |v1| ==> v[i] == v1[i])
      && (NewRow(c, k1, q - 1) < 0 ==> v[|v1|] == Value(c, q - 1))
  {
  }

  /** The scan of a singleton column: the cursor ends at poff plus the number
      of entries of earlier blocks, capped at nzoff, and the slots it passes
      receive the values of those entries in scan order. */
  lemma {:induction false} SingletonCursor(c: GoodCtx, k1: int, sc: Scanned, p0: int, q: int)
    requires ScannedOk(c, sc)
    requires c.Ap[0] <= p0 <= q <= c.Ap[c.sym.n]
    ensures var sc' := SingletonUpTo(c, k1, sc, p0, q);
      && sc'.poff == Min(sc.poff + OffCount(c, k1, p0, q), c.sym.nzoff)
      && CursorMoves(sc.offx, sc.poff, sc'.offx, sc'.poff)
      && StoresPrefix(sc'.offx, sc.poff, sc'.poff, OffVals(c, k1, p0, q))
    decreases q - p0
  {
    if q > p0 {
      SingletonCursor(c, k1, sc, p0, q - 1);
      var sc1 := SingletonUpTo(c, k1, sc, p0, q - 1);
      var sc' := SingletonEntry(c, k1, sc1, q - 1);
      assert SingletonUpTo(c, k1, sc, p0, q) == sc';
      CursorMovesTrans(sc.offx, sc.poff, sc1.offx, sc1.poff, sc'.offx, sc'.poff);
      OffValsGrow(c, k1, p0, q);
    }
  }

  /** Entry p of an earlier block lands, in a scatter that does not fault,
      at the cursor plus the number of such entries before it. */
  lemma ScatterOffValues(c: GoodCtx, k1: int, r: Routed, p0: int, q: int, p: int)
    requires RoutedOk(c, r) && !r.fault && 0 <= k1
    requires c.Ap[0] <= p0 <= p < q <= c.Ap[c.sym.n] && NewRow(c, k1, p) < 0
    requires !ScatterUpTo(c, k1, r, p0, q).fault
    ensures var r' := ScatterUpTo(c, k1, r, p0, q);
      && r.poff + OffCount(c, k1, p0, p) < r'.poff
      && r'.offx[r.poff + OffCount(c, k1, p0, p)] == Value(c, p)
  {
    ScatterCursor(c, k1, r, p0, q);
    OffValsAt(c, k1, p0, q, p);
  }

  /** Entry p of an earlier block lands, in a singleton scan, at the cursor
      plus the number of such entries before it, unless that slot is at or
      past nzoff. */
  lemma SingletonOffValues(c: GoodCtx, k1: int, sc: Scanned, p0: int, q: int, p: int)
    requires ScannedOk(c, sc)
    requires c.Ap[0] <= p0 <= p < q <= c.Ap[c.sym.n] && NewRow(c, k1, p) < 0
    requires sc.poff + OffCount(c, k1, p0, p) < c.sym.nzoff
    ensures var sc' := SingletonUpTo(c, k1, sc, p0, q);
      && sc.poff + OffCount(c, k1, p0, p) < sc'.poff
      && sc'.offx[sc.poff + OffCount(c, k1, p0, p)] == Value(c, p)
  {
    SingletonCursor(c, k1, sc, p0, q);
    OffValsAt(c, k1, p0, q, p);
  }

  /** One column of a general block keeps the cursor discipline that held
      from st0 to st. */
  lemma ColumnCursor(c: GoodCtx, st0: RState, st: RState, b: int, k: int)
    requires StateOk(c, st)
    requires 0 <= b < c.sym.nblocks && 0 <= k < c.sym.R[b + 1] - c.sym.R[b]
    requires CursorMoves(st0.offx, st0.poff, st.offx, st.poff)
    ensures var st' := FactorColumn(c, st, b, k);
      CursorMoves(st0.offx, st0.poff, st'.offx, st'.poff)
  {
    if st.halt == Running {
      var oldcol := c.sym.Q[k + c.sym.R[b]];
      var r := Routed(st.x, st.offx, st.poff, false);
      ScatterCursor(c, c.sym.R[b], r, c.Ap[oldcol], c.Ap[oldcol + 1]);
      var r' := ScatterOf(c, st, b, k);
      CursorMovesTrans(st0.offx, st0.poff, st.offx, st.poff, r'.offx, r'.poff);
    }
  }

  lemma {:induction false} ColumnsCursor(c: GoodCtx, st: RState, b: int, q: nat)
    requires StateOk(c, st)
    requires 0 <= b < c.sym.nblocks && q <= c.sym.R[b + 1] - c.sym.R[b]
    ensures var st' := ColumnsUpTo(c, st, b, q);
      CursorMoves(st.offx, st.poff, st'.offx, st'.poff)
  {
    if q > 0 {
      ColumnsCursor(c, st, b, q - 1);
      ColumnCursor(c, st, ColumnsUpTo(c, st, b, q - 1), b, q - 1);
    }
  }

  lemma BlockCursor(c: GoodCtx, st: RState, b: int)
    requires StateOk(c, st) && 0 <= b < c.sym.nblocks
    ensures var st' := FactorBlock(c, st, b);
      CursorMoves(st.offx, st.poff, st'.offx, st'.poff)
  {
    var nk := c.sym.R[b + 1] - c.sym.R[b];
    if nk == 1 {
      if st.halt == Running {
        var oldcol := c.sym.Q[c.sym.R[b]];
        SingletonCursor(c, c.sym.R[b], Scanned(st.offx, st.poff, 0.0),
                        c.Ap[oldcol], c.Ap[oldcol + 1]);
      }
    } else {
      ColumnsCursor(c, st, b, nk);
    }
  }

  /** The values column k of block b routes to Offx, in scan order. */
  function ColumnOffVals(c: GoodCtx, b: int, k: int): seq<real>
    requires 0 <= b < c.sym.nblocks && 0 <= k < c.sym.R[b + 1] - c.sym.R[b]
  {
    var oldcol := c.sym.Q[k + c.sym.R[b]];
    OffVals(c, c.sym.R[b], c.Ap[oldcol], c.Ap[oldcol + 1])
  }

  /** The values the first q columns of block b route to Offx. */
  function BlockOffVals(c: GoodCtx, b: int, q: nat): seq<real>
    requires 0 <= b < c.sym.nblocks && q <= c.sym.R[b + 1] - c.sym.R[b]
  {
    if q == 0 then [] else BlockOffVals(c, b, q - 1) + ColumnOffVals(c, b, q - 1)
  }

  /** The values the first q blocks route to Offx: the off-diagonal entries
      of their columns in column order, each column scanned in order. */
  function RunOffVals(c: GoodCtx, q: nat): seq<real>
    requires q <= c.sym.nblocks
  {
    if q == 0 then [] else RunOffVals(c, q - 1) + BlockOffVals(c, q - 1, c.sym.R[q] - c.sym.R[q - 1])
  }

  /** From st to st', Offx received a prefix of vals at the cursor, and it
      received all of them unless the cursor reached nzoff or the run
      stopped. */
  ghost predicate OffStep(c: GoodCtx, st: RState, st': RState, vals: seq<real>)
  {
    && StoresPrefix(st'.offx, st.poff, st'.poff, vals)
    && (st'.halt == Running && st'.poff - st.poff < |vals| ==> st'.poff == c.sym.nzoff)
  }

  lemma OffStepCompose(c: GoodCtx, s0: RState, s1: RState, s2: RState, v1: seq<real>, v2: seq<real>)
    requires OffStep(c, s0, s1, v1) && OffStep(c, s1, s2, v2) && s2.poff <= c.sym.nzoff
    requires CursorMoves(s1.offx, s1.poff, s2.offx, s2.poff)
    requires s1.halt != Running ==> s2 == s1
    ensures OffStep(c, s0, s2, v1 + v2)
  {
    if s1.poff - s0.poff < |v1| {
      assert s2.poff == s1.poff;
    }
    forall i | s0.poff <= i < s2.poff
      ensures s2.offx[i] == (v1 + v2)[i - s0.poff]
    {
      if i < s1.poff {
        assert s2.offx[i] == s1.offx[i];
      }
    }
  }

  /** Column k of a general block extends Offx by the column's routed
      values. */
  lemma ColumnOffStep(c: GoodCtx, st: RState, b: int, k: int)
    requires StateOk(c, st)
    requires 0 <= b < c.sym.nblocks && 0 <= k < c.sym.R[b + 1] - c.sym.R[b]
    ensures OffStep(c, st, FactorColumn(c, st, b, k), ColumnOffVals(c, b, k))
  {
    if st.halt == Running {
      var oldcol := c.sym.Q[k + c.sym.R[b]];
      ScatterCursor(c, c.sym.R[b], Routed(st.x, st.offx, st.poff, false),
                    c.Ap[oldcol], c.Ap[oldcol + 1]);
      var r := ScatterOf(c, st, b, k);
      if !r.fault {
        var st' := FactorColumn(c, st, b, k);
        assert st'.offx == r.offx && st'.poff == r.poff;
      }
    }
  }

  /** Column k appends its routed values to those of columns 0..k-1. */
  lemma ColumnOffExtend(c: GoodCtx, st0: RState, st: RState, b: int, k: int)
    requires StateOk(c, st)
    requires 0 <= b < c.sym.nblocks && 0 <= k < c.sym.R[b + 1] - c.sym.R[b]
    requires OffStep(c, st0, st, BlockOffVals(c, b, k))
    ensures OffStep(c, st0, FactorColumn(c, st, b, k), BlockOffVals(c, b, k + 1))
  {
    ColumnOffStep(c, st, b, k);
    ColumnCursor(c, st, st, b, k);
    OffStepCompose(c, st0, st, FactorColumn(c, st, b, k), BlockOffVals(c, b, k), ColumnOffVals(c, b, k));
  }

  lemma {:induction false} ColumnsOffStep(c: GoodCtx, st: RState, b: int, q: nat)
    requires StateOk(c, st)
    requires 0 <= b < c.sym.nblocks && q <= c.sym.R[b + 1] - c.sym.R[b]
    ensures OffStep(c, st, ColumnsUpTo(c, st, b, q), BlockOffVals(c, b, q))
  {
    if q > 0 {
      ColumnsOffStep(c, st, b, q - 1);
      ColumnOffExtend(c, st, ColumnsUpTo(c, st, b, q - 1), b, q - 1);
      assert ColumnsUpTo(c, st, b, q) == FactorColumn(c, ColumnsUpTo(c, st, b, q - 1), b, q - 1);
    }
  }

  /** A block of either kind extends Offx by the block's routed values. */
  lemma BlockOffStep(c: GoodCtx, st: RState, b: int)
    requires StateOk(c, st) && 0 <= b < c.sym.nblocks
    ensures OffStep(c, st, FactorBlock(c, st, b), BlockOffVals(c, b, c.sym.R[b + 1] - c.sym.R[b]))
  {
    var nk := c.sym.R[b + 1] - c.sym.R[b];
    if nk == 1 {
      assert BlockOffVals(c, b, 1) == ColumnOffVals(c, b, 0);
      if st.halt == Running {
        var oldcol := c.sym.Q[c.sym.R[b]];
        SingletonCursor(c, c.sym.R[b], Scanned(st.offx, st.poff, 0.0),
                        c.Ap[oldcol], c.Ap[oldcol + 1]);
      }
    } else {
      ColumnsOffStep(c, st, b, nk);
    }
  }

  /** Over the whole block loop the cursor never decreases and stays within
      nzoff; Offx is written only between its start and end, and those slots
      hold the values the blocks route there, in column order. They hold
      all of them unless the cursor reached nzoff or the run stopped. */
  lemma {:induction false} BlocksCursor(c: GoodCtx, st: RState, q: nat)
    requires StateOk(c, st) && q <= c.sym.nblocks
    ensures var st' := BlocksUpTo(c, st, q);
      && CursorMoves(st.offx, st.poff, st'.offx, st'.poff)
      && st'.poff <= c.sym.nzoff
      && OffStep(c, st, st', RunOffVals(c, q))
  {
    if q > 0 {
      BlocksCursor(c, st, q - 1);
      BlocksCursorStep(c, st, q);
    }
  }

  /** The cursor discipline and the stored values, carried over block q-1. */
  lemma BlocksCursorStep(c: GoodCtx, st: RState, q: nat)
    requires StateOk(c, st) && 0 < q <= c.sym.nblocks
    requires var st1 := BlocksUpTo(c, st, q - 1);
      && CursorMoves(st.offx, st.poff, st1.offx, st1.poff)
      && OffStep(c, st, st1, RunOffVals(c, q - 1))
    ensures var st' := BlocksUpTo(c, st, q);
      && CursorMoves(st.offx, st.poff, st'.offx, st'.poff)
      && OffStep(c, st, st', RunOffVals(c, q))
  {
    var st1 := BlocksUpTo(c, st, q - 1);
    BlockCursor(c, st1, q - 1);
    BlockOffExtend(c, st, st1, q - 1);
    var st' := FactorBlock(c, st1, q - 1);
    assert BlocksUpTo(c, st, q) == st';
    CursorMovesTrans(st.offx, st.poff, st1.offx, st1.poff, st'.offx, st'.poff);
  }

  /** Block b appends its routed values to those of blocks 0..b-1. */
  lemma BlockOffExtend(c: GoodCtx, st0: RState, st: RState, b: int)
    requires StateOk(c, st) && 0 <= b < c.sym.nblocks
    requires OffStep(c, st0, st, RunOffVals(c, b))
    ensures OffStep(c, st0, FactorBlock(c, st, b), RunOffVals(c, b + 1))
  {
    BlockCursor(c, st, b);
    BlockOffStep(c, st, b);
    if st.halt != Running {
      FactorBlockFromStopped(c, st, b);
    }
    OffStepCompose(c, st0, st, FactorBlock(c, st, b), RunOffVals(c, b),
                   BlockOffVals(c, b, c.sym.R[b + 1] - c.sym.R[b]));
  }

  /** What Offx holds after the refactorization from its start state: its
      first poff slots are the off-diagonal entries of all blocks in column
      order, the rest is as it was. A run that completes stores all of them
      when they fit below nzoff, and fills Offx up to nzoff otherwise. */
  lemma OffDiagonalAfterRun(c: GoodCtx, x: seq<real>, offx: seq<real>, udiag: seq<real>, lu: seq<seq<real>>)
    requires StateOk(c, StartState(c, x, offx, udiag, lu))
    ensures var fin := BlocksUpTo(c, StartState(c, x, offx, udiag, lu), c.sym.nblocks);
      var vals := RunOffVals(c, c.sym.nblocks);
      && fin.poff <= |vals| && fin.poff <= c.sym.nzoff
      && (forall i :: 0 <= i < fin.poff ==> fin.offx[i] == vals[i])
      && (forall i :: fin.poff <= i < |offx| ==> fin.offx[i] == offx[i])
      && (fin.halt == Running && |vals| <= c.sym.nzoff ==> fin.poff == |vals|)
      && (fin.halt == Running && |vals| > c.sym.nzoff ==> fin.poff == c.sym.nzoff)
  {
    BlocksCursor(c, StartState(c, x, offx, udiag, lu), c.sym.nblocks);
  }

  // ---------------------------------------------------------------------
  // The diagonal of a singleton block
  // ---------------------------------------------------------------------

  /** Entry p of a singleton column scanned from p0 with the cursor starting
      at poff0 stays in the column: its row is not in an earlier block, or
      the cursor has reached nzoff by the time it is read. */
  ghost predicate Kept(c: GoodCtx, k1: int, poff0: int, p0: int, p: int)
    requires c.Ap[0] <= p0 <= p < c.Ap[c.sym.n]
  {
    !(NewRow(c, k1, p) < 0 && poff0 + OffCount(c, k1, p0, p) < c.sym.nzoff)
  }

  /** The value of the last kept entry among p0 .. q-1, found by scanning
      backwards, or s0 when there is none. */
  ghost function LastKept(c: GoodCtx, k1: int, poff0: int, p0: int, q: int, s0: real): real
    requires c.Ap[0] <= p0 <= q <= c.Ap[c.sym.n]
    decreases q - p0
  {
    if q == p0 then s0
    else if Kept(c, k1, poff0, p0, q - 1) then Value(c, q - 1)
    else LastKept(c, k1, poff0, p0, q - 1, s0)
  }

  lemma {:induction false} SingletonScanKeepsLast(c: GoodCtx, k1: int, sc: Scanned, p0: int, q: int)
    requires ScannedOk(c, sc)
    requires c.Ap[0] <= p0 <= q <= c.Ap[c.sym.n]
    ensures SingletonUpTo(c, k1, sc, p0, q).s == LastKept(c, k1, sc.poff, p0, q, sc.s)
    decreases q - p0
  {
    if q > p0 {
      SingletonScanKeepsLast(c, k1, sc, p0, q - 1);
      SingletonCursor(c, k1, sc, p0, q - 1);
    }
  }

  /** Udiag[k1] of a singleton block is the value of its last entry that was
      not routed to Offx, or zero when every entry was; nothing else of the
      diagonal changes. */
  lemma SingletonDiagonal(c: GoodCtx, st: RState, b: int)
    requires StateOk(c, st) && st.halt == Running
    requires 0 <= b < c.sym.nblocks && c.sym.R[b + 1] - c.sym.R[b] == 1
    ensures var k1 := c.sym.R[b];
      var oldcol := c.sym.Q[k1];
      var st' := SingletonBlock(c, st, b);
      && st'.udiag[k1] == LastKept(c, k1, st.poff, c.Ap[oldcol], c.Ap[oldcol + 1], 0.0)
      && (forall i :: 0 <= i < |st.udiag| && i != k1 ==> st'.udiag[i] == st.udiag[i])
      && st'.x == st.x && st'.lu == st.lu
  {
    var k1 := c.sym.R[b];
    var oldcol := c.sym.Q[k1];
    SingletonScanKeepsLast(c, k1, Scanned(st.offx, st.poff, 0.0), c.Ap[oldcol], c.Ap[oldcol + 1]);
  }

  // ---------------------------------------------------------------------
  // The record of the first zero pivot
  // ---------------------------------------------------------------------

  /** Global column col lies in a block of more than one column, the only
      columns whose pivot the engine tests. */
  ghost predicate GeneralCol(c: GoodCtx, col: int)
  {
    exists b :: 0 <= b < c.sym.nblocks && c.sym.R[b] <= col < c.sym.R[b + 1]
                && c.sym.R[b + 1] - c.sym.R[b] != 1
  }

  /** After the first done columns, with u0 the diagonal of U the run
      started from: either no zero pivot was recorded (status OK, rank and
      singular column EMPTY) or status is SINGULAR and rank is a general
      column before done whose original index is the singular column. While
      the run goes on, that column's pivot is zero on the diagonal of U, no
      general column before it has a zero pivot, nothing is recorded under
      the halt policy, and the diagonal from done on is as it started. After
      a halt on a zero pivot, the rank is the column that halted: every
      general column before it has a nonzero pivot and the diagonal from it
      on is as it started. */
  ghost predicate PivotRecord(c: GoodCtx, st: RState, done: int, u0: seq<real>)
    requires StateOk(c, st)
  {
    && 0 <= done <= c.sym.n
    && |u0| == c.sym.n
    && ((st.rank == EMPTY && st.singCol == EMPTY && st.status == KLU_OK)
        || (&& st.status == KLU_SINGULAR && 0 <= st.rank < done
            && st.singCol == c.sym.Q[st.rank] && GeneralCol(c, st.rank)))
    && (st.halt == Running ==>
          && (st.rank != EMPTY ==> st.udiag[st.rank] == 0.0)
          && (forall col :: 0 <= col < done && GeneralCol(c, col) && st.udiag[col] == 0.0
                ==> 0 <= st.rank <= col)
          && (c.halt ==> st.rank == EMPTY)
          && (forall col :: done <= col < c.sym.n ==> st.udiag[col] == u0[col]))
    && (st.halt == HaltedSingular ==>
          && c.halt && st.rank != EMPTY
          && (forall col :: 0 <= col < st.rank && GeneralCol(c, col) ==> st.udiag[col] != 0.0)
          && (forall col :: st.rank <= col < c.sym.n ==> st.udiag[col] == u0[col]))
  }

  lemma ColumnPivotRecord(c: GoodCtx, st: RState, b: int, k: int, u0: seq<real>)
    requires StateOk(c, st)
    requires 0 <= b < c.sym.nblocks && 0 <= k < c.sym.R[b + 1] - c.sym.R[b] != 1
    requires PivotRecord(c, st, c.sym.R[b] + k, u0)
    ensures PivotRecord(c, FactorColumn(c, st, b, k), c.sym.R[b] + k + 1, u0)
  {
    var col := c.sym.R[b] + k;
    assert GeneralCol(c, col);
    if st.halt == Running {
      var r := ScatterOf(c, st, b, k);
      if !r.fault {
        var w := UpdateOf(c, st, b, k, r);
        var st0 := st.(x := w.x[k := 0.0], offx := r.offx, poff := r.poff, lu := st.lu[b := w.lub]);
        assert FactorColumn(c, st, b, k) == FinishColumn(c, st0, b, k, w.x[k]);
        FinishPivotRecord(c, st0, b, k, w.x[k], u0);
      }
    }
  }

  /** Recording the pivot of a general column, then gathering it, extends the
      record by that column. */
  lemma FinishPivotRecord(c: GoodCtx, st: RState, b: int, k: int, ukk: real, u0: seq<real>)
    requires StateOk(c, st) && st.halt == Running
    requires 0 <= b < c.sym.nblocks && 0 <= k < c.sym.R[b + 1] - c.sym.R[b]
    requires GeneralCol(c, c.sym.R[b] + k)
    requires PivotRecord(c, st, c.sym.R[b] + k, u0)
    ensures PivotRecord(c, FinishColumn(c, st, b, k, ukk), c.sym.R[b] + k + 1, u0)
  {
    if ukk != 0.0 {
      NonzeroPivotRecord(c, st, b, k, ukk, u0);
    } else if c.halt {
      HaltPivotRecord(c, st, b, k, u0);
    } else {
      ZeroPivotRecord(c, st, b, k, u0);
    }
  }

  /** A nonzero pivot is stored on the diagonal and changes no status. */
  lemma NonzeroPivotRecord(c: GoodCtx, st: RState, b: int, k: int, ukk: real, u0: seq<real>)
    requires StateOk(c, st) && st.halt == Running
    requires 0 <= b < c.sym.nblocks && 0 <= k < c.sym.R[b + 1] - c.sym.R[b]
    requires GeneralCol(c, c.sym.R[b] + k)
    requires PivotRecord(c, st, c.sym.R[b] + k, u0)
    requires ukk != 0.0
    ensures PivotRecord(c, FinishColumn(c, st, b, k, ukk), c.sym.R[b] + k + 1, u0)
  {
    var col := c.sym.R[b] + k;
    assert FinishColumn(c, st, b, k, ukk).udiag == st.udiag[col := ukk];
  }

  /** Without the halt policy a zero pivot is recorded if it is the first,
      and stored on the diagonal. */
  lemma ZeroPivotRecord(c: GoodCtx, st: RState, b: int, k: int, u0: seq<real>)
    requires StateOk(c, st) && st.halt == Running
    requires 0 <= b < c.sym.nblocks && 0 <= k < c.sym.R[b + 1] - c.sym.R[b]
    requires GeneralCol(c, c.sym.R[b] + k)
    requires PivotRecord(c, st, c.sym.R[b] + k, u0)
    requires !c.halt
    ensures PivotRecord(c, FinishColumn(c, st, b, k, 0.0), c.sym.R[b] + k + 1, u0)
  {
    var col := c.sym.R[b] + k;
    var st1 := Pivot(c, st, col, 0.0);
    assert st1.halt == Running && st1.udiag == st.udiag;
    assert FinishColumn(c, st, b, k, 0.0).udiag == st.udiag[col := 0.0];
  }

  /** A zero pivot under the halt policy stops the run at that column, which
      becomes the rank. */
  lemma HaltPivotRecord(c: GoodCtx, st: RState, b: int, k: int, u0: seq<real>)
    requires StateOk(c, st) && st.halt == Running
    requires 0 <= b < c.sym.nblocks && 0 <= k < c.sym.R[b + 1] - c.sym.R[b]
    requires GeneralCol(c, c.sym.R[b] + k)
    requires PivotRecord(c, st, c.sym.R[b] + k, u0)
    requires c.halt
    ensures PivotRecord(c, FinishColumn(c, st, b, k, 0.0), c.sym.R[b] + k + 1, u0)
  {
    var col := c.sym.R[b] + k;
    var st1 := Pivot(c, st, col, 0.0);
    assert st1.rank == col && st1.udiag == st.udiag && st1.halt == HaltedSingular;
    assert FinishColumn(c, st, b, k, 0.0) == st1;
  }

  lemma {:induction false} ColumnsPivotRecord(c: GoodCtx, st: RState, b: int, q: nat, fin: RState, u0: seq<real>)
    requires StateOk(c, st)
    requires 0 <= b < c.sym.nblocks && q <= c.sym.R[b + 1] - c.sym.R[b] != 1
    requires PivotRecord(c, st, c.sym.R[b], u0)
    requires fin == ColumnsUpTo(c, st, b, q)
    ensures PivotRecord(c, fin, c.sym.R[b] + q, u0)
  {
    if q > 0 {
      var prev := ColumnsUpTo(c, st, b, q - 1);
      ColumnsPivotRecord(c, st, b, q - 1, prev, u0);
      ColumnPivotRecord(c, prev, b, q - 1, u0);
    }
  }

  lemma SingletonPivotRecord(c: GoodCtx, st: RState, b: int, u0: seq<real>)
    requires StateOk(c, st)
    requires 0 <= b < c.sym.nblocks && c.sym.R[b + 1] - c.sym.R[b] == 1
    requires PivotRecord(c, st, c.sym.R[b], u0)
    ensures PivotRecord(c, SingletonBlock(c, st, b), c.sym.R[b] + 1, u0)
  {
    var k1 := c.sym.R[b];
    assert !GeneralCol(c, k1);
  }

  /** Over the block loop from a state with nothing recorded, the pivot
      record holds after every block. */
  lemma {:induction false} BlocksPivotRecord(c: GoodCtx, st: RState, q: nat, u0: seq<real>)
    requires StateOk(c, st) && q <= c.sym.nblocks
    requires PivotRecord(c, st, 0, u0)
    ensures PivotRecord(c, BlocksUpTo(c, st, q), c.sym.R[q], u0)
  {
    if q > 0 {
      BlocksPivotRecord(c, st, q - 1, u0);
      BlockPivotRecord(c, BlocksUpTo(c, st, q - 1), q - 1, u0);
    }
  }

  /** One block extends the pivot record over its columns. */
  lemma BlockPivotRecord(c: GoodCtx, st: RState, b: int, u0: seq<real>)
    requires StateOk(c, st) && 0 <= b < c.sym.nblocks
    requires PivotRecord(c, st, c.sym.R[b], u0)
    ensures PivotRecord(c, FactorBlock(c, st, b), c.sym.R[b + 1], u0)
  {
    if c.sym.R[b + 1] - c.sym.R[b] == 1 {
      SingletonPivotRecord(c, st, b, u0);
    } else {
      ColumnsPivotRecord(c, st, b, c.sym.R[b + 1] - c.sym.R[b], FactorBlock(c, st, b), u0);
    }
  }

  /** The refactorization from its start state records exactly the first
      zero pivot of a general block: status is SINGULAR if and only if a
      rank is recorded; the rank is a general column whose original index is
      the singular column. When the run completes, the rank's pivot is zero,
      no earlier general column has a zero pivot, a run that records nothing
      has no general column with a zero pivot, and under the halt policy
      nothing is recorded. When it halts on a zero pivot, the rank is the
      column that halted: every earlier general column has a nonzero pivot,
      and the diagonal from the rank on is as the run found it. */
  lemma FirstZeroPivot(c: GoodCtx, x: seq<real>, offx: seq<real>, udiag: seq<real>, lu: seq<seq<real>>)
    requires StateOk(c, StartState(c, x, offx, udiag, lu))
    ensures var fin := BlocksUpTo(c, StartState(c, x, offx, udiag, lu), c.sym.nblocks);
      && (fin.status == KLU_SINGULAR <==> fin.rank != EMPTY)
      && (fin.rank != EMPTY ==> GeneralCol(c, fin.rank) && fin.singCol == c.sym.Q[fin.rank])
      && (fin.halt == Running && fin.rank != EMPTY ==> fin.udiag[fin.rank] == 0.0)
      && (fin.halt == Running ==>
            forall col :: 0 <= col < c.sym.n && GeneralCol(c, col) && fin.udiag[col] == 0.0
              ==> 0 <= fin.rank <= col)
      && (fin.halt == Running && c.halt ==> fin.rank == EMPTY)
      && (fin.halt == HaltedSingular ==>
            && c.halt && 0 <= fin.rank < c.sym.n
            && (forall col :: 0 <= col < fin.rank && GeneralCol(c, col) ==> fin.udiag[col] != 0.0)
            && (forall col :: fin.rank <= col < c.sym.n ==> fin.udiag[col] == udiag[col]))
  {
    BlocksPivotRecord(c, StartState(c, x, offx, udiag, lu), c.sym.nblocks, udiag);
  }
}
