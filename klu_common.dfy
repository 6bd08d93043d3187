// Shared data model of the KLU refactorization and transpose-solve engines:
// status codes, exact arithmetic on matrix entries, the symbolic descriptor,
// the per-column layout of the packed factor buffers, the status object and
// the numeric descriptor.
module KluCommon {

  // Status codes and the EMPTY sentinel of the KLU status object.
  const KLU_OK: int := 0
  const KLU_SINGULAR: int := 1
  const KLU_OUT_OF_MEMORY: int := -2
  const KLU_INVALID: int := -3
  const EMPTY: int := -1

  // Boolean results of the two engines.
  const TRUE: int := 1
  const FALSE: int := 0

  /** Exact division of entries. A zero divisor yields zero here; the IEEE
      infinities and NaNs that a zero pivot produces are not modelled. */
  function Div(a: real, b: real): (r: real)
    ensures b != 0.0 ==> r * b == a
    ensures b == 0.0 ==> r == 0.0
  {
    if b == 0.0 then 0.0 else a / b
  }

  /** a - l * u, the multiply-subtract of entries. */
  /** The smaller of two integers (the MIN macro). */
  function Min(a: int, b: int): int
  {
    if a < b then a else b
  }

  function MultSub(a: real, l: real, u: real): real
  {
    a - l * u
  }

  /** The symbolic descriptor: order, column permutation, block boundaries,
      block count, largest block and number of off-diagonal entries. */
  datatype Symbolic = Symbolic(n: nat, Q: seq<int>, R: seq<int>, nblocks: nat,
                               maxblock: nat, nzoff: nat)

  ghost predicate SymbolicOk(sym: Symbolic)
  {
    && |sym.Q| == sym.n
    && (forall k :: 0 <= k < sym.n ==> 0 <= sym.Q[k] < sym.n)
    && |sym.R| == sym.nblocks + 1
    && sym.R[0] == 0
    && sym.R[sym.nblocks] == sym.n
    && (forall b1, b2 :: 0 <= b1 <= b2 <= sym.nblocks ==> sym.R[b1] <= sym.R[b2])
  }

  /** What looking up one column of a packed block buffer yields:
      the block-relative row indices of the column's pattern (the index half
      of the buffer, fixed across refactorizations) and the offset of its
      first value in the value half. The column's length is |rows|. */
  datatype Column = Column(rows: seq<int>, xOff: int)

  /** A column whose rows lie in [0, nk) and whose values fit in a buffer of
      length len. */
  ghost predicate ColumnFits(col: Column, nk: int, len: int)
  {
    && 0 <= col.xOff
    && col.xOff + |col.rows| <= len
    && (forall p :: 0 <= p < |col.rows| ==> 0 <= col.rows[p] < nk)
  }

  /** The status object shared by both engines. */
  class Common {
    var status: int
    var numericalRank: int
    var singularCol: int
    var haltIfSingular: int
    var scale: int
    var nrealloc: int

    constructor (haltIfSingular: int, scale: int)
      ensures this.haltIfSingular == haltIfSingular && this.scale == scale
      ensures status == KLU_OK && numericalRank == EMPTY && singularCol == EMPTY
      ensures nrealloc == 0
    {
      this.haltIfSingular := haltIfSingular;
      this.scale := scale;
      status := KLU_OK;
      numericalRank := EMPTY;
      singularCol := EMPTY;
      nrealloc := 0;
    }
  }

  /** The numeric descriptor. The pattern (permutations, off-diagonal
      pattern, column layouts) and the buffers themselves never change; the
      values in the buffers and the scale-factor reference Rs do. */
  class Numeric {
    const n: nat
    const nblocks: nat
    const Pnum: seq<int>
    const Pinv: seq<int>
    const Offp: seq<int>
    const Offi: seq<int>
    const Offx: array<real>
    const Lcol: seq<Column>
    const Ucol: seq<Column>
    const LUbx: seq<array<real>>
    const Udiag: array<real>
    const Xwork: array<real>
    var Rs: array?<real>

    constructor (n: nat, nblocks: nat, Pnum: seq<int>, Pinv: seq<int>,
                 Offp: seq<int>, Offi: seq<int>, Offx: array<real>,
                 Lcol: seq<Column>, Ucol: seq<Column>, LUbx: seq<array<real>>,
                 Udiag: array<real>, Xwork: array<real>, Rs: array?<real>)
      ensures this.n == n && this.nblocks == nblocks
      ensures this.Pnum == Pnum && this.Pinv == Pinv
      ensures this.Offp == Offp && this.Offi == Offi && this.Offx == Offx
      ensures this.Lcol == Lcol && this.Ucol == Ucol && this.LUbx == LUbx
      ensures this.Udiag == Udiag && this.Xwork == Xwork && this.Rs == Rs
    {
      this.n, this.nblocks := n, nblocks;
      this.Pnum, this.Pinv := Pnum, Pinv;
      this.Offp, this.Offi, this.Offx := Offp, Offi, Offx;
      this.Lcol, this.Ucol, this.LUbx := Lcol, Ucol, LUbx;
      this.Udiag, this.Xwork, this.Rs := Udiag, Xwork, Rs;
    }

    /** The value buffers of all blocks. */
    ghost function BlockBuffers(): set<object>
    {
      set b | 0 <= b < |LUbx| :: LUbx[b] as object
    }

    /** Everything a refactorization may change. */
    ghost function Buffers(): set<object>
      reads this
    {
      {this, Offx, Udiag, Xwork} + BlockBuffers() + (if Rs == null then {} else {Rs})
    }

    /** The buffers are distinct objects, so writing one leaves the others. */
    ghost predicate Distinct()
    {
      && Offx != Udiag && Offx != Xwork && Udiag != Xwork
      && (forall b :: 0 <= b < |LUbx| ==>
            LUbx[b] != Offx && LUbx[b] != Udiag && LUbx[b] != Xwork)
      && (forall b1, b2 :: 0 <= b1 < b2 < |LUbx| ==> LUbx[b1] != LUbx[b2])
    }

    /** An array rs distinct from all the buffers. */
    ghost predicate Apart(rs: array<real>)
    {
      && rs != Offx && rs != Udiag && rs != Xwork
      && forall b :: 0 <= b < |LUbx| ==> LUbx[b] != rs
    }

    /** The numeric descriptor was produced by a factorization of the matrix
        that sym describes: shapes, index ranges and column layouts. */
    ghost predicate Valid(sym: Symbolic)
      reads this
    {
      && SymbolicOk(sym)
      && n == sym.n && nblocks == sym.nblocks
      && Distinct() && (Rs != null ==> Apart(Rs))
      && |Pnum| == n && |Pinv| == n
      && (forall k :: 0 <= k < n ==> 0 <= Pnum[k] < n)
      && (forall k :: 0 <= k < n ==> 0 <= Pinv[k] < n)
      && sym.nzoff <= Offx.Length
      && Udiag.Length == n
      && n <= Xwork.Length && sym.maxblock <= Xwork.Length
      && (Rs != null ==> Rs.Length == n)
      && |Lcol| == n && |Ucol| == n && |LUbx| == nblocks
      && (forall b, k :: 0 <= b < nblocks && sym.R[b] <= k < sym.R[b + 1] ==>
            ColumnFits(Lcol[k], sym.R[b + 1] - sym.R[b], LUbx[b].Length)
            && ColumnFits(Ucol[k], sym.R[b + 1] - sym.R[b], LUbx[b].Length))
    }

    /** The off-diagonal block in compressed form: row k of the transposed
        off-diagonal block holds the entries Offp[k] .. Offp[k+1]-1, and each
        refers to a row of an earlier block. */
    ghost predicate OffDiagonalValid(sym: Symbolic)
      reads this
      requires Valid(sym)
    {
      && |Offp| == n + 1
      && Offp[0] >= 0
      && (forall k1, k2 :: 0 <= k1 <= k2 <= n ==> Offp[k1] <= Offp[k2])
      && Offp[n] <= |Offi| && Offp[n] <= Offx.Length
      && (forall b, k, p {:trigger OffEntry(sym, b, k, p)} ::
            OffEntry(sym, b, k, p) ==> 0 <= Offi[p] < sym.R[b])
    }

    /** Entry p belongs to row k of the transposed off-diagonal block, and
        row k to block b. */
    ghost predicate OffEntry(sym: Symbolic, b: int, k: int, p: int)
    {
      && 0 <= b && b + 1 < |sym.R| && sym.R[b] <= k < sym.R[b + 1]
      && 0 <= k && k + 1 < |Offp| && Offp[k] <= p < Offp[k + 1]
    }
  }
}
