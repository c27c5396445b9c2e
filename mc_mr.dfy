/** The [MC,MR] distribution (Element/MC_MR.cpp): rows dealt out over the
    process rows and columns over the process columns of the grid.  The
    model covers the routing of its `operator=` overloads, the ranks of
    the exchange with an [MR,MC] matrix on a square grid, and its stride
    and rank queries. */
module McMr {
  import opened Types
  import opened GridMath
  import opened Routing
  import opened Elemental

  /** The overload of `operator=` taken for a source distribution; the
      assignment from [MR,MC] depends on whether the grid is square.  The
      assignment from [MC,MR] itself is defined elsewhere. */
  function Route(src: DistPair, squareGrid: bool): Route
  {
    match src
    case DistPair(MC, STAR) => Direct(RowFilter)
    case DistPair(STAR, MR) => Direct(ColFilter)
    case DistPair(MD, STAR) => Direct(GeneralPurpose)
    case DistPair(STAR, MD) => Direct(GeneralPurpose)
    case DistPair(MR, MC) => if squareGrid then Direct(Exchange) else Direct(TransposeDist)
    case DistPair(MR, STAR) => Via([Temp(DistPair(VR, STAR), false), Temp(DistPair(VC, STAR), true)])
    case DistPair(STAR, MC) => Via([Temp(DistPair(STAR, VC), false), Temp(DistPair(STAR, VR), true)])
    case DistPair(VC, STAR) => Direct(ColAllToAllPromote)
    case DistPair(STAR, VC) => Via([Temp(DistPair(STAR, VR), true)])
    case DistPair(VR, STAR) => Via([Temp(DistPair(VC, STAR), true)])
    case DistPair(STAR, VR) => Direct(RowAllToAllPromote)
    case DistPair(STAR, STAR) => Direct(Filter)
    case DistPair(CIRC, CIRC) => Direct(Scatter)
    case _ => Elsewhere
  }

  /** Every instantiated source other than [MC,MR] has an overload here;
      [VR,STAR] and [MR,STAR] end in a [VC,STAR] aligned with this matrix,
      which is promoted by an all-to-all; [STAR,VC] and [STAR,MC] end in a
      [STAR,VR] aligned with this matrix, likewise promoted; a grid that is
      not square transposes instead of exchanging. */
  lemma RoutesEndInPrimitive(src: DistPair, squareGrid: bool)
    requires src in ElementPairs() && src != DistPair(MC, MR)
    ensures Route(src, squareGrid) != Elsewhere
    ensures var r := Route(src, squareGrid);
      r.Via? ==> |r.temps| > 0 && r.temps[|r.temps| - 1].alignedWithThis
                 && Route(r.temps[|r.temps| - 1].dist, squareGrid).Direct?
    ensures src == DistPair(VR, STAR) || src == DistPair(MR, STAR) <==>
      Route(src, squareGrid).Via? && Route(src, squareGrid).temps[|Route(src, squareGrid).temps| - 1]
        == Temp(DistPair(VC, STAR), true)
    ensures src == DistPair(STAR, VC) || src == DistPair(STAR, MC) <==>
      Route(src, squareGrid).Via? && Route(src, squareGrid).temps[|Route(src, squareGrid).temps| - 1]
        == Temp(DistPair(STAR, VR), true)
    ensures Route(DistPair(VC, STAR), squareGrid) == Direct(ColAllToAllPromote)
    ensures Route(DistPair(STAR, VR), squareGrid) == Direct(RowAllToAllPromote)
    ensures Route(DistPair(MR, MC), squareGrid) == if squareGrid then Direct(Exchange) else Direct(TransposeDist)
  {
  }

  /** `sendRank` of the square-grid exchange: the process that owns, in
      this matrix, the rows and columns of `A`'s block here. */
  function ExchangeSendRank(colAlign: int, rowAlign: int, aColShift: int, aRowShift: int, gridDim: nat): int
    requires gridDim > 0
  {
    OwnerOf(aColShift, colAlign, gridDim) + OwnerOf(aRowShift, rowAlign, gridDim) * gridDim
  }

  /** `recvRank`: the process whose block of `A` holds, transposed, this
      process's block of this matrix. */
  function ExchangeRecvRank(aColAlign: int, aRowAlign: int, colShift: int, rowShift: int, gridDim: nat): int
    requires gridDim > 0
  {
    OwnerOf(rowShift, aRowAlign, gridDim) + OwnerOf(colShift, aColAlign, gridDim) * gridDim
  }

  /** The shifts of a process at (`row`, `col`) of a `d` by `d` grid: its
      column and row shift in this [MC,MR] matrix, and its column and row
      shift in an [MR,MC] matrix `A` (whose rows follow process columns). */
  datatype Shifts = Shifts(colShift: nat, rowShift: nat, aColShift: nat, aRowShift: nat)

  function ShiftsAt(row: nat, col: nat, colAlign: nat, rowAlign: nat, aColAlign: nat, aRowAlign: nat, d: nat): Shifts
    requires d > 0
  {
    Shifts(Shift(row, colAlign, d), Shift(col, rowAlign, d), Shift(col, aColAlign, d), Shift(row, aRowAlign, d))
  }

  /** On a square grid both exchange ranks are VC ranks of the grid, and
      the partners agree: the process this one sends to computes, from its
      own shifts, that it receives from this process. */
  lemma {:induction false} ExchangePartnersMatch(row: nat, col: nat, colAlign: nat, rowAlign: nat,
                                                 aColAlign: nat, aRowAlign: nat, d: nat)
    requires row < d && col < d
    ensures var me := ShiftsAt(row, col, colAlign, rowAlign, aColAlign, aRowAlign, d);
      var send := ExchangeSendRank(colAlign, rowAlign, me.aColShift, me.aRowShift, d);
      var recv := ExchangeRecvRank(aColAlign, aRowAlign, me.colShift, me.rowShift, d);
      && 0 <= send < d * d && 0 <= recv < d * d
      && var partner := ShiftsAt(send % d, send / d, colAlign, rowAlign, aColAlign, aRowAlign, d);
         ExchangeRecvRank(aColAlign, aRowAlign, partner.colShift, partner.rowShift, d) == row + col * d
  {
    var me := ShiftsAt(row, col, colAlign, rowAlign, aColAlign, aRowAlign, d);
    var sr := OwnerOf(me.aColShift, colAlign, d);
    var sc := OwnerOf(me.aRowShift, rowAlign, d);
    OwnerInRange(me.aColShift, colAlign, d);
    OwnerInRange(me.aRowShift, rowAlign, d);
    OwnerInRange(me.rowShift, aRowAlign, d);
    OwnerInRange(me.colShift, aColAlign, d);
    var send := sr + sc * d;
    VcRank(sr, sc, d, d);
    assert send == sr + d * sc;
    MulBelow(OwnerOf(me.rowShift, aRowAlign, d), OwnerOf(me.colShift, aColAlign, d), d, d);
    var partner := ShiftsAt(sr, sc, colAlign, rowAlign, aColAlign, aRowAlign, d);
    ShiftOfOwner(me.aColShift, colAlign, d);
    ShiftOfOwner(me.aRowShift, rowAlign, d);
    assert partner.colShift == me.aColShift && partner.rowShift == me.aRowShift;
    OwnerOfShift(col, aColAlign, d);
    OwnerOfShift(row, aRowAlign, d);
  }

  /** `ColStride`, `RowStride`, `PartialColStride`,
      `PartialUnionColStride`, `DistSize`, `CrossSize`, `RedundantSize`. */
  function Strides(g: GridShape): Routing.Strides
  {
    Routing.Strides(g.height, g.width, g.height, 1, g.Size(), 1, 1)
  }

  /** `PartialRowStride` and `PartialUnionRowStride`. */
  function PartialRowStrides(g: GridShape): (r: (nat, nat))
  {
    (Strides(g).rowStride, 1)
  }

  /** The strides fit the grid: the MC size times the MR size is the VC
      size, and the partial strides are the full ones. */
  lemma StridesConsistent(g: GridShape)
    requires g.Wf()
    ensures Strides(g).Consistent(g)
    ensures Strides(g).partialColStride == Strides(g).colStride && Strides(g).partialUnionColStride == 1
    ensures PartialRowStrides(g).0 == Strides(g).rowStride && PartialRowStrides(g).1 == 1
  {
  }

  /** `ColRank`, `RowRank`, `DistRank`, `CrossRank`, `RedundantRank`. */
  function Ranks(g: GridShape, p: Place): Routing.Ranks
  {
    Routing.Ranks(MCRank(p), MRRank(p), VCRank(g, p), SelfRank(p), SelfRank(p))
  }

  /** `PartialColRank`, `PartialRowRank`, `PartialUnionColRank`,
      `PartialUnionRowRank`. */
  function PartialRanks(g: GridShape, p: Place): (Rank, Rank, Rank, Rank)
  {
    (Ranks(g, p).colRank, Ranks(g, p).rowRank, SelfRank(p), SelfRank(p))
  }

  /** A process in the grid has every rank below its size, 0 for the
      one-process communicators; outside the grid all are `UNDEFINED`. */
  lemma RanksFitStrides(g: GridShape, p: Place)
    requires g.Wf() && p.Wf(g)
    ensures RanksFit(Strides(g), Ranks(g, p), p)
    ensures p.Inside? ==> Ranks(g, p).crossRank == Defined(0) && Ranks(g, p).redundantRank == Defined(0)
    ensures p.Inside? ==> PartialRanks(g, p).2 == Defined(0) && PartialRanks(g, p).3 == Defined(0)
    ensures p.Outside? ==> PartialRanks(g, p) == (Undefined, Undefined, Undefined, Undefined)
  {
    if p.Inside? {
      GridRanksBelowSize(g, p);
    }
  }
}
