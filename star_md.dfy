/** The [STAR,MD] distribution (Element/STAR_MD.cpp): every process holds
    whole columns, which are dealt out along the diagonals of the grid.
    The model covers the routing of its `operator=` overloads and its
    stride and rank queries. */
module StarMd {
  import opened Types
  import opened Routing

  /** The overload of `operator=` taken for a source distribution.  Every
      source but [STAR,STAR] and [CIRC,CIRC] goes through the general
      purpose copy; the assignment from [STAR,MD] itself is defined
      elsewhere. */
  function Route(src: DistPair): Route
  {
    match src
    case DistPair(STAR, MD) => Elsewhere
    case DistPair(STAR, STAR) => Direct(RowFilter)
    case DistPair(CIRC, CIRC) => Via([Temp(DistPair(MC, MR), true)])
    case _ => if src in ElementPairs() then Direct(GeneralPurpose) else Elsewhere
  }

  /** The general purpose copy is taken exactly for the instantiated
      sources other than [STAR,MD], [STAR,STAR] and [CIRC,CIRC]; a [CIRC,CIRC]
      source is first scattered into an [MC,MR] matrix aligned with this
      one, which then goes through the general purpose copy. */
  lemma RoutesEndInPrimitive(src: DistPair)
    requires src in ElementPairs()
    ensures Route(src) == Direct(GeneralPurpose) <==>
      src != DistPair(STAR, MD) && src != DistPair(STAR, STAR) && src != DistPair(CIRC, CIRC)
    ensures Route(src) == Elsewhere <==> src == DistPair(STAR, MD)
    ensures var r := Route(src);
      r.Via? ==> |r.temps| > 0 && r.temps[|r.temps| - 1].alignedWithThis
                 && Route(r.temps[|r.temps| - 1].dist) == Direct(GeneralPurpose)
    ensures Route(DistPair(STAR, STAR)) == Direct(RowFilter)
  {
  }

  /** `ColStride`, `RowStride`, `PartialColStride`,
      `PartialUnionColStride`, `DistSize`, `CrossSize`, `RedundantSize`. */
  function Strides(g: GridShape): Routing.Strides
  {
    Routing.Strides(1, g.lcm, 1, 1, g.lcm, g.gcd, 1)
  }

  /** `PartialRowStride` and `PartialUnionRowStride`. */
  function PartialRowStrides(g: GridShape): (nat, nat)
  {
    (Strides(g).rowStride, 1)
  }

  /** The diagonals split the grid: `LCM` processes on each of `GCD`
      diagonals; the partial strides are the full ones. */
  lemma StridesConsistent(g: GridShape)
    requires g.Wf()
    ensures Strides(g).Consistent(g)
    ensures Strides(g).colStride == 1 && Strides(g).distSize == g.lcm && Strides(g).crossSize == g.gcd
    ensures Strides(g).partialColStride == Strides(g).colStride && Strides(g).partialUnionColStride == 1
    ensures PartialRowStrides(g).0 == Strides(g).rowStride && PartialRowStrides(g).1 == 1
  {
  }

  /** `ColRank`, `RowRank`, `DistRank`, `CrossRank`, `RedundantRank`. */
  function Ranks(p: Place): Routing.Ranks
  {
    Routing.Ranks(SelfRank(p), MDRank(p), MDRank(p), MDPerpRank(p), SelfRank(p))
  }

  /** `PartialColRank`, `PartialRowRank`, `PartialUnionColRank`,
      `PartialUnionRowRank`. */
  function PartialRanks(p: Place): (Rank, Rank, Rank, Rank)
  {
    (Ranks(p).colRank, Ranks(p).rowRank, SelfRank(p), SelfRank(p))
  }

  /** A process in the grid has every rank below its size: its row rank is
      its place on its diagonal and its cross rank the diagonal it is on;
      outside the grid all are `UNDEFINED`. */
  lemma RanksFitStrides(g: GridShape, p: Place)
    requires g.Wf() && p.Wf(g)
    ensures RanksFit(Strides(g), Ranks(p), p)
    ensures p.Inside? ==> Ranks(p).rowRank == Ranks(p).distRank == Defined(p.mdRank)
    ensures p.Inside? ==> Ranks(p).colRank == Defined(0) && Ranks(p).crossRank == Defined(p.mdPerpRank)
    ensures p.Inside? ==> PartialRanks(p).2 == Defined(0) && PartialRanks(p).3 == Defined(0)
    ensures p.Outside? ==> PartialRanks(p) == (Undefined, Undefined, Undefined, Undefined)
  {
  }
}
