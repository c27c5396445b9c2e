/** What the `operator=` overloads of the distributed-matrix classes have
    in common: the pair of distributions that names a class, the copy
    routine an overload ends in, or the chain of temporaries it builds
    first, and the run-time cast of the `ElementalMatrix` overload to the
    static type its distribution data names
    (`El/macros/GuardAndPayload.h` is not part of this model: it is taken
    to test the element distributions in the order the files instantiate
    them and to run the payload of the first guard that holds).

    It also holds the grid-level facts the stride and rank queries build
    on.  `Grid` itself is not part of this model: a grid is an `r` by `c`
    arrangement of processes whose VC (column-major) rank is
    `row + r*col` and whose VR (row-major) rank is `col + c*row`; its
    least common multiple and greatest common divisor and a process's MD
    ranks are given, with the properties stated in `GridShape.Wf` and
    `Place.Wf`. */
module Routing {
  import opened Types
  import Meta
  import GridMath

  /** The column and row distribution of a matrix class `DistMatrix<T,U,V>`. */
  datatype DistPair = DistPair(col: Dist, row: Dist)

  /** `DistWrap`: element-wise or block-wise distribution. */
  datatype DistWrap = Element | Block

  /** The copy routines an assignment ends in.  `PermuteVcToVr` is the
      pack, send-receive and unpack written out in the [VR,STAR] file. */
  datatype Primitive =
    | Translate | ColAllToAllDemote | ColAllToAllPromote | RowAllToAllPromote
    | PartialColFilter | ColFilter | RowFilter | Filter | Scatter
    | GeneralPurpose | Exchange | TransposeDist | PermuteVcToVr

  /** A temporary matrix an assignment builds, and whether it is first
      aligned with the target (`AlignWith`, `AlignColsWith`,
      `AlignRowsWith`). */
  datatype Temp = Temp(dist: DistPair, alignedWithThis: bool)

  /** An overload either calls a copy routine (`Direct`) or copies the
      source into each temporary in turn and then assigns the last one to
      the target (`Via`).  `Elsewhere` marks an assignment that is defined
      outside the file. */
  datatype Route = Direct(p: Primitive) | Via(temps: seq<Temp>) | Elsewhere

  /** The element distributions the files instantiate, in the order their
      instantiation lists name them. */
  function ElementPairs(): (r: seq<DistPair>)
    ensures |r| == 14
    ensures forall i, j :: 0 <= i < j < |r| ==> r[i] != r[j]
  {
    [DistPair(CIRC, CIRC), DistPair(MC, MR), DistPair(MC, STAR), DistPair(MD, STAR),
     DistPair(MR, MC), DistPair(MR, STAR), DistPair(STAR, MC), DistPair(STAR, MD),
     DistPair(STAR, MR), DistPair(STAR, STAR), DistPair(STAR, VC), DistPair(STAR, VR),
     DistPair(VC, STAR), DistPair(VR, STAR)]
  }

  /** What a guard is given: the distribution data of the source. */
  datatype DistData = DistData(colDist: Dist, rowDist: Dist, wrap: DistWrap)

  /** `GUARD(CDIST, RDIST, WRAP)`; the [VR,STAR] file's older guard does
      not look at the wrap (`checkWrap` false). */
  function Guard(checkWrap: bool): (DistData, DistPair) -> bool
  {
    (d: DistData, p: DistPair) => d.colDist == p.col && d.rowDist == p.row && (!checkWrap || d.wrap == Element)
  }

  /** The run-time `operator=`: the first instantiated pair whose guard
      holds. */
  function RuntimeCast(d: DistData, checkWrap: bool): Meta.Match<DistPair>
  {
    Meta.SelectFirstMatch(ElementPairs(), d, Guard(checkWrap))
  }

  /** The cast reaches the static type the distribution data names, and no
      other guard holds; it finds nothing for a block distribution when
      the wrap is checked, or for a pair that is not instantiated. */
  lemma {:induction false} RuntimeCastIsUnique(d: DistData, checkWrap: bool)
    ensures var want := DistPair(d.colDist, d.rowDist);
      && (RuntimeCast(d, checkWrap).Found? <==> want in ElementPairs() && (!checkWrap || d.wrap == Element))
      && (RuntimeCast(d, checkWrap).Found? ==> RuntimeCast(d, checkWrap).value == want)
      && (forall i :: 0 <= i < |ElementPairs()| && Guard(checkWrap)(d, ElementPairs()[i]) ==>
            ElementPairs()[i] == want)
  {
    Meta.SelectFirstMatchIsFirst(ElementPairs(), d, Guard(checkWrap));
    var want := DistPair(d.colDist, d.rowDist);
    if want in ElementPairs() && (!checkWrap || d.wrap == Element) {
      var i :| 0 <= i < |ElementPairs()| && ElementPairs()[i] == want;
      assert Guard(checkWrap)(d, ElementPairs()[i]);
    }
  }

  /** An `r` by `c` grid with its least common multiple and greatest
      common divisor (`Grid::LCM`, `Grid::GCD`), whose product is the grid
      size. */
  datatype GridShape = GridShape(height: nat, width: nat, lcm: nat, gcd: nat)
  {
    predicate Wf()
    {
      height > 0 && width > 0 && lcm > 0 && gcd > 0 && lcm * gcd == height * width
    }

    function Size(): nat
    {
      height * width
    }
  }

  /** `mpi::UNDEFINED` or a rank. */
  datatype Rank = Defined(n: nat) | Undefined

  /** Where this process is: in the grid at a process row and column, with
      its MD and MD-perpendicular ranks, or outside it. */
  datatype Place = Inside(row: nat, col: nat, mdRank: nat, mdPerpRank: nat) | Outside
  {
    predicate Wf(g: GridShape)
    {
      Inside? ==> row < g.height && col < g.width && mdRank < g.lcm && mdPerpRank < g.gcd
    }
  }

  /** The grid's own rank queries: defined inside the grid, `UNDEFINED`
      outside it. */
  function MCRank(p: Place): Rank
  {
    if p.Inside? then Defined(p.row) else Undefined
  }

  function MRRank(p: Place): Rank
  {
    if p.Inside? then Defined(p.col) else Undefined
  }

  function VCRank(g: GridShape, p: Place): Rank
  {
    if p.Inside? then Defined(p.row + g.height * p.col) else Undefined
  }

  function VRRank(g: GridShape, p: Place): Rank
  {
    if p.Inside? then Defined(p.col + g.width * p.row) else Undefined
  }

  function MDRank(p: Place): Rank
  {
    if p.Inside? then Defined(p.mdRank) else Undefined
  }

  function MDPerpRank(p: Place): Rank
  {
    if p.Inside? then Defined(p.mdPerpRank) else Undefined
  }

  /** `InGrid() ? 0 : UNDEFINED`, the rank in a one-process communicator. */
  function SelfRank(p: Place): Rank
  {
    if p.Inside? then Defined(0) else Undefined
  }

  /** The stride and size queries of a distribution. */
  datatype Strides = Strides(colStride: nat, rowStride: nat, partialColStride: nat, partialUnionColStride: nat,
                             distSize: nat, crossSize: nat, redundantSize: nat)
  {
    /** How the sizes fit together: the two strides split the distribution
        size, the partial stride and its union split the column stride,
        and distribution, cross and redundant sizes split the grid. */
    predicate Consistent(g: GridShape)
    {
      && colStride * rowStride == distSize
      && partialColStride * partialUnionColStride == colStride
      && distSize * crossSize * redundantSize == g.Size()
    }
  }

  /** The rank queries of a distribution. */
  datatype Ranks = Ranks(colRank: Rank, rowRank: Rank, distRank: Rank, crossRank: Rank, redundantRank: Rank)

  /** Below a bound, or `UNDEFINED`. */
  predicate RankBelow(r: Rank, n: nat)
  {
    r.Defined? ==> r.n < n
  }

  /** Each rank of a process in the grid is defined and below its size;
      outside the grid every rank is `UNDEFINED`. */
  predicate RanksFit(s: Strides, k: Ranks, p: Place)
  {
    && (p.Inside? ==> && k.colRank.Defined? && k.rowRank.Defined? && k.distRank.Defined? && k.crossRank.Defined? && k.redundantRank.Defined?)
    && (p.Outside? ==> k == Ranks(Undefined, Undefined, Undefined, Undefined, Undefined))
    && RankBelow(k.colRank, s.colStride) && RankBelow(k.rowRank, s.rowStride)
    && RankBelow(k.distRank, s.distSize) && RankBelow(k.crossRank, s.crossSize)
    && RankBelow(k.redundantRank, s.redundantSize)
  }

  /** The VC and VR ranks of a process in the grid are ranks of the whole
      grid. */
  lemma GridRanksBelowSize(g: GridShape, p: Place)
    requires g.Wf() && p.Wf(g) && p.Inside?
    ensures VCRank(g, p).n < g.Size() && VRRank(g, p).n < g.Size()
  {
    MulBelow(p.row, p.col, g.height, g.width);
    MulBelow(p.col, p.row, g.width, g.height);
    assert g.width * g.height == g.Size();
  }

  /** `x + n*y` with `x < n` and `y < m` is below `n*m`. */
  lemma MulBelow(x: nat, y: nat, n: nat, m: nat)
    requires x < n && y < m
    ensures x + n * y < n * m
  {
    GridMath.MulMono(y + 1, m, n);
    GridMath.MulSucc(y, n);
    assert n * y == y * n && n * m == m * n;
  }
}
