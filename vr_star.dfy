/** The [VR,STAR] distribution (VR_STAR.cpp): rows dealt out over the
    processes in row-major order, columns not distributed.  The model
    covers the routing of its `operator=` overloads, its stride queries,
    and the assignment from [VC,STAR], which permutes the row blocks from
    the column-major to the row-major order of the processes. */
module VrStar {
  import opened Types
  import opened GridMath
  import opened Buffers
  import opened Routing
  import Elemental

  /** The overload of `operator=` taken for a source distribution. */
  function Route(src: DistPair): Route
  {
    match src
    case DistPair(VR, STAR) => Direct(Translate)
    case DistPair(MC, MR) => Via([Temp(DistPair(VC, STAR), false)])
    case DistPair(MC, STAR) => Via([Temp(DistPair(VC, STAR), false)])
    case DistPair(STAR, MR) => Via([Temp(DistPair(MC, MR), false), Temp(DistPair(VC, STAR), false)])
    case DistPair(MD, STAR) => Via([Temp(DistPair(STAR, STAR), false)])
    case DistPair(STAR, MD) => Via([Temp(DistPair(STAR, STAR), false)])
    case DistPair(MR, MC) => Direct(ColAllToAllDemote)
    case DistPair(MR, STAR) => Direct(PartialColFilter)
    case DistPair(STAR, MC) => Via([Temp(DistPair(MR, MC), false)])
    case DistPair(VC, STAR) => Direct(PermuteVcToVr)
    case DistPair(STAR, VC) => Via([Temp(DistPair(MR, MC), false)])
    case DistPair(STAR, VR) => Via([Temp(DistPair(MC, MR), false), Temp(DistPair(VC, STAR), false)])
    case DistPair(STAR, STAR) => Direct(ColFilter)
    case DistPair(CIRC, CIRC) => Direct(Scatter)
    case _ => Elsewhere
  }

  /** Every instantiated source has an overload here, and every chain of
      temporaries ends in a distribution whose own overload calls a copy
      routine directly: [STAR,MC] and [STAR,VC] end in the all-to-all
      demotion from [MR,MC], [MD,STAR] and [STAR,MD] in the filter from
      [STAR,STAR]. */
  lemma RoutesEndInPrimitive(src: DistPair)
    requires src in ElementPairs()
    ensures Route(src) != Elsewhere
    ensures Route(src).Via? ==> |Route(src).temps| > 0 && Route(Route(src).temps[|Route(src).temps| - 1].dist).Direct?
    ensures src == DistPair(MR, MC) || src == DistPair(STAR, MC) || src == DistPair(STAR, VC) <==>
      Route(src) == Direct(ColAllToAllDemote) || Route(src) == Via([Temp(DistPair(MR, MC), false)])
    ensures src == DistPair(STAR, STAR) || src == DistPair(MD, STAR) || src == DistPair(STAR, MD) <==>
      Route(src) == Direct(ColFilter) || Route(src) == Via([Temp(DistPair(STAR, STAR), false)])
    ensures Route(DistPair(MR, STAR)) == Direct(PartialColFilter) && Route(DistPair(CIRC, CIRC)) == Direct(Scatter)
  {
  }

  /** `ColStride`, `RowStride`, `PartialColStride`,
      `PartialUnionColStride`, `DistSize`, `CrossSize`, `RedundantSize`. */
  function Strides(g: GridShape): Routing.Strides
  {
    Routing.Strides(g.Size(), 1, g.width, g.height, g.Size(), 1, 1)
  }

  /** The strides fit the grid: the VR order splits into the MR size times
      the MC size, and nothing is replicated. */
  lemma StridesConsistent(g: GridShape)
    requires g.Wf()
    ensures Strides(g).Consistent(g)
    ensures Strides(g).colStride == g.Size() && Strides(g).rowStride == 1
  {
    assert g.width * g.height == g.Size();
  }

  /** `sendRankRM`: the row-major rank whose shift is this process's shift
      of `A` (`SendRankHoldsShiftOfA`). */
  function SendRankRM(rankRM: int, colShift: int, colShiftOfA: int, p: int): int
    requires p > 0
  {
    CppRem(rankRM + (p + colShiftOfA - colShift), p)
  }

  /** `recvRankCM`: the column-major rank whose shift of `A` is this
      process's shift (`RecvRankHoldsShift`). */
  function RecvRankCM(rankCM: int, colShift: int, colShiftOfA: int, p: int): int
    requires p > 0
  {
    CppRem(rankCM + (p + colShift - colShiftOfA), p)
  }

  /** `recvRankRM`: the same process in row-major order. */
  function RecvRankRM(recvRankCM: int, r: int, c: int): int
    requires r > 0
  {
    CppDiv(recvRankCM, r) + c * CppRem(recvRankCM, r)
  }

  /** The send rank is a rank, `d` places on from this one, and going `d`
      places back from it returns here. */
  lemma {:induction false} SendRankIsOffset(rankRM: nat, colShift: nat, colShiftOfA: nat, p: nat)
    requires p > 0 && rankRM < p && colShift < p && colShiftOfA < p
    ensures var d := colShiftOfA - colShift;
      var send := SendRankRM(rankRM, colShift, colShiftOfA, p);
      0 <= send < p && send == Mod(rankRM + d, p) && Mod(send - d, p) == rankRM
  {
    var d := colShiftOfA - colShift;
    ShiftedResidue(rankRM + d, p);
    ModAddSub(rankRM, d, p);
    DivModUnique(rankRM, 0, rankRM, p);
  }

  /** The column-major receive rank is a rank, `d` places back from this
      one, and going `d` places on from it returns here. */
  lemma {:induction false} RecvRankIsOffset(rankCM: nat, colShift: nat, colShiftOfA: nat, p: nat)
    requires p > 0 && rankCM < p && colShift < p && colShiftOfA < p
    ensures var d := colShiftOfA - colShift;
      var recvCM := RecvRankCM(rankCM, colShift, colShiftOfA, p);
      0 <= recvCM < p && recvCM == Mod(rankCM - d, p) && Mod(recvCM + d, p) == rankCM
  {
    var e := colShift - colShiftOfA;
    ShiftedResidue(rankCM + e, p);
    ModAddSub(rankCM, e, p);
    DivModUnique(rankCM, 0, rankCM, p);
  }

  /** With `colShift` this process's shift at alignment `colAlign`, the
      send rank is the row-major rank whose shift at that alignment is
      `colShiftOfA`: the rows this process holds of `A` go to their owner. */
  lemma {:induction false} SendRankHoldsShiftOfA(rankRM: nat, colAlign: int, colShiftOfA: nat, p: nat)
    requires p > 0 && rankRM < p && colShiftOfA < p
    ensures Shift(SendRankRM(rankRM, Shift(rankRM, colAlign, p), colShiftOfA, p), colAlign, p) == colShiftOfA
  {
    var cs := Shift(rankRM, colAlign, p);
    var d := colShiftOfA - cs;
    SendRankIsOffset(rankRM, cs, colShiftOfA, p);
    var send := SendRankRM(rankRM, cs, colShiftOfA, p);
    var k1 := (rankRM + d) / p;
    var k2 := (rankRM - colAlign) / p;
    assert (k2 - k1) * p == k2 * p - k1 * p;
    assert send - colAlign == (k2 - k1) * p + colShiftOfA;
    DivModUnique(send - colAlign, k2 - k1, colShiftOfA, p);
  }

  /** With `colShiftOfA` this process's shift of `A` at alignment
      `colAlignOfA`, the column-major receive rank is the one whose shift
      of `A` is this process's shift `colShift`: it holds the rows this
      process owns. */
  lemma {:induction false} RecvRankHoldsShift(rankCM: nat, colAlignOfA: int, colShift: nat, p: nat)
    requires p > 0 && rankCM < p && colShift < p
    ensures Shift(RecvRankCM(rankCM, colShift, Shift(rankCM, colAlignOfA, p), p), colAlignOfA, p) == colShift
  {
    var cs := Shift(rankCM, colAlignOfA, p);
    var d := cs - colShift;
    RecvRankIsOffset(rankCM, colShift, cs, p);
    var recv := RecvRankCM(rankCM, colShift, cs, p);
    var k1 := (rankCM - d) / p;
    var k2 := (rankCM - colAlignOfA) / p;
    assert (k2 - k1) * p == k2 * p - k1 * p;
    assert recv - colAlignOfA == (k2 - k1) * p + colShift;
    DivModUnique(recv - colAlignOfA, k2 - k1, colShift, p);
  }

  /** With ranks and shifts among the `p = r*c` ranks, both partner ranks
      are ranks, their offsets are opposite (undoing one with the other
      gives back the starting rank), and the column-major receive rank is
      carried to row-major order by a bijection of the ranks. */
  lemma {:induction false} PartnerRanks(r: nat, c: nat, rankRM: nat, rankCM: nat, colShift: nat, colShiftOfA: nat)
    requires r > 0 && c > 0
    requires rankRM < r * c && rankCM < r * c && colShift < r * c && colShiftOfA < r * c
    ensures var p := r * c; var d := colShiftOfA - colShift;
      var send := SendRankRM(rankRM, colShift, colShiftOfA, p);
      var recvCM := RecvRankCM(rankCM, colShift, colShiftOfA, p);
      && 0 <= send < p && send == Mod(rankRM + d, p) && Mod(send - d, p) == rankRM
      && 0 <= recvCM < p && recvCM == Mod(rankCM - d, p) && Mod(recvCM + d, p) == rankCM
      && RecvRankRM(recvCM, r, c) == Transpose(recvCM, r, c)
      && RecvRankRM(recvCM, r, c) < p
      && Transpose(RecvRankRM(recvCM, r, c), c, r) == recvCM
  {
    var p := r * c;
    SendRankIsOffset(rankRM, colShift, colShiftOfA, p);
    RecvRankIsOffset(rankCM, colShift, colShiftOfA, p);
    RecvRankIsTranspose(RecvRankCM(rankCM, colShift, colShiftOfA, p), r, c);
  }

  /** `recvRankRM` of a column-major rank is its row-major rank: the
      transposition of the `r` by `c` grid, undone by transposing back. */
  lemma {:induction false} RecvRankIsTranspose(recvCM: int, r: nat, c: nat)
    requires r > 0 && c > 0 && 0 <= recvCM < r * c
    ensures RecvRankRM(recvCM, r, c) == Transpose(recvCM, r, c)
    ensures RecvRankRM(recvCM, r, c) < r * c
    ensures Transpose(RecvRankRM(recvCM, r, c), c, r) == recvCM
  {
    CppRemNonNegative(recvCM, r);
    TransposeInverse(recvCM, r, c);
  }

  /** Adding `p` before C++'s remainder leaves a non-negative dividend and
      the Euclidean residue. */
  lemma ShiftedResidue(x: int, p: nat)
    requires p > 0 && x + p >= 0
    ensures CppRem(x + p, p) == Mod(x, p)
  {
    CppRemNonNegative(x + p, p);
    var q := (x + p) / p;
    assert x + p == q * p + (x + p) % p;
    DivModUnique(x, q - 1, (x + p) % p, p);
  }

  /** `operator=([VC,STAR])` on one process.  `meta` and `B` are this
      matrix's metadata and local matrix, `A` the local matrix of the
      source, whose global size is `aHeight` by `aWidth` and whose shift is
      `colShiftOfA` in the column-major order of the `g` grid.  The
      matrix is resized to `A`'s global size; a process outside the
      distribution stops there.  Otherwise the columns of `A`'s block are
      packed into a portion of `MaxLength(height, p)*width` entries and
      sent to `sendRankRM`, and the portion `received` from `recvRankRM`
      is unpacked into `B`, column by column.  The auxiliary memory is two
      fresh arrays, and `mpi::SendRecv` is the pair (`sent`, `received`). */
  method AssignFromVcStar<V(0)>(meta: Elemental.DistMeta, B: LocalMatrix<V>, A: LocalMatrix<V>,
                                aHeight: nat, aWidth: nat, colShiftOfA: nat,
                                g: GridShape, rankCM: nat, rankRM: nat, received: seq<V>)
      returns (out: Outcome, sent: seq<V>, sendRankRM: int, recvRankRM: int)
    requires meta.Valid() && B.Valid() && A.Valid() && A != B && A.data != B.data
    requires g.Wf() && meta.grid.colStride == g.Size() && meta.grid.rowStride == 1
    requires meta.grid.colRank == rankRM && rankCM < g.Size() && colShiftOfA < g.Size()
    requires A.height == Length(aHeight, colShiftOfA, g.Size()) && A.width == aWidth
    requires |received| == MaxLength(aHeight, g.Size()) * aWidth
    modifies meta, B, B.data
    ensures out == Elemental.ResizeCheck(old(meta.viewType), old(meta.height), old(meta.width), aHeight, aWidth)
    ensures out.Fail? ==> sent == [] && unchanged(B) && meta.GetState() == old(meta.GetState())
    ensures out.Pass? ==> meta.Valid() && meta.height == aHeight && meta.width == aWidth && meta.grid == old(meta.grid)
    ensures out.Pass? && !meta.Participating() ==> sent == [] && unchanged(B)
    ensures out.Pass? && meta.Participating() ==>
              && B.Valid() && B.height == meta.localHeight && B.width == aWidth
              && B.height == Length(aHeight, meta.colShift, g.Size())
              && sendRankRM == SendRankRM(rankRM, meta.colShift, colShiftOfA, g.Size())
              && recvRankRM == RecvRankRM(RecvRankCM(rankCM, meta.colShift, colShiftOfA, g.Size()), g.height, g.width)
              && |sent| == |received| && A.height * A.width <= |sent|
              && sent[..A.height * A.width] == Packed(A.height, A.width, A.data[..], A.ldim)
              && B.height * B.width <= |received|
              && Packed(B.height, B.width, B.data[..], B.ldim) == received[..B.height * B.width]
  {
    sent, sendRankRM, recvRankRM := [], 0, 0;
    out := meta.Resize(aHeight, aWidth);
    if out.Fail? || !meta.Participating() {
      return;
    }
    var p := g.Size();
    var localHeight, width := meta.localHeight, aWidth;
    var colShift := meta.colShift;
    assert localHeight == Length(aHeight, colShift, p);
    sendRankRM := SendRankRM(rankRM, colShift, colShiftOfA, p);
    recvRankRM := RecvRankRM(RecvRankCM(rankCM, colShift, colShiftOfA, p), g.height, g.width);
    LengthAtMostMaxLength(aHeight, colShiftOfA, p);
    LengthAtMostMaxLength(aHeight, colShift, p);
    sent := ExchangeBlocks(A, B, localHeight, width, MaxLength(aHeight, p), received);
  }

  /** The local part of the assignment: `B` is resized, `A`'s block is
      packed and sent, and the received portion is unpacked into `B`. */
  method ExchangeBlocks<V(0)>(A: LocalMatrix<V>, B: LocalMatrix<V>, localHeight: nat, width: nat,
                              maxLocalHeight: nat, received: seq<V>) returns (sent: seq<V>)
    requires A.Valid() && B.Valid() && A != B && A.data != B.data
    requires A.height <= maxLocalHeight && localHeight <= maxLocalHeight && A.width == width
    requires |received| == maxLocalHeight * width
    modifies B, B.data
    ensures B.Valid() && B.height == localHeight && B.width == width
    ensures |sent| == |received| && A.height * A.width <= |sent|
    ensures sent[..A.height * A.width] == Packed(A.height, A.width, A.data[..], A.ldim)
    ensures B.height * B.width <= |received|
    ensures Packed(B.height, B.width, B.data[..], B.ldim) == received[..B.height * B.width]
  {
    B.Resize(localHeight, width);
    sent := PackColumns(A, maxLocalHeight);
    UnpackColumns(B, received, maxLocalHeight);
  }

  /** The pack loop: column `j` of `A`'s block goes to
      `sendBuf[j*localHeightOfA ..]` of a fresh portion of
      `maxLocalHeight*width` entries, which is what is sent. */
  method PackColumns<V(0)>(A: LocalMatrix<V>, maxLocalHeight: nat) returns (sent: seq<V>)
    requires A.Valid() && A.height <= maxLocalHeight
    ensures |sent| == maxLocalHeight * A.width && A.height * A.width <= |sent|
    ensures sent[..A.height * A.width] == Packed(A.height, A.width, A.data[..], A.ldim)
  {
    MulMono(A.height, maxLocalHeight, A.width);
    var sendBuf := new V[maxLocalHeight * A.width];
    ghost var s0 := sendBuf[..];
    InterleaveMatrix(A.height, A.width, A.data, A.ldim, sendBuf, A.height);
    PackedOfInterleave(A.height, A.width, A.data[..], A.ldim, s0, A.height);
    PackedContiguous(A.height, A.width, sendBuf[..]);
    sent := sendBuf[..];
  }

  /** The unpack loop: the received portion lands in a fresh buffer, and
      `recvBuf[j*localHeight ..]` goes to column `j` of `B`, whose padding
      rows are left alone. */
  method UnpackColumns<V(0)>(B: LocalMatrix<V>, received: seq<V>, maxLocalHeight: nat)
    requires B.Valid() && B.height <= maxLocalHeight && |received| == maxLocalHeight * B.width
    modifies B.data
    ensures B.height * B.width <= |received|
    ensures Packed(B.height, B.width, B.data[..], B.ldim) == received[..B.height * B.width]
  {
    MulMono(B.height, maxLocalHeight, B.width);
    var recvBuf := new V[|received|];
    forall k | 0 <= k < |received| {
      recvBuf[k] := received[k];
    }
    assert recvBuf[..] == received;
    ghost var b0 := B.data[..];
    InterleaveMatrix(B.height, B.width, recvBuf, B.height, B.data, B.ldim);
    PackedOfInterleave(B.height, B.width, received, B.height, b0, B.ldim);
    PackedContiguous(B.height, B.width, received);
  }
}
