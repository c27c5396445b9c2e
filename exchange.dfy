/** The pairwise exchange of Exchange.hpp.  Each process sends its local
    block of `A` to `sendRank` and receives the block of its partner
    `recvRank` into `B`; blocks whose columns are not contiguous are packed
    into, or unpacked from, a scratch buffer.  `mpi::SendRecv` is not part
    of this model: the message it delivers is the parameter `received`, and
    the message handed to it is returned as `sent`. */
module Exchange {
  import opened Types
  import opened StorageTypes
  import opened GridMath
  import opened Buffers
  import CopyLocal
  import Elemental

  /** The debug-build role checks: a process sends to itself exactly when
      it receives from itself. */
  function RoleCheck(myRank: int, sendRank: int, recvRank: int): (r: Outcome)
    ensures r.Pass? <==> (myRank == sendRank <==> myRank == recvRank)
  {
    if myRank == sendRank && myRank != recvRank then
      Fail(LogicError("Sending to self but receiving from someone else"))
    else if myRank != sendRank && myRank == recvRank then
      Fail(LogicError("Receiving from self but sending to someone else"))
    else Pass
  }

  /** The receiving half of `mpi::SendRecv`: the delivered message lands
      at the start of `dst`. */
  method Receive<V>(dst: array<V>, msg: seq<V>)
    requires |msg| <= dst.Length
    modifies dst
    ensures dst[..] == Overwrite(old(dst[..]), 0, msg)
  {
    var k := 0;
    while k < |msg|
      invariant 0 <= k <= |msg|
      invariant dst[..] == Overwrite(old(dst[..]), 0, msg[..k])
    {
      dst[k] := msg[k];
      k := k + 1;
    }
    assert msg[..k] == msg;
  }

  /** The scratch buffers an exchange allocates: one per side whose local
      block is not contiguous, sized for that block. */
  function ScratchBuffers(contigA: bool, sendSize: nat, contigB: bool, recvSize: nat): (r: seq<nat>)
    ensures |r| == (if contigA then 0 else 1) + (if contigB then 0 else 1)
    ensures forall k :: k in r ==> k == sendSize || k == recvSize
    ensures !contigA ==> r[0] == sendSize
    ensures !contigB ==> r[|r| - 1] == recvSize
  {
    (if contigA then [] else [sendSize]) + (if contigB then [] else [recvSize])
  }

  /** `Exchange_impl<T, CPU>`: after the role check, `B`'s header takes
      the global size of `A` through `Resize`, whose failure (a locked
      view, or a view asked to grow) is the outcome; a participating `B`
      then has its local matrix resized to the local size its distribution
      gives.  Then either this process is its own partner and copies its
      block of `A`, or it sends the packed block of `A` and receives its
      partner's packed block into `B`. */
  method ExchangeImpl<V(0)>(A: LocalMatrix<V>, aHeight: nat, aWidth: nat, BMeta: Elemental.DistMeta,
                            B: LocalMatrix<V>, myRank: int, sendRank: int, recvRank: int, received: seq<V>)
      returns (out: Outcome, sent: seq<V>, scratch: seq<nat>)
    requires A.Valid() && B.Valid() && A != B && A.data != B.data
    requires BMeta.Valid()
    requires myRank != sendRank ==>
               |received| == if BMeta.Participating()
                             then Length(aHeight, BMeta.colShift, BMeta.grid.colStride)
                                  * Length(aWidth, BMeta.rowShift, BMeta.grid.rowStride)
                             else B.height * B.width
    modifies BMeta, B, B.data
    ensures out == if RoleCheck(myRank, sendRank, recvRank).Fail? then RoleCheck(myRank, sendRank, recvRank)
                   else Elemental.ResizeCheck(old(BMeta.viewType), old(BMeta.height), old(BMeta.width), aHeight, aWidth)
    ensures out.Fail? ==> && sent == [] && scratch == []
                          && BMeta.GetState() == old(BMeta.GetState())
                          && unchanged(B) && B.data[..] == old(B.data[..])
    ensures out.Pass? ==> && BMeta.Valid()
                          && BMeta.GetHeader() == old(BMeta.GetHeader()).(height := aHeight, width := aWidth)
                          && BMeta.grid == old(BMeta.grid)
                          && BMeta.colShift == old(BMeta.colShift) && BMeta.rowShift == old(BMeta.rowShift)
                          && B.Valid()
    ensures out.Pass? && !BMeta.Participating() ==>
              BMeta.localHeight == old(BMeta.localHeight) && BMeta.localWidth == old(BMeta.localWidth)
    ensures out.Pass? && myRank == sendRank ==>
              && B.height == A.height && B.width == A.width
              && Packed(B.height, B.width, B.data[..], B.ldim) == Packed(A.height, A.width, A.data[..], A.ldim)
              && sent == [] && scratch == []
    ensures out.Pass? && myRank != sendRank ==>
              && B.height == (if BMeta.Participating() then BMeta.localHeight else old(B.height))
              && B.width == (if BMeta.Participating() then BMeta.localWidth else old(B.width))
              && sent == Packed(A.height, A.width, A.data[..], A.ldim)
              && Packed(B.height, B.width, B.data[..], B.ldim) == received
              && scratch == ScratchBuffers(A.height == A.ldim, A.height * A.width,
                                           B.height == B.ldim, B.height * B.width)
  {
    out := RoleCheck(myRank, sendRank, recvRank);
    sent, scratch := [], [];
    if out.Fail? {
      return;
    }
    out := BMeta.Resize(aHeight, aWidth);
    if out.Fail? {
      return;
    }
    if BMeta.Participating() {
      B.Resize(BMeta.localHeight, BMeta.localWidth);
    }
    sent, scratch := ExchangeLocal(A, B, myRank, sendRank, received);
  }

  /** The local part of `Exchange_impl`, once `B` has its local size:
      either this process is its own partner and copies its block of `A`,
      or it sends the packed block of `A` and receives its partner's packed
      block into `B`.  All four contiguity branches end in the same state:
      the packed block of `B` is the received message. */
  method ExchangeLocal<V(0)>(A: LocalMatrix<V>, B: LocalMatrix<V>, myRank: int, sendRank: int, received: seq<V>)
      returns (sent: seq<V>, scratch: seq<nat>)
    requires A.Valid() && B.Valid() && A != B && A.data != B.data
    requires myRank != sendRank ==> |received| == B.height * B.width
    modifies B, B.data
    ensures B.Valid()
    ensures myRank == sendRank ==>
              && B.height == A.height && B.width == A.width
              && Packed(B.height, B.width, B.data[..], B.ldim) == Packed(A.height, A.width, A.data[..], A.ldim)
              && sent == [] && scratch == []
    ensures myRank != sendRank ==>
              && B.height == old(B.height) && B.width == old(B.width)
              && sent == Packed(A.height, A.width, A.data[..], A.ldim)
              && Packed(B.height, B.width, B.data[..], B.ldim) == received
              && scratch == ScratchBuffers(A.height == A.ldim, A.height * A.width,
                                           B.height == B.ldim, B.height * B.width)
  {
    sent, scratch := [], [];
    if myRank == sendRank {
      CopyLocal.CopySameTypeCpu(A, B);
      return;
    }
    var localHeightB, localWidthB := B.height, B.width;
    var localHeightA, localWidthA := A.height, A.width;
    var sendSize, recvSize := localHeightA * localWidthA, localHeightB * localWidthB;
    var contigA, contigB := localHeightA == A.ldim, localHeightB == B.ldim;
    DenseFits(localHeightA, localWidthA, A.data.Length, A.ldim);
    DenseFits(localHeightB, localWidthB, B.data.Length, B.ldim);
    if contigA && contigB {
      PackedContiguous(localHeightA, localWidthA, A.data[..]);
      sent := A.data[..sendSize];
      Receive(B.data, received);
      PackedContiguous(localHeightB, localWidthB, B.data[..]);
    } else if contigB {
      var buf := new V[sendSize];
      scratch := [sendSize];
      PackedIndependent(localHeightA, localWidthA, A.data[..], A.ldim, buf[..]);
      InterleaveMatrix(localHeightA, localWidthA, A.data, A.ldim, buf, localHeightA);
      sent := buf[..];
      Receive(B.data, received);
      PackedContiguous(localHeightB, localWidthB, B.data[..]);
    } else if contigA {
      PackedContiguous(localHeightA, localWidthA, A.data[..]);
      sent := A.data[..sendSize];
      var buf := new V[recvSize];
      scratch := [recvSize];
      Receive(buf, received);
      assert buf[..] == received;
      UnpackThenPack(localHeightB, localWidthB, received, B.data[..], B.ldim);
      InterleaveMatrix(localHeightB, localWidthB, buf, localHeightB, B.data, B.ldim);
    } else {
      var sendBuf := new V[sendSize];
      var recvBuf := new V[recvSize];
      scratch := [sendSize, recvSize];
      PackedIndependent(localHeightA, localWidthA, A.data[..], A.ldim, sendBuf[..]);
      InterleaveMatrix(localHeightA, localWidthA, A.data, A.ldim, sendBuf, localHeightA);
      sent := sendBuf[..];
      Receive(recvBuf, received);
      assert recvBuf[..] == received;
      UnpackThenPack(localHeightB, localWidthB, received, B.data[..], B.ldim);
      InterleaveMatrix(localHeightB, localWidthB, recvBuf, localHeightB, B.data, B.ldim);
    }
  }

  /** `Exchange`: both matrices must live on the same device, the device
      must be the host or (with CUDA) the GPU, and the element type must be
      valid there; the result is the device whose `Exchange_impl` runs. */
  function ExchangeDevice(cfg: BuildConfig, t: ElemType, devA: Device, devB: Device): Result<Device>
  {
    if devA != devB then Err(LogicError("Exchange: Device error."))
    else match devA
      case CPU => ImplForDevice(cfg, t, CPU)
      case GPU => if cfg.haveCuda then ImplForDevice(cfg, t, GPU) else Err(LogicError("Exchange: Bad device."))
  }

  /** The two `Exchange_impl` overloads: the working one when the type is
      valid on the device, else the one that raises. */
  function ImplForDevice(cfg: BuildConfig, t: ElemType, d: Device): Result<Device>
  {
    if (t, d) in cfg.deviceValid then Ok(d) else Err(LogicError("Exchange: Bad Device/type combo."))
  }

  lemma ExchangeDeviceOutcome(cfg: BuildConfig, t: ElemType, devA: Device, devB: Device)
    ensures ExchangeDevice(cfg, t, devA, devB).Ok? <==>
              devA == devB && (devA == CPU || cfg.haveCuda) && (t, devA) in cfg.deviceValid
    ensures ExchangeDevice(cfg, t, devA, devB).Ok? ==> ExchangeDevice(cfg, t, devA, devB).value == devA
    ensures devA != devB ==> ExchangeDevice(cfg, t, devA, devB) == Err(LogicError("Exchange: Device error."))
    ensures devA == devB == GPU && !cfg.haveCuda ==>
              ExchangeDevice(cfg, t, devA, devB) == Err(LogicError("Exchange: Bad device."))
  {
  }

  /** The ranks a vector exchange passes to `Exchange_impl`, or `Skip`
      when `B` is not participating. */
  datatype PartnerRanks = Skip | Ranks(sendRankB: int, recvRankA: int, recvRankB: int)

  /** `ColwiseVectorExchange` (with column shifts and partial column
      strides) and `RowwiseVectorExchange` (with row shifts and partial row
      strides) compute the same formulas: the partner is offset by the
      difference of the shifts, and the receive rank is carried from `A`'s
      numbering to `B`'s by `Transpose`. */
  function VectorExchangeRanks(participating: bool, distSize: int, shiftA: int, shiftB: int,
                               distRankA: int, distRankB: int, partialStride: int, partialUnionStride: int): PartnerRanks
    requires distSize > 0 && partialStride > 0 && partialUnionStride >= 0
  {
    if !participating then Skip
    else
      var diff := shiftA - shiftB;
      var recvRankA := Mod(distRankA - diff, distSize);
      Ranks(Mod(distRankB + diff, distSize), recvRankA, Transpose(recvRankA, partialStride, partialUnionStride))
  }

  /** Both ranks taken modulo the distribution size are ranks of it; the
      transposed receive rank stays a rank of the partial-by-union grid. */
  lemma VectorExchangeRanksInRange(participating: bool, distSize: int, shiftA: int, shiftB: int,
                                   distRankA: int, distRankB: int, partialStride: int, partialUnionStride: int)
    requires distSize > 0 && partialStride > 0 && partialUnionStride >= 0
    ensures var r := VectorExchangeRanks(participating, distSize, shiftA, shiftB, distRankA, distRankB,
                                         partialStride, partialUnionStride);
      && (r.Skip? <==> !participating)
      && (r.Ranks? ==> 0 <= r.sendRankB < distSize && 0 <= r.recvRankA < distSize)
      && (r.Ranks? && r.recvRankA < partialStride * partialUnionStride ==>
            0 <= r.recvRankB < partialStride * partialUnionStride)
  {
    if participating {
      var recvRankA := Mod(distRankA - (shiftA - shiftB), distSize);
      if recvRankA < partialStride * partialUnionStride {
        TransposeInverse(recvRankA, partialStride, partialUnionStride);
      }
    }
  }

  /** The ranks that the process at place (`x`, `y`) of an `m` by `n`
      arrangement computes for a vector exchange between two product
      distributions: it is `x + m*y` among `A`'s ranks and `y + n*x` among
      `B`'s, and each shift is that rank's shift at its vector's alignment.
      For `[VC,STAR]` to `[VR,STAR]`, `m` is the MC size and `x` the grid
      row; for `[VR,STAR]` to `[VC,STAR]`, `m` is the MR size and `x` the
      grid column. */
  function RanksAt(m: nat, n: nat, x: nat, y: nat, alignA: int, alignB: int): PartnerRanks
    requires m > 0 && n > 0
  {
    var p := m * n;
    var a := x + m * y;
    var b := y + n * x;
    VectorExchangeRanks(true, p, Shift(a, alignA, p), Shift(b, alignB, p), a, b, m, n)
  }

  /** Moving from `b` by the difference between a shift `t` and `b`'s own
      shift lands on a rank whose shift is `t`. */
  lemma {:induction false} OffsetReachesShift(b: int, align: int, t: int, p: nat)
    requires p > 0 && 0 <= t < p
    ensures Shift(Mod(b + (t - Shift(b, align, p)), p), align, p) == t
  {
    var sB := Shift(b, align, p);
    var s := Mod(b + (t - sB), p);
    var k1 := (b + (t - sB)) / p;
    var kB := (b - align) / p;
    assert (kB - k1) * p == kB * p - k1 * p;
    assert s - align == (kB - k1) * p + t;
    DivModUnique(s - align, kB - k1, t, p);
  }

  /** Undoing, from any rank `c`, the difference between `c`'s shift and
      the shift of a rank `a` lands back on `a`. */
  lemma {:induction false} OffsetReturns(a: int, c: int, align: int, p: nat)
    requires p > 0 && 0 <= a < p
    ensures Mod(c - (Shift(c, align, p) - Shift(a, align, p)), p) == a
  {
    var sA := Shift(a, align, p);
    var sC := Shift(c, align, p);
    var kC := (c - align) / p;
    var kA := (a - align) / p;
    assert (kC - kA) * p == kC * p - kA * p;
    assert c - (sC - sA) == (kC - kA) * p + a;
    DivModUnique(c - (sC - sA), kC - kA, a, p);
  }

  /** A rank below `m*n` is `y' + n*x'` for the place `x' = s / n`,
      `y' = s % n` of the arrangement. */
  lemma {:induction false} PlaceOfRank(m: nat, n: nat, s: int)
    requires m > 0 && n > 0 && 0 <= s < m * n
    ensures s / n < m && s % n + n * (s / n) == s
  {
    assert s == (s / n) * n + s % n;
    if s / n >= m {
      MulMono(m, s / n, n);
    }
  }

  /** Both numberings of a place are ranks of the arrangement. */
  lemma {:induction false} PlaceRanksBelow(m: nat, n: nat, x: nat, y: nat)
    requires x < m && y < n
    ensures 0 <= x + m * y < m * n && 0 <= y + n * x < m * n
  {
    Elemental.VcRank(x, y, m, n);
    Elemental.VcRank(y, x, n, m);
    assert n * m == m * n;
  }

  /** `Transpose` carries `A`'s number of a place to `B`'s. */
  lemma {:induction false} TransposeOfPlace(m: nat, n: nat, x: nat, y: nat)
    requires x < m && y < n
    ensures Transpose(x + m * y, m, n) == y + n * x
  {
    assert x + m * y == y * m + x;
    DivModUnique(x + m * y, y, x, m);
  }

  /** The partner at `b2`, the send rank of the process with ranks `a`
      and `b`, computes from any `A` rank `a2` of its own the receive rank
      `a`, and so the carried receive rank `Transpose(a, m, n)`. */
  lemma {:induction false} PartnerReceivesFrom(p: nat, m: nat, n: nat, a: int, b: int, a2: int, b2: int,
                                               alignA: int, alignB: int)
    requires p > 0 && m > 0 && 0 <= a < p
    requires b2 == VectorExchangeRanks(true, p, Shift(a, alignA, p), Shift(b, alignB, p), a, b, m, n).sendRankB
    ensures VectorExchangeRanks(true, p, Shift(a2, alignA, p), Shift(b2, alignB, p), a2, b2, m, n)
            == Ranks(Mod(b2 + (Shift(a2, alignA, p) - Shift(b2, alignB, p)), p), a, Transpose(a, m, n))
  {
    var sA := Shift(a, alignA, p);
    var sB := Shift(b, alignB, p);
    assert b2 == Mod(b + (sA - sB), p);
    OffsetReachesShift(b, alignB, sA, p);
    assert Shift(b2, alignB, p) == sA;
    var sA2 := Shift(a2, alignA, p);
    OffsetReturns(a, a2, alignA, p);
    assert Mod(a2 - (sA2 - sA), p) == a;
  }

  /** The process at place (`x2`, `y2`), whose `B` rank `y2 + n*x2` is the
      send rank of a process with ranks `a` and `b`, carries `a` as its
      receive rank. */
  lemma {:induction false} PartnerAtPlace(m: nat, n: nat, a: int, b: int, x2: nat, y2: nat, alignA: int, alignB: int)
    requires m > 0 && n > 0 && 0 <= a < m * n
    requires y2 + n * x2
             == VectorExchangeRanks(true, m * n, Shift(a, alignA, m * n), Shift(b, alignB, m * n), a, b, m, n).sendRankB
    ensures RanksAt(m, n, x2, y2, alignA, alignB).recvRankB == Transpose(a, m, n)
  {
    var p := m * n;
    var a2 := x2 + m * y2;
    var b2 := y2 + n * x2;
    PartnerReceivesFrom(p, m, n, a, b, a2, b2, alignA, alignB);
    assert RanksAt(m, n, x2, y2, alignA, alignB)
        == VectorExchangeRanks(true, p, Shift(a2, alignA, p), Shift(b2, alignB, p), a2, b2, m, n);
  }

  /** The partners agree: the process this one sends to, at the place
      whose `B` rank is `sendRankB`, computes from its own ranks and shifts
      a receive rank that is this process's `B` rank. */
  lemma {:induction false} VectorExchangePartnersMatch(m: nat, n: nat, x: nat, y: nat, alignA: int, alignB: int)
    requires m > 0 && n > 0 && x < m && y < n
    ensures var me := RanksAt(m, n, x, y, alignA, alignB);
      && me.Ranks? && 0 <= me.sendRankB < m * n
      && me.sendRankB / n < m && me.sendRankB % n + n * (me.sendRankB / n) == me.sendRankB
      && RanksAt(m, n, me.sendRankB / n, me.sendRankB % n, alignA, alignB).recvRankB == y + n * x
  {
    var p := m * n;
    var a := x + m * y;
    var b := y + n * x;
    PlaceRanksBelow(m, n, x, y);
    var s := RanksAt(m, n, x, y, alignA, alignB).sendRankB;
    PlaceOfRank(m, n, s);
    PartnerAtPlace(m, n, a, b, s / n, s % n, alignA, alignB);
    TransposeOfPlace(m, n, x, y);
  }
}
