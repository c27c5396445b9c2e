/** Copies between local matrices (CopyLocal.hpp).  The overload set of
    `CopyImpl` becomes a decision function over (source type, source
    device, target type, target device); the CPU implementations become
    methods on `LocalMatrix`. */
module CopyLocal {
  import opened Types
  import opened StorageTypes
  import opened Buffers

  /** The `CopyImpl` overloads, in the order of the numbered cases. */
  datatype Overload =
    | SameTypeCpu           // case 1 on the host: flat or per-column MemCopy
    | SameTypeGpuMemcpy2D   // case 1 on the GPU with CUDA
    | HostDeviceTransfer    // case 2: same type, different devices
    | ReinterpretTransfer   // case 3: half types, different devices
    | CastingCpu            // case 4 on the host: entrywise cast
    | CastingGpu            // case 4 on the GPU: the GPU BLAS copy kernel
    | Staged                // case 5: through a temporary on the target device
    | CannotDispatch        // case 0: LogicError "Cannot dispatch Copy."
    | NoOverload            // no overload instantiates

  /** Each overload's enabling condition. */
  predicate EnablesSameTypeCpu(cfg: BuildConfig, t: ElemType, d1: Device, u: ElemType, d2: Device)
  {
    d1 == CPU && d2 == CPU && t == u && cfg.IsStorageType(t, CPU)
  }

  predicate EnablesSameTypeGpuMemcpy2D(cfg: BuildConfig, t: ElemType, d1: Device, u: ElemType, d2: Device)
  {
    cfg.haveGpu && cfg.haveCuda && d1 == GPU && d2 == GPU && t == u && cfg.IsStorageType(t, CPU)
  }

  predicate EnablesHostDeviceTransfer(cfg: BuildConfig, t: ElemType, d1: Device, u: ElemType, d2: Device)
  {
    cfg.haveGpu && d1 != d2 && t == u && cfg.IsStorageType(t, CPU) && cfg.IsStorageType(t, GPU)
  }

  /** The host side `h` of a reinterpreting transfer must be a host
      storage type whose GPU storage type is a different type, and the GPU
      side must have exactly that GPU storage type. */
  predicate EnablesReinterpretTransfer(cfg: BuildConfig, t: ElemType, d1: Device, u: ElemType, d2: Device)
  {
    cfg.haveGpu && d1 != d2 &&
    var (host, dev) := if d1 == CPU then (t, u) else (u, t);
    cfg.IsStorageType(host, CPU) && host != GPUStorageType(cfg, host) && dev == GPUStorageType(cfg, host)
  }

  predicate EnablesCastingCpu(cfg: BuildConfig, t: ElemType, d1: Device, u: ElemType, d2: Device)
  {
    d1 == CPU && d2 == CPU && (t, u) in cfg.castable
    && cfg.IsStorageType(t, CPU) && cfg.IsStorageType(u, CPU)
  }

  predicate EnablesCastingGpu(cfg: BuildConfig, t: ElemType, d1: Device, u: ElemType, d2: Device)
  {
    cfg.haveGpu && d1 == GPU && d2 == GPU && cfg.IsStorageType(t, GPU) && cfg.IsStorageType(u, GPU)
  }

  predicate EnablesStaged(cfg: BuildConfig, t: ElemType, d1: Device, u: ElemType, d2: Device)
  {
    d1 != d2 && cfg.IsStorageType(t, d1) && cfg.IsStorageType(u, d2)
  }

  predicate EnablesCannotDispatch(cfg: BuildConfig, t: ElemType, d1: Device, u: ElemType, d2: Device)
  {
    !cfg.IsStorageType(t, d1) || !cfg.IsStorageType(u, d2)
  }

  /** A GPU matrix exists only in a build with a GPU. */
  predicate DevicesExist(cfg: BuildConfig, d1: Device, d2: Device)
  {
    cfg.haveGpu || (d1 == CPU && d2 == CPU)
  }

  /** Overload resolution: of the enabled overloads the most specialised
      one is called.  Wherever two of them are enabled together, the one
      listed first here has the more specialised parameter types (a shared
      type parameter, or fixed devices, where the other has free ones). */
  function SelectCopyImpl(cfg: BuildConfig, t: ElemType, d1: Device, u: ElemType, d2: Device): Overload
    requires DevicesExist(cfg, d1, d2)
  {
    if EnablesSameTypeCpu(cfg, t, d1, u, d2) then SameTypeCpu
    else if EnablesSameTypeGpuMemcpy2D(cfg, t, d1, u, d2) then SameTypeGpuMemcpy2D
    else if EnablesHostDeviceTransfer(cfg, t, d1, u, d2) then HostDeviceTransfer
    else if EnablesReinterpretTransfer(cfg, t, d1, u, d2) then ReinterpretTransfer
    else if EnablesCastingCpu(cfg, t, d1, u, d2) then CastingCpu
    else if EnablesCastingGpu(cfg, t, d1, u, d2) then CastingGpu
    else if EnablesStaged(cfg, t, d1, u, d2) then Staged
    else if EnablesCannotDispatch(cfg, t, d1, u, d2) then CannotDispatch
    else NoOverload
  }

  /** What one call of `Copy(src, tgt)` does: one overload, or the two
      calls of case 5 through a temporary of element type `tmp`. */
  datatype CopyPlan =
    | Direct(overload: Overload)
    | ViaTemporary(tmp: ElemType, toDevice: Overload, toType: Overload)

  function CopyPlanFor(cfg: BuildConfig, t: ElemType, d1: Device, u: ElemType, d2: Device): CopyPlan
    requires DevicesExist(cfg, d1, d2)
  {
    var o := SelectCopyImpl(cfg, t, d1, u, d2);
    if o == Staged then
      var tmp := CompatibleStorageType(cfg, t, d2);
      ViaTemporary(tmp, SelectCopyImpl(cfg, t, d1, tmp, d2), SelectCopyImpl(cfg, tmp, d2, u, d2))
    else Direct(o)
  }

  /** Case 0: the LogicError is raised exactly when a type is not a
      storage type on its device, unless one of the transfer overloads that
      demand less of the GPU side is enabled instead. */
  lemma CannotDispatchWhenUnsupported(cfg: BuildConfig, t: ElemType, d1: Device, u: ElemType, d2: Device)
    requires DevicesExist(cfg, d1, d2)
    ensures SelectCopyImpl(cfg, t, d1, u, d2) == CannotDispatch <==>
              EnablesCannotDispatch(cfg, t, d1, u, d2)
              && !EnablesSameTypeGpuMemcpy2D(cfg, t, d1, u, d2)
              && !EnablesReinterpretTransfer(cfg, t, d1, u, d2)
    ensures d1 == CPU && d2 == CPU ==>
              (SelectCopyImpl(cfg, t, d1, u, d2) == CannotDispatch <==>
                 !cfg.IsStorageType(t, CPU) || !cfg.IsStorageType(u, CPU))
  {
  }

  /** With both types supported on their devices, the table is closed:
      same device and type is a plain copy, same device is a cast, same
      type across devices is a transfer, and otherwise it is a reinterpret
      or the two-step copy.  Only a host pair without a `CanCast` has no
      overload. */
  lemma DecisionTable(cfg: BuildConfig, t: ElemType, d1: Device, u: ElemType, d2: Device)
    requires DevicesExist(cfg, d1, d2)
    requires cfg.IsStorageType(t, d1) && cfg.IsStorageType(u, d2)
    ensures var o := SelectCopyImpl(cfg, t, d1, u, d2);
      && (d1 == d2 == CPU && t == u ==> o == SameTypeCpu)
      && (d1 == d2 == CPU && t != u ==> o == (if (t, u) in cfg.castable then CastingCpu else NoOverload))
      && (d1 == d2 == GPU ==> o == SameTypeGpuMemcpy2D || o == CastingGpu)
      && (d1 != d2 && t == u ==> o == HostDeviceTransfer)
      && (d1 != d2 && t != u ==> o == ReinterpretTransfer || o == Staged)
      && o != CannotDispatch
  {
  }

  /** Case 3 applies only to a type whose GPU storage type differs from
      itself, which is the host half type in a build with half precision
      on the GPU; the other side is then the GPU half type. */
  lemma ReinterpretOnlyForHalf(cfg: BuildConfig, t: ElemType, d1: Device, u: ElemType, d2: Device)
    requires DevicesExist(cfg, d1, d2)
    ensures SelectCopyImpl(cfg, t, d1, u, d2) == ReinterpretTransfer ==>
              cfg.haveHalf && cfg.gpuUseFp16 &&
              (if d1 == CPU then t == CpuHalf && u == GpuHalf else t == GpuHalf && u == CpuHalf)
  {
  }

  /** Case 5 moves the data to the target device into a temporary of
      type `CompatibleStorageType<T, D2>` (a plain transfer, or the
      reinterpret when that type is the GPU half type) and then changes
      the type on the target device; the temporary never already has the
      target type, because then a one-step overload would have applied. */
  lemma {:induction false} StagedIsTransferThenTypeChange(cfg: BuildConfig, t: ElemType, d1: Device, u: ElemType, d2: Device)
    requires DevicesExist(cfg, d1, d2)
    requires SelectCopyImpl(cfg, t, d1, u, d2) == Staged
    ensures CopyPlanFor(cfg, t, d1, u, d2).ViaTemporary?
    ensures var p := CopyPlanFor(cfg, t, d1, u, d2);
      && d1 != d2
      && p.tmp == CompatibleStorageType(cfg, t, d2)
      && p.tmp != u
      && p.toDevice == (if p.tmp == t then
                          (if cfg.IsStorageType(t, d2) then HostDeviceTransfer else CannotDispatch)
                        else ReinterpretTransfer)
      && p.toType in {SameTypeCpu, SameTypeGpuMemcpy2D, CastingCpu, CastingGpu, CannotDispatch, NoOverload}
  {
    var tmp := CompatibleStorageType(cfg, t, d2);
    CompatibleStorageTypeIsIdentityElsewhere(cfg, t, d2);
    assert !EnablesHostDeviceTransfer(cfg, t, d1, u, d2);
    assert !EnablesReinterpretTransfer(cfg, t, d1, u, d2);
    if tmp == t {
      assert !EnablesReinterpretTransfer(cfg, t, d1, tmp, d2) by {
        if d1 == CPU {
          assert GPUStorageType(cfg, t) == tmp;
        } else {
          CPUStorageTypeIsIdentity(cfg, t);
        }
      }
    } else {
      assert d1 == CPU && t == CpuHalf && tmp == GpuHalf;
      assert EnablesReinterpretTransfer(cfg, t, d1, tmp, d2);
    }
  }

  /** The effect of a plan on the entries, for an element conversion
      `cast(s, t, x)` (`Caster<S, T>::Cast`).  Transfers and the reinterpret
      move values unchanged; the casting overloads convert every entry. */
  function RunOverload<V>(o: Overload, s: ElemType, t: ElemType, cast: (ElemType, ElemType, V) -> V, xs: seq<V>): Result<seq<V>>
  {
    match o
    case SameTypeCpu => Ok(xs)
    case SameTypeGpuMemcpy2D => Ok(xs)
    case HostDeviceTransfer => Ok(xs)
    case ReinterpretTransfer => Ok(xs)
    case CastingCpu => Ok(seq(|xs|, k requires 0 <= k < |xs| => cast(s, t, xs[k])))
    case CastingGpu => Ok(seq(|xs|, k requires 0 <= k < |xs| => cast(s, t, xs[k])))
    case Staged => Err(NotCompiled("case 5 is expanded by CopyPlanFor"))
    case CannotDispatch => Err(LogicError("Cannot dispatch Copy."))
    case NoOverload => Err(NotCompiled("no CopyImpl overload is enabled"))
  }

  function RunPlan<V>(cfg: BuildConfig, t: ElemType, d1: Device, u: ElemType, d2: Device,
                      cast: (ElemType, ElemType, V) -> V, xs: seq<V>): Result<seq<V>>
    requires DevicesExist(cfg, d1, d2)
  {
    match CopyPlanFor(cfg, t, d1, u, d2)
    case Direct(o) => RunOverload(o, t, u, cast, xs)
    case ViaTemporary(tmp, o1, o2) =>
      var ys :- RunOverload(o1, t, tmp, cast, xs);
      RunOverload(o2, tmp, u, cast, ys)
  }

  /** Case 5 with a supported temporary converts each entry once, from
      the temporary's type to the target type (entries cross devices
      bit for bit). */
  lemma {:induction false} StagedConvertsOnce<V>(cfg: BuildConfig, t: ElemType, d1: Device, u: ElemType, d2: Device,
                                                 cast: (ElemType, ElemType, V) -> V, xs: seq<V>)
    requires DevicesExist(cfg, d1, d2)
    requires SelectCopyImpl(cfg, t, d1, u, d2) == Staged
    requires cfg.IsStorageType(CompatibleStorageType(cfg, t, d2), d2)
    requires SelectCopyImpl(cfg, CompatibleStorageType(cfg, t, d2), d2, u, d2) in {CastingCpu, CastingGpu}
    ensures var tmp := CompatibleStorageType(cfg, t, d2);
      RunPlan(cfg, t, d1, u, d2, cast, xs)
        == Ok(seq(|xs|, k requires 0 <= k < |xs| => cast(tmp, u, xs[k])))
  {
    StagedIsTransferThenTypeChange(cfg, t, d1, u, d2);
  }

  /** Case 0 and a missing overload leave no result; every other single
      overload keeps the number of entries. */
  lemma RunOverloadKeepsSize<V>(o: Overload, s: ElemType, t: ElemType, cast: (ElemType, ElemType, V) -> V, xs: seq<V>)
    ensures RunOverload(o, s, t, cast, xs).Ok? <==> o !in {Staged, CannotDispatch, NoOverload}
    ensures RunOverload(o, s, t, cast, xs).Ok? ==> |RunOverload(o, s, t, cast, xs).value| == |xs|
    ensures o in {SameTypeCpu, SameTypeGpuMemcpy2D, HostDeviceTransfer, ReinterpretTransfer} ==>
              RunOverload(o, s, t, cast, xs) == Ok(xs)
  {
  }

  /** The copy loop of case 1 on the host, on the two buffers: one
      `MemCopy` of `height*width` entries when both blocks are contiguous,
      otherwise one `MemCopy` of `height` entries per column, which is the
      column loop of `InterleaveMatrix`. */
  method CopyEntries<V>(aBuf: array<V>, ldA: nat, bBuf: array<V>, ldB: nat, height: nat, width: nat)
    requires aBuf != bBuf
    requires BlockFits(height, width, aBuf.Length, ldA) && BlockFits(height, width, bBuf.Length, ldB)
    modifies bBuf
    ensures bBuf[..] == Interleave(height, width, aBuf[..], ldA, old(bBuf[..]), ldB)
  {
    if ldA == height && ldB == height {
      ContiguousInterleave(height, width, aBuf[..], bBuf[..]);
      MemCopy(bBuf, 0, aBuf, 0, height * width);
    } else {
      InterleaveMatrix(height, width, aBuf, ldA, bBuf, ldB);
    }
  }

  /** Case 1 on the host: `B` is resized to `A`'s height and width, then
      the entries are copied; `A` is only read. */
  method CopySameTypeCpu<V(0)>(A: LocalMatrix<V>, B: LocalMatrix<V>)
    requires A.Valid() && B.Valid() && A != B && A.data != B.data
    modifies B, B.data
    ensures B.Valid() && B.height == A.height && B.width == A.width
    ensures forall i, j :: 0 <= i < A.height && 0 <= j < A.width ==> B.Get(i, j) == A.Get(i, j)
    ensures Packed(B.height, B.width, B.data[..], B.ldim) == Packed(A.height, A.width, A.data[..], A.ldim)
    ensures B.data == old(B.data) ==>
              forall k :: 0 <= k < B.data.Length && !InBlock(k, A.height, A.width, B.ldim) ==>
                B.data[k] == old(B.data[k])
  {
    B.Resize(A.height, A.width);
    ghost var b0 := B.data[..];
    CopyEntries(A.data, A.ldim, B.data, B.ldim, A.height, A.width);
    forall i, j | 0 <= i < A.height && 0 <= j < A.width
      ensures B.Get(i, j) == A.Get(i, j)
    {
      InterleaveAt(A.height, A.width, A.data[..], A.ldim, b0, B.ldim, i, j);
    }
    forall k | 0 <= k < B.data.Length && !InBlock(k, A.height, A.width, B.ldim)
      ensures B.data[k] == b0[k]
    {
      MapBlockOutside(A.height, A.width, A.data[..], A.ldim, b0, B.ldim, Id, k);
    }
    PackedOfInterleave(A.height, A.width, A.data[..], A.ldim, b0, B.ldim);
  }

  /** The inner loop of `EntrywiseMap(A, B, Cast)`: column `j`, entry by
      entry, from `aBuf[offA ..]` to `bBuf[offB ..]`. */
  method CastColumn<S, T>(aBuf: array<S>, offA: nat, bBuf: array<T>, offB: nat, height: nat, cast: S -> T)
    requires aBuf as object != bBuf as object
    requires offA + height <= aBuf.Length && offB + height <= bBuf.Length
    modifies bBuf
    ensures bBuf[..] == Overwrite(old(bBuf[..]), offB, MapSeq(aBuf[offA .. offA + height], cast))
  {
    ghost var a, done := aBuf[..], bBuf[..];
    var i: nat := 0;
    while i < height
      invariant 0 <= i <= height
      invariant aBuf[..] == a
      invariant bBuf[..] == Overwrite(done, offB, MapSeq(a[offA .. offA + i], cast))
    {
      bBuf[offB + i] := cast(aBuf[offA + i]);
      i := i + 1;
      assert MapSeq(a[offA .. offA + i], cast) == MapSeq(a[offA .. offA + i - 1], cast) + [cast(a[offA + i - 1])];
    }
  }

  /** The entrywise loop of `EntrywiseMap(A, B, Cast)` on the buffers,
      one column at a time. */
  method CastEntries<S, T>(aBuf: array<S>, ldA: nat, bBuf: array<T>, ldB: nat, height: nat, width: nat, cast: S -> T)
    requires aBuf as object != bBuf as object
    requires BlockFits(height, width, aBuf.Length, ldA) && BlockFits(height, width, bBuf.Length, ldB)
    modifies bBuf
    ensures bBuf[..] == MapBlock(height, width, aBuf[..], ldA, old(bBuf[..]), ldB, cast)
  {
    ghost var a, b0 := aBuf[..], bBuf[..];
    MapBlockNoColumns(height, a, ldA, b0, ldB, cast);
    var j: nat, offA: nat, offB: nat := 0, 0, 0;
    while j < width
      invariant 0 <= j <= width && offA == j * ldA && offB == j * ldB
      invariant aBuf[..] == a
      invariant BlockFits(height, j, |a|, ldA) && BlockFits(height, j, |b0|, ldB)
      invariant bBuf[..] == MapBlock(height, j, a, ldA, b0, ldB, cast)
    {
      MapBlockExtend(height, j, width, a, ldA, b0, ldB, cast);
      CastColumn(aBuf, offA, bBuf, offB, height, cast);
      j, offA, offB := j + 1, offA + ldA, offB + ldB;
    }
  }

  /** Case 4 on the host (`EntrywiseMap` with `Caster<S,T>::Cast`): `B`
      takes `A`'s height and width and every entry is converted. */
  method CopyCastingCpu<S(0), T(0)>(A: LocalMatrix<S>, B: LocalMatrix<T>, cast: S -> T)
    requires A.Valid() && B.Valid() && A.data as object != B.data as object
    modifies B, B.data
    ensures B.Valid() && B.height == A.height && B.width == A.width
    ensures forall i, j :: 0 <= i < A.height && 0 <= j < A.width ==> B.Get(i, j) == cast(A.Get(i, j))
  {
    assert A as object != B as object;
    B.Resize(A.height, A.width);
    var bData, ldB := B.data, B.ldim;
    ghost var a, b0 := A.data[..], bData[..];
    CastEntries(A.data, A.ldim, bData, ldB, A.height, A.width, cast);
    assert A.data[..] == a;
    forall i, j | 0 <= i < A.height && 0 <= j < A.width
      ensures B.Get(i, j) == cast(A.Get(i, j))
    {
      MapBlockAt(A.height, A.width, a, A.ldim, b0, ldB, cast, i, j);
    }
  }
}
