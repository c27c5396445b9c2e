/** The runtime dispatch of Copy.cpp: the distributed `Copy` finds the
    element types of both matrices by a first-match scan over a type list,
    and the local `Copy`/`CopyAsync` switch on the devices and check the
    storage types before handing the typed matrices to the functor. */
module CopyDispatch {
  import opened Types
  import opened StorageTypes
  import Meta
  import CopyLocal

  /** `CopyFunctor` or `CopyAsyncFunctor`. */
  datatype Functor = CopyFn | CopyAsyncFn

  /** The functor call the dispatch ends in, on the resolved types. */
  datatype Call = Call(f: Functor, src: ElemType, tgt: ElemType)

  /** `MatrixTypes`: `float`, `double`, then the half types the build has. */
  function MatrixTypes(cfg: BuildConfig): (r: seq<ElemType>)
    ensures forall t :: t in r <==>
      (t == Float || t == Double || (cfg.haveHalf && t == CpuHalf) || (cfg.gpuUseFp16 && t == GpuHalf))
    ensures forall i, j :: 0 <= i < j < |r| ==> r[i] != r[j]
    ensures |r| >= 2 && r[0] == Float && r[1] == Double
  {
    [Float, Double]
    + (if cfg.haveHalf then [CpuHalf] else [])
    + (if cfg.gpuUseFp16 then [GpuHalf] else [])
  }

  /** `CopyDispatcher::DoRHS`: the source type is fixed; try the target
      against each type of the list in turn. */
  function DoRHS(f: Functor, src: ElemType, rhs: seq<ElemType>, tgt: ElemType): Result<Call>
  {
    if rhs == [] then Err(LogicError("Target matrix type not found."))
    else if Meta.Head(rhs) == tgt then Ok(Call(f, src, Meta.Head(rhs)))
    else DoRHS(f, src, Meta.Tail(rhs), tgt)
  }

  /** `CopyDispatcher::Do`: try the source against each type of the list
      in turn, then resolve the target. */
  function Do(f: Functor, lhs: seq<ElemType>, rhs: seq<ElemType>, src: ElemType, tgt: ElemType): Result<Call>
  {
    if lhs == [] then Err(LogicError("Source matrix type not found."))
    else if Meta.Head(lhs) == src then DoRHS(f, Meta.Head(lhs), rhs, tgt)
    else Do(f, Meta.Tail(lhs), rhs, src, tgt)
  }

  /** The target scan succeeds exactly when the target type is in the
      list, and then calls the functor on that type. */
  lemma {:induction false} DoRHSOutcome(f: Functor, src: ElemType, rhs: seq<ElemType>, tgt: ElemType)
    ensures DoRHS(f, src, rhs, tgt) ==
      if tgt in rhs then Ok(Call(f, src, tgt)) else Err(LogicError("Target matrix type not found."))
  {
    if rhs != [] && rhs[0] != tgt {
      DoRHSOutcome(f, src, rhs[1..], tgt);
      assert tgt in rhs <==> tgt in rhs[1..] by {
        assert rhs == [rhs[0]] + rhs[1..];
      }
    }
  }

  /** A missing source type is reported before the targets are looked at;
      otherwise the result is that of the target scan. */
  lemma {:induction false} DoOutcome(f: Functor, lhs: seq<ElemType>, rhs: seq<ElemType>, src: ElemType, tgt: ElemType)
    ensures Do(f, lhs, rhs, src, tgt) ==
      if src !in lhs then Err(LogicError("Source matrix type not found."))
      else if tgt !in rhs then Err(LogicError("Target matrix type not found."))
      else Ok(Call(f, src, tgt))
  {
    if lhs != [] {
      if lhs[0] == src {
        DoRHSOutcome(f, src, rhs, tgt);
      } else {
        DoOutcome(f, lhs[1..], rhs, src, tgt);
        assert src in lhs <==> src in lhs[1..] by {
          assert lhs == [lhs[0]] + lhs[1..];
        }
      }
    }
  }

  /** The source scan stops at the first list entry equal to the source
      type: it is the first match of `Meta.SelectFirstMatch`. */
  lemma {:induction false} DoStopsAtFirstMatch(f: Functor, lhs: seq<ElemType>, rhs: seq<ElemType>, src: ElemType, tgt: ElemType)
    ensures Meta.SelectFirstMatch(lhs, src, (s: ElemType, x: ElemType) => s == x) ==
      (if src in lhs then Meta.Found(src) else Meta.NoMatch)
    ensures Do(f, lhs, rhs, src, tgt).Ok? ==>
      Meta.SelectFirstMatch(lhs, src, (s: ElemType, x: ElemType) => s == x) == Meta.Found(Do(f, lhs, rhs, src, tgt).value.src)
  {
    DoOutcome(f, lhs, rhs, src, tgt);
    if lhs != [] && lhs[0] != src {
      DoStopsAtFirstMatch(f, lhs[1..], rhs, src, tgt);
      assert lhs == [lhs[0]] + lhs[1..];
    }
  }

  /** `Copy(BaseDistMatrix const&, BaseDistMatrix&)` and its asynchronous
      twin: both dispatch over `MatrixTypes` squared. */
  function DistCopy(cfg: BuildConfig, f: Functor, src: ElemType, tgt: ElemType): Result<Call>
  {
    Do(f, MatrixTypes(cfg), MatrixTypes(cfg), src, tgt)
  }

  /** The distributed copy reaches the functor exactly for source and
      target types in `MatrixTypes`; integer and complex matrices fail. */
  lemma DistCopyOutcome(cfg: BuildConfig, f: Functor, src: ElemType, tgt: ElemType)
    ensures DistCopy(cfg, f, src, tgt).Ok? <==> src in MatrixTypes(cfg) && tgt in MatrixTypes(cfg)
    ensures DistCopy(cfg, f, src, tgt).Ok? ==> DistCopy(cfg, f, src, tgt).value == Call(f, src, tgt)
    ensures src !in MatrixTypes(cfg) ==>
              DistCopy(cfg, f, src, tgt) == Err(LogicError("Source matrix type not found."))
    ensures src in MatrixTypes(cfg) && tgt !in MatrixTypes(cfg) ==>
              DistCopy(cfg, f, src, tgt) == Err(LogicError("Target matrix type not found."))
    ensures src in {Int, UInt8, ComplexFloat, ComplexDouble} ==> DistCopy(cfg, f, src, tgt).Err?
  {
    DoOutcome(f, MatrixTypes(cfg), MatrixTypes(cfg), src, tgt);
  }

  /** The functor call on two typed local matrices. */
  datatype LocalCall = LocalCall(f: Functor, src: ElemType, srcDevice: Device, tgt: ElemType, tgtDevice: Device)

  /** `LaunchCopy(Matrix<T,D1> const&, Matrix<U,D2>&, F)`: the source
      check.  Its error names the target's type and device. */
  function LaunchTyped(cfg: BuildConfig, f: Functor, t: ElemType, d1: Device, u: ElemType, d2: Device): Result<LocalCall>
  {
    if cfg.IsStorageType(t, d1) then Ok(LocalCall(f, t, d1, u, d2)) else Err(Unsupported(u, d2))
  }

  /** `LaunchCopy(AbstractMatrix<T> const&, Matrix<U,D2>&, F)`: the target
      check, then the switch on the source device. */
  function LaunchAbstract(cfg: BuildConfig, f: Functor, t: ElemType, d1: Device, u: ElemType, d2: Device): Result<LocalCall>
  {
    if !cfg.IsStorageType(u, d2) then Err(Unsupported(u, d2))
    else match d1
      case CPU => LaunchTyped(cfg, f, t, CPU, u, d2)
      case GPU => if cfg.haveGpu then LaunchTyped(cfg, f, t, GPU, u, d2) else Err(LogicError("Copy: Bad device."))
  }

  /** The body shared by `Copy` and `CopyAsync` on abstract matrices: the
      switch on the target device. */
  function LaunchOnTargetDevice(cfg: BuildConfig, f: Functor, t: ElemType, d1: Device, u: ElemType, d2: Device): Result<LocalCall>
  {
    match d2
    case CPU => LaunchAbstract(cfg, f, t, d1, u, CPU)
    case GPU => if cfg.haveGpu then LaunchAbstract(cfg, f, t, d1, u, GPU) else Err(LogicError("Copy: Bad device."))
  }

  function Copy(cfg: BuildConfig, t: ElemType, d1: Device, u: ElemType, d2: Device): Result<LocalCall>
  {
    LaunchOnTargetDevice(cfg, CopyFn, t, d1, u, d2)
  }

  function CopyAsync(cfg: BuildConfig, t: ElemType, d1: Device, u: ElemType, d2: Device): Result<LocalCall>
  {
    LaunchOnTargetDevice(cfg, CopyAsyncFn, t, d1, u, d2)
  }

  /** The local copy reaches the functor exactly when both devices exist in
      the build and both types are storage types on their devices; the
      errors are checked target first. */
  lemma LaunchOutcome(cfg: BuildConfig, f: Functor, t: ElemType, d1: Device, u: ElemType, d2: Device)
    ensures var r := LaunchOnTargetDevice(cfg, f, t, d1, u, d2);
      && (r.Ok? <==> CopyLocal.DevicesExist(cfg, d1, d2) && cfg.IsStorageType(t, d1) && cfg.IsStorageType(u, d2))
      && (r.Ok? ==> r.value == LocalCall(f, t, d1, u, d2))
      && (d2 == GPU && !cfg.haveGpu ==> r == Err(LogicError("Copy: Bad device.")))
      && (CopyLocal.DevicesExist(cfg, d1, d2) && !cfg.IsStorageType(t, d1) ==> r == Err(Unsupported(u, d2)))
      && (r.Err? ==> r.error == LogicError("Copy: Bad device.") || r.error == Unsupported(u, d2))
  {
  }

  /** `CopyAsync` follows exactly the dispatch of `Copy`: the same errors,
      and on success the same call with the asynchronous functor. */
  lemma CopyAsyncMirrorsCopy(cfg: BuildConfig, t: ElemType, d1: Device, u: ElemType, d2: Device)
    ensures CopyAsync(cfg, t, d1, u, d2).Ok? <==> Copy(cfg, t, d1, u, d2).Ok?
    ensures Copy(cfg, t, d1, u, d2).Err? ==> CopyAsync(cfg, t, d1, u, d2) == Copy(cfg, t, d1, u, d2)
    ensures Copy(cfg, t, d1, u, d2).Ok? ==>
              CopyAsync(cfg, t, d1, u, d2).value == Copy(cfg, t, d1, u, d2).value.(f := CopyAsyncFn)
  {
    LaunchOutcome(cfg, CopyFn, t, d1, u, d2);
    LaunchOutcome(cfg, CopyAsyncFn, t, d1, u, d2);
  }

  /** A call the dispatch lets through never reaches case 0 of
      `CopyImpl`: the "Cannot dispatch Copy." error is unreachable from
      here. */
  lemma LaunchedCopyIsDispatchable(cfg: BuildConfig, t: ElemType, d1: Device, u: ElemType, d2: Device)
    requires Copy(cfg, t, d1, u, d2).Ok?
    ensures CopyLocal.DevicesExist(cfg, d1, d2)
    ensures CopyLocal.SelectCopyImpl(cfg, t, d1, u, d2) != CopyLocal.CannotDispatch
  {
    LaunchOutcome(cfg, CopyFn, t, d1, u, d2);
    CopyLocal.DecisionTable(cfg, t, d1, u, d2);
  }
}
