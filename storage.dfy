/** The storage-type map of Copy.hpp and the build configuration it
    depends on.  Which (type, device) pairs are storage types, which type
    pairs can be cast, and which pairs are valid for a device are decided in
    headers that are not part of this model, so they enter as sets. */
module StorageTypes {
  import opened Types

  /** The preprocessor switches and trait tables the copy layer consults. */
  datatype BuildConfig = BuildConfig(
    haveHalf: bool,                        // HYDROGEN_HAVE_HALF
    gpuUseFp16: bool,                      // HYDROGEN_GPU_USE_FP16
    haveGpu: bool,                         // HYDROGEN_HAVE_GPU
    haveCuda: bool,                        // HYDROGEN_HAVE_CUDA
    storage: set<(ElemType, Device)>,      // IsStorageType<T, D>
    castable: set<(ElemType, ElemType)>,   // CanCast<S, T>
    deviceValid: set<(ElemType, Device)>)  // IsDeviceValidType<T, D>
  {
    predicate IsStorageType(t: ElemType, d: Device)
    {
      (t, d) in storage
    }
  }

  /** `CompatibleStorageType<T, D>`: `T` itself, except that the host
      half type maps to the accelerator half type on the GPU when both
      half-precision switches are on. */
  function CompatibleStorageType(cfg: BuildConfig, t: ElemType, d: Device): ElemType
  {
    if cfg.haveHalf && cfg.gpuUseFp16 && t == CpuHalf && d == GPU then GpuHalf else t
  }

  function CPUStorageType(cfg: BuildConfig, t: ElemType): ElemType
  {
    CompatibleStorageType(cfg, t, CPU)
  }

  /** Only declared when the build has a GPU. */
  function GPUStorageType(cfg: BuildConfig, t: ElemType): ElemType
    requires cfg.haveGpu
  {
    CompatibleStorageType(cfg, t, GPU)
  }

  /** The map is the identity except for the single half-precision case. */
  lemma CompatibleStorageTypeIsIdentityElsewhere(cfg: BuildConfig, t: ElemType, d: Device)
    ensures CompatibleStorageType(cfg, t, d) != t <==>
              (cfg.haveHalf && cfg.gpuUseFp16 && t == CpuHalf && d == GPU)
    ensures CompatibleStorageType(cfg, t, d) != t ==> CompatibleStorageType(cfg, t, d) == GpuHalf
  {
  }

  lemma CPUStorageTypeIsIdentity(cfg: BuildConfig, t: ElemType)
    ensures CPUStorageType(cfg, t) == t
  {
  }

  lemma GPUStorageTypeCases(cfg: BuildConfig, t: ElemType)
    requires cfg.haveGpu
    ensures GPUStorageType(cfg, t) == t || (t == CpuHalf && GPUStorageType(cfg, t) == GpuHalf)
    ensures t != CpuHalf ==> GPUStorageType(cfg, t) == t
  {
  }

  /** Applying the map twice for one device is applying it once. */
  lemma CompatibleStorageTypeIdempotent(cfg: BuildConfig, t: ElemType, d: Device)
    ensures CompatibleStorageType(cfg, CompatibleStorageType(cfg, t, d), d)
         == CompatibleStorageType(cfg, t, d)
  {
  }
}
