/** Shared vocabulary of the model: memory spaces, element types, and the
    failure outcomes that stand for the library's LogicError and
    runtime_error exceptions. */
module Types {

  /** The memory space a local matrix lives in. */
  datatype Device = CPU | GPU

  /** The element types that the copy layer knows about. `CpuHalf` is the
      host half-precision type, `GpuHalf` the accelerator one. */
  datatype ElemType =
    | Float | Double | CpuHalf | GpuHalf
    | Int | UInt8 | ComplexFloat | ComplexDouble

  /** The distribution of one axis of a distributed matrix over the
      process grid: over its columns (`MC`), rows (`MR`), diagonal (`MD`),
      all processes column-major (`VC`) or row-major (`VR`), replicated
      (`STAR`), or held by one process (`CIRC`). */
  datatype Dist = MC | MD | MR | VC | VR | STAR | CIRC

  /** A thrown exception. `LogicError` carries the message text of the
      source; `Unsupported` is the LogicError whose message names a type and
      a device ("The combination U=... and D=... is not supported.").
      `NotCompiled` marks a combination for which the templates of the
      source do not instantiate, so no program performs that call. */
  datatype Error =
    | LogicError(msg: string)
    | Unsupported(elem: ElemType, device: Device)
    | RuntimeError(msg: string)
    | NotCompiled(reason: string)

  /** A value or the exception raised instead of it. */
  datatype Result<+T> = Ok(value: T) | Err(error: Error) {
    predicate IsFailure() { Err? }
    function PropagateFailure<U>(): Result<U>
      requires Err?
    {
      Err(error)
    }
    function Extract(): T
      requires Ok?
    {
      value
    }
  }

  /** Completion of a void operation, or the exception raised. */
  datatype Outcome = Pass | Fail(error: Error) {
    predicate IsFailure() { Fail? }
    function PropagateFailure(): Outcome
      requires Fail?
    {
      this
    }
  }
}
