/**
 * Optional values and success-or-error outcomes: how the model writes a
 * Python value that may be `None` and a call that may raise.
 */
module Wrappers {

  /** A value that may be missing, like a dict entry read with `.get`. */
  datatype Option<+T> = None | Some(value: T) {

    /** `d.get(key, default)`: the stored value when there is one. */
    function GetOr(default: T): T {
      if Some? then value else default
    }
  }

  /** The outcome of a step that either produces `value` or stops with `error`. */
  datatype Result<+R, +E> = Success(value: R) | Failure(error: E)
}

/** The Python exceptions that the modelled code can raise. */
module PyExceptions {

  datatype PyException =
    | KeyError(key: string)
    | AttributeError(name: string)
    | TypeError(message: string)
    | ValueError(message: string)
    | IndexError(message: string)
      /** An exception raised inside a collaborator whose code is not modelled. */
    | External(message: string)
}
