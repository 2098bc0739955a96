/** Errors raised by the modelled code, and the result types that carry them.

    Each constructor of `Error` is one raise site of the Python source; `ClassOf`
    names the Python exception class that site raises. */
module Errors {

  datatype Option<+T> = None | Some(value: T)

  /** The Python exception classes the modelled code raises. */
  datatype PyException = KeyError | TypeError | ValueError | AttributeError | IndexError | FileNotFoundError

  datatype Error =
      // the result store
    | NotFound(id: string)                 // `get` of an absent id
    | NotFoundNonString                    // `get` of a hashable non-string id
    | AlreadyExists(id: string)            // `register` of a present id
    | IdNotStrOrDict                       // `register` with an id of another type
    | NonStringKey                         // bulk `register` with a non-string key
    | Unhashable                           // a list or dict used as a dictionary key
      // the box filter
    | BorderWidthsSize                     // border widths neither 2 nor 4 long
    | TargetSizeUnpack                     // target size not exactly 2 long
    | StageInputMissing                    // a stage run before its predecessor
    | ResultNotReady                       // `visualise` before `filter`
      // numpy
    | QuantileOutOfRange                   // `np.quantile` with q outside [0, 1]
    | QuantileNotNumber                    // `np.quantile` with q neither int, float nor bool
    | AmbiguousTruth                       // `if a:` on a numpy array
      // constructor keyword validation
    | MissingRequired(key: string)
    | RequiredWrongType(key: string)
    | OptionalWrongType(key: string)
      // process steps
    | InputMismatch(missing: set<string>, extra: set<string>)
    | InputWrongType(key: string)
    | MissingAttribute(name: string)
    | DeliverableWrongType(key: string)
      // the pipeline
    | ConfigFileNotFound                   // the configuration path does not exist
    | InvalidYaml                          // the configuration file does not parse
    | UnknownDataManager(name: string)
    | ConfigNotMapping
    | MissingConfigKeys(keys: set<string>)
    | InputsNotList
    | InputNotRegistered                   // a declared input the store lacks
    | UndeclaredInputs                     // a stored input the configuration does not declare
    | StepsNotList
    | StepNotDict(step: nat)
    | StepMissingKeys(step: nat, keys: set<string>)
    | StepInputsNotDict(step: nat)
    | StepInputUnavailable(step: nat)
    | StepDeliverablesNotDict(step: nat)
    | DeliverableAlreadyDefined(step: nat)
    | UnknownProcessStep(step: nat)

  function ClassOf(e: Error): PyException
  {
    match e
    case NotFound(_) => KeyError
    case NotFoundNonString => KeyError
    case AlreadyExists(_) => KeyError
    case IdNotStrOrDict => TypeError
    case NonStringKey => TypeError
    case Unhashable => TypeError
    case RequiredWrongType(_) => TypeError
    case OptionalWrongType(_) => TypeError
    case InputWrongType(_) => TypeError
    case QuantileNotNumber => TypeError
    case DeliverableWrongType(_) => TypeError
    case MissingAttribute(_) => AttributeError
    case ConfigNotMapping => AttributeError
    case StageInputMissing => IndexError
    case ConfigFileNotFound => FileNotFoundError
    case _ => ValueError
  }

  /** A value, or the error raised instead of returning it. */
  datatype Result<+T> = Ok(value: T) | Err(error: Error) {
    predicate IsFailure() { Err? }

    function PropagateFailure<U>(): Result<U>
      requires Err?
    {
      Err(error)
    }

    function Extract(): T
      requires Ok?
    {
      value
    }
  }

  /** The state of a mutable object after a call: an exception does not roll back
      the writes made before it was raised, so both outcomes carry a state. */
  datatype Raises<+S> = Returned(state: S) | Raised(state: S, error: Error)
}
