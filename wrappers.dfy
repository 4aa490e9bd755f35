/** Option / Result, and the Python exceptions the modelled code raises. */
module Wrappers {

  datatype Option<+T> = None | Some(value: T)

  datatype Result<+R, +E> = Success(value: R) | Failure(error: E)

  /** The exceptions raised by the modelled code, by their Python class. */
  datatype Exception =
    | DoesNotExist             // Model.DoesNotExist from a queryset .get()
    | MultipleObjectsReturned  // .get() matched more than one row
    | IntegrityError           // a write that would duplicate a unique column
    | InvalidOperation         // decimal.InvalidOperation (bad literal, 0/0)
    | DivisionByZero           // decimal.DivisionByZero (x/0 with x != 0)
    | KeyError
    | IndexError
    | AttributeError
    | TypeError
    | ValueError
    | NotImplemented           // NotImplementedError
    | RuntimeError
    | ClientError(message: string)  // OpenExchangeRatesClientException, with str(e)

  /** Messages written to the warning stream, kept as an abstract log. */
  datatype Warning =
    | BaseNotFound   // "'base' not found in results"
    | ChangingBase   // "changing base ourselves"
}
