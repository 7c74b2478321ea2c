/** Results and the error kinds the transactional engine distinguishes. */
module Outcomes {
  datatype Option<+T> = None | Some(value: T)

  /** Which ownership evidence no longer holds. */
  datatype Loss = CountChanged | ValuesChanged | StateChanged | IdentityChanged | Unidentified | Unrestorable

  datatype Error =
    | Busy                 // EBUSY, the only retried failure
    | Io                   // every other failed read or write
    | NotRunning
    | KdamondRunning(index: nat)
    | OwnershipLost(loss: Loss)
    | UnexpectedKdamondState
    | IndexOutOfBounds
    | InvalidConfiguration
    | InvalidKernelValue
    | ConfigurationMismatch
    | UnsupportedFeature
    | InvalidReceipt
    | ReceiptMismatch
    | Rollback(operation: Error, rollback: Error)
  {
    /** A failure of one kernel access, as opposed to a verdict of the engine. */
    predicate IsAccessFailure() {
      Busy? || Io?
    }

    /** Nothing in this error is a verdict that captured values changed. */
    predicate ClearsValues() {
      match this
      case Rollback(operation, rollback) => operation.ClearsValues() && rollback.ClearsValues()
      case OwnershipLost(loss) => loss != ValuesChanged
      case _ => true
    }
  }

  datatype Result<+T> = Ok(value: T) | Err(error: Error)

  /** The failed operation's own error when its rollback succeeded, both errors otherwise. */
  function WithRollback(operation: Error, rollback: Result<()>): Error {
    match rollback
    case Ok(_) => operation
    case Err(error) => Rollback(operation, error)
  }
}
