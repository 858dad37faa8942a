/** Failure-compatible Option and Result, used for every operation of the
    model that can raise in the original program. */
module Wrappers {

  datatype Option<+T> = None | Some(value: T) {
    function GetOr(default: T): T {
      match this
      case Some(v) => v
      case None => default
    }
  }

  datatype Result<+T, +E> = Ok(value: T) | Err(error: E) {
    predicate IsFailure() {
      Err?
    }

    function PropagateFailure<U>(): Result<U, E>
      requires Err?
    {
      Err(error)
    }

    function Extract(): T
      requires Ok?
    {
      value
    }
  }
}

/** The exceptions the modelled code raises: the project's own error classes
    and the built-in Python exceptions its operations can throw. */
module Errors {
  import opened PathLib

  /** Why user input was rejected (the `message` of a UserInputError). */
  datatype InputProblem =
    | NoSlideSource                        // neither svs_path nor qpproj_path given
    | PathDoesNotExist(path: Path)         // PathChecker.str_to_path
    | PathAlreadyExists(path: Path)        // PathCreator.create_path without rewrite
    | IndexesOutOfRange(indexes: seq<int>) // check_indexes, lists the offending indexes
    | UnknownSlideName(name: string)       // check_names, the name after '.svs' completion
    | SeveralSlidesForRestitching          // repeat_stitching with more than one slide

  datatype Error =
    | UserInputError(problem: InputProblem)
    | CleaningError                  // final stitched slide missing
    | ZeroDivisionError              // `//` by zero
    | EmptySequenceError             // max()/min() of an empty sequence, np.concatenate of nothing
    | UnknownTileKey(key: int)       // OrderedDict.move_to_end of an absent key
    | MissingSlotKey(slot: string)   // Defaults.__init__ on a dict without a slot
    | MissingFile(path: Path)        // reading or unlinking a file that is not there
    | NoSuchDirectory(path: Path)    // creating a file or folder in a folder that is not there
    | ShapeMismatch                  // np.concatenate of arrays whose other axis differs
    | SequenceIndexError(index: int) // list index out of range
    | UnsetAttribute(name: string)   // reading an attribute never assigned (AttributeError)
}
