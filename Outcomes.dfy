/** Results of the exploit constructors and of the shell commands. Python reports failure by
    raising; the model returns it as a value. */
module Outcomes {

  datatype Option<+T> = None | Some(value: T)

  /** The Python exceptions an exploit constructor can end with, plus the failure of the
      draw cap that replaces the unbounded collision search. */
  datatype Failure =
    | IndexError               // indexing an empty list or string
    | TypeError                // an operator applied to a value of the wrong type
    | CollisionSearchExceeded  // the birthday search used up its draws

  datatype Result<+T> = Ok(value: T) | Err(error: Failure)
}
