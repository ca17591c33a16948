/** Outcome values shared by the whole converter model. */
module Errors {

  /** Either a computed value or the failure that stopped the computation. */
  datatype Result<+T, +E> = Ok(value: T) | Err(error: E)

  /**
   * The failures the per-folder conversion can run into.
   * - InconsistentWavenumbers: the absorbance x-axes of one folder differ
   *   (an AssertionError in the converter, naming the folder).
   * - UnsplittableNames: split file names give rows of unequal length and
   *   table fixing is off (an AssertionError naming the folder).
   * - NoAbsorbanceBlocks: the folder's files hold no absorbance block, so
   *   indexing the first x-axis raises IndexError.
   * - EmptySeparator: name splitting with an empty separator raises
   *   ValueError.
   */
  datatype Failure =
    | InconsistentWavenumbers(folder: string)
    | UnsplittableNames(folder: string)
    | NoAbsorbanceBlocks
    | EmptySeparator

  /**
   * True for the failures the folder loop catches (AssertionError); the
   * others propagate and end the whole run.
   */
  predicate Recoverable(f: Failure)
  {
    f.InconsistentWavenumbers? || f.UnsplittableNames?
  }
}
