/** Failure-carrying return values, and the errors the puzzle code raises. */
module Wrappers {

  datatype Option<+T> = None | Some(value: T)

  datatype Result<+T, +E> = Success(value: T) | Failure(error: E)

  datatype Outcome<+E> = Pass | Fail(error: E)

  /** One constructor per `ValueError` the grid and puzzle code raise. */
  datatype Error =
    | RowOutOfRange               // "r out of range"
    | ColOutOfRange               // "c out of range"
    | BadDimensions               // "number of columns and rows must be > 0"
    | BadShipLength               // "ships values must be > 0"
    | KnownGridSize               // "known_grid has non matching size"
    | CurrGridSize                // "curr_grid has non matching size"
    | ColSumsOrSolution           // "one of [col_sums, solution_ships] must be set"
    | RowSumsOrSolution           // "one of [row_sums, solution_ships] must be set"
    | SolutionShipsSize           // "solution_ships has non matching size"
    | ColSumsSize                 // "col_sums has non matching size"
    | ColSumsNegative             // "col_sums values must be non negative"
    | RowSumsSize                 // "row_sums has non matching size"
    | RowSumsNegative             // "row_sums values must be non negative"
    | ShipCollision(c: int, r: int) // "solutions_ships invalid: cell at c, r"
    | KnownMismatch               // "known_grid does not match solution_grid"
    | KnownOccupiedCell           // "cannot set a known-to-be-occupied cell"
    | KnownCell                   // "cell is known"
    | ShipDoesNotFit              // "Ship does not fit in grid"
}
