/** The optional value of a spreadsheet cell: `None` stands for an empty or
    missing cell (pandas' NaN), `Some(v)` for a cell holding `v`. */
module Wrappers {

  datatype Option<+T> = None | Some(value: T) {

    /** The cell's value, or `default` when the cell is missing. */
    function GetOr(default: T): T
    {
      match this
      case Some(v) => v
      case None => default
    }
  }
}
