/** Nullable values and the .NET exceptions the modelled code throws or catches. */
module Wrappers {

  /** A C# nullable reference or value: `null` is `None`. */
  datatype Option<+T> = None | Some(value: T) {

    /** The `??` operator: the value if present, otherwise `default`. */
    function GetOr(default: T): T {
      match this
      case Some(v) => v
      case None => default
    }
  }

  /** The exception types the modelled members throw. */
  datatype Exception =
    | ArgumentNull       // ArgumentNullException
    | Argument           // ArgumentException
    | InvalidOperation   // InvalidOperationException
    | Format             // FormatException
    | DbUpdate           // DbUpdateException raised by a failed save
    | NullReference      // NullReferenceException from dereferencing null
    | Sql                // SqlException from a query the server refuses

  /** The outcome of a call that either returns a value or throws. */
  datatype Call<+T> = Returns(value: T) | Throws(error: Exception)
}
