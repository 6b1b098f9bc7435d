/** Nullable values and the exceptions the modelled code can raise. */
module Wrappers {

  /** A nullable column or a query that may find nothing (C# `T?`, `FirstOrDefault`). */
  datatype Option<+T> = None | Some(value: T)

  /** The .NET exceptions that the modelled repositories let escape or catch. */
  datatype Exception =
    | InvalidOperation    // a cast of a null `int?`/`decimal?`, or a null key part handed to the change tracker
    | NullReference       // a member access on a null reference returned by `FirstOrDefault`
    | DbUpdate            // `SaveChanges` rejected by the database (key, foreign-key or missing-row violation)
    | Overflow            // a decimal-to-long conversion outside the range of `long`
    | ArgumentOutOfRange  // a date computation past year 9999

  /** Either a value or the exception that was thrown instead. */
  datatype Result<+T> = Ok(value: T) | Err(error: Exception)
}
