/** The exceptions the modelled code raises, as plain values. */
module Exceptions {

  datatype Error =
    | ValueError          // a value object rejected its value, or strptime rejected a string
    | TypeError           // an operation was applied to a value of the wrong type (e.g. `None[...]`, `3 < datetime`)
    | UnboundLocalError   // a local variable was read before any assignment
    | EventDoesntExists   // the repository holds no event with the requested id
    | QueryException      // the SQLite store reported an error
    | OverflowError       // datetime arithmetic left the range year 1 .. year 9999
}
