/** Nullable columns, optional fields and failing requests. */
module Wrappers {
  datatype Option<+T> = None | Some(value: T) {
    /** The `??` operator. */
    function GetOr(default: T): T {
      if Some? then value else default
    }
    function Or(other: Option<T>): Option<T> {
      if Some? then this else other
    }
  }

  /** A field of a request body: left out, an explicit null, or a value. */
  datatype Given<+T> = Omitted | Null | Value(value: T) {
    /** What a nullable column holds once the field has been written over it. */
    function Over(column: Option<T>): Option<T> {
      match this
      case Omitted => column
      case Null => None
      case Value(v) => Some(v)
    }
  }

  datatype Result<+T, +E> = Ok(value: T) | Err(error: E)
}
