/** Optional values, the error kinds of the purchase tracker and a result type
    that can be used with `:-`, playing the part of Rust's `Option`,
    `anyhow::Error` and `anyhow::Result` with its `?` operator. */
module Results {

  datatype Option<T> = None | Some(value: T) {

    /** The wrapped value, or `default` when there is none (Rust's `unwrap_or`). */
    function GetOr(default: T): T {
      match this
      case Some(v) => v
      case None => default
    }

    /** This option if it holds a value, otherwise `other` (Rust's `Option::or`). */
    function Or(other: Option<T>): Option<T> {
      if Some? then this else other
    }
  }

  /** One constructor per message the tracker can fail with. */
  datatype Error =
    | InvalidStatusId(id: int)        // a status code outside 0..3
    | DuplicateName(name: string)     // adding under a name already in the store
    | NotFound(name: string)          // no product under that name
    | EmptyName                       // adding with an empty name
    | NonPositivePrice                // a purchase price that is not above zero
    | InvalidDate(input: string)      // a date string that does not parse
    | NonPositiveRepairCost           // a repair cost that is not above zero
    | NonPositiveSoldPrice            // a sold price that is not above zero
    | SoldPairRequired                // half of a first-time sale
    | NameRequired                    // `set` without a product name

  datatype Result<T> = Ok(value: T) | Err(error: Error) {

    predicate IsFailure() {
      Err?
    }

    function PropagateFailure<U>(): Result<U>
      requires Err?
    {
      Err(error)
    }

    function Extract(): T
      requires Ok?
    {
      value
    }
  }
}
