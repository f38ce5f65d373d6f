/**
 * Scalar values as they travel through the client layer, and JavaScript
 * truthiness, which decides which attributes and request keys get set.
 */
module Values {
  import opened Wrappers

  /** A scalar a caller may put in an options object: a string or an integer. */
  datatype Scalar = Text(text: string) | Number(number: int)

  /** `if (x)` for a string attribute: `undefined` and the empty string are falsy. */
  predicate TruthyText(o: Option<string>) {
    o.Some? && o.value != ""
  }

  /** `if (x)` for an integer attribute: `undefined` and zero are falsy. */
  predicate TruthyInt(o: Option<int>) {
    o.Some? && o.value != 0
  }

  /** `if (x)` for an option value of either kind. */
  predicate Truthy(o: Option<Scalar>) {
    match o
    case None => false
    case Some(Text(s)) => s != ""
    case Some(Number(n)) => n != 0
  }

  /** A string attribute placed in a request. */
  function TextValue(o: Option<string>): Option<Scalar> {
    if o.Some? then Some(Text(o.value)) else None
  }

  /** An integer attribute placed in a request. */
  function NumberValue(o: Option<int>): Option<Scalar> {
    if o.Some? then Some(Number(o.value)) else None
  }
}
