/** Optional values, in the two shapes the panel's TypeScript distinguishes. */
module Wrappers {

  /** The result of an expression that may be `undefined`: `T | undefined`. */
  datatype Option<+T> = None | Some(value: T) {

    /** Returns the carried value, or `default` when there is none. */
    function GetOr(default: T): T {
      match this
      case Some(v) => v
      case None => default
    }
  }

  /** One property of a JavaScript object literal. A property can be absent,
      present with the value `undefined`, or present with a value. The
      difference between the first two matters to object spread: a present
      property is copied even when its value is `undefined`. */
  datatype Prop<+T> = Missing | Undefined | Has(value: T) {

    /** True when the object has the property as its own key. */
    predicate Present() {
      !Missing?
    }

    /** The value read through `obj.prop`: both an absent property and an
        `undefined` one read as `undefined`. */
    function Read(): Option<T> {
      match this
      case Has(v) => Some(v)
      case _ => None
    }
  }

  /** JavaScript truthiness of a `string | undefined`: `undefined` and the
      empty string are falsy, every other string is truthy. */
  predicate TruthyString(s: Option<string>) {
    s.Some? && s.value != ""
  }
}
