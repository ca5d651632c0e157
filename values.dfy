/** Optional values, and how the handlers test a request field for presence. */
module Values {

  /** A value that may be missing (`undefined` / `null` in the source). */
  datatype Option<+T> = None | Some(value: T)

  /** A string field as JavaScript's `!field` sees it: a missing field and the
      empty string are falsy, every other string is truthy. Mongoose's
      `required` validator on a String path rejects exactly the same values. */
  predicate Truthy(field: Option<string>) {
    field.Some? && field.value != ""
  }
}
