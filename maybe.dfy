/** A value that may be missing: a key absent from a document or from the session data. */
module Maybe {

  datatype Option<+T> = None | Some(value: T)

  /** Python's truthiness of an optional string: present and not empty. */
  predicate Truthy(o: Option<string>) {
    o.Some? && o.value != ""
  }
}
