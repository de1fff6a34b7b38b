/** A value that may be missing: `null`/`undefined` on the TypeScript side. */
module Options {
  datatype Option<+T> = None | Some(value: T)

  /** JavaScript truthiness of a `string | null` value: null and '' are falsy. */
  predicate Truthy(s: Option<string>) {
    s.Some? && s.value != ""
  }
}
