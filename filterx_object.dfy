/**
 * The part of the filterx value model that the core consumes: truthiness and
 * string extraction. Everything else about values (numbers, containers,
 * reference counts, repr) is abstracted away.
 */
module FilterXObjects {
  import opened Wrappers

  /** A byte of a string as the C code sees it (a gchar). */
  newtype byte = b: int | 0 <= b < 256

  /**
   * A filterx value. Booleans are spelt out because the conditional node
   * creates `true` itself; every other value is an opaque object whose
   * truthiness and string contents (if it is string-like) are given.
   */
  datatype Value =
    | Boolean(b: bool)
    | Object(typeName: string, truthy: bool, str: Option<seq<byte>>)

  /** filterx_object_truthy */
  predicate Truthy(v: Value) {
    match v
    case Boolean(b) => b
    case Object(_, t, _) => t
  }

  /** filterx_object_extract_string: the bytes of a string-like value, or None. */
  function ExtractString(v: Value): Option<seq<byte>> {
    match v
    case Boolean(_) => None
    case Object(_, _, s) => s
  }
}
