/** Vertex identifiers and the optional values the matching dictionary holds. */
module Vertices {

  /** A vertex identifier as the program receives it: the GUI passes strings,
      the test driver mixes strings and small integers. */
  datatype Vertex = Str(s: string) | Int(n: int)

  /** Python truthiness of an identifier: a non-empty string or a non-zero integer. */
  predicate Truthy(x: Vertex) {
    match x
    case Str(s) => s != ""
    case Int(n) => n != 0
  }

  /** A dictionary value that is either a vertex or Python's None. */
  datatype Option<+T> = None | Some(value: T)
}
