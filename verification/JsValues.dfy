/** The element values that join and flat tell apart. */
module JsValues {
  import opened ArrayObjects

  /** A nested array is a finite tree whose nodes may have holes; every other value is opaque. */
  datatype JsValue =
    | Undefined
    | Null
    | Other(id: int)
    | List(elems: Elems<JsValue>, length: nat)
}
