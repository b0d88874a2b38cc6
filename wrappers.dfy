/** The optional value used wherever the JavaScript source has `null`/`undefined` or a
 *  missing result, and the byte strings of files and buffers. */
module Wrappers {

  /** The contents of a file, a Buffer or an ArrayBuffer. */
  type Bytes = seq<bv8>

  datatype Option<+T> = None | Some(value: T) {

    /** Returns the value, or `default` when there is none (the JS `x ?? default`). */
    function GetOr(default: T): T {
      match this
      case Some(v) => v
      case None => default
    }
  }
}
