/** The nullable values of the source (`Piece | null`, `string | null`,
    `Transaction | null`, an optional field of `Partial<Transaction>`). */
module Wrappers {

  datatype Option<+T> = None | Some(value: T) {
    function GetOr(default: T): T {
      match this
      case Some(v) => v
      case None => default
    }
  }
}
