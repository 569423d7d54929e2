/** The nullable values of the Kotlin source (`String?`, `Extension?`, `Int?`). */
module Wrappers {

  datatype Option<+T> = None | Some(value: T)
}
