/** The nullable results of the view model (`Float?`, `Double?`, `Job?`) as an Option. */
module Wrappers {

  /** `None` stands for Kotlin's `null`. */
  datatype Option<+T> = None | Some(value: T)
}
