/** Kotlin's nullable types (`String?`, an absent index) as a value. */
module Optional {

  datatype Option<+T> = None | Some(value: T)

}
