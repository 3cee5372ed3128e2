/** Datatypes that several models share. */
module Common {
  datatype Option<T> = None | Some(value: T)

  /** A boolean field of the program. */
  datatype Flag = Off | On
}
