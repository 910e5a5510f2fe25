/** Small datatypes shared by every module. */
module Common {

  /** A value that may be absent: a null pointer, a null buffer, or "not found". */
  datatype Option<+T> = None | Some(value: T)

}
