/** The nullable slot the page keeps its recipe in (`Recipe | null`). */
module Optional {

  datatype Option<+T> = None | Some(value: T)
}
