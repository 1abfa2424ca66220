/** What several modules share. */
module Common {

  datatype Option<T> = None | Some(value: T)

  /** Counting what holds. */
  function One(b: bool): nat {
    if b then 1 else 0
  }
}
