/** Values held by atoms, and the optional wrapper the store's cells use. */
module Values {

  /** An absent or present value (Swift's `Any?` in a cell). */
  datatype Option<T> = None | Some(value: T)

  /** The one value type of the model. It stands for the `Equatable` types an
      atom may hold whose `==` is an equivalence; its built-in `==` plays the
      part of the comparator that each cell captures for its own type. A type
      whose `==` is not reflexive, such as `Double` with NaN, is not covered. */
  datatype Value = Int(i: int) | Bool(b: bool)
}
