/** The optional value the scheduler's Rust code returns from `pop`, `remove`, `insert` and `update_ci`. */
module Wrappers {
  datatype Option<T> = None | Some(value: T)
}
