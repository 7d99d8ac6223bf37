/** The optional value used wherever the crawler's Rust code returns an `Option`
    or a `Result` whose error it discards. */
module Wrappers {

  datatype Option<+T> = None | Some(value: T)
}
