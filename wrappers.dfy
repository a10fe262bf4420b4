/** The optional value that stands in for a nullable Java reference or an
    `Optional` returned by a repository lookup. */
module Wrappers {

  datatype Option<+T> = None | Some(value: T)

}
