module Paths {
  /** The components of an absolute path. */
  type Path = seq<string>
}
