/** Shared vocabulary: file contents and optional values. */
module Basics {

  /** The contents of a file, or of a text field of a record: one `char` per byte
      of the UTF-8 text.  Nothing below depends on a bound on the character code. */
  type Bytes = string

  datatype Option<+T> = None | Some(value: T)
}
