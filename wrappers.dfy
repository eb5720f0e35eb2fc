/** The optional value used wherever the downloader returns `None`. */
module Wrappers {

  datatype Option<+T> = None | Some(value: T)
}
