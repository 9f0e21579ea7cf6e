/** Python's optional values (`None` or a value), used wherever `imgreader.py` or `imghandler.py` returns or stores `None`. */
module Wrappers {

  datatype Option<+T> = None | Some(value: T)

}
