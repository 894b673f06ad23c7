/** Option and Result, used for the optional fields of scraped elements and
    for the exceptions the Python code raises. */
module Wrappers {

  datatype Option<+T> = None | Some(value: T)

  datatype Result<+T, +E> = Ok(value: T) | Err(error: E) {
    function GetOk(default: T): T {
      if Ok? then value else default
    }
  }
}
