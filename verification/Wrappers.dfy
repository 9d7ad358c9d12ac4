/** Small types shared by the modules. */
module Wrappers {

  datatype Option<T> = None | Some(value: T)

  datatype TimeRange = TimeRange(start: real, end: real) {
    function Duration(): real {
      if end - start > 0.0 then end - start else 0.0
    }
  }
}
