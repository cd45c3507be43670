/** Optional values, standing for Swift's `T?`. */
module Common {

  datatype Option<+T> = None | Some(value: T)

}
