/** Optional values, used for Swift optionals (`T?`) in the model. */
module Options {

  datatype Option<+T> = None | Some(value: T)

}
