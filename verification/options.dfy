/** The optional value used throughout the model for Go's `(value, err)`
    pairs whose error is only ever tested for nil. */
module Options {

  datatype Option<+T> = None | Some(value: T)

}
