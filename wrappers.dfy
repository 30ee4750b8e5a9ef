/** Option and Result values, and the Python exceptions the modelled scripts can raise. */
module Wrappers {

  datatype Option<T> = None | Some(value: T)

  /** The exceptions that escape a modelled function (and so end it without a result). */
  datatype PyError =
    | ZeroDivision          // `x / 0` on a count or a length
    | NameError(name: string) // use of a module that was never imported
    | CvError                 // an OpenCV call given an image with no pixels

  datatype Result<T> = Ok(value: T) | Err(error: PyError)
}
