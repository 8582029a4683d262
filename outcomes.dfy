/** Option and Result values used for the outcomes of the expansion, in place of Python's None and exceptions. */
module Outcomes {

  datatype Option<+T> = None | Some(value: T)

  /** Why expand_image raises instead of producing an image. */
  datatype Error =
    /** The source image has height 0: the aspect-ratio report divides by it. */
    | ZeroHeight
    /** The computed canvas width is negative, which Image.new refuses. */
    | NegativeWidth(width: int)

  datatype Result<+T> = Ok(value: T) | Err(error: Error)
}
