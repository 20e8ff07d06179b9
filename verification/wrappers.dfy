/** Optional values and results with an error, used wherever the scripts either
    return `None` or raise. */
module Wrappers {

  datatype Option<+T> = None | Some(value: T)

  datatype Result<+T, +E> = Ok(value: T) | Err(error: E)
}

/** The ways a run of either `generate` command ends abnormally. */
module Errors {

  datatype Fatal =
      /** the bucket listing held no objects (`sys.exit(1)`, or the missing
          `Contents` entry in the older script) */
    | EmptyListing
      /** `int()` raised `ValueError` on the sort key of this name */
    | UnparsableName(name: string)
      /** `islice` raised `ValueError` because the stride is not positive */
    | InvalidStep(step: int)
      /** `open(filename, 'rb')` or the object fetch raised for this frame;
          both scripts read the frame before any handler */
    | ReadFailed(name: string)
      /** `imageio.imread` was handed an empty JPEG buffer for this frame */
    | EmptyReencode(name: string)
      /** PIL failed to open or decode this frame and nothing caught it */
    | DecodeFailed(name: string)
}
