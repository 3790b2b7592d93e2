/** Failure-carrying values and the library's error values. */
module Wrappers {

  datatype Option<+T> = None | Some(value: T)

  datatype Result<+R, +E> = Success(value: R) | Failure(error: E)

  /** The errors the modelled code produces or passes on. */
  datatype Error =
    | FetchError(reason: string)        // whatever a single-page fetch reports, passed on unchanged
    | RequestFailed(statusCode: int)    // a response whose status code is outside 200..299
    | ConvertToStatusListFailed         // "convert to SearchResultStatus failed"
    | HrefEmpty                         // "href is empty"
    | UrlParseFailed(url: string)       // url.Parse refused the normalised base URL
}
