/** Everything the scripts get from outside themselves, as plain inputs:
    the skip list, what the HTTP requests return, and the library
    computations whose code is not modelled. */
module Env {
  import opened Common
  import opened Raster
  import opened Dispatch

  /** Why handling one ID stopped with an exception. Every one of these is
      caught inside the per-ID function; none ends the batch. */
  datatype Fault =
    | Timeout              // requests.exceptions.Timeout
    | HttpError(status: int) // raise_for_status, after the transport's retries
    | InvalidUrl           // requests refuses an empty URL
    | EmptySelection       // crop_image reduces an empty argwhere
    | Incomparable         // a metric of None compared with a threshold
    | ZeroDivision         // a ratio with a zero denominator: a zero-height image, or a pad target of height 0
    | Unexpected           // JSON, decoding and any other failure

  datatype Fetched<T> = Got(value: T) | Failed(fault: Fault)

  /** The inputs of one run. */
  datatype World = World(
    processed: set<string>,                  // lines of processed_images.txt
    document: string -> Fetched<Metadata>,   // GET public_documents/{id}, parsed
    image: string -> Fetched<Raster>,        // GET of an image URL, decoded
    luminance: Raster -> seq<Channel>,       // convert('L'), all pixels; its length is not tied to the image's size
    contrast: Raster -> Option<real>,        // calculate_contrast
    entropy: Raster -> Option<real>)         // calculate_entropy
}
