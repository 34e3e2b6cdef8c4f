/** Record shapes shared by the client and the mock backend (client/lib/types.ts),
    plus the Option/Result wrappers used for "may be undefined" and "may fail". */
module Records {

  datatype Option<+T> = None | Some(value: T)

  datatype Result<+T, +E> = Ok(value: T) | Err(error: E)

  /** A bounding box `[x1, y1, x2, y2]` in canvas coordinates. */
  datatype Box = Box(x1: real, y1: real, x2: real, y2: real)

  /** One object found by the detector; `className` is the wire field `class`. */
  datatype DetectedObject = DetectedObject(className: string, confidence: real, box: Box)

  /** One NSFW classification (the loosely typed `detected_nsfw` items, given a shape). */
  datatype NsfwDetection = NsfwDetection(className: string, confidence: real)

  datatype ImageResult = ImageResult(
    imageId: int,
    name: string,
    isProcessed: bool,
    isNsfw: bool,
    inputImageUrl: string,
    detectedNsfw: seq<NsfwDetection>,
    detectedObjects: seq<DetectedObject>,
    createdAt: string,
    updatedAt: string,
    outputImageUrl: string)

  /** One page of a listing: `total` counts every match, `data` only this page. */
  datatype PaginatedResponse = PaginatedResponse(page: int, limit: int, total: int, data: seq<ImageResult>)

  /** The invariant every record satisfies: an unprocessed record carries no results,
      and only a processed record can be flagged NSFW. */
  predicate WellFormedRecord(r: ImageResult)
  {
    && (!r.isProcessed ==> r.detectedObjects == [] && r.detectedNsfw == [] && r.outputImageUrl == "")
    && (r.isNsfw ==> r.isProcessed)
  }
}
