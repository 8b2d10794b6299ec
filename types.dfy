/** Values shared by the scanner's components: frames, rectangles, contours
    and the results the DataMatrix decoder hands back. */
module ScanTypes {

  datatype Option<+T> = None | Some(value: T)

  newtype byte = x: int | 0 <= x < 256

  /** A pixel position (integers, as OpenCV and pylibdmtx report them). */
  datatype Point = Point(x: int, y: int)

  /** An axis-aligned rectangle: top-left corner, width and height. */
  datatype Rect = Rect(x: int, y: int, w: int, h: int)

  /** One external contour as the contour extractor reports it: its area
      (a float in OpenCV, exact here) and its bounding rectangle. */
  datatype Contour = Contour(area: real, bounds: Rect)

  /** A grey-scale frame: its shape and its samples, which the model never
      inspects itself (edge detection and decoding are parameters). */
  datatype Frame = Frame(width: nat, height: nat, pixels: seq<byte>)

  /** The image the decoder is run on: a crop of a frame or the whole frame. */
  datatype Region = Crop(frame: Frame, roi: Rect) | Whole(frame: Frame)

  /** One decoded symbol in the coordinates of the region it was found in.
      `polygon` is None when the result has no polygon attribute. */
  datatype RawResult = RawResult(data: seq<byte>, polygon: Option<seq<Point>>, rect: Rect)

  /** What one decoder call does: return its results, or raise. */
  datatype DecodeOutcome = Decoded(results: seq<RawResult>) | Raised

  /** A decoder result together with the origin of the region it came from. */
  datatype Tagged = Tagged(result: RawResult, origin: Point)

  /** The decoder, seen from the model: a total function of the region. */
  type Decoder = Region -> DecodeOutcome

  /** Lossy UTF-8 decoding of a payload (`errors="ignore"`): never fails. */
  type TextDecoder = seq<byte> -> string
}
