/** Vocabulary shared by the models of package omr: its named errors, those of others
    that it passes on, and the pair (value, error) that its functions return. */
module Omr {

  datatype Error =
    | ErrEncoding
    | ErrDecoding
    | ErrReading
    | ErrWriting
    | ErrWrongMatType
    | ErrEmptyMat
    | ErrOpenCV
    | ErrCannotMatchAnchor
    | ErrMaxIterations
    | ErrMatTypeMismatch
    | ErrIncompatiblePageCount
    | ErrIncompatibleAspect
    | ErrCouldNotCalibrate
    | Foreign(text: string)

  datatype Result<+T, +E> = Success(value: T) | Failure(error: E)

  datatype Option<+T> = None | Some(value: T)

  datatype Point = Point(x: int, y: int)

  datatype MatType = Unknown | Binary | Gray

  /** How far the aspect ratio of a page may be from that of its template. */
  const TOLERABLE_ASPECT_RATIO_DIFFERENCE := 0.10
}
