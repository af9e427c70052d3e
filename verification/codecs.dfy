/** internal/omr/codecs.go: RGBA images to gray matrices, and the M4t file format.

    A matrix is its type tag, its OpenCV type flag, its dimensions and its bytes in
    row-major order. LZ4 and the making of OpenCV matrices are functions of others. */
module Codecs {
  import opened Omr

  type Byte = b: nat | b < 0x100

  datatype Matrix = Matrix(kind: MatType, cvType: int, rows: nat, cols: nat, data: seq<Byte>)

  /** gocv.MatTypeCV8U */
  const CV_8U: int := 0

  /** A matrix as OpenCV has it. */
  datatype RawMat = RawMat(cvType: int, rows: nat, cols: nat, data: seq<Byte>)

  /** `newMatFromGoCV` */
  function FromGoCV(m: RawMat): Matrix {
    Matrix(if m.cvType == CV_8U then Gray else Unknown, m.cvType, m.rows, m.cols, m.data)
  }

  /** LZ4, and gocv.NewMatFromBytes on rows, columns, type flag and bytes. `Lawful` is
      all that is assumed of them: compressed bytes come back, an empty buffer is refused,
      and bytes that fill an 8-bit matrix of one channel make that matrix. */
  datatype Libs = Libs(compress: seq<Byte> -> seq<Byte>, decompress: seq<Byte> -> Option<seq<Byte>>,
                       newMat: (int, int, int, seq<Byte>) -> Option<RawMat>)
  {
    ghost predicate Lawful() {
      && (forall b: seq<Byte> :: decompress(compress(b)) == Some(b))
      && (forall rows, cols, cvType :: newMat(rows, cols, cvType, []) == None)
      && (forall rows: nat, cols: nat, b: seq<Byte> :: b != [] && |b| == rows * cols
            ==> newMat(rows, cols, CV_8U, b) == Some(RawMat(CV_8U, rows, cols, b)))
    }
  }

  // ----- RGBA to gray

  /** The luminosity computed by the source: 8-bit channels moved to the high byte. */
  function Luminosity(r: Byte, g: Byte, b: Byte): nat {
    (19595 * (r * 0x100) + 38470 * (g * 0x100) + 7471 * (b * 0x100) + 0x8000) / 0x100_0000
  }

  /** The formula its comment names, with `(x << 8) | x` for every channel. */
  function StandardLuminosity(r: Byte, g: Byte, b: Byte): nat {
    (19595 * (r * 0x101) + 38470 * (g * 0x101) + 7471 * (b * 0x101) + 0x8000) / 0x100_0000
  }

  /** No 32-bit sum overflows, the result is a byte, it is never above the standard
      one and at most 1 below it, and gray pixels keep their value. */
  lemma LuminosityError(r: Byte, g: Byte, b: Byte)
    ensures 19595 * (r * 0x100) + 38470 * (g * 0x100) + 7471 * (b * 0x100) + 0x8000 < 0x1_0000_0000
    ensures Luminosity(r, g, b) < 0x100
    ensures 0 <= StandardLuminosity(r, g, b) - Luminosity(r, g, b) <= 1
    ensures r == g == b ==> Luminosity(r, g, b) == r
  {
    var ours := 19595 * (r * 0x100) + 38470 * (g * 0x100) + 7471 * (b * 0x100) + 0x8000;
    var more := 19595 * r + 38470 * g + 7471 * b;
    assert 19595 * (r * 0x101) + 38470 * (g * 0x101) + 7471 * (b * 0x101) + 0x8000 == ours + more;
    assert 0 <= more < 0x100_0000;
  }

  /** The difference occurs: RGB (0, 0, 35). */
  lemma LuminosityErrorOccurs()
    ensures Luminosity(0, 0, 35) == 3 && StandardLuminosity(0, 0, 35) == 4
  {
  }

  /** Dimensions, stride and pixel buffer of an image.RGBA that belong together. */
  predicate ValidRgba(w: nat, h: nat, stride: nat, pix: seq<Byte>) {
    stride >= 4 * w && (w > 0 && h > 0 ==> |pix| >= (h - 1) * stride + 4 * w)
  }

  /** Where pixel (x, y) starts in the buffer of the image. */
  function Offset(stride: nat, x: nat, y: nat): nat {
    y * stride + x * 4
  }

  /** The cell of pixel (x, y) in a row-major matrix of width `w`. */
  function Cell(w: nat, x: nat, y: nat): nat {
    x + y * w
  }

  /** The gray value of pixel (x, y). */
  function GrayAt(stride: nat, pix: seq<Byte>, x: nat, y: nat): nat
    requires Offset(stride, x, y) + 3 < |pix|
  {
    var i := Offset(stride, x, y);
    Luminosity(pix[i], pix[i + 1], pix[i + 2])
  }

  /** Red, green and blue are the first three of the four bytes of a pixel; its gray value
      is their weighted sum over 2^16, rounded to the nearest. Rows lie `stride` bytes
      apart in the image, and w apart in the matrix. */
  lemma GrayPixel(w: nat, stride: nat, pix: seq<Byte>, x: nat, y: nat)
    requires y * stride + 4 * x + 3 < |pix|
    ensures Cell(w, x, y) == w * y + x
    ensures var i := y * stride + 4 * x;
            var gray: int, r: int, g: int, b: int := GrayAt(stride, pix, x, y), pix[i], pix[i + 1], pix[i + 2];
            gray * 0x1_0000 - 0x80 <= Weighted(r, g, b) < (gray + 1) * 0x1_0000 - 0x80
  {
    hide Luminosity, Weighted;
    var i := Offset(stride, x, y);
    assert i == y * stride + 4 * x;
    WeightedSum(pix[i], pix[i + 1], pix[i + 2]);
  }

  function Weighted(r: int, g: int, b: int): int {
    19595 * r + 38470 * g + 7471 * b
  }

  lemma WeightedSum(r: Byte, g: Byte, b: Byte)
    ensures var gray: int := Luminosity(r, g, b);
            gray * 0x1_0000 - 0x80 <= Weighted(r, g, b) < (gray + 1) * 0x1_0000 - 0x80
  {
    var sum: int := 19595 * (r * 0x100) + 38470 * (g * 0x100) + 7471 * (b * 0x100) + 0x8000;
    assert sum == 0x100 * Weighted(r, g, b) + 0x8000;
  }

  /** All four bytes of every pixel are in the buffer. */
  lemma PixelsInBuffer(w: nat, h: nat, stride: nat, pix: seq<Byte>)
    requires ValidRgba(w, h, stride, pix)
    ensures forall x: nat, y: nat :: x < w && y < h ==> Offset(stride, x, y) + 3 < |pix|
  {
    forall x: nat, y: nat | x < w && y < h
      ensures Offset(stride, x, y) + 3 < |pix|
    {
      assert y * stride <= (h - 1) * stride;
    }
  }

  /** The pixels of the image and the cells of the matrix correspond one to one. */
  lemma CellsInBounds(w: nat, h: nat)
    ensures forall x: nat, y: nat :: x < w && y < h ==> Cell(w, x, y) < w * h
  {
    forall x: nat, y: nat | x < w && y < h
      ensures Cell(w, x, y) < w * h
    {
      CellInBounds(w, h, x, y);
    }
  }

  lemma CellInBounds(w: nat, h: nat, x: nat, y: nat)
    requires x < w && y < h
    ensures x + y * w < w * h
  {
    var d: int := h - 1 - y;
    assert w * d >= 0;
    assert w * h == w * d + y * w + w;
  }

  lemma CellsDiffer(w: nat, x: nat, y: nat, x': nat, y': nat)
    requires x < w && x' < w && Cell(w, x, y) == Cell(w, x', y')
    ensures x == x' && y == y'
  {
    if y != y' {
      var d: int := y - y';
      assert d * w == x' - x;
      MulAtLeast(w, if d > 0 then d else -d);
    }
  }

  lemma CellsCover(w: nat, h: nat, n: nat) returns (x: nat, y: nat)
    requires n < w * h
    ensures x < w && y < h && Cell(w, x, y) == n
  {
    assert w > 0;
    x, y := n % w, n / w;
    assert n == w * y + x;
    FactorLess(w, y, h);
  }

  lemma FactorLess(w: nat, y: nat, h: nat)
    requires w * y < w * h
    ensures y < h
  {
  }

  lemma MulAtLeast(w: nat, d: int)
    requires d >= 1
    ensures w * d >= w
  {
    assert w * (d - 1) >= 0;
  }

  lemma OtherCells(w: nat, h: nat, x: nat, y: nat)
    requires x < w && y < h
    ensures forall x': nat, y': nat :: x' < w && y' < h && (x' != x || y' != y) ==> Cell(w, x', y') != Cell(w, x, y)
  {
    forall x': nat, y': nat | x' < w && y' < h && (x' != x || y' != y)
      ensures Cell(w, x', y') != Cell(w, x, y)
    {
      if Cell(w, x', y') == Cell(w, x, y) { CellsDiffer(w, x, y, x', y'); }
    }
  }

  lemma PixelAt(stride: nat, pix: seq<Byte>, x: nat, y: nat)
    requires Offset(stride, x, y) + 3 < |pix|
    ensures var i := Offset(stride, x, y);
            GrayAt(stride, pix, x, y) == Luminosity(pix[i], pix[i + 1], pix[i + 2]) < 0x100
  {
    var i := Offset(stride, x, y);
    LuminosityError(pix[i], pix[i + 1], pix[i + 2]);
    hide Luminosity, Offset;
  }

  /** Every cell of the result holds the gray value of its own pixel; the loops run
      column by column over a row-major buffer. Only an image without pixels fails. */
  method RgbaToMat(libs: Libs, w: nat, h: nat, stride: nat, pix: seq<Byte>) returns (r: Result<Matrix, Error>)
    requires libs.Lawful() && ValidRgba(w, h, stride, pix)
    ensures w * h == 0 ==> r == Failure(ErrOpenCV)
    ensures w * h > 0 ==> r.Success? && r.value == Matrix(Gray, CV_8U, h, w, r.value.data) && |r.value.data| == w * h
    ensures r.Success? ==> forall x: nat, y: nat :: x < w && y < h ==>
              Cell(w, x, y) < |r.value.data| && Offset(stride, x, y) + 3 < |pix|
              && r.value.data[Cell(w, x, y)] == GrayAt(stride, pix, x, y)
  {
    PixelsInBuffer(w, h, stride, pix);
    CellsInBounds(w, h);
    hide Luminosity, ValidRgba, Libs.Lawful, Cell, Offset, GrayAt;
    var bytes := new Byte[w * h];
    for x := 0 to w
      invariant forall x': nat, y': nat :: x' < x && y' < h ==> bytes[Cell(w, x', y')] == GrayAt(stride, pix, x', y')
    {
      for y := 0 to h
        invariant forall x': nat, y': nat :: x' < w && y' < h && (x' < x || (x' == x && y' < y))
                    ==> bytes[Cell(w, x', y')] == GrayAt(stride, pix, x', y')
      {
        var i := Offset(stride, x, y);
        PixelAt(stride, pix, x, y);
        var lum := Luminosity(pix[i], pix[i + 1], pix[i + 2]);
        OtherCells(w, h, x, y);
        bytes[Cell(w, x, y)] := lum;
      }
    }
    var m := libs.newMat(h, w, CV_8U, bytes[..]);
    EmptyOrFilled(libs, w, h, bytes[..]);
    if m.None? {
      return Failure(ErrOpenCV);
    }
    r := Success(FromGoCV(m.value));
  }

  lemma EmptyOrFilled(libs: Libs, w: nat, h: nat, bytes: seq<Byte>)
    requires libs.Lawful() && |bytes| == w * h
    ensures libs.newMat(h, w, CV_8U, bytes) == if w * h == 0 then None else Some(RawMat(CV_8U, h, w, bytes))
  {
    assert h * w == w * h;
  }

  // ----- M4t

  type Int32 = i: int | -0x8000_0000 <= i < 0x8000_0000

  /** Little endian, two's complement. */
  function PutInt32(i: Int32): (b: seq<Byte>)
    ensures |b| == 4
  {
    var u := if i < 0 then i + 0x1_0000_0000 else i;
    [u % 0x100, u / 0x100 % 0x100, u / 0x1_0000 % 0x100, u / 0x100_0000]
  }

  function Unsigned(b0: nat, b1: nat, b2: nat, b3: nat): nat {
    b0 + b1 * 0x100 + b2 * 0x1_0000 + b3 * 0x100_0000
  }

  function GetInt32(b: seq<Byte>): Int32
    requires |b| == 4
  {
    var u := Unsigned(b[0], b[1], b[2], b[3]);
    if u >= 0x8000_0000 then u - 0x1_0000_0000 else u
  }

  /** The first byte is the lowest; negative numbers count down from 2^32. */
  lemma LittleEndian(i: Int32)
    ensures var b := PutInt32(i);
            Unsigned(b[0], b[1], b[2], b[3]) == if i < 0 then 0x1_0000_0000 + i else i
  {
    Digits(if i < 0 then i + 0x1_0000_0000 else i);
  }

  lemma Digits(u: nat)
    ensures u == Unsigned(u % 0x100, u / 0x100 % 0x100, u / 0x1_0000 % 0x100, u / 0x100_0000)
  {
    assert u == u % 0x100 + (u / 0x100) * 0x100;
    assert u / 0x100 == u / 0x100 % 0x100 + (u / 0x1_0000) * 0x100;
    assert u / 0x1_0000 == u / 0x1_0000 % 0x100 + (u / 0x100_0000) * 0x100;
  }

  lemma Int32RoundTrip(i: Int32)
    ensures GetInt32(PutInt32(i)) == i
  {
    LittleEndian(i);
  }

  lemma Int32BytesRoundTrip(b: seq<Byte>)
    requires |b| == 4
    ensures PutInt32(GetInt32(b)) == b
  {
    var u := Unsigned(b[0], b[1], b[2], b[3]);
    var high: nat, mid: nat := b[3], b[2];
    assert u / 0x1_0000 == mid + high * 0x100;
    assert u / 0x100 == b[1] + (mid + high * 0x100) * 0x100;
  }

  /** The dimensions and the type flag fit OpenCV's 32-bit integers. */
  predicate Int32Header(m: Matrix) {
    m.rows < 0x8000_0000 && m.cols < 0x8000_0000 && -0x8000_0000 <= m.cvType < 0x8000_0000
  }

  function Header(m: Matrix): (b: seq<Byte>)
    requires Int32Header(m)
    ensures |b| == 12
  {
    PutInt32(m.rows) + PutInt32(m.cols) + PutInt32(m.cvType)
  }

  function M4t(libs: Libs, m: Matrix): Result<seq<Byte>, Error>
    requires Int32Header(m)
  {
    if m.kind == Unknown then Failure(ErrWrongMatType) else Success(Header(m) + libs.compress(m.data))
  }

  function FromM4t(libs: Libs, file: seq<Byte>): Result<Matrix, Error> {
    if |file| < 12 then Failure(ErrReading)
    else
      match libs.decompress(file[12..])
      case None => Failure(ErrDecoding)
      case Some(buf) =>
        match libs.newMat(GetInt32(file[0..4]), GetInt32(file[4..8]), GetInt32(file[8..12]), buf)
        case None => Failure(ErrDecoding)
        case Some(m) => Success(FromGoCV(m))
  }

  /** What goes wrong, if anything, outside the encoder: no pointer to the data, or a
      writer that takes only a part of the header or of the compressed data. The error of
      a write is that of the writer; one of closing the compressor, which writes the data
      it still holds, is dropped. */
  datatype WriteFault =
    | NoPointer
    | HeaderCut(length: nat, error: Error)
    | DataCut(part: seq<Byte>, error: Error)
    | CloseCut(part: seq<Byte>)

  /** What reaches the writer, and the error. */
  method EncodeM4t(libs: Libs, m: Matrix, fault: Option<WriteFault>) returns (written: seq<Byte>, err: Option<Error>)
    requires Int32Header(m)
    requires match fault case Some(HeaderCut(length, _)) => length <= 12 case _ => true
    ensures m.kind == Unknown ==> written == [] && err == Some(ErrWrongMatType)
    ensures m.kind != Unknown ==>
              match fault
              case None => err == None && M4t(libs, m) == Success(written)
              case Some(NoPointer) => written == [] && err == Some(ErrEncoding)
              case Some(HeaderCut(length, e)) => written == Header(m)[..length] && err == Some(e)
              case Some(DataCut(part, e)) => written == Header(m) + part && err == Some(e)
              case Some(CloseCut(part)) => written == Header(m) + part && err == None
  {
    if m.kind != Binary && m.kind != Gray {
      return [], Some(ErrWrongMatType);
    }
    if fault == Some(NoPointer) {
      return [], Some(ErrEncoding);
    }
    hide PutInt32;
    var header := new Byte[12];
    var fields: seq<Int32> := [m.rows, m.cols, m.cvType];
    for f := 0 to 3
      invariant f > 0 ==> header[0..4] == PutInt32(m.rows)
      invariant f > 1 ==> header[4..8] == PutInt32(m.cols)
      invariant f > 2 ==> header[8..12] == PutInt32(m.cvType)
    {
      var bytes := PutInt32(fields[f]);
      forall k | 0 <= k < 4 { header[4 * f + k] := bytes[k]; }
      assert header[4 * f..4 * f + 4] == bytes;
    }
    assert header[..] == header[0..4] + header[4..8] + header[8..12];
    if fault.Some? && fault.value.HeaderCut? {
      return header[..fault.value.length], Some(fault.value.error);
    }
    written := header[..];
    if fault.Some? && fault.value.DataCut? {
      return written + fault.value.part, Some(fault.value.error);
    }
    err := None;
    if fault.Some? {
      return written + fault.value.part, err;
    }
    written := written + libs.compress(m.data);
  }

  method DecodeM4t(libs: Libs, file: seq<Byte>) returns (r: Result<Matrix, Error>)
    ensures r == FromM4t(libs, file)
  {
    if |file| < 12 {
      return Failure(ErrReading);
    }
    hide GetInt32;
    var header := file[..12];
    var rows, cols, mt := GetInt32(header[0..4]), GetInt32(header[4..8]), GetInt32(header[8..12]);
    assert header[0..4] == file[0..4] && header[4..8] == file[4..8] && header[8..12] == file[8..12];
    var buf := libs.decompress(file[12..]);
    if buf.None? {
      return Failure(ErrDecoding);
    }
    var m := libs.newMat(rows, cols, mt, buf.value);
    r := match m case None => Failure(ErrDecoding) case Some(v) => Success(FromGoCV(v));
  }

  /** A file holds the rows, the columns and the type flag, four bytes each, and then the
      compressed data; only gray and binary matrices have one. */
  lemma M4tLayout(libs: Libs, m: Matrix)
    requires Int32Header(m)
    ensures match M4t(libs, m)
            case Failure(e) => m.kind == Unknown && e == ErrWrongMatType
            case Success(file) =>
              && (m.kind == Gray || m.kind == Binary)
              && |file| >= 12 && file[12..] == libs.compress(m.data)
              && GetInt32(file[..4]) == m.rows && GetInt32(file[4..8]) == m.cols && GetInt32(file[8..12]) == m.cvType
  {
    hide PutInt32, GetInt32;
    if m.kind != Unknown {
      var file := Header(m) + libs.compress(m.data);
      assert file[..4] == PutInt32(m.rows) && file[4..8] == PutInt32(m.cols) && file[8..12] == PutInt32(m.cvType);
      assert file[12..] == libs.compress(m.data);
      Int32RoundTrip(m.rows);
      Int32RoundTrip(m.cols);
      Int32RoundTrip(m.cvType);
    }
  }

  /** OpenCV makes this matrix of the header and the decompressed data of the file. */
  predicate MadeOf(libs: Libs, file: seq<Byte>, m: RawMat) {
    && |file| >= 12
    && var buf := libs.decompress(file[12..]);
       && buf.Some?
       && libs.newMat(GetInt32(file[..4]), GetInt32(file[4..8]), GetInt32(file[8..12]), buf.value) == Some(m)
  }

  /** Which files decode, and to what: the type is gray for 8-bit data of one channel. A
      file without a whole header cannot be read; any other that does not decode is an
      error of decoding. */
  lemma DecodesExactly(libs: Libs, file: seq<Byte>)
    ensures match FromM4t(libs, file)
            case Success(m) =>
              && MadeOf(libs, file, RawMat(m.cvType, m.rows, m.cols, m.data))
              && m.kind == if m.cvType == 0 then Gray else Unknown
            case Failure(e) => e == (if |file| < 12 then ErrReading else ErrDecoding) && forall m :: !MadeOf(libs, file, m)
  {
    if |file| >= 12 {
      assert file[..4] == file[0..4];
    }
  }

  /** A matrix with at least one cell and bytes that fill it. */
  predicate Storable(m: Matrix) {
    Int32Header(m) && m.cvType == CV_8U && m.data != [] && |m.data| == m.rows * m.cols
  }

  /** Files of gray and binary matrices decode to the same matrix, always typed
      gray; other matrices are refused. */
  lemma M4tRoundTrip(libs: Libs, m: Matrix)
    requires libs.Lawful() && Storable(m)
    ensures match M4t(libs, m)
            case Failure(e) => m.kind == Unknown && e == ErrWrongMatType
            case Success(file) => m.kind != Unknown && FromM4t(libs, file) == Success(m.(kind := Gray))
  {
    hide PutInt32, GetInt32;
    if m.kind != Unknown {
      var file := Header(m) + libs.compress(m.data);
      assert file[0..4] == PutInt32(m.rows) && file[4..8] == PutInt32(m.cols) && file[8..12] == PutInt32(m.cvType);
      assert file[12..] == libs.compress(m.data);
      Int32RoundTrip(m.rows);
      Int32RoundTrip(m.cols);
      Int32RoundTrip(m.cvType);
    }
  }
}
