/**
  Packing a decoded picture: three planes, each with its own signed stride, are copied row by row
  into one tightly packed payload. Sizes and offsets are 64-bit, and no operation may wrap.
 */
module FrameExtractor {
  import opened Wrappers
  import opened Machine

  /** std::size_t and std::ptrdiff_t. Leaving the range is an error. */
  newtype Size = x: int | 0 <= x < 0x1_0000_0000_0000_0000
  newtype Difference = x: int | -0x8000_0000_0000_0000 <= x < 0x8000_0000_0000_0000

  /** A stride: an int whose negation is one too, since for any other taking its magnitude is undefined. */
  newtype Stride = x: int | -0x8000_0000 < x < 0x8000_0000

  // ---------- Pictures as values ----------

  /** A plane in memory: where its first visible row starts, how far apart rows are, and what of each is picture. */
  datatype PlaneImage = PlaneImage(bytes: seq<Byte>, origin: int, linesize: int, rows: nat, width: nat)

  function RowStart(p: PlaneImage, row: int): int {
    p.origin + row * p.linesize
  }

  predicate RowInMemory(p: PlaneImage, row: int) {
    0 <= RowStart(p, row) && RowStart(p, row) + p.width <= |p.bytes|
  }

  /** Every visible row lies in the plane's memory. */
  predicate Backed(p: PlaneImage) {
    forall row | 0 <= row < p.rows :: RowInMemory(p, row)
  }

  function Row(p: PlaneImage, row: nat): (s: seq<Byte>)
    requires RowInMemory(p, row)
    ensures |s| == p.width
  {
    p.bytes[RowStart(p, row)..RowStart(p, row) + p.width]
  }

  /** The byte that row and column of the picture show. */
  function Pixel(p: PlaneImage, row: nat, column: nat): Byte
    requires Backed(p) && row < p.rows && column < p.width
  {
    Row(p, row)[column]
  }

  /** The first n visible rows, one after the other. */
  function PackedRows(p: PlaneImage, n: nat): seq<Byte>
    requires Backed(p) && n <= p.rows
  {
    if n == 0 then [] else PackedRows(p, n - 1) + Row(p, n - 1)
  }

  function Packed(p: PlaneImage): seq<Byte>
    requires Backed(p)
  {
    PackedRows(p, p.rows)
  }

  function Area(rows: nat, width: nat): nat {
    rows * width
  }

  lemma AreaOneMore(rows: nat, width: nat)
    ensures Area(rows + 1, width) == Area(rows, width) + width
  {
  }

  lemma {:induction false} AreaGrows(rows: nat, more: nat, width: nat)
    requires rows <= more
    ensures Area(rows, width) <= Area(more, width)
  {
    if rows < more {
      AreaGrows(rows, more - 1, width);
      AreaOneMore(more - 1, width);
    }
  }

  lemma {:induction false} PackedLength(p: PlaneImage, n: nat)
    requires Backed(p) && n <= p.rows
    ensures |PackedRows(p, n)| == Area(n, p.width)
  {
    if n > 0 {
      PackedLength(p, n - 1);
      AreaOneMore(n - 1, p.width);
    }
  }

  lemma {:induction false} PackedPixelOf(p: PlaneImage, n: nat, row: nat, column: nat)
    requires Backed(p) && row < n <= p.rows && column < p.width
    ensures Area(row, p.width) + column < |PackedRows(p, n)|
    ensures PackedRows(p, n)[Area(row, p.width) + column] == Pixel(p, row, column)
  {
    PackedLength(p, n - 1);
    if row < n - 1 {
      PackedPixelOf(p, n - 1, row, column);
    }
  }

  /** The byte of a pixel stands at row * width + column of the packed plane. */
  lemma PackedPixel(p: PlaneImage, row: nat, column: nat)
    requires Backed(p) && row < p.rows && column < p.width
    ensures |Packed(p)| == p.rows * p.width
    ensures 0 <= row * p.width + column < |Packed(p)|
    ensures Packed(p)[row * p.width + column] == Pixel(p, row, column)
    ensures RowInMemory(p, row) && Pixel(p, row, column) == p.bytes[p.origin + row * p.linesize + column]
  {
    PackedLength(p, p.rows);
    PackedPixelOf(p, p.rows, row, column);
  }

  predicate SamePixels(p: PlaneImage, q: PlaneImage)
    requires Backed(p) && Backed(q) && p.rows == q.rows && p.width == q.width
  {
    forall row, column | 0 <= row < p.rows && 0 <= column < p.width :: Pixel(p, row, column) == Pixel(q, row, column)
  }

  lemma {:induction false} SameRowsPackAlike(p: PlaneImage, q: PlaneImage, n: nat)
    requires Backed(p) && Backed(q) && p.rows == q.rows && p.width == q.width && n <= p.rows
    requires SamePixels(p, q)
    ensures PackedRows(p, n) == PackedRows(q, n)
  {
    if n > 0 {
      SameRowsPackAlike(p, q, n - 1);
      var a, b := Row(p, n - 1), Row(q, n - 1);
      assert forall column | 0 <= column < p.width :: a[column] == Pixel(p, n - 1, column) == Pixel(q, n - 1, column);
    }
  }

  /** Two planes pack alike exactly when they show the same picture, whatever their strides and padding. */
  lemma PackedShowsPixels(p: PlaneImage, q: PlaneImage)
    requires Backed(p) && Backed(q) && p.rows == q.rows && p.width == q.width
    ensures Packed(p) == Packed(q) <==> SamePixels(p, q)
  {
    if SamePixels(p, q) {
      SameRowsPackAlike(p, q, p.rows);
    }
    if Packed(p) == Packed(q) {
      forall row, column | 0 <= row < p.rows && 0 <= column < p.width
        ensures Pixel(p, row, column) == Pixel(q, row, column)
      {
        PackedPixel(p, row, column);
        PackedPixel(q, row, column);
      }
    }
  }

  // ---------- Frames as values ----------

  /** The planes of an accepted frame. */
  datatype FrameImage = FrameImage(luma: PlaneImage, blue: PlaneImage, red: PlaneImage)

  predicate Proper(f: FrameImage, width: nat, height: nat) {
    && Backed(f.luma) && Backed(f.blue) && Backed(f.red)
    && f.luma.width == width && f.luma.rows == height
    && f.blue.width == f.red.width == Half(width) && f.blue.rows == f.red.rows == Half(height)
  }

  /** Chroma is half the picture, rounded up. */
  function Half(n: nat): nat {
    (n + 1) / 2
  }

  function PayloadSize(width: nat, height: nat): nat {
    Area(height, width) + Area(Half(height), Half(width)) + Area(Half(height), Half(width))
  }

  function PayloadOf(f: FrameImage): seq<Byte>
    requires Backed(f.luma) && Backed(f.blue) && Backed(f.red)
  {
    Packed(f.luma) + Packed(f.blue) + Packed(f.red)
  }

  /** The planes stand back to back and fill the payload. */
  lemma PlanesBackToBack(f: FrameImage, width: nat, height: nat)
    requires Proper(f, width, height)
    ensures |PayloadOf(f)| == PayloadSize(width, height)
    ensures forall row, column | 0 <= row < height && 0 <= column < width ::
              ByteAt(PayloadOf(f), 0, width, row, column) == Some(Pixel(f.luma, row, column))
    ensures forall row, column | 0 <= row < Half(height) && 0 <= column < Half(width) ::
              && ByteAt(PayloadOf(f), Area(height, width), Half(width), row, column) == Some(Pixel(f.blue, row, column))
              && ByteAt(PayloadOf(f), Area(height, width) + Area(Half(height), Half(width)), Half(width), row, column)
                 == Some(Pixel(f.red, row, column))
  {
    PlaneLengths(f, width, height);
    forall row, column | 0 <= row < height && 0 <= column < width
      ensures ByteAt(PayloadOf(f), 0, width, row, column) == Some(Pixel(f.luma, row, column))
    {
      PackedPixel(f.luma, row, column);
      ByteOfPart([], Packed(f.luma), Packed(f.blue) + Packed(f.red), width, row, column);
      assert PayloadOf(f) == [] + Packed(f.luma) + (Packed(f.blue) + Packed(f.red));
    }
    forall row, column | 0 <= row < Half(height) && 0 <= column < Half(width)
      ensures
        && ByteAt(PayloadOf(f), Area(height, width), Half(width), row, column) == Some(Pixel(f.blue, row, column))
        && ByteAt(PayloadOf(f), Area(height, width) + Area(Half(height), Half(width)), Half(width), row, column)
           == Some(Pixel(f.red, row, column))
    {
      ChromaByte(f, width, height, row, column);
    }
  }

  lemma ChromaByte(f: FrameImage, width: nat, height: nat, row: nat, column: nat)
    requires Proper(f, width, height) && row < Half(height) && column < Half(width)
    ensures ByteAt(PayloadOf(f), Area(height, width), Half(width), row, column) == Some(Pixel(f.blue, row, column))
    ensures ByteAt(PayloadOf(f), Area(height, width) + Area(Half(height), Half(width)), Half(width), row, column)
            == Some(Pixel(f.red, row, column))
  {
    var a, b, c := Packed(f.luma), Packed(f.blue), Packed(f.red);
    PlaneLengths(f, width, height);
    PackedPixel(f.blue, row, column);
    PackedPixel(f.red, row, column);
    ByteOfPart(a, b, c, Half(width), row, column);
    ByteOfPart(a + b, c, [], Half(width), row, column);
    assert a + b + c + [] == a + b + c;
  }

  /** How a reader of the payload addresses a byte: plane offset, stride, row and column. */
  function ByteAt(payload: seq<Byte>, offset: nat, stride: nat, row: nat, column: nat): Option<Byte> {
    var k := offset + row * stride + column;
    if k < |payload| then Some(payload[k]) else None
  }

  lemma ByteOfPart(a: seq<Byte>, b: seq<Byte>, c: seq<Byte>, stride: nat, row: nat, column: nat)
    requires row * stride + column < |b|
    ensures ByteAt(a + b + c, |a|, stride, row, column) == Some(b[row * stride + column])
  {
  }

  /** Frames that show the same picture give the same payload, and only those. */
  lemma PayloadShowsPicture(f: FrameImage, g: FrameImage, width: nat, height: nat)
    requires Proper(f, width, height) && Proper(g, width, height)
    ensures PayloadOf(f) == PayloadOf(g) <==>
              SamePixels(f.luma, g.luma) && SamePixels(f.blue, g.blue) && SamePixels(f.red, g.red)
  {
    PackedShowsPixels(f.luma, g.luma);
    PackedShowsPixels(f.blue, g.blue);
    PackedShowsPixels(f.red, g.red);
    PlaneLengths(f, width, height);
    PlaneLengths(g, width, height);
    SplitInThree(Packed(f.luma), Packed(f.blue), Packed(f.red), Packed(g.luma), Packed(g.blue), Packed(g.red));
  }

  lemma PlaneLengths(f: FrameImage, width: nat, height: nat)
    requires Proper(f, width, height)
    ensures |Packed(f.luma)| == Area(height, width)
    ensures |Packed(f.blue)| == |Packed(f.red)| == Area(Half(height), Half(width))
  {
    PackedLength(f.luma, height);
    PackedLength(f.blue, Half(height));
    PackedLength(f.red, Half(height));
  }

  lemma SplitInThree(a: seq<Byte>, b: seq<Byte>, c: seq<Byte>, a': seq<Byte>, b': seq<Byte>, c': seq<Byte>)
    requires |a| == |a'| && |b| == |b'|
    ensures a + b + c == a' + b' + c' <==> a == a' && b == b' && c == c'
  {
    var s, s' := a + b + c, a' + b' + c';
    assert a == s[..|a|] && b == s[|a|..|a| + |b|] && c == s[|a| + |b|..];
    assert a' == s'[..|a|] && b' == s'[|a|..|a| + |b|] && c' == s'[|a| + |b|..];
  }

  // ---------- Sizes ----------

  lemma AreaBound(rows: nat, width: nat, m: nat, n: nat)
    requires rows <= m && width <= n
    ensures Area(rows, width) <= m * n
  {
    AreaGrows(rows, m, width);
    AreaGrows(width, n, m);
    assert Area(m, width) == Area(width, m) && Area(n, m) == m * n;
  }

  /** For every picture an int can describe, the payload size and each sum on the way to it fit 64 bits. */
  lemma PayloadSizeFits(width: nat, height: nat)
    requires 0 < width < 0x8000_0000 && 0 < height < 0x8000_0000
    ensures Area(height, width) <= 0x3FFF_FFFF_0000_0001
    ensures Area(Half(height), Half(width)) <= 0x1000_0000_0000_0000
    ensures 0 < PayloadSize(width, height) < 0x1_0000_0000_0000_0000
  {
    AreaBound(height, width, 0x7FFF_FFFF, 0x7FFF_FFFF);
    AreaBound(Half(height), Half(width), 0x4000_0000, 0x4000_0000);
    AreaGrows(1, height, width);
  }

  // ---------- Frames in memory ----------

  datatype Source = Missing | Memory(bytes: array<Byte>, origin: nat)

  datatype Format = Yuv420p | Yuvj420p | OtherFormat

  /** What the decoder hands over. */
  datatype Frame = Frame(format: Format, width: Int32, height: Int32, data: seq<Source>, linesize: seq<Stride>)

  datatype Failure = UnsupportedFormat | NoPictureArea | MissingPlane | NarrowStride

  datatype DecodedFrame = DecodedFrame(pts: int, duration: int, width: Int32, height: Int32, linesize: seq<Int32>,
                                       payload: seq<Byte>)

  datatype PlaneCopy = PlaneCopy(source: Source, linesize: Stride, rows: Size, width: Size)

  ghost function ImageOf(p: PlaneCopy): PlaneImage
    requires p.source.Memory?
    reads p.source.bytes
  {
    PlaneImage(p.source.bytes[..], p.source.origin, p.linesize as int, p.rows as nat, p.width as nat)
  }

  function Magnitude(n: Stride): Stride {
    if n < 0 then -n else n
  }

  /** What keeps a plane from being read row by row, if anything. */
  function PlaneFailure(p: PlaneCopy): Option<Failure> {
    if p.source.Missing? then Some(MissingPlane)
    else if Magnitude(p.linesize) as int < p.width as int then Some(NarrowStride)
    else None
  }

  function FirstFailure(planes: seq<PlaneCopy>): (r: Option<Failure>)
    ensures r.None? ==> forall k | 0 <= k < |planes| :: planes[k].source.Memory?
  {
    if planes == [] then None
    else if PlaneFailure(planes[0]).Some? then PlaneFailure(planes[0])
    else FirstFailure(planes[1..])
  }

  /** The three planes of a frame with a picture area. */
  function PlanesOf(f: Frame): seq<PlaneCopy>
    requires f.width > 0 && f.height > 0 && |f.data| == |f.linesize| == 3
  {
    var width, height := f.width as Size, f.height as Size;
    [PlaneCopy(f.data[0], f.linesize[0], height, width),
     PlaneCopy(f.data[1], f.linesize[1], (height + 1) / 2, (width + 1) / 2),
     PlaneCopy(f.data[2], f.linesize[2], (height + 1) / 2, (width + 1) / 2)]
  }

  /** Why a frame is refused, if it is. */
  function FrameFailure(f: Frame): Option<Failure>
    requires |f.data| == |f.linesize| == 3
  {
    if f.format == OtherFormat then Some(UnsupportedFormat)
    else if f.width <= 0 || f.height <= 0 then Some(NoPictureArea)
    else FirstFailure(PlanesOf(f))
  }

  /** Copies n bytes between two arrays. */
  method CopyBytes(source: array<Byte>, from: nat, destination: array<Byte>, to: nat, n: nat)
    requires source != destination && from + n <= source.Length && to + n <= destination.Length
    modifies destination
    ensures destination[..] ==
            old(destination[..])[..to] + old(source[..])[from..from + n] + old(destination[..])[to + n..]
  {
    forall k | 0 <= k < n {
      destination[to + k] := source[from + k];
    }
  }

  lemma ProductBound(a: int, b: int, m: int)
    requires 0 <= a < 0x8000_0000 && 0 <= m && -m <= b <= m
    ensures -0x8000_0000 * m <= a * b <= 0x8000_0000 * m
  {
    ProductsNotNegative(a, m - b);
    ProductsNotNegative(a, m + b);
    ProductsNotNegative(0x8000_0000 - a, m);
    assert a * (m - b) == a * m - a * b && a * (m + b) == a * m + a * b;
    assert (0x8000_0000 - a) * m == 0x8000_0000 * m - a * m;
  }

  lemma ProductsNotNegative(a: int, b: int)
    requires a >= 0 && b >= 0
    ensures a * b >= 0
  {
  }

  /** Addressing a row stays within 64 bits. */
  lemma RowFits(copy: PlaneCopy, index: Size)
    requires index < copy.rows < 0x8000_0000 && copy.width < 0x8000_0000
    ensures -0x8000_0000_0000_0000 <= (index as int) * (copy.linesize as int) < 0x8000_0000_0000_0000
    ensures (index as int) * (copy.width as int) < 0x8000_0000_0000_0000
    ensures (index as int) * (copy.width as int) == Area(index as int, copy.width as int)
    ensures Area(index as int, copy.width as int) + copy.width as int == Area(index as int + 1, copy.width as int)
    ensures Area(index as int + 1, copy.width as int) <= Area(copy.rows as int, copy.width as int)
  {
    ProductBound(index as int, copy.linesize as int, 0x7FFF_FFFF);
    ProductBound(index as int, copy.width as int, 0x7FFF_FFFF);
    AreaOneMore(index as int, copy.width as int);
    AreaGrows(index as int + 1, copy.rows as int, copy.width as int);
  }

  /** Where a row starts, from the first one: computed in 64 bits, by the signed stride. */
  function RowOffset(copy: PlaneCopy, index: Size): (d: Difference)
    requires index < copy.rows < 0x8000_0000 && copy.width < 0x8000_0000
    ensures forall p: PlaneImage :: p.linesize == copy.linesize as int ==>
              RowStart(p, index as int) == p.origin + d as int
  {
    RowFits(copy, index);
    index as Difference * copy.linesize as Difference
  }

  /** Where a row goes: computed in 64 bits. */
  function PackedOffset(copy: PlaneCopy, index: Size): (d: Size)
    requires index < copy.rows < 0x8000_0000 && copy.width < 0x8000_0000
    ensures d as int == Area(index as int, copy.width as int)
  {
    RowFits(copy, index);
    index * copy.width
  }

  predicate Fits(length: nat, base: nat, rows: nat, width: nat) {
    base + Area(rows, width) <= length
  }

  /** The destination once n rows have been copied to base. */
  function Filled(was: seq<Byte>, base: nat, p: PlaneImage, n: nat): seq<Byte>
    requires Backed(p) && n <= p.rows && Fits(|was|, base, n, p.width)
  {
    was[..base] + PackedRows(p, n) + was[base + Area(n, p.width)..]
  }

  lemma RowAppended(d: seq<Byte>, before: seq<Byte>, packed: seq<Byte>, rest: seq<Byte>, row: seq<Byte>)
    requires d == before + packed + rest && |row| <= |rest|
    ensures d[..|before| + |packed|] + row + d[|before| + |packed| + |row|..] == before + (packed + row) + rest[|row|..]
  {
  }

  lemma FilledOneMore(was: seq<Byte>, base: nat, p: PlaneImage, n: nat)
    requires Backed(p) && n < p.rows && Fits(|was|, base, n, p.width) && Fits(|was|, base, n + 1, p.width)
    ensures
      var d, to := Filled(was, base, p, n), base + Area(n, p.width);
      && |d| == |was| && to + p.width <= |was|
      && Filled(was, base, p, n + 1) == d[..to] + Row(p, n) + d[to + p.width..]
  {
    AreaOneMore(n, p.width);
    PackedLength(p, n);
    RowAppended(Filled(was, base, p, n), was[..base], PackedRows(p, n), was[base + Area(n, p.width)..], Row(p, n));
    assert was[base + Area(n, p.width)..][p.width..] == was[base + Area(n + 1, p.width)..];
  }

  lemma RowIsSlice(p: PlaneImage, row: nat, from: int)
    requires Backed(p) && row < p.rows && from == RowStart(p, row)
    ensures 0 <= from && from + p.width <= |p.bytes| && p.bytes[from..from + p.width] == Row(p, row)
  {
    assert RowInMemory(p, row);
  }

  lemma RowCopied(was: seq<Byte>, base: nat, p: PlaneImage, row: nat, from: int, to: nat)
    requires Backed(p) && row < p.rows && from == RowStart(p, row) && to == base + Area(row, p.width)
    requires Fits(|was|, base, row, p.width) && Fits(|was|, base, row + 1, p.width)
    ensures
      var d := Filled(was, base, p, row);
      && 0 <= from && from + p.width <= |p.bytes| && to + p.width <= |d|
      && Filled(was, base, p, row + 1) == d[..to] + p.bytes[from..from + p.width] + d[to + p.width..]
  {
    RowIsSlice(p, row, from);
    FilledOneMore(was, base, p, row);
  }

  /** One round of the copying loop, its addresses worked out. */
  method CopyRow(ghost p: PlaneImage, ghost row: nat, source: array<Byte>, from: int, destination: array<Byte>, to: nat,
                 width: nat, ghost base: nat, ghost was: seq<Byte>)
    requires Backed(p) && row < p.rows && source != destination && p.bytes == source[..] && p.width == width
    requires from == RowStart(p, row) && to == base + Area(row, p.width)
    requires Fits(|was|, base, row, p.width) && Fits(|was|, base, row + 1, p.width)
    requires destination[..] == Filled(was, base, p, row)
    modifies destination
    ensures destination[..] == Filled(was, base, p, row + 1)
  {
    RowIsSlice(p, row, from);
    RowCopied(was, base, p, row, from, to);
    CopyBytes(source, from, destination, to, width);
  }

  /** Copies the visible bytes of one plane into a tightly packed destination. */
  method CopyPlane(copy: PlaneCopy, destination: array<Byte>, base: nat)
    requires copy.source.Memory? && copy.source.bytes != destination && Backed(ImageOf(copy))
    requires copy.rows < 0x8000_0000 && copy.width < 0x8000_0000
    requires Fits(destination.Length, base, copy.rows as int, copy.width as int)
    modifies destination
    ensures destination[..] == Filled(old(destination[..]), base, old(ImageOf(copy)), copy.rows as int)
  {
    ghost var was, image := destination[..], ImageOf(copy);
    var index: Size := 0;
    AreaGrows(0, copy.rows as int, copy.width as int);
    while index < copy.rows
      invariant index <= copy.rows && Fits(|was|, base, index as int, copy.width as int)
      invariant image == ImageOf(copy) && destination[..] == Filled(was, base, image, index as int)
    {
      AreaGrows(index as int + 1, copy.rows as int, copy.width as int);
      CopyRow(image, index as int, copy.source.bytes, copy.source.origin + RowOffset(copy, index) as int,
              destination, base + PackedOffset(copy, index) as int, copy.width as int, base, was);
      index := index + 1;
    }
  }

  method RequireReadablePlanes(planes: seq<PlaneCopy>) returns (failure: Option<Failure>)
    ensures failure == FirstFailure(planes)
  {
    var k := 0;
    while k < |planes|
      invariant k <= |planes| && FirstFailure(planes) == FirstFailure(planes[k..])
    {
      if PlaneFailure(planes[k]).Some? {
        return PlaneFailure(planes[k]);
      }
      k := k + 1;
    }
    failure := None;
  }

  /** What the planes show, one after the other. */
  function PackedPlanes(images: seq<PlaneImage>, n: nat): seq<Byte>
    requires n <= |images| && forall k | 0 <= k < |images| :: Backed(images[k])
  {
    if n == 0 then [] else PackedPlanes(images, n - 1) + Packed(images[n - 1])
  }

  function TotalArea(planes: seq<PlaneCopy>, n: nat): nat
    requires n <= |planes|
  {
    if n == 0 then 0 else TotalArea(planes, n - 1) + Area(planes[n - 1].rows as int, planes[n - 1].width as int)
  }

  lemma TotalOfFrame(f: Frame)
    requires f.width > 0 && f.height > 0 && |f.data| == |f.linesize| == 3
    ensures
      var planes := PlanesOf(f);
      && TotalArea(planes, 3) == PayloadSize(f.width as int, f.height as int)
      && (forall k | 0 <= k < 3 :: planes[k].rows < 0x8000_0000 && planes[k].width < 0x8000_0000)
      && (forall k | 0 <= k < 3 :: TotalArea(planes, k) <= TotalArea(planes, 3))
  {
    var planes := PlanesOf(f);
    assert TotalArea(planes, 0) == 0;
    assert TotalArea(planes, 1) == Area(planes[0].rows as int, planes[0].width as int);
    assert TotalArea(planes, 2) == TotalArea(planes, 1) + Area(planes[1].rows as int, planes[1].width as int);
    assert TotalArea(planes, 3) == TotalArea(planes, 2) + Area(planes[2].rows as int, planes[2].width as int);
  }

  ghost function FrameImageOf(f: Frame): FrameImage
    requires |f.data| == |f.linesize| == 3 && FrameFailure(f).None?
    reads set s | s in f.data && s.Memory? :: s.bytes
  {
    var planes := PlanesOf(f);
    FrameImage(ImageOf(planes[0]), ImageOf(planes[1]), ImageOf(planes[2]))
  }

  /** The planes of an accepted frame lie in memory, as the decoder promises. */
  ghost predicate FrameBacked(f: Frame)
    requires |f.data| == |f.linesize| == 3 && FrameFailure(f).None?
    reads set s | s in f.data && s.Memory? :: s.bytes
  {
    var image := FrameImageOf(f);
    Backed(image.luma) && Backed(image.blue) && Backed(image.red)
  }

  /** The payload once n planes have been copied. */
  predicate CopiedPlanes(payload: seq<Byte>, planes: seq<PlaneCopy>, images: seq<PlaneImage>, n: nat)
    requires n <= |planes| == |images| && forall k | 0 <= k < |images| :: Backed(images[k])
  {
    && TotalArea(planes, n) <= |payload|
    && payload[..TotalArea(planes, n)] == PackedPlanes(images, n)
  }

  lemma PlaneAppended(was: seq<Byte>, planes: seq<PlaneCopy>, images: seq<PlaneImage>, n: nat, now: seq<Byte>)
    requires n < |planes| == |images| && forall k | 0 <= k < |images| :: Backed(images[k])
    requires images[n].rows == planes[n].rows as int && images[n].width == planes[n].width as int
    requires CopiedPlanes(was, planes, images, n) && TotalArea(planes, n + 1) <= |was|
    requires now == Filled(was, TotalArea(planes, n), images[n], images[n].rows)
    ensures CopiedPlanes(now, planes, images, n + 1) && |now| == |was|
  {
    PackedLength(images[n], images[n].rows);
    var offset, next := TotalArea(planes, n), TotalArea(planes, n + 1);
    assert now[..next] == was[..offset] + Packed(images[n]);
  }

  /** Copies one plane behind those already there. */
  method AddPlane(planes: seq<PlaneCopy>, ghost images: seq<PlaneImage>, k: nat, payload: array<Byte>, offset: Size)
    requires k < |planes| == |images| && forall j | 0 <= j < |images| :: Backed(images[j])
    requires planes[k].source.Memory? && planes[k].source.bytes != payload && images[k] == ImageOf(planes[k])
    requires planes[k].rows < 0x8000_0000 && planes[k].width < 0x8000_0000
    requires offset as int == TotalArea(planes, k) && TotalArea(planes, |planes|) == payload.Length
    requires CopiedPlanes(payload[..], planes, images, k)
    modifies payload
    ensures CopiedPlanes(payload[..], planes, images, k + 1)
  {
    TotalAreaGrows(planes, k + 1, |planes|);
    ghost var was := payload[..];
    CopyPlane(planes[k], payload, offset as int);
    PlaneAppended(was, planes, images, k, payload[..]);
  }

  /** Copies the planes of an accepted frame back to back into a payload of the given size. */
  method PackPlanes(planes: seq<PlaneCopy>, ghost images: seq<PlaneImage>, payloadSize: Size)
      returns (payload: array<Byte>)
    requires |planes| == |images|
    requires forall k | 0 <= k < |planes| ::
               planes[k].source.Memory? && images[k] == ImageOf(planes[k]) && Backed(images[k])
    requires forall k | 0 <= k < |planes| :: planes[k].rows < 0x8000_0000 && planes[k].width < 0x8000_0000
    requires TotalArea(planes, |planes|) == payloadSize as int
    ensures fresh(payload) && payload[..] == PackedPlanes(images, |planes|)
  {
    payload := new Byte[payloadSize](_ => 0);
    var offset: Size := 0;
    var k := 0;
    while k < |planes|
      invariant k <= |planes| && offset as int == TotalArea(planes, k) && payload.Length == payloadSize as int
      invariant CopiedPlanes(payload[..], planes, images, k)
    {
      AddPlane(planes, images, k, payload, offset);
      TotalAreaGrows(planes, k + 1, |planes|);
      offset := offset + PlaneSize(planes[k]);
      k := k + 1;
    }
    assert payload[..payload.Length] == payload[..];
  }

  function PlaneSize(p: PlaneCopy): (n: Size)
    requires p.rows < 0x8000_0000 && p.width < 0x8000_0000
    ensures n as int == Area(p.rows as int, p.width as int)
  {
    AreaBound(p.rows as int, p.width as int, 0x7FFF_FFFF, 0x7FFF_FFFF);
    p.rows * p.width
  }

  lemma {:induction false} TotalAreaGrows(planes: seq<PlaneCopy>, n: nat, m: nat)
    requires n <= m <= |planes|
    ensures TotalArea(planes, n) <= TotalArea(planes, m)
  {
    if n < m {
      TotalAreaGrows(planes, n, m - 1);
    }
  }

  lemma DoubleArea(width: int, height: int)
    requires 0 <= width <= 0x4000_0000 && 0 <= height <= 0x4000_0000
    ensures 0 <= 2 * width * height == Area(height, width) + Area(height, width) <= 0x2000_0000_0000_0000
  {
    AreaBound(height, width, 0x4000_0000, 0x4000_0000);
    assert 2 * width * height == 2 * (width * height);
  }

  /** width * height + 2 * half width * half height, in 64 bits. */
  function PayloadBytes(width: Size, height: Size): (n: Size)
    requires 0 < width < 0x8000_0000 && 0 < height < 0x8000_0000
    ensures n as int == PayloadSize(width as int, height as int)
  {
    PayloadSizeFits(width as int, height as int);
    var chromaWidth, chromaHeight := (width + 1) / 2, (height + 1) / 2;
    DoubleArea(chromaWidth as int, chromaHeight as int);
    assert (width as int) * (height as int) == Area(height as int, width as int);
    width * height + 2 * chromaWidth * chromaHeight
  }

  /** The stride of the packed chroma planes. */
  function ChromaStride(width: Int32): Int32
    requires width > 0
  {
    ((width as Size + 1) / 2) as Int32
  }

  method PackFrame(frame: Frame, planes: seq<PlaneCopy>, payloadSize: Size) returns (payload: seq<Byte>)
    requires |frame.data| == |frame.linesize| == 3 && FrameFailure(frame).None? && FrameBacked(frame)
    requires planes == PlanesOf(frame) && payloadSize as int == PayloadSize(frame.width as int, frame.height as int)
    ensures payload == PayloadOf(FrameImageOf(frame))
  {
    ghost var image := FrameImageOf(frame);
    TotalOfFrame(frame);
    PackedThree(image);
    var packed := PackPlanes(planes, [image.luma, image.blue, image.red], payloadSize);
    payload := packed[..];
  }

  method ExtractDecodedFrame(frame: Frame, pts: int, duration: int) returns (r: Result<DecodedFrame, Failure>)
    requires |frame.data| == |frame.linesize| == 3
    requires FrameFailure(frame).None? ==> FrameBacked(frame)
    ensures FrameFailure(frame).Some? ==> r == Err(FrameFailure(frame).value)
    ensures FrameFailure(frame).None? ==>
              r == Ok(DecodedFrame(pts, duration, frame.width, frame.height,
                                   [frame.width, ChromaStride(frame.width), ChromaStride(frame.width), 0],
                                   PayloadOf(FrameImageOf(frame))))
    ensures r.Ok? ==> Shows(r.value, frame) && r.value.pts == pts && r.value.duration == duration
  {
    if frame.format == OtherFormat {
      return Err(UnsupportedFormat);
    }
    if frame.width <= 0 || frame.height <= 0 {
      return Err(NoPictureArea);
    }
    var planes := PlanesOf(frame);
    var payloadSize := PayloadBytes(frame.width as Size, frame.height as Size);
    var failure := RequireReadablePlanes(planes);
    if failure.Some? {
      return Err(failure.value);
    }
    var payload := PackFrame(frame, planes, payloadSize);
    var chroma := ChromaStride(frame.width);
    r := Ok(DecodedFrame(pts, duration, frame.width, frame.height, [frame.width, chroma, chroma, 0], payload));
    PayloadShowsFrame(frame, r.value);
  }

  // ---------- The result, told from the frame alone ----------

  /** How far plane 0, luma, or planes 1 and 2, blue and red, extend where the picture extends n. */
  function Extent(plane: nat, n: nat): nat {
    if plane == 0 then n else (n + 1) / 2
  }

  /** Where a plane starts in the payload. */
  function PlaneOffset(plane: nat, width: nat, height: nat): nat {
    if plane == 0 then 0
    else if plane == 1 then width * height
    else width * height + ((width + 1) / 2) * ((height + 1) / 2)
  }

  /** The byte that the frame shows there: so many strides and columns from the start of the plane's data. */
  function SourceByte(f: Frame, plane: nat, row: nat, column: nat): Option<Byte>
    requires plane < |f.data| == |f.linesize|
    reads set s | s in f.data && s.Memory? :: s.bytes
  {
    if f.data[plane].Missing? then None
    else
      var k := f.data[plane].origin + row * f.linesize[plane] as int + column;
      if 0 <= k < f.data[plane].bytes.Length then Some(f.data[plane].bytes[k]) else None
  }

  /** A reader who uses the packed stride finds in the payload every byte of the plane. */
  ghost predicate PlaneShown(r: DecodedFrame, f: Frame, plane: nat)
    requires plane < |f.data| == |f.linesize| == 3 && |r.linesize| == 4 && f.width > 0 && f.height > 0
    reads set s | s in f.data && s.Memory? :: s.bytes
  {
    var width, height := f.width as nat, f.height as nat;
    && r.linesize[plane] as int == Extent(plane, width)
    && forall row, column | 0 <= row < Extent(plane, height) && 0 <= column < Extent(plane, width) ::
         && SourceByte(f, plane, row, column).Some?
         && ByteAt(r.payload, PlaneOffset(plane, width, height), Extent(plane, width), row, column)
            == SourceByte(f, plane, row, column)
  }

  /** The result has the frame's geometry, and each plane of the frame in its place. */
  ghost predicate Shows(r: DecodedFrame, f: Frame)
    requires |f.data| == |f.linesize| == 3
    reads set s | s in f.data && s.Memory? :: s.bytes
  {
    && f.width > 0 && f.height > 0 && r.width == f.width && r.height == f.height
    && |r.linesize| == 4 && r.linesize[3] == 0
    && |r.payload| == f.width as int * f.height as int
                      + 2 * (((f.width as int + 1) / 2) * ((f.height as int + 1) / 2))
    && PlaneShown(r, f, 0) && PlaneShown(r, f, 1) && PlaneShown(r, f, 2)
  }

  lemma ImageShows(f: Frame, p: PlaneCopy, plane: nat, row: nat, column: nat)
    requires plane < |f.data| == |f.linesize| && p.source == f.data[plane] && p.linesize == f.linesize[plane]
    requires p.source.Memory? && Backed(ImageOf(p)) && row < p.rows as int && column < p.width as int
    ensures SourceByte(f, plane, row, column) == Some(Pixel(ImageOf(p), row, column))
  {
    PackedPixel(ImageOf(p), row, column);
  }

  lemma PayloadShowsFrame(f: Frame, r: DecodedFrame)
    requires |f.data| == |f.linesize| == 3 && FrameFailure(f).None? && FrameBacked(f)
    requires r.width == f.width && r.height == f.height && r.payload == PayloadOf(FrameImageOf(f))
    requires r.linesize == [f.width, ChromaStride(f.width), ChromaStride(f.width), 0]
    ensures Shows(r, f)
  {
    var width, height, image := f.width as nat, f.height as nat, FrameImageOf(f);
    AcceptedIsProper(f);
    PlanesBackToBack(image, width, height);
    OffsetsAreAreas(width, height);
    var planes := PlanesOf(f);
    forall row, column | 0 <= row < height && 0 <= column < width
      ensures SourceByte(f, 0, row, column) == Some(Pixel(image.luma, row, column))
    {
      ImageShows(f, planes[0], 0, row, column);
    }
    forall row, column | 0 <= row < Half(height) && 0 <= column < Half(width)
      ensures SourceByte(f, 1, row, column) == Some(Pixel(image.blue, row, column))
      ensures SourceByte(f, 2, row, column) == Some(Pixel(image.red, row, column))
    {
      ImageShows(f, planes[1], 1, row, column);
      ImageShows(f, planes[2], 2, row, column);
    }
  }

  lemma OffsetsAreAreas(width: nat, height: nat)
    ensures PlaneOffset(1, width, height) == Area(height, width)
    ensures PlaneOffset(2, width, height) == Area(height, width) + Area(Half(height), Half(width))
    ensures PayloadSize(width, height) == width * height + 2 * (((width + 1) / 2) * ((height + 1) / 2))
  {
    assert Area(height, width) == width * height;
    assert Area(Half(height), Half(width)) == ((width + 1) / 2) * ((height + 1) / 2);
  }

  lemma PackedThree(f: FrameImage)
    requires Backed(f.luma) && Backed(f.blue) && Backed(f.red)
    ensures PackedPlanes([f.luma, f.blue, f.red], 3) == PayloadOf(f)
  {
    var images := [f.luma, f.blue, f.red];
    assert PackedPlanes(images, 1) == Packed(f.luma);
    assert PackedPlanes(images, 2) == Packed(f.luma) + Packed(f.blue);
  }

  /** A plane can be read row by row. */
  predicate Readable(source: Source, linesize: Stride, width: int) {
    source.Memory? && (linesize as int >= width || -(linesize as int) >= width)
  }

  /** A frame is accepted exactly when it is 4:2:0, has a picture, and its three planes can be read. */
  lemma AcceptedExactlyWhen(f: Frame)
    requires |f.data| == |f.linesize| == 3
    ensures FrameFailure(f).None? <==>
              && f.format != OtherFormat && f.width > 0 && f.height > 0
              && Readable(f.data[0], f.linesize[0], f.width as int)
              && Readable(f.data[1], f.linesize[1], Half(f.width as nat))
              && Readable(f.data[2], f.linesize[2], Half(f.width as nat))
  {
    if f.format != OtherFormat && f.width > 0 && f.height > 0 {
      var planes := PlanesOf(f);
      FirstFailureOfThree(planes[0], planes[1], planes[2]);
      assert planes == [planes[0], planes[1], planes[2]];
    }
  }

  /** The first plane that cannot be read, and why. */
  predicate FirstUnreadable(f: Frame, plane: nat)
    requires |f.data| == |f.linesize| == 3
  {
    && plane < 3 && f.width > 0 && !Readable(f.data[plane], f.linesize[plane], Extent(plane, f.width as nat))
    && forall j | 0 <= j < plane :: Readable(f.data[j], f.linesize[j], Extent(j, f.width as nat))
  }

  /** Format before area, area before planes, and the first bad plane decides. */
  lemma RefusedExactlyWhen(f: Frame)
    requires |f.data| == |f.linesize| == 3
    ensures FrameFailure(f) == Some(UnsupportedFormat) <==> f.format == OtherFormat
    ensures FrameFailure(f) == Some(NoPictureArea) <==> f.format != OtherFormat && (f.width <= 0 || f.height <= 0)
    ensures f.format != OtherFormat && f.width > 0 && f.height > 0 ==>
              && (FrameFailure(f) == Some(MissingPlane) <==>
                    exists k: nat :: FirstUnreadable(f, k) && f.data[k].Missing?)
              && (FrameFailure(f) == Some(NarrowStride) <==>
                    exists k: nat :: FirstUnreadable(f, k) && f.data[k].Memory?)
  {
    if f.format != OtherFormat && f.width > 0 && f.height > 0 {
      var planes := PlanesOf(f);
      assert planes == [planes[0], planes[1], planes[2]];
      FailureOfThree(planes[0], planes[1], planes[2]);
      assert forall k: nat | FirstUnreadable(f, k) :: k == 0 || k == 1 || k == 2;
      assert FirstUnreadable(f, 0) <==> PlaneFailure(planes[0]).Some?;
      assert FirstUnreadable(f, 1) <==> PlaneFailure(planes[0]).None? && PlaneFailure(planes[1]).Some?;
      assert FirstUnreadable(f, 2) <==>
               PlaneFailure(planes[0]).None? && PlaneFailure(planes[1]).None? && PlaneFailure(planes[2]).Some?;
    }
  }

  lemma FailureOfThree(a: PlaneCopy, b: PlaneCopy, c: PlaneCopy)
    ensures FirstFailure([a, b, c]) == if PlaneFailure(a).Some? then PlaneFailure(a)
                                       else if PlaneFailure(b).Some? then PlaneFailure(b) else PlaneFailure(c)
  {
    assert [a, b, c][1..] == [b, c] && [b, c][1..] == [c] && [c][1..] == [];
    assert FirstFailure([c]) == PlaneFailure(c);
    assert FirstFailure([b, c]) == if PlaneFailure(b).Some? then PlaneFailure(b) else FirstFailure([c]);
  }

  lemma FirstFailureOfThree(a: PlaneCopy, b: PlaneCopy, c: PlaneCopy)
    ensures FirstFailure([a, b, c]).None? <==>
              PlaneFailure(a).None? && PlaneFailure(b).None? && PlaneFailure(c).None?
  {
    assert [a, b, c][1..] == [b, c] && [b, c][1..] == [c] && [c][1..] == [];
    assert FirstFailure([c]).None? <==> PlaneFailure(c).None?;
    assert FirstFailure([b, c]).None? <==> PlaneFailure(b).None? && FirstFailure([c]).None?;
  }

  /** The images of an accepted frame are those of a picture of its size. */
  lemma AcceptedIsProper(f: Frame)
    requires |f.data| == |f.linesize| == 3 && FrameFailure(f).None? && FrameBacked(f)
    ensures Proper(FrameImageOf(f), f.width as nat, f.height as nat)
  {
  }

  /**
    Two accepted frames of one size give the same payload exactly when they show the same picture,
    whatever their strides, the direction of their rows and what lies in their padding.
   */
  lemma PayloadsAgreeExactlyWhen(f: Frame, g: Frame)
    requires |f.data| == |f.linesize| == 3 && FrameFailure(f).None? && FrameBacked(f)
    requires |g.data| == |g.linesize| == 3 && FrameFailure(g).None? && FrameBacked(g)
    requires f.width == g.width && f.height == g.height
    ensures
      var p, q := FrameImageOf(f), FrameImageOf(g);
      PayloadOf(p) == PayloadOf(q) <==>
        SamePixels(p.luma, q.luma) && SamePixels(p.blue, q.blue) && SamePixels(p.red, q.red)
  {
    AcceptedIsProper(f);
    AcceptedIsProper(g);
    PayloadShowsPicture(FrameImageOf(f), FrameImageOf(g), f.width as nat, f.height as nat);
  }
}
