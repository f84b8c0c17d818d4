/** The byte-buffer routines of the image class. A face of an image is a
    buffer of height rows of stride = width * bpp / 8 bytes with no padding
    (the sized constructor computes the stride that way), so the buffer is an
    array3 indexed by row, pixel and byte within the pixel; byte k of pixel x
    of row y sits at offset y * stride + x * (bpp / 8) + k of the flat
    buffer, the offset getPixels computes. */
module Images {
  import opened Wrappers

  type byte = x: int | 0 <= x < 256

  function Abs(x: int): nat
  {
    if x < 0 then -x else x
  }

  /** |u - v| on integers (the C++ code promotes bytes to int before subtracting). */
  function AbsDiff(u: int, v: int): nat
  {
    Abs(u - v)
  }

  function Max(a: nat, b: nat): nat
  {
    if a < b then b else a
  }

  predicate SupportedBpp(bpp: int)
  {
    bpp == 8 || bpp == 16 || bpp == 24 || bpp == 32
  }

  // ---------------------------------------------------------------------------
  // Frames: the contents of a buffer as values
  // ---------------------------------------------------------------------------

  /** A pixel is its bytes; a row is its pixels; a frame is its rows. */
  type Pixel = seq<byte>
  type Row = seq<Pixel>
  type Frame = seq<Row>

  /** Every pixel of the row has n bytes. */
  predicate PixelRow(r: Row, n: nat)
  {
    forall x :: 0 <= x < |r| ==> |r[x]| == n
  }

  /** h rows of w pixels of n bytes. */
  predicate Shaped(f: Frame, h: nat, w: nat, n: nat)
  {
    |f| == h && forall y :: 0 <= y < h ==> |f[y]| == w && PixelRow(f[y], n)
  }

  function PixelAt(data: array3<byte>, y: nat, x: nat): (p: Pixel)
    requires y < data.Length0 && x < data.Length1
    reads data
    ensures |p| == data.Length2
  {
    seq(data.Length2, k requires 0 <= k < data.Length2 reads data => data[y, x, k])
  }

  function RowAt(data: array3<byte>, y: nat): (r: Row)
    requires y < data.Length0
    reads data
    ensures |r| == data.Length1 && PixelRow(r, data.Length2)
  {
    seq(data.Length1, x requires 0 <= x < data.Length1 reads data => PixelAt(data, y, x))
  }

  /** The contents of a buffer. */
  function Rows(data: array3<byte>): (f: Frame)
    reads data
    ensures Shaped(f, data.Length0, data.Length1, data.Length2)
    ensures forall y, x, k | 0 <= y < data.Length0 && 0 <= x < data.Length1 && 0 <= k < data.Length2 ::
      f[y][x][k] == data[y, x, k]
  {
    seq(data.Length0, y requires 0 <= y < data.Length0 reads data => RowAt(data, y))
  }

  /** A buffer whose bytes agree with a frame of its shape holds that frame. */
  lemma RowsEqual(data: array3<byte>, f: Frame)
    requires Shaped(f, data.Length0, data.Length1, data.Length2)
    requires forall y, x, k | 0 <= y < data.Length0 && 0 <= x < data.Length1 && 0 <= k < data.Length2 ::
      data[y, x, k] == f[y][x][k]
    ensures Rows(data) == f
  {
    var g := Rows(data);
    forall y | 0 <= y < |f|
      ensures g[y] == f[y]
    {
      forall x | 0 <= x < |f[y]|
        ensures g[y][x] == f[y][x]
      {
      }
    }
  }

  // ---------------------------------------------------------------------------
  // Buffer layout
  // ---------------------------------------------------------------------------

  lemma MulComm(a: nat, b: nat)
    ensures a * b == b * a
  {
  }

  lemma MulMono(a: nat, b: nat, c: nat)
    requires a <= b
    ensures a * c <= b * c
  {
  }

  /** The offset of byte k of pixel x of row y in a buffer of rows of w pixels of n bytes. */
  function FlatOffset(y: nat, x: nat, k: nat, w: nat, n: nat): nat
  {
    y * (w * n) + x * n + k
  }

  /** Every (row, pixel, byte) position has its offset inside the buffer. */
  lemma OffsetInRange(y: nat, x: nat, k: nat, h: nat, w: nat, n: nat)
    requires y < h && x < w && k < n
    ensures FlatOffset(y, x, k, w, n) < h * (w * n)
  {
    MulMono(x + 1, w, n);
    MulMono(y + 1, h, w * n);
  }

  /** Positions in row-major order have increasing offsets. */
  lemma OffsetOrdered(y: nat, x: nat, k: nat, y': nat, x': nat, k': nat, w: nat, n: nat)
    requires x < w && k < n && x' < w && k' < n
    requires y < y' || (y == y' && x < x') || (y == y' && x == x' && k < k')
    ensures FlatOffset(y, x, k, w, n) < FlatOffset(y', x', k', w, n)
  {
    var row := w * n;
    if y < y' {
      MulSucc(x, n);
      MulMono(x + 1, w, n);
      assert x * n + k < row;
      MulSucc(y, row);
      MulMono(y + 1, y', row);
      assert y * row + x * n + k < y' * row;
    } else if x < x' {
      MulSucc(x, n);
      MulMono(x + 1, x', n);
    }
  }

  lemma MulSucc(a: nat, c: nat)
    ensures (a + 1) * c == a * c + c
  {
  }

  /** Distinct positions have distinct offsets, so the constructor's copy sends
      each byte of the source buffer to exactly one position. */
  lemma OffsetInjective(y: nat, x: nat, k: nat, y': nat, x': nat, k': nat, w: nat, n: nat)
    requires x < w && k < n && x' < w && k' < n
    requires FlatOffset(y, x, k, w, n) == FlatOffset(y', x', k', w, n)
    ensures y == y' && x == x' && k == k'
  {
    if y < y' || (y == y' && x < x') || (y == y' && x == x' && k < k') {
      OffsetOrdered(y, x, k, y', x', k', w, n);
    } else if y' < y || (y == y' && x' < x) || (y == y' && x == x' && k' < k) {
      OffsetOrdered(y', x', k', y, x, k, w, n);
    }
  }

  /** With bpp a multiple of 8, width * bpp / 8 is width times the pixel size. */
  lemma StrideIsRowBytes(w: nat, bpp: nat)
    requires SupportedBpp(bpp)
    ensures w * bpp / 8 == w * (bpp / 8)
  {
    assert w * bpp == 8 * (w * (bpp / 8));
  }

  // ---------------------------------------------------------------------------
  // The image
  // ---------------------------------------------------------------------------

  class Image {
    const width: nat
    const height: nat
    const bpp: nat
    const stride: nat
    /** The pixels of the one face of a constructed image. */
    const data: array3<byte>

    predicate Valid()
    {
      && SupportedBpp(bpp)
      && stride == width * (bpp / 8)
      && data.Length0 == height && data.Length1 == width && data.Length2 == bpp / 8
    }

    /** The flat-buffer offset of byte k of pixel x of row y: y * stride + x * (bpp / 8) + k. */
    function Offset(y: nat, x: nat, k: nat): nat
    {
      FlatOffset(y, x, k, width, bpp / 8)
    }

    /** The sized constructor: allocates height rows of stride bytes and copies
        stride * height bytes from src when one is given. */
    constructor (w: nat, h: nat, b: nat, src: Option<seq<byte>>)
      requires SupportedBpp(b)
      requires src.Some? ==> |src.value| >= w * b / 8 * h
      ensures Valid() && width == w && height == h && bpp == b && stride == w * b / 8
      ensures fresh(data)
      ensures src.Some? ==> forall y, x, k | 0 <= y < h && 0 <= x < w && 0 <= k < b / 8 ::
        Offset(y, x, k) < |src.value| && data[y, x, k] == src.value[Offset(y, x, k)]
    {
      StrideIsRowBytes(w, b);
      var n := b / 8;
      var buf := new byte[h, w, n];
      if src.Some? {
        forall y, x, k | 0 <= y < h && 0 <= x < w && 0 <= k < n
          ensures FlatOffset(y, x, k, w, n) < |src.value|
        {
          OffsetInRange(y, x, k, h, w, n);
          MulComm(w * n, h);
        }
        forall y, x, k | 0 <= y < h && 0 <= x < w && 0 <= k < n {
          buf[y, x, k] := src.value[FlatOffset(y, x, k, w, n)];
        }
      }
      width, height, bpp := w, h, b;
      stride := w * b / 8;
      data := buf;
    }

    /** The constructor's bpp check, as a failure instead of a thrown error. */
    static method Create(w: nat, h: nat, b: nat, src: Option<seq<byte>>) returns (r: Result<Image, string>)
      requires SupportedBpp(b) && src.Some? ==> |src.value| >= w * b / 8 * h
      ensures r.Failure? <==> !SupportedBpp(b)
      ensures r.Success? ==> fresh(r.value) && fresh(r.value.data) && r.value.Valid()
      ensures r.Success? ==> r.value.width == w && r.value.height == h && r.value.bpp == b
      ensures r.Success? && src.Some? ==> forall y, x, k | 0 <= y < h && 0 <= x < w && 0 <= k < b / 8 ::
        r.value.Offset(y, x, k) < |src.value| && r.value.data[y, x, k] == src.value[r.value.Offset(y, x, k)]
    {
      if !SupportedBpp(b) {
        return Failure("only 8 or 16 bpp grey, 24 bpp RGB or 32 bpp RGBA images are accepted");
      }
      var img := new Image(w, h, b, src);
      return Success(img);
    }

    /** flipV: mirror every face vertically; an image without pixels is an error. */
    method FlipV() returns (s: Status)
      requires Valid()
      modifies data
      ensures width == 0 || height == 0 ==> s.Error? && unchanged(data)
      ensures width != 0 && height != 0 ==> s.Ok? && Rows(data) == Flipped(old(Rows(data)))
    {
      if width == 0 || height == 0 || bpp == 0 {
        return Error("no image to flip vertically");
      }
      FlipVImage(data);
      return Ok;
    }

    /** swapRB: exchange bytes 0 and 2 of every pixel of an RGB or RGBA image. */
    method SwapRB() returns (s: Status)
      requires Valid()
      modifies data
      ensures bpp != 24 && bpp != 32 ==> s.Error? && unchanged(data)
      ensures bpp == 24 || bpp == 32 ==> s.Ok? && Rows(data) == SwappedRB(old(Rows(data)))
    {
      if bpp != 24 && bpp != 32 {
        return Error("cannot swap the colour channels of this image");
      }
      ghost var before := Rows(data);
      var j := 0;
      while j < height
        invariant 0 <= j <= height
        invariant forall y, x, k | 0 <= y < height && 0 <= x < width && 0 <= k < bpp / 8 ::
          data[y, x, k] == before[y][x][if y < j then SwapIndex(k) else k]
      {
        SwapRowRB(data, j);
        j := j + 1;
      }
      forall y, x, k | 0 <= y < height && 0 <= x < width && 0 <= k < bpp / 8
        ensures data[y, x, k] == SwappedRB(before)[y][x][k]
      {
        SwapPixelAt(before[y][x], k);
      }
      RowsEqual(data, SwappedRB(before));
      return Ok;
    }

    /** difference: a new image holding |in1 - in2| per colour channel of two
        same-sized 24 or 32 bpp images. The output has the larger depth,
        reduced to 24 bpp when alpha is ignored; a 3-channel difference written
        into a 32 bpp output gets an opaque alpha. The channel count is the
        corrected one (see WrittenBytesPerPixel for the code as written). */
    method Difference(other: Image, ignoreAlpha: bool) returns (r: Result<Image, string>)
      requires Valid() && other.Valid()
      ensures r.Failure? <==>
        width != other.width || height != other.height || !ColourDepth(bpp) || !ColourDepth(other.bpp)
      ensures r.Success? ==> fresh(r.value) && fresh(r.value.data) && r.value.Valid()
      ensures r.Success? ==>
        && r.value.width == width && r.value.height == height
        && r.value.bpp == OutputBpp(bpp, other.bpp, ignoreAlpha)
        && Rows(r.value.data)
           == DiffFrame(Rows(data), Rows(other.data), DiffChannels(bpp, other.bpp, ignoreAlpha), r.value.bpp / 8)
    {
      if width != other.width || height != other.height {
        return Failure("the images must have the same size");
      }
      if (bpp != 24 && bpp != 32) || (other.bpp != 24 && other.bpp != 32) {
        return Failure("only 24 and 32 bpp images can be subtracted");
      }
      var outputBPP := Max(bpp, other.bpp);
      if ignoreAlpha && outputBPP == 32 {
        outputBPP := 24;
      }
      var diff := new Image(width, height, outputBPP, None);
      var minBPP := if bpp < other.bpp then bpp else other.bpp;
      var numChannels := if minBPP == 32 && outputBPP == 32 then 4 else 3;
      DiffRows(diff.data, Rows(data), Rows(other.data), numChannels);
      return Success(diff);
    }

    /** equals: the same object is equal; different sizes are not; otherwise
        both must be 8 bpp, or both 24 or 32 bpp, and every row must differ by
        at most maxDifference. */
    method Equals(other: Image, maxDifference: nat) returns (r: Result<bool, string>)
      requires Valid() && other.Valid()
      ensures other == this ==> r == Success(true)
      ensures other != this && (height != other.height || width != other.width) ==> r == Success(false)
      ensures other != this && height == other.height && width == other.width ==>
        (r.Failure? <==> !Comparable(bpp, other.bpp))
      ensures other != this && height == other.height && width == other.width && Comparable(bpp, other.bpp) ==>
        r == Success(WithinTolerance(Rows(data), Rows(other.data), bpp, other.bpp, maxDifference))
    {
      if other == this {
        return Success(true);
      }
      if height != other.height || width != other.width {
        return Success(false);
      }
      if (bpp != 8 && bpp != 24 && bpp != 32) || (other.bpp != 8 && other.bpp != 24 && other.bpp != 32) {
        return Failure("only 8, 24 or 32 bpp images can be compared");
      }
      if (bpp == 8 || other.bpp == 8) && bpp != other.bpp {
        return Failure("8 bpp images can only be compared with 8 bpp images");
      }
      var f1 := Rows(data);
      var f2 := Rows(other.data);
      var y := 0;
      while y < height
        invariant 0 <= y <= height
        invariant forall y' :: 0 <= y' < y ==> RowDifference(f1[y'], f2[y'], bpp, other.bpp) <= maxDifference
      {
        var d := MaxDiffPixelRow(f1[y], f2[y], width, bpp, other.bpp);
        assert f1[y][..width] == f1[y] && f2[y][..width] == f2[y];
        if d > maxDifference {
          return Success(false);
        }
        y := y + 1;
      }
      return Success(true);
    }
  }

  // ---------------------------------------------------------------------------
  // Vertical flip
  // ---------------------------------------------------------------------------

  /** The rows in reverse order. */
  function Flipped<T>(rows: seq<T>): (r: seq<T>)
    ensures |r| == |rows|
  {
    seq(|rows|, i requires 0 <= i < |rows| => rows[|rows| - 1 - i])
  }

  /** flipVImage: swap rows i and height-1-i through a one-row buffer, for i below height / 2. */
  method FlipVImage(data: array3<byte>)
    modifies data
    ensures Rows(data) == Flipped(old(Rows(data)))
  {
    ghost var before := Rows(data);
    var h := data.Length0;
    var tmp := new byte[data.Length1, data.Length2];
    var i := 0;
    while i < h / 2
      invariant 0 <= i <= h / 2
      invariant forall y, x, k | 0 <= y < h && 0 <= x < data.Length1 && 0 <= k < data.Length2 ::
        data[y, x, k] == before[FlipSource(y, i, h)][x][k]
    {
      SwapRows(data, tmp, i, h - i - 1);
      i := i + 1;
    }
    RowsEqual(data, Flipped(before));
  }

  /** Where row y comes from once the first i row pairs are swapped. */
  function FlipSource(y: nat, i: nat, h: nat): nat
    requires y < h
  {
    if y < i || y >= h - i then h - 1 - y else y
  }

  /** One step of flipVImage: rows a and b exchange places through tmp. */
  method SwapRows(data: array3<byte>, tmp: array2<byte>, a: nat, b: nat)
    requires a < data.Length0 && b < data.Length0
    requires tmp.Length0 == data.Length1 && tmp.Length1 == data.Length2
    modifies data, tmp
    ensures forall y, x, k | 0 <= y < data.Length0 && 0 <= x < data.Length1 && 0 <= k < data.Length2 ::
      data[y, x, k] == old(data[if y == a then b else if y == b then a else y, x, k])
  {
    forall x, k | 0 <= x < data.Length1 && 0 <= k < data.Length2 {
      tmp[x, k] := data[a, x, k];
    }
    forall x, k | 0 <= x < data.Length1 && 0 <= k < data.Length2 {
      data[a, x, k] := data[b, x, k];
    }
    forall x, k | 0 <= x < data.Length1 && 0 <= k < data.Length2 {
      data[b, x, k] := tmp[x, k];
    }
  }

  /** Row r of the flipped frame is row h-1-r of the original. */
  lemma FlippedRow<T>(rows: seq<T>, r: nat)
    requires r < |rows|
    ensures Flipped(rows)[r] == rows[|rows| - 1 - r]
  {
  }

  /** With an odd number of rows the middle row stays where it is. */
  lemma FlippedMiddle<T>(rows: seq<T>)
    requires |rows| % 2 == 1
    ensures Flipped(rows)[|rows| / 2] == rows[|rows| / 2]
  {
  }

  /** Flipping twice gives back the original. */
  lemma FlippedTwice<T>(rows: seq<T>)
    ensures Flipped(Flipped(rows)) == rows
  {
    var f := Flipped(rows);
    forall i | 0 <= i < |rows|
      ensures Flipped(f)[i] == rows[i]
    {
      FlippedRow(f, i);
      FlippedRow(rows, |rows| - 1 - i);
    }
  }

  // ---------------------------------------------------------------------------
  // Red/blue swap
  // ---------------------------------------------------------------------------

  /** The inner loop of swapRB: exchange bytes 0 and 2 of every pixel of row j. */
  method SwapRowRB(data: array3<byte>, j: nat)
    requires j < data.Length0 && 3 <= data.Length2
    modifies data
    ensures forall y, x, k | 0 <= y < data.Length0 && 0 <= x < data.Length1 && 0 <= k < data.Length2 ::
      data[y, x, k] == old(data[y, x, if y == j then SwapIndex(k) else k])
  {
    var i := 0;
    while i < data.Length1
      invariant 0 <= i <= data.Length1
      invariant forall y, x, k | 0 <= y < data.Length0 && 0 <= x < data.Length1 && 0 <= k < data.Length2 ::
        data[y, x, k] == old(data[y, x, if y == j && x < i then SwapIndex(k) else k])
    {
      data[j, i, 0], data[j, i, 2] := data[j, i, 2], data[j, i, 0];
      i := i + 1;
    }
  }

  /** The byte of a pixel that byte k takes its value from after the swap. */
  function SwapIndex(k: nat): nat
  {
    if k == 0 then 2 else if k == 2 then 0 else k
  }

  /** A pixel with bytes 0 and 2 exchanged (pixels shorter than 3 bytes never occur here). */
  function SwapPixel(p: Pixel): (q: Pixel)
    ensures |q| == |p|
  {
    if |p| < 3 then p else p[0 := p[2]][2 := p[0]]
  }

  function SwappedRB(f: Frame): (g: Frame)
    ensures |g| == |f|
    ensures forall y :: 0 <= y < |f| ==> |g[y]| == |f[y]|
  {
    seq(|f|, y requires 0 <= y < |f| =>
      seq(|f[y]|, x requires 0 <= x < |f[y]| => SwapPixel(f[y][x])))
  }

  /** Byte k of a swapped pixel is byte SwapIndex(k) of the original: red and
      blue change places, green, alpha and every other byte stay. */
  lemma SwapPixelAt(p: Pixel, k: nat)
    requires 3 <= |p| && k < |p|
    ensures SwapPixel(p)[k] == p[SwapIndex(k)]
    ensures k != 0 && k != 2 ==> SwapPixel(p)[k] == p[k]
  {
  }

  /** Swapping twice gives back the original frame. */
  lemma SwappedRBTwice(f: Frame)
    ensures SwappedRB(SwappedRB(f)) == f
  {
    var g := SwappedRB(SwappedRB(f));
    forall y | 0 <= y < |f|
      ensures g[y] == f[y]
    {
      forall x | 0 <= x < |f[y]|
        ensures g[y][x] == f[y][x]
      {
        var p := f[y][x];
        if |p| >= 3 {
          assert SwapPixel(SwapPixel(p)) == p;
        }
      }
    }
  }

  // ---------------------------------------------------------------------------
  // Row differences
  // ---------------------------------------------------------------------------

  /** The largest |a[i] - b[i]| over two byte rows; 0 for empty rows. */
  function MaxAbsDiff(a: seq<byte>, b: seq<byte>): nat
    requires |a| == |b|
  {
    if a == [] then 0
    else Max(MaxAbsDiff(a[..|a| - 1], b[..|b| - 1]), AbsDiff(a[|a| - 1], b[|b| - 1]))
  }

  /** maxDiffPixelRow8bpp: fold |a - b| over the first width bytes into a running maximum. */
  method MaxDiffPixelRow8bpp(first: seq<byte>, second: seq<byte>, width: nat) returns (d: nat)
    requires width <= |first| && width <= |second|
    ensures d == MaxAbsDiff(first[..width], second[..width])
  {
    var maxDifference := 0;
    var i := 0;
    while i < width
      invariant 0 <= i <= width
      invariant maxDifference == MaxAbsDiff(first[..i], second[..i])
    {
      assert first[..i + 1][..i] == first[..i] && second[..i + 1][..i] == second[..i];
      maxDifference := Max(maxDifference, AbsDiff(first[i], second[i]));
      i := i + 1;
    }
    return maxDifference;
  }

  /** The maximum is at most t exactly when every byte pair differs by at most t. */
  lemma {:induction false} MaxAbsDiffAtMost(a: seq<byte>, b: seq<byte>, t: nat)
    requires |a| == |b|
    ensures MaxAbsDiff(a, b) <= t <==> forall i :: 0 <= i < |a| ==> AbsDiff(a[i], b[i]) <= t
  {
    if a != [] {
      var n := |a| - 1;
      MaxAbsDiffAtMost(a[..n], b[..n], t);
      assert forall i :: 0 <= i < n ==> a[..n][i] == a[i] && b[..n][i] == b[i];
    }
  }

  /** The maximum difference of two byte rows is 0 exactly when the rows are equal. */
  lemma MaxAbsDiffZero(a: seq<byte>, b: seq<byte>)
    requires |a| == |b|
    ensures MaxAbsDiff(a, b) == 0 <==> a == b
  {
    MaxAbsDiffAtMost(a, b, 0);
  }

  /** The byte maximum is attained: some position differs by exactly that much. */
  lemma {:induction false} MaxAbsDiffAttained(a: seq<byte>, b: seq<byte>)
    requires |a| == |b| && a != []
    ensures exists i :: 0 <= i < |a| && AbsDiff(a[i], b[i]) == MaxAbsDiff(a, b)
  {
    var n := |a| - 1;
    if n == 0 || MaxAbsDiff(a, b) == AbsDiff(a[n], b[n]) {
      assert AbsDiff(a[n], b[n]) == MaxAbsDiff(a, b);
    } else {
      MaxAbsDiffAttained(a[..n], b[..n]);
      var i :| 0 <= i < n && AbsDiff(a[..n][i], b[..n][i]) == MaxAbsDiff(a[..n], b[..n]);
      assert AbsDiff(a[i], b[i]) == MaxAbsDiff(a, b);
    }
  }

  /** Two bit depths equals accepts: both 8, or both 24 or 32. */
  predicate Comparable(b1: nat, b2: nat)
  {
    (b1 == 8 && b2 == 8) || ((b1 == 24 || b1 == 32) && (b2 == 24 || b2 == 32))
  }

  /** The alpha a pixel is weighted with: its fourth byte at 32 bpp, opaque otherwise. */
  function Alpha(p: Pixel, bpp: nat): nat
    requires bpp == 32 ==> |p| >= 4
  {
    if bpp == 32 then p[3] else 255
  }

  /** The difference of channel j of two pixels premultiplied by their alphas, scaled back by 255. */
  function ChannelDiff(p1: Pixel, p2: Pixel, a1: nat, a2: nat, j: nat): nat
    requires j < |p1| && j < |p2|
  {
    Abs((p1[j] as int) * a1 - (p2[j] as int) * a2) / 255
  }

  /** The largest ChannelDiff over channels 0 .. j-1. */
  function PixelDiffUpTo(p1: Pixel, p2: Pixel, a1: nat, a2: nat, j: nat): nat
    requires j <= |p1| && j <= |p2|
  {
    if j == 0 then 0 else Max(PixelDiffUpTo(p1, p2, a1, a2, j - 1), ChannelDiff(p1, p2, a1, a2, j - 1))
  }

  predicate ColourDepth(bpp: nat)
  {
    bpp == 24 || bpp == 32
  }

  /** The largest alpha-weighted colour difference over two RGB(A) rows. */
  function RowDiff(r1: Row, r2: Row, b1: nat, b2: nat): nat
    requires |r1| == |r2| && ColourDepth(b1) && ColourDepth(b2)
    requires PixelRow(r1, b1 / 8) && PixelRow(r2, b2 / 8)
  {
    if r1 == [] then 0
    else
      var n := |r1| - 1;
      Max(RowDiff(r1[..n], r2[..n], b1, b2),
          PixelDiffUpTo(r1[n], r2[n], Alpha(r1[n], b1), Alpha(r2[n], b2), 3))
  }

  /** The grey bytes of a row of 1-byte pixels. */
  function Grey(r: Row): (g: seq<byte>)
    requires PixelRow(r, 1)
    ensures |g| == |r|
  {
    seq(|r|, x requires 0 <= x < |r| => r[x][0])
  }

  /** The maximum difference maxDiffPixelRow reports for two rows. */
  function RowDifference(r1: Row, r2: Row, b1: nat, b2: nat): nat
    requires |r1| == |r2| && Comparable(b1, b2)
    requires PixelRow(r1, b1 / 8) && PixelRow(r2, b2 / 8)
  {
    if b1 == 8 then MaxAbsDiff(Grey(r1), Grey(r2)) else RowDiff(r1, r2, b1, b2)
  }

  /** maxDiffPixelRow: the grey case is delegated; otherwise three colour
      channels per pixel are compared, weighted by alpha, skipping the alpha
      byte of 32 bpp pixels. */
  method MaxDiffPixelRow(first: Row, second: Row, width: nat, bppFirst: nat, bppSecond: nat) returns (d: nat)
    requires width <= |first| && width <= |second| && Comparable(bppFirst, bppSecond)
    requires PixelRow(first, bppFirst / 8) && PixelRow(second, bppSecond / 8)
    ensures d == RowDifference(first[..width], second[..width], bppFirst, bppSecond)
  {
    if bppFirst == 8 && bppSecond == 8 {
      d := MaxDiffPixelRow8bpp(Grey(first), Grey(second), width);
      assert Grey(first)[..width] == Grey(first[..width]) && Grey(second)[..width] == Grey(second[..width]);
      return;
    }
    d := MaxDiffColourRow(first, second, width, bppFirst, bppSecond);
  }

  /** The 24/32 bpp part of maxDiffPixelRow. */
  method MaxDiffColourRow(first: Row, second: Row, width: nat, bppFirst: nat, bppSecond: nat) returns (d: nat)
    requires width <= |first| && width <= |second| && ColourDepth(bppFirst) && ColourDepth(bppSecond)
    requires PixelRow(first, bppFirst / 8) && PixelRow(second, bppSecond / 8)
    ensures d == RowDiff(first[..width], second[..width], bppFirst, bppSecond)
  {
    var maxDiff := 0;
    var alpha1, alpha2 := 255, 255;
    var i := 0;
    while i < width
      invariant 0 <= i <= width
      invariant bppFirst != 32 ==> alpha1 == 255
      invariant bppSecond != 32 ==> alpha2 == 255
      invariant maxDiff == RowDiff(first[..i], second[..i], bppFirst, bppSecond)
    {
      var p1, p2 := first[i], second[i];
      if bppFirst == 32 { alpha1 := p1[3]; }
      if bppSecond == 32 { alpha2 := p2[3]; }
      ghost var done := maxDiff;
      var j := 0;
      while j < 3
        invariant 0 <= j <= 3
        invariant maxDiff == Max(done, PixelDiffUpTo(p1, p2, alpha1, alpha2, j))
      {
        var dj := ChannelDiff(p1, p2, alpha1, alpha2, j);
        maxDiff := Max(maxDiff, dj);
        j := j + 1;
      }
      RowDiffStep(first, second, i, bppFirst, bppSecond);
      i := i + 1;
    }
    assert first[..width] == first[..i] && second[..width] == second[..i];
    return maxDiff;
  }

  /** One more pixel pair extends the colour maximum by that pair's difference. */
  lemma RowDiffStep(r1: Row, r2: Row, i: nat, b1: nat, b2: nat)
    requires i < |r1| && i < |r2| && ColourDepth(b1) && ColourDepth(b2)
    requires PixelRow(r1, b1 / 8) && PixelRow(r2, b2 / 8)
    ensures RowDiff(r1[..i + 1], r2[..i + 1], b1, b2)
         == Max(RowDiff(r1[..i], r2[..i], b1, b2), PixelDiffUpTo(r1[i], r2[i], Alpha(r1[i], b1), Alpha(r2[i], b2), 3))
  {
    assert r1[..i + 1][..i] == r1[..i] && r2[..i + 1][..i] == r2[..i];
  }

  /** Every row of f1 differs from the same row of f2 by at most t. */
  predicate WithinTolerance(f1: Frame, f2: Frame, b1: nat, b2: nat, t: nat)
    requires |f1| == |f2| && Comparable(b1, b2)
    requires forall y :: 0 <= y < |f1| ==> |f1[y]| == |f2[y]| && PixelRow(f1[y], b1 / 8) && PixelRow(f2[y], b2 / 8)
  {
    forall y :: 0 <= y < |f1| ==> RowDifference(f1[y], f2[y], b1, b2) <= t
  }

  /** The colour maximum is at most t exactly when every weighted channel difference is. */
  lemma {:induction false} RowDiffAtMost(r1: Row, r2: Row, b1: nat, b2: nat, t: nat)
    requires |r1| == |r2| && ColourDepth(b1) && ColourDepth(b2)
    requires PixelRow(r1, b1 / 8) && PixelRow(r2, b2 / 8)
    ensures RowDiff(r1, r2, b1, b2) <= t <==>
      forall x, j :: 0 <= x < |r1| && 0 <= j < 3 ==>
        ChannelDiff(r1[x], r2[x], Alpha(r1[x], b1), Alpha(r2[x], b2), j) <= t
  {
    if r1 != [] {
      var n := |r1| - 1;
      RowDiffAtMost(r1[..n], r2[..n], b1, b2, t);
      assert forall x :: 0 <= x < n ==> r1[..n][x] == r1[x] && r2[..n][x] == r2[x];
      PixelDiffAtMost(r1[n], r2[n], Alpha(r1[n], b1), Alpha(r2[n], b2), 3, t);
    }
  }

  lemma {:induction false} PixelDiffAtMost(p1: Pixel, p2: Pixel, a1: nat, a2: nat, j: nat, t: nat)
    requires j <= |p1| && j <= |p2|
    ensures PixelDiffUpTo(p1, p2, a1, a2, j) <= t <==> forall c :: 0 <= c < j ==> ChannelDiff(p1, p2, a1, a2, c) <= t
  {
    if j > 0 {
      PixelDiffAtMost(p1, p2, a1, a2, j - 1, t);
    }
  }

  /** For opaque pixels the weighted difference is the plain channel difference. */
  lemma OpaqueChannelDiff(p1: Pixel, p2: Pixel, j: nat)
    requires j < |p1| && j < |p2|
    ensures ChannelDiff(p1, p2, 255, 255, j) == AbsDiff(p1[j], p2[j])
  {
    var m := AbsDiff(p1[j], p2[j]);
    assert Abs((p1[j] as int) * 255 - (p2[j] as int) * 255) == 255 * m;
  }

  /** Two 24 bpp rows are within t exactly when every colour byte pair differs by at most t. */
  lemma Rgb24AtMost(r1: Row, r2: Row, t: nat)
    requires |r1| == |r2| && PixelRow(r1, 3) && PixelRow(r2, 3)
    ensures RowDifference(r1, r2, 24, 24) <= t <==>
      forall x, j :: 0 <= x < |r1| && 0 <= j < 3 ==> AbsDiff(r1[x][j], r2[x][j]) <= t
  {
    RowDiffAtMost(r1, r2, 24, 24, t);
    forall x, j | 0 <= x < |r1| && 0 <= j < 3
      ensures ChannelDiff(r1[x], r2[x], Alpha(r1[x], 24), Alpha(r2[x], 24), j) == AbsDiff(r1[x][j], r2[x][j])
    {
      OpaqueChannelDiff(r1[x], r2[x], j);
    }
  }

  /** A row compared with itself differs by nothing, whatever its depth. */
  lemma RowDifferenceSelf(r: Row, b: nat)
    requires Comparable(b, b) && PixelRow(r, b / 8)
    ensures RowDifference(r, r, b, b) == 0
  {
    if b == 8 {
      MaxAbsDiffZero(Grey(r), Grey(r));
    } else {
      RowDiffAtMost(r, r, b, b, 0);
    }
  }

  /** Every image of a comparable depth is within tolerance 0 of its own pixels. */
  lemma WithinToleranceSelf(f: Frame, b: nat)
    requires Comparable(b, b) && forall y :: 0 <= y < |f| ==> PixelRow(f[y], b / 8)
    ensures WithinTolerance(f, f, b, b, 0)
  {
    forall y | 0 <= y < |f|
      ensures RowDifference(f[y], f[y], b, b) == 0
    {
      RowDifferenceSelf(f[y], b);
    }
  }

  // ---------------------------------------------------------------------------
  // Difference image
  // ---------------------------------------------------------------------------

  /** The depth of the difference image. */
  function OutputBpp(b1: nat, b2: nat, ignoreAlpha: bool): nat
  {
    var m := Max(b1, b2);
    if ignoreAlpha && m == 32 then 24 else m
  }

  /** The channels difference subtracts: all four only when both inputs and the output have alpha. */
  function DiffChannels(b1: nat, b2: nat, ignoreAlpha: bool): nat
  {
    if b1 == 32 && b2 == 32 && OutputBpp(b1, b2, ignoreAlpha) == 32 then 4 else 3
  }

  /** One output pixel of n bytes: the first nc are channel differences, the rest (alpha) opaque. */
  function DiffPixel(p1: Pixel, p2: Pixel, nc: nat, n: nat): (q: Pixel)
    requires nc <= |p1| && nc <= |p2|
    ensures |q| == n
  {
    seq(n, k requires 0 <= k < n => if k < nc then AbsDiff(p1[k], p2[k]) else 255)
  }

  /** Row-aligned frames whose pixels have at least nc bytes. */
  predicate Subtractable(f1: Frame, f2: Frame, nc: nat)
  {
    |f1| == |f2| && forall y :: 0 <= y < |f1| ==>
      |f1[y]| == |f2[y]| && forall x :: 0 <= x < |f1[y]| ==> nc <= |f1[y][x]| && nc <= |f2[y][x]|
  }

  function DiffFrame(f1: Frame, f2: Frame, nc: nat, n: nat): (g: Frame)
    requires Subtractable(f1, f2, nc)
    ensures |g| == |f1| && forall y :: 0 <= y < |f1| ==> |g[y]| == |f1[y]| && PixelRow(g[y], n)
  {
    seq(|f1|, y requires 0 <= y < |f1| =>
      seq(|f1[y]|, x requires 0 <= x < |f1[y]| => DiffPixel(f1[y][x], f2[y][x], nc, n)))
  }

  /** The y loop of difference: every row of out becomes the difference of the rows of f1 and f2. */
  method DiffRows(out: array3<byte>, f1: Frame, f2: Frame, nc: nat)
    requires |f1| == out.Length0 && Subtractable(f1, f2, nc)
    requires forall y :: 0 <= y < |f1| ==> |f1[y]| == out.Length1
    requires nc <= out.Length2 <= nc + 1
    modifies out
    ensures Rows(out) == DiffFrame(f1, f2, nc, out.Length2)
  {
    ghost var target := DiffFrame(f1, f2, nc, out.Length2);
    var y := 0;
    while y < |f1|
      invariant 0 <= y <= |f1|
      invariant forall y', x, k | 0 <= y' < y && 0 <= x < out.Length1 && 0 <= k < out.Length2 ::
        out[y', x, k] == target[y'][x][k]
    {
      DiffRow(out, y, f1[y], f2[y], nc);
      y := y + 1;
    }
    RowsEqual(out, target);
  }

  /** The x and channel loops of difference for row y. */
  method DiffRow(out: array3<byte>, y: nat, r1: Row, r2: Row, nc: nat)
    requires y < out.Length0 && |r1| == out.Length1 && |r2| == out.Length1
    requires nc <= out.Length2 <= nc + 1
    requires forall x :: 0 <= x < |r1| ==> nc <= |r1[x]| && nc <= |r2[x]|
    modifies out
    ensures forall y', x, k | 0 <= y' < out.Length0 && 0 <= x < out.Length1 && 0 <= k < out.Length2 ::
      out[y', x, k] == if y' == y then DiffPixel(r1[x], r2[x], nc, out.Length2)[k] else old(out[y', x, k])
  {
    var x := 0;
    while x < |r1|
      invariant 0 <= x <= |r1|
      invariant forall y', x', k | 0 <= y' < out.Length0 && 0 <= x' < out.Length1 && 0 <= k < out.Length2 ::
        out[y', x', k] == if y' == y && x' < x then DiffPixel(r1[x'], r2[x'], nc, out.Length2)[k] else old(out[y', x', k])
    {
      var o := 0;
      while o < nc
        invariant 0 <= o <= nc
        invariant forall y', x', k | 0 <= y' < out.Length0 && 0 <= x' < out.Length1 && 0 <= k < out.Length2 ::
          out[y', x', k] == if y' == y && (x' < x || (x' == x && k < o)) then DiffPixel(r1[x'], r2[x'], nc, out.Length2)[k]
                            else old(out[y', x', k])
      {
        out[y, x, o] := AbsDiff(r1[x][o], r2[x][o]);
        o := o + 1;
      }
      if nc < out.Length2 {
        out[y, x, nc] := 255;
      }
      x := x + 1;
    }
  }

  /** The bytes per pixel that difference writes as written: numChannels
      differences, numChannels being 4 whenever both inputs are 32 bpp, plus an
      alpha byte when only 3 were subtracted into a 32 bpp output. */
  function WrittenBytesPerPixel(b1: nat, b2: nat, ignoreAlpha: bool): nat
  {
    var numChannels := if b1 == 32 && b2 == 32 then 4 else 3;
    numChannels + (if numChannels == 3 && OutputBpp(b1, b2, ignoreAlpha) == 32 then 1 else 0)
  }

  /** As written, difference writes more bytes per pixel than the output pixel
      holds exactly when both inputs are 32 bpp and alpha is ignored; for any
      other accepted depths it fills each output pixel exactly. */
  lemma WrittenBytesOverrun(b1: nat, b2: nat, ignoreAlpha: bool)
    requires ColourDepth(b1) && ColourDepth(b2)
    ensures WrittenBytesPerPixel(b1, b2, ignoreAlpha) > OutputBpp(b1, b2, ignoreAlpha) / 8
        <==> b1 == 32 && b2 == 32 && ignoreAlpha
    ensures !(b1 == 32 && b2 == 32 && ignoreAlpha) ==>
      WrittenBytesPerPixel(b1, b2, ignoreAlpha) == OutputBpp(b1, b2, ignoreAlpha) / 8
  {
  }

  /** Row overrun as written: two 32 bpp rows of width w, alpha ignored, write
      4 * w bytes into a 24 bpp row of 3 * w bytes. */
  lemma WrittenRowOverrun(w: nat)
    requires w >= 1
    ensures w * WrittenBytesPerPixel(32, 32, true) == 4 * w
    ensures w * (OutputBpp(32, 32, true) / 8) == 3 * w < 4 * w
  {
  }

  /** The corrected channel count reads only bytes both inputs have, and the
      differences plus the opaque alpha fill each output pixel exactly. */
  lemma DiffChannelsFit(b1: nat, b2: nat, ignoreAlpha: bool)
    requires ColourDepth(b1) && ColourDepth(b2)
    ensures DiffChannels(b1, b2, ignoreAlpha) <= b1 / 8 && DiffChannels(b1, b2, ignoreAlpha) <= b2 / 8
    ensures DiffChannels(b1, b2, ignoreAlpha) <= OutputBpp(b1, b2, ignoreAlpha) / 8 <= DiffChannels(b1, b2, ignoreAlpha) + 1
    ensures OutputBpp(b1, b2, ignoreAlpha) == 32 <==> !ignoreAlpha && (b1 == 32 || b2 == 32)
  {
  }

  /** The difference image does not depend on the order of its inputs. */
  lemma DiffFrameSymmetric(f1: Frame, f2: Frame, nc: nat, n: nat)
    requires Subtractable(f1, f2, nc)
    ensures Subtractable(f2, f1, nc)
    ensures DiffFrame(f1, f2, nc, n) == DiffFrame(f2, f1, nc, n)
  {
    var g1, g2 := DiffFrame(f1, f2, nc, n), DiffFrame(f2, f1, nc, n);
    forall y | 0 <= y < |f1|
      ensures g1[y] == g2[y]
    {
      forall x | 0 <= x < |f1[y]|
        ensures g1[y][x] == g2[y][x]
      {
        assert forall k :: 0 <= k < nc ==> AbsDiff(f1[y][x][k], f2[y][x][k]) == AbsDiff(f2[y][x][k], f1[y][x][k]);
      }
    }
  }

  /** An image subtracted from itself is black in every subtracted channel. */
  lemma DiffFrameSelf(f: Frame, nc: nat, n: nat, y: nat, x: nat, k: nat)
    requires Subtractable(f, f, nc)
    requires y < |f| && x < |f[y]| && k < nc && k < n
    ensures DiffFrame(f, f, nc, n)[y][x][k] == 0
  {
  }

  // ---------------------------------------------------------------------------
  // Grey to RGB
  // ---------------------------------------------------------------------------

  /** Every pixel of the frame has n bytes. */
  predicate PixelsOf(f: Frame, n: nat)
  {
    forall y, x :: 0 <= y < |f| && 0 <= x < |f[y]| ==> |f[y][x]| == n
  }

  /** Each 1-byte grey pixel repeated into three bytes. */
  function GreyToRgb(f: Frame): (g: Frame)
    requires PixelsOf(f, 1)
    ensures |g| == |f| && forall y :: 0 <= y < |f| ==> |g[y]| == |f[y]| && PixelRow(g[y], 3)
    ensures PixelsOf(g, 3)
  {
    seq(|f|, y requires 0 <= y < |f| =>
      seq(|f[y]|, x requires 0 <= x < |f[y]| => [f[y][x][0], f[y][x][0], f[y][x][0]]))
  }

  /** convert8BPPGrayTo24BPPGray: a new 24 bpp image of the same size whose
      three bytes per pixel all equal the source pixel's grey byte. */
  method Convert8BPPGrayTo24BPPGray(src: Image) returns (dst: Image)
    requires src.Valid() && src.bpp == 8
    ensures fresh(dst) && fresh(dst.data) && dst.Valid()
    ensures dst.width == src.width && dst.height == src.height && dst.bpp == 24
    ensures Rows(dst.data) == GreyToRgb(Rows(src.data))
  {
    dst := new Image(src.width, src.height, 24, None);
    var f := Rows(src.data);
    ghost var target := GreyToRgb(f);
    var y := 0;
    while y < src.height
      invariant 0 <= y <= src.height
      invariant forall y', x, k | 0 <= y' < y && 0 <= x < src.width && 0 <= k < 3 ::
        dst.data[y', x, k] == target[y'][x][k]
    {
      ExpandRow(dst.data, y, f[y]);
      y := y + 1;
    }
    RowsEqual(dst.data, target);
  }

  /** The x loop of convert8BPPGrayTo24BPPGray for row y. */
  method ExpandRow(out: array3<byte>, y: nat, row: Row)
    requires y < out.Length0 && |row| == out.Length1 && out.Length2 == 3 && PixelRow(row, 1)
    modifies out
    ensures forall y', x, k | 0 <= y' < out.Length0 && 0 <= x < out.Length1 && 0 <= k < 3 ::
      out[y', x, k] == if y' == y then row[x][0] else old(out[y', x, k])
  {
    var x := 0;
    while x < |row|
      invariant 0 <= x <= |row|
      invariant forall y', x', k | 0 <= y' < out.Length0 && 0 <= x' < out.Length1 && 0 <= k < 3 ::
        out[y', x', k] == if y' == y && x' < x then row[x'][0] else old(out[y', x', k])
    {
      out[y, x, 0] := row[x][0];
      out[y, x, 1] := row[x][0];
      out[y, x, 2] := row[x][0];
      x := x + 1;
    }
  }

  /** Channel c of every pixel. */
  function Channel(f: Frame, c: nat): (g: Frame)
    requires PixelsOf(f, 3)
    requires c < 3
  {
    seq(|f|, y requires 0 <= y < |f| => seq(|f[y]|, x requires 0 <= x < |f[y]| => [f[y][x][c]]))
  }

  /** Any one channel of the expanded image is the grey image back. */
  lemma ChannelOfGreyToRgb(f: Frame, c: nat)
    requires PixelsOf(f, 1)
    requires c < 3
    ensures Channel(GreyToRgb(f), c) == f
  {
    var g := Channel(GreyToRgb(f), c);
    forall y | 0 <= y < |f|
      ensures g[y] == f[y]
    {
      forall x | 0 <= x < |f[y]|
        ensures g[y][x] == f[y][x]
      {
        assert g[y][x] == [f[y][x][0]];
      }
    }
  }
}
