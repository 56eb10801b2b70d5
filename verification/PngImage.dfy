/** iter_png_pixels (scripts/docs_screenshot_inventory.py): from the decompressed scanlines to the pixels. */
module PngImage {
  import opened Options
  import opened PngFilter

  datatype Png = Png(width: nat, height: nat, bitDepth: nat, colorType: nat, interlace: nat)
  datatype Error = UnsupportedEncoding | UnexpectedLength | UnsupportedFilter

  type Row = seq<Byte>

  predicate Supported(png: Png) {
    png.bitDepth == 8 && png.colorType in {2, 6} && png.interlace == 0
  }

  function BytesPerPixel(png: Png): (r: nat)
    ensures r > 0
  {
    if png.colorType == 2 then 3 else 4
  }

  function RowLength(png: Png): nat {
    png.width * BytesPerPixel(png)
  }

  predicate IsImage(rows: seq<Row>, length: nat) {
    forall y | 0 <= y < |rows| :: |rows[y]| == length
  }

  function Zeros(n: nat): (r: Row)
    ensures |r| == n
  {
    seq(n, i => 0)
  }

  function RowAbove(rows: seq<Row>, y: nat, length: nat): (r: Row)
    requires y <= |rows| && IsImage(rows, length)
    ensures |r| == length
  {
    if y == 0 then Zeros(length) else rows[y - 1]
  }

  /** The encoder: each row as its filter's number followed by the filtered bytes. */
  function Scanlines(kinds: Row, rows: seq<Row>, length: nat, bpp: nat): (r: seq<Byte>)
    requires |kinds| == |rows| && IsImage(rows, length) && bpp > 0
    ensures |r| == |rows| * (length + 1)
  {
    if rows == [] then [] else
      var n := |rows| - 1;
      Scanlines(kinds[..n], rows[..n], length, bpp)
      + ([kinds[n]] + FilterRow(kinds[n], rows[n], RowAbove(rows, n, length), bpp))
  }

  /** The scanlines determine the filters and the rows. */
  lemma {:induction false} ScanlinesInjective(
    kinds: Row, rows: seq<Row>, others: Row, image: seq<Row>, length: nat, bpp: nat)
    requires |kinds| == |rows| == |others| == |image| && IsImage(rows, length) && IsImage(image, length) && bpp > 0
    requires Scanlines(kinds, rows, length, bpp) == Scanlines(others, image, length, bpp)
    ensures kinds == others && rows == image
    decreases |rows|
  {
    if rows != [] {
      var n := |rows| - 1;
      var a, b := Scanlines(kinds[..n], rows[..n], length, bpp), Scanlines(others[..n], image[..n], length, bpp);
      var x := [kinds[n]] + FilterRow(kinds[n], rows[n], RowAbove(rows, n, length), bpp);
      var y := [others[n]] + FilterRow(others[n], image[n], RowAbove(image, n, length), bpp);
      SplitEqual(a, x, b, y);
      ScanlinesInjective(kinds[..n], rows[..n], others[..n], image[..n], length, bpp);
      SplitEqual([kinds[n]], x[1..], [others[n]], y[1..]);
      assert RowAbove(rows, n, length) == RowAbove(image, n, length) by {
        if n > 0 { assert rows[n - 1] == rows[..n][n - 1] == image[..n][n - 1] == image[n - 1]; }
      }
      FilterRowInjective(kinds[n], rows[n], image[n], RowAbove(rows, n, length), bpp);
      assert kinds == kinds[..n] + [kinds[n]] && others == others[..n] + [others[n]];
      assert rows == rows[..n] + [rows[n]] && image == image[..n] + [image[n]];
    }
  }

  lemma SplitEqual(a: seq<Byte>, x: seq<Byte>, b: seq<Byte>, y: seq<Byte>)
    requires |a| == |b| && a + x == b + y
    ensures a == b && x == y
  {
    assert a == (a + x)[..|a|] && b == (b + y)[..|b|];
    assert x == (a + x)[|a|..] && y == (b + y)[|b|..];
  }

  /** The pixels of a row, in order. */
  function RowPixels(row: Row, bpp: nat): seq<Row>
    requires bpp > 0
  {
    if |row| < bpp then [] else [row[..bpp]] + RowPixels(row[bpp..], bpp)
  }

  function ImagePixels(rows: seq<Row>, bpp: nat): seq<Row>
    requires bpp > 0
  {
    if rows == [] then [] else ImagePixels(rows[..|rows| - 1], bpp) + RowPixels(rows[|rows| - 1], bpp)
  }

  lemma {:induction false} RowPixelCount(row: Row, width: nat, bpp: nat)
    requires bpp > 0 && |row| == width * bpp
    ensures |RowPixels(row, bpp)| == width
    decreases width
  {
    if width > 0 {
      assert |row[bpp..]| == (width - 1) * bpp;
      RowPixelCount(row[bpp..], width - 1, bpp);
    }
  }

  lemma OneMoreTimes(n: nat, k: nat)
    ensures (n + 1) * k == n * k + k
  {
  }

  /** Exactly width times height pixels. */
  lemma {:induction false} ImagePixelCount(rows: seq<Row>, width: nat, bpp: nat)
    requires bpp > 0 && IsImage(rows, width * bpp)
    ensures |ImagePixels(rows, bpp)| == |rows| * width
    decreases |rows|
  {
    if rows != [] {
      var n := |rows| - 1;
      ImagePixelCount(rows[..n], width, bpp);
      RowPixelCount(rows[n], width, bpp);
      OneMoreTimes(n, width);
    }
  }

  /** Pixel (x, y) is the x-th group of bytes of row y. */
  lemma {:induction false} RowPixelAt(row: Row, width: nat, bpp: nat, x: nat)
    requires bpp > 0 && |row| == width * bpp && x < width
    ensures x < |RowPixels(row, bpp)| && x * bpp + bpp <= |row| && RowPixels(row, bpp)[x] == row[x * bpp..x * bpp + bpp]
    decreases x
  {
    RowPixelCount(row, width, bpp);
    assert |row| == (width - 1) * bpp + bpp;
    if x > 0 {
      var rest := row[bpp..];
      RowPixelAt(rest, width - 1, bpp, x - 1);
      var at := (x - 1) * bpp;
      assert x * bpp == at + bpp;
      assert rest[at..at + bpp] == row[at + bpp..at + bpp + bpp];
    }
  }

  lemma {:induction false} ImagePixelAt(rows: seq<Row>, width: nat, bpp: nat, x: nat, y: nat)
    requires bpp > 0 && IsImage(rows, width * bpp) && x < width && y < |rows|
    ensures y * width + x < |ImagePixels(rows, bpp)| && x < |RowPixels(rows[y], bpp)|
    ensures ImagePixels(rows, bpp)[y * width + x] == RowPixels(rows[y], bpp)[x]
    decreases |rows|
  {
    var n := |rows| - 1;
    ImagePixelCount(rows[..n], width, bpp);
    RowPixelCount(rows[n], width, bpp);
    if y < n {
      ImagePixelAt(rows[..n], width, bpp, x, y);
    }
  }

  // ---------------------------------------------------------------------------------------
  // The generator

  /** `for offset in range(0, row_len, bytes_per_pixel)`. */
  method YieldRow(row: Row, ghost width: nat, bpp: nat, before: seq<Row>) returns (pixels: seq<Row>)
    requires bpp > 0 && |row| == width * bpp
    ensures pixels == before + RowPixels(row, bpp)
  {
    pixels := before;
    var offset := 0;
    ghost var left := width;
    assert row[0..] == row;
    while offset < |row|
      invariant offset <= |row| && |row| - offset == left * bpp
      invariant pixels + RowPixels(row[offset..], bpp) == before + RowPixels(row, bpp)
      decreases |row| - offset
    {
      OneMoreTimes(left - 1, bpp);
      RowPixelsNext(row, offset, bpp, pixels);
      pixels := pixels + [row[offset..offset + bpp]];
      offset, left := offset + bpp, left - 1;
    }
    assert pixels + [] == pixels;
  }

  lemma RowPixelsNext(row: Row, offset: nat, bpp: nat, pixels: seq<Row>)
    requires bpp > 0 && offset + bpp <= |row|
    ensures pixels + RowPixels(row[offset..], bpp)
            == pixels + [row[offset..offset + bpp]] + RowPixels(row[offset + bpp..], bpp)
  {
    var rest := row[offset..];
    assert rest[..bpp] == row[offset..offset + bpp] && rest[bpp..] == row[offset + bpp..];
  }

  /** raw is what an encoder makes of this image with these filters. */
  ghost predicate Encodes(png: Png, raw: seq<Byte>, kinds: Row, rows: seq<Row>) {
    && |kinds| == |rows| == png.height && IsImage(rows, RowLength(png))
    && raw == Scanlines(kinds, rows, RowLength(png), BytesPerPixel(png))
    && (RowLength(png) > 0 ==> forall y | 0 <= y < |kinds| :: kinds[y] <= 4)
  }

  lemma {:induction false} KindAt(kinds: Row, rows: seq<Row>, length: nat, bpp: nat, y: nat)
    requires |kinds| == |rows| && IsImage(rows, length) && bpp > 0 && y < |rows|
    ensures y * (length + 1) < |Scanlines(kinds, rows, length, bpp)|
    ensures Scanlines(kinds, rows, length, bpp)[y * (length + 1)] == kinds[y]
    decreases |rows|
  {
    var n := |rows| - 1;
    if y < n {
      KindAt(kinds[..n], rows[..n], length, bpp, y);
    }
  }

  lemma RowStart(y: nat, height: nat, length: nat)
    requires y < height
    ensures y * (length + 1) + length + 1 == (y + 1) * (length + 1) <= height * (length + 1)
  {
  }

  lemma OneRowMore(kinds: Row, rows: seq<Row>, kind: Byte, row: Row, length: nat, bpp: nat)
    requires |kinds| == |rows| && IsImage(rows, length) && |row| == length && bpp > 0
    ensures Scanlines(kinds + [kind], rows + [row], length, bpp)
            == Scanlines(kinds, rows, length, bpp)
                + ([kind] + FilterRow(kind, row, RowAbove(rows, |rows|, length), bpp))
    ensures ImagePixels(rows + [row], bpp) == ImagePixels(rows, bpp) + RowPixels(row, bpp)
  {
    var n := |rows|;
    assert (rows + [row])[..n] == rows && (kinds + [kind])[..n] == kinds;
    assert RowAbove(rows + [row], n, length) == RowAbove(rows, n, length);
  }

  /** The rows of the data, the first `y` of them undone; `start` is where row y begins. */
  ghost predicate Decoded(raw: seq<Byte>, kinds: Row, rows: seq<Row>, length: nat, bpp: nat, start: nat) {
    && bpp > 0 && start <= |raw| && |kinds| == |rows| && IsImage(rows, length)
    && raw[..start] == Scanlines(kinds, rows, length, bpp)
    && (length > 0 ==> forall y | 0 <= y < |kinds| :: kinds[y] <= 4)
  }

  lemma DecodedNext(
    raw: seq<Byte>, kinds: Row, rows: seq<Row>, length: nat, bpp: nat, start: nat, kind: Byte, filtered: seq<Byte>,
    row: Row)
    requires Decoded(raw, kinds, rows, length, bpp, start) && start + length + 1 <= |raw|
    requires kind == raw[start] && filtered == raw[start + 1..start + 1 + length] && |row| == length
    requires FilterRow(kind, row, RowAbove(rows, |rows|, length), bpp) == filtered && (length > 0 ==> kind <= 4)
    ensures Decoded(raw, kinds + [kind], rows + [row], length, bpp, start + length + 1)
  {
    OneRowMore(kinds, rows, kind, row, length, bpp);
    assert raw[..start + length + 1] == raw[..start] + ([kind] + filtered);
  }

  /** The loop over the scanlines. */
  method DecodeRows(raw: seq<Byte>, ghost width: nat, height: nat, length: nat, bpp: nat)
    returns (ok: bool, pixels: seq<Row>, ghost kinds: Row, ghost rows: seq<Row>)
    requires bpp > 0 && length == width * bpp && |raw| == height * (length + 1)
    ensures IsImage(rows, length) && pixels == ImagePixels(rows, bpp)
    ensures ok ==> |rows| == height && Decoded(raw, kinds, rows, length, bpp, |raw|)
    ensures !ok ==> length > 0 && |rows| < height && |rows| * (length + 1) < |raw| && raw[|rows| * (length + 1)] > 4
  {
    pixels, kinds, rows := [], [], [];
    var previous := new Byte[length](i => 0);
    assert previous[..] == Zeros(length);
    for y := 0 to height
      invariant previous.Length == length && |rows| == y && IsImage(rows, length)
      invariant previous[..] == RowAbove(rows, y, length)
      invariant Decoded(raw, kinds, rows, length, bpp, y * (length + 1))
      invariant pixels == ImagePixels(rows, bpp)
    {
      RowStart(y, height, length);
      var start := y * (length + 1);
      var kind, filtered := raw[start], raw[start + 1..start + 1 + length];
      var fine, row := UnfilterRow(kind, filtered, previous, bpp);
      if !fine {
        ok := false;
        return;
      }
      DecodedNext(raw, kinds, rows, length, bpp, start, kind, filtered, row[..]);
      OneRowMore(kinds, rows, kind, row[..], length, bpp);
      pixels := YieldRow(row[..], width, bpp, pixels);
      previous := row;
      kinds, rows := kinds + [kind], rows + [row[..]];
    }
    ok := true;
  }

  /**
   The pixels of the decompressed data, or how far it got and why it stopped.  It succeeds only on
   the output of an encoder, and yields the pixels of the image that was encoded.
   */
  method IterPixels(png: Png, raw: seq<Byte>)
    returns (pixels: seq<Row>, error: Option<Error>, ghost kinds: Row, ghost rows: seq<Row>)
    ensures error == Some(UnsupportedEncoding) <==> !Supported(png)
    ensures error == Some(UnsupportedEncoding) <==>
              !(png.bitDepth == 8 && (png.colorType == 2 || png.colorType == 6) && png.interlace == 0)
    ensures error == Some(UnexpectedLength) <==> Supported(png) && |raw| != png.height * (RowLength(png) + 1)
    ensures BytesPerPixel(png) == if png.colorType == 2 then 3 else 4
    ensures RowLength(png) == png.width * BytesPerPixel(png)
    ensures error.None? ==> Encodes(png, raw, kinds, rows)
    ensures IsImage(rows, RowLength(png)) && pixels == ImagePixels(rows, BytesPerPixel(png))
    ensures error == Some(UnsupportedFilter) ==>
              && RowLength(png) > 0 && |rows| < png.height
              && |rows| * (RowLength(png) + 1) < |raw| && raw[|rows| * (RowLength(png) + 1)] > 4
  {
    pixels, error, kinds, rows := [], None, [], [];
    if png.bitDepth != 8 || png.colorType !in {2, 6} || png.interlace != 0 {
      error := Some(UnsupportedEncoding);
      return;
    }
    var bpp := BytesPerPixel(png);
    var length := png.width * bpp;
    if |raw| != png.height * (length + 1) {
      error := Some(UnexpectedLength);
      return;
    }
    var ok;
    ok, pixels, kinds, rows := DecodeRows(raw, png.width, png.height, length, bpp);
    assert raw[..|raw|] == raw;
    error := if ok then None else Some(UnsupportedFilter);
  }

  /** Data an encoder wrote has a known filter in front of every row. */
  lemma EncodedHasKnownFilters(png: Png, raw: seq<Byte>, kinds: Row, image: seq<Row>, y: nat)
    requires Encodes(png, raw, kinds, image) && RowLength(png) > 0 && y < png.height
    ensures y * (RowLength(png) + 1) < |raw| && raw[y * (RowLength(png) + 1)] <= 4
  {
    KindAt(kinds, image, RowLength(png), BytesPerPixel(png), y);
  }

  /** Reading back what an encoder wrote: no error, and every pixel as it was. */
  method ReadEncoded(png: Png, raw: seq<Byte>, ghost kinds: Row, ghost image: seq<Row>) returns (pixels: seq<Row>)
    requires Supported(png) && Encodes(png, raw, kinds, image)
    ensures pixels == ImagePixels(image, BytesPerPixel(png)) && |pixels| == png.height * png.width
  {
    var error;
    ghost var read, rows;
    pixels, error, read, rows := IterPixels(png, raw);
    if RowLength(png) > 0 && |rows| < png.height {
      EncodedHasKnownFilters(png, raw, kinds, image, |rows|);
    }
    assert |raw| == png.height * (RowLength(png) + 1);
    assert error.None? by {
      match error
      case None =>
      case Some(e) => match e { case UnsupportedEncoding => case UnexpectedLength => case UnsupportedFilter => }
    }
    ScanlinesInjective(read, rows, kinds, image, RowLength(png), BytesPerPixel(png));
    ImagePixelCount(image, png.width, BytesPerPixel(png));
  }
}
