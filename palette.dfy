/** The brute-force quantizer of src/utils/palette.py (and the identical nested
    helpers of the early script main.py): colour distance, the closest palette
    colour by a stable sort, and the two loops that repaint a copy of an image
    pixel by pixel. */
module Palette {
  import opened Common

  /** The square of `distance(c1, c2)`, the Euclidean distance in RGB space.
      Squaring is monotone on non-negative numbers, so it orders colours
      exactly as the square root does. */
  function SquaredDistance(c1: Color, c2: Color): (d: int)
    ensures d >= 0
    ensures d == 0 <==> c1 == c2
  {
    SquareFacts(c1.r - c2.r);
    SquareFacts(c1.g - c2.g);
    SquareFacts(c1.b - c2.b);
    (c1.r - c2.r) * (c1.r - c2.r) + (c1.g - c2.g) * (c1.g - c2.g) + (c1.b - c2.b) * (c1.b - c2.b)
  }

  /** A square is never negative, and is zero only for zero. */
  lemma SquareFacts(a: int)
    ensures a * a >= 0
    ensures a * a == 0 <==> a == 0
  {
    if a > 0 {
      assert a * a >= a;
    } else if a < 0 {
      assert a * a == (-a) * (-a);
      assert (-a) * (-a) >= -a;
    }
  }

  lemma DistanceSymmetric(c1: Color, c2: Color)
    ensures SquaredDistance(c1, c2) == SquaredDistance(c2, c1)
  {
  }

  /** Palette entry i is at minimal distance from c. */
  predicate IsNearest(c: Color, p: seq<Color>, i: int) {
    0 <= i < |p| && forall j :: 0 <= j < |p| ==> SquaredDistance(p[i], c) <= SquaredDistance(p[j], c)
  }

  /** Entry i is the first entry at minimal distance: what a stable sort by
      distance puts at position 0. */
  predicate IsFirstNearest(c: Color, p: seq<Color>, i: int) {
    IsNearest(c, p, i) && forall j :: 0 <= j < i ==> SquaredDistance(p[j], c) > SquaredDistance(p[i], c)
  }

  /** At most one entry is the first nearest one. */
  lemma FirstNearestUnique(c: Color, p: seq<Color>, i: int, j: int)
    requires IsFirstNearest(c, p, i) && IsFirstNearest(c, p, j)
    ensures i == j
  {
    var di, dj := SquaredDistance(p[i], c), SquaredDistance(p[j], c);
    assert di <= dj && dj <= di;
  }

  /** The left-to-right scan over the first n entries of p: the index moves
      only on a strictly smaller distance. */
  function ClosestAmong(c: Color, p: seq<Color>, n: nat): (i: nat)
    requires 0 < n <= |p|
    ensures i < n
    decreases n
  {
    if n == 1 then 0
    else
      var k := ClosestAmong(c, p, n - 1);
      if SquaredDistance(p[n - 1], c) < SquaredDistance(p[k], c) then n - 1 else k
  }

  /** The scan over the first n entries ends at the first of them at minimal
      distance. */
  lemma {:induction false} ClosestAmongFirst(c: Color, p: seq<Color>, n: nat)
    requires 0 < n <= |p|
    ensures var i := ClosestAmong(c, p, n);
            (forall j :: 0 <= j < n ==> SquaredDistance(p[i], c) <= SquaredDistance(p[j], c)) &&
            (forall j :: 0 <= j < i ==> SquaredDistance(p[j], c) > SquaredDistance(p[i], c))
    decreases n
  {
    if n > 1 {
      ClosestAmongFirst(c, p, n - 1);
    }
  }

  /** The position of `sorted(p, key=lambda col: distance(col, c))[0]`:
      the scan over the whole palette. */
  function ClosestIndex(c: Color, p: seq<Color>): (i: nat)
    requires |p| > 0
    ensures i < |p|
  {
    ClosestAmong(c, p, |p|)
  }

  /** The scan ends at the first entry at minimal distance, which is what a
      stable sort by distance puts first. */
  lemma ClosestIndexFirst(c: Color, p: seq<Color>)
    requires |p| > 0
    ensures IsFirstNearest(c, p, ClosestIndex(c, p))
  {
    ClosestAmongFirst(c, p, |p|);
  }

  /** `get_closest_color(c, p)`: the first palette entry at minimal distance
      from c; an empty palette raises IndexError. */
  function GetClosestColor(c: Color, p: seq<Color>): (r: Result<Color>)
    ensures r.Err? <==> p == []
    ensures r.Err? ==> r.error == EmptyPalette
  {
    if p == [] then Err(EmptyPalette) else Ok(p[ClosestIndex(c, p)])
  }

  /** On a non-empty palette the answer is a palette colour at minimal
      distance from c, the one at the first such position. */
  lemma ClosestColorNearest(c: Color, p: seq<Color>)
    requires p != []
    ensures var r := GetClosestColor(c, p);
            r.Ok? && r.value in p &&
            (forall q :: q in p ==> SquaredDistance(r.value, c) <= SquaredDistance(q, c)) &&
            exists i :: IsFirstNearest(c, p, i) && r.value == p[i]
  {
    var i := ClosestIndex(c, p);
    ClosestIndexFirst(c, p);
    forall q | q in p
      ensures SquaredDistance(p[i], c) <= SquaredDistance(q, c)
    {
      var j :| 0 <= j < |p| && p[j] == q;
    }
  }

  /** The closest colour, for a palette known to be non-empty. */
  function Closest(c: Color, p: seq<Color>): (r: Color)
    requires p != []
    ensures GetClosestColor(c, p) == Ok(r)
  {
    p[ClosestIndex(c, p)]
  }

  /** A colour of the palette comes back as itself (by value, whichever of
      its copies comes first). */
  lemma ClosestOfMember(c: Color, p: seq<Color>)
    requires c in p
    ensures GetClosestColor(c, p) == Ok(c)
  {
    var i := ClosestIndex(c, p);
    ClosestIndexFirst(c, p);
    var j :| 0 <= j < |p| && p[j] == c;
    assert SquaredDistance(p[j], c) == 0;
    assert SquaredDistance(p[i], c) <= 0;
  }

  /** Ties go to the earliest entry: any entry at least as close as the result
      lies at or after the result's first position. */
  lemma ClosestTieBreak(c: Color, p: seq<Color>, j: nat)
    requires j < |p| && p != []
    requires SquaredDistance(p[j], c) <= SquaredDistance(Closest(c, p), c)
    ensures ClosestIndex(c, p) <= j
    ensures SquaredDistance(p[j], c) == SquaredDistance(Closest(c, p), c)
  {
    ClosestIndexFirst(c, p);
  }

  // ---------------------------------------------------------------------------
  // change_palette

  /** The work done for one pixel of an RGB image. */
  function PixelQuantizer(palette: seq<Color>): Color -> Result<Color> {
    c => if palette == [] then Err(EmptyPalette) else Ok(Clip8(Closest(c, palette)))
  }

  /** What `change_palette(image, palette)` returns: the image with every
      pixel replaced by its closest palette colour (as stored by `putpixel`),
      or the IndexError of the first pixel when the palette is empty. */
  function Quantized(image: Image<Color>, palette: seq<Color>): Result<Image<Color>> {
    MapImageResult(image, PixelQuantizer(palette))
  }

  /** The quantized image keeps the size, and pixel (x, y) is the closest
      palette colour to input pixel (x, y), clamped to bytes; it fails
      exactly when the palette is empty and the image has a pixel. */
  lemma QuantizedSpec(image: Image<Color>, palette: seq<Color>)
    ensures Quantized(image, palette).Err? <==> palette == [] && image.width > 0 && image.height > 0
    ensures Quantized(image, palette).Err? ==> Quantized(image, palette).error == EmptyPalette
    ensures Quantized(image, palette).Ok? ==>
              var out := Quantized(image, palette).value;
              out.width == image.width && out.height == image.height &&
              forall y, x :: 0 <= y < image.height && 0 <= x < image.width ==>
                GetClosestColor(image.rows[y][x], palette).Ok? &&
                out.rows[y][x] == Clip8(GetClosestColor(image.rows[y][x], palette).value)
  {
    var f := PixelQuantizer(palette);
    if palette == [] && image.width > 0 && image.height > 0 {
      MapImageFirstError(image, f, 0, 0);
    }
  }

  /** With a palette of byte colours (every palette parsed from six hex
      digits is one), clamping leaves the closest colour as it is: every
      pixel of a quantized image is the closest palette colour to its input
      pixel, at minimal distance. */
  lemma QuantizedMembers(image: Image<Color>, palette: seq<Color>, y: nat, x: nat)
    requires Quantized(image, palette).Ok? && AllBytes(palette)
    requires y < image.height && x < image.width
    ensures var out := Quantized(image, palette).value;
            GetClosestColor(image.rows[y][x], palette) == Ok(out.rows[y][x]) &&
            out.rows[y][x] in palette &&
            forall q :: q in palette ==> SquaredDistance(out.rows[y][x], image.rows[y][x]) <= SquaredDistance(q, image.rows[y][x])
  {
    QuantizedSpec(image, palette);
    var c := image.rows[y][x];
    ClosestColorNearest(c, palette);
    var v := GetClosestColor(c, palette).value;
    var i :| 0 <= i < |palette| && palette[i] == v;
    assert IsByteColor(palette[i]);
  }

  /** Quantizing twice with a palette of byte colours changes nothing more:
      every pixel is already a palette colour. */
  lemma QuantizedIdempotent(image: Image<Color>, palette: seq<Color>)
    requires Quantized(image, palette).Ok? && AllBytes(palette)
    ensures Quantized(Quantized(image, palette).value, palette) == Quantized(image, palette)
  {
    var out := Quantized(image, palette).value;
    var f := PixelQuantizer(palette);
    QuantizedSpec(image, palette);
    forall y, x | 0 <= y < out.height && 0 <= x < out.width
      ensures f(out.rows[y][x]) == Ok(out.rows[y][x])
    {
      QuantizedMembers(image, palette, y, x);
      ClosestOfMember(out.rows[y][x], palette);
      assert IsByteColor(out.rows[y][x]) by {
        var i :| 0 <= i < |palette| && palette[i] == out.rows[y][x];
      }
    }
    MapImageResultTotal(out, f, (c: Color) => c);
    ImageExt(MapImage(out, (c: Color) => c), out);
  }

  /** One pass of the inner loop of `change_palette` at pixel (x, y): either
      the pixel raises the exception of the whole map, or writing its clamped
      closest colour extends the scan by one pixel. */
  lemma QuantizeStep(image: Image<Color>, out: Image<Color>, palette: seq<Color>, x: nat, y: nat)
    requires Scanned(image, out, PixelQuantizer(palette), x, y) && x < image.width
    ensures palette == [] ==> Quantized(image, palette) == Err(EmptyPalette)
    ensures palette != [] ==>
              Scanned(image, PutPixel(out, x, y, Clip8(GetClosestColor(out.rows[y][x], palette).value)), PixelQuantizer(palette), x + 1, y)
  {
    var f := PixelQuantizer(palette);
    ScanRead(image, out, f, x, y);
    if palette == [] {
      ScanRaise(image, out, f, x, y);
    } else {
      ScanWrite(image, out, f, x, y, Clip8(GetClosestColor(out.rows[y][x], palette).value));
    }
  }

  /** `change_palette(image, palette)`: copy the image, then for y, for x,
      `putpixel` the closest palette colour at (x, y). The input is not
      touched (it is a value); each step writes only pixel (x, y). */
  method ChangePalette(image: Image<Color>, palette: seq<Color>) returns (r: Result<Image<Color>>)
    ensures r == Quantized(image, palette)
  {
    var f := PixelQuantizer(palette);
    var newImage := image;
    var w, h := image.width, image.height;
    var y := 0;
    while y < h
      invariant RowsScanned(image, newImage, f, y)
    {
      ScanStart(image, newImage, f, y);
      var x := 0;
      while x < w
        invariant Scanned(image, newImage, f, x, y)
      {
        var pixel := newImage.rows[y][x];
        var newColor := GetClosestColor(pixel, palette);
        QuantizeStep(image, newImage, palette, x, y);
        if newColor.Err? {
          return Err(newColor.error);
        }
        newImage := PutPixel(newImage, x, y, Clip8(newColor.value));
        x := x + 1;
      }
      ScanRowDone(image, newImage, f, y);
      y := y + 1;
    }
    ScanDone(image, newImage, f);
    return Ok(newImage);
  }

  // ---------------------------------------------------------------------------
  // change_palette_in_gif

  /** The colour a GIF pixel stands for: an index through the table of the
      original image (KeyError when absent), a tuple of more than three
      channels without its last one (the alpha), any other tuple as it is. */
  function ResolvePixel(pixel: Pixel, table: map<int, seq<int>>): (r: Result<seq<int>>)
    ensures pixel.Index? ==> (r.Ok? <==> pixel.index in table)
    ensures pixel.Index? && r.Ok? ==> r.value == table[pixel.index]
    ensures pixel.Index? && r.Err? ==> r.error == MissingIndex(pixel.index)
    ensures pixel.Channels? ==> r.Ok?
    ensures pixel.Channels? && |pixel.channels| > 3 ==> r.value == pixel.channels[..|pixel.channels| - 1]
    ensures pixel.Channels? && |pixel.channels| <= 3 ==> r.value == pixel.channels
  {
    match pixel
    case Index(i) => if i in table then Ok(table[i]) else Err(MissingIndex(i))
    case Channels(t) => if |t| > 3 then Ok(t[..|t| - 1]) else Ok(t)
  }

  /** `get_closest_color(pixel_color, palette)` on a tuple, as `putpixel`
      then stores it: sorting an empty palette calls no key and `[0]` raises
      IndexError; otherwise `distance` unpacks the tuple, which raises unless
      it has three channels; the closest colour is stored clamped to bytes. */
  function TupleQuantizer(t: seq<int>, palette: seq<Color>): (r: Result<Color>)
    ensures palette == [] ==> r == Err(EmptyPalette)
    ensures palette != [] && |t| != 3 ==> r == Err(NotATriple(t))
    ensures palette != [] && |t| == 3 ==> r == PixelQuantizer(palette)(AsColor(t).value)
  {
    if palette == [] then Err(EmptyPalette)
    else match AsColor(t)
      case None => Err(NotATriple(t))
      case Some(c) => Ok(Clip8(Closest(c, palette)))
  }

  /** One pass of the loop body of change_palette_in_gif on the pixel
      getpixel returned: resolve it to a tuple, then the colour stored for it. */
  function QuantizeGifPixel(pixel: Pixel, palette: seq<Color>, table: map<int, seq<int>>): (r: Result<Color>)
    ensures ResolvePixel(pixel, table).Err? ==> r == Err(ResolvePixel(pixel, table).error)
    ensures ResolvePixel(pixel, table).Ok? ==> r == TupleQuantizer(ResolvePixel(pixel, table).value, palette)
  {
    match ResolvePixel(pixel, table)
    case Err(e) => Err(e)
    case Ok(t) => TupleQuantizer(t, palette)
  }

  /** The loop body on an image already converted to RGB, where getpixel
      returns the three-channel tuple of the pixel. */
  function GifPixelQuantizer(palette: seq<Color>, table: map<int, seq<int>>): Color -> Result<Color> {
    c => QuantizeGifPixel(Channels(AsTuple(c)), palette, table)
  }

  /** What `change_palette_in_gif(image, palette, original)` returns, for the
      RGB conversion `image` and the colour table `original.palette.colors`
      (colour -> index, in dictionary order). */
  function QuantizedGif(image: Image<Color>, palette: seq<Color>, colors: seq<(seq<int>, int)>): Result<Image<Color>> {
    MapImageResult(image, GifPixelQuantizer(palette, IndexToColor(colors)))
  }

  /** An indexed pixel quantizes exactly like the direct colour its table entry
      names: index 5 with 5 -> (255, 33, 33) behaves as the pixel (255, 33, 33). */
  lemma GifIndexLikeDirect(palette: seq<Color>, colors: seq<(seq<int>, int)>, i: int, c: Color)
    requires i in IndexToColor(colors) && IndexToColor(colors)[i] == AsTuple(c)
    ensures QuantizeGifPixel(Index(i), palette, IndexToColor(colors)) == PixelQuantizer(palette)(c)
    ensures QuantizeGifPixel(Channels(AsTuple(c)), palette, IndexToColor(colors)) == PixelQuantizer(palette)(c)
  {
    AsColorOfTuple(c);
  }

  /** An index outside the table raises KeyError, whatever the palette. */
  lemma GifMissingIndex(palette: seq<Color>, colors: seq<(seq<int>, int)>, i: int)
    requires forall k :: 0 <= k < |colors| ==> colors[k].1 != i
    ensures QuantizeGifPixel(Index(i), palette, IndexToColor(colors)) == Err(MissingIndex(i))
  {
  }

  /** An RGBA pixel quantizes like its RGB part: the alpha is dropped. */
  lemma GifAlphaDropped(palette: seq<Color>, table: map<int, seq<int>>, c: Color, alpha: int)
    ensures QuantizeGifPixel(Channels(AsTuple(c) + [alpha]), palette, table) == PixelQuantizer(palette)(c)
  {
    var t := AsTuple(c) + [alpha];
    assert t[..|t| - 1] == AsTuple(c);
    AsColorOfTuple(c);
  }

  /** Every pixel getpixel returns after the conversion is a triple, so the
      index and alpha branches never run and the result is that of change_palette. */
  lemma GifOnRgbIsPlain(image: Image<Color>, palette: seq<Color>, colors: seq<(seq<int>, int)>)
    ensures QuantizedGif(image, palette, colors) == Quantized(image, palette)
  {
    var g := GifPixelQuantizer(palette, IndexToColor(colors));
    var f := PixelQuantizer(palette);
    forall y, x | 0 <= y < image.height && 0 <= x < image.width
      ensures g(image.rows[y][x]) == f(image.rows[y][x])
    {
      AsColorOfTuple(image.rows[y][x]);
    }
    MapImageResultAgree(image, image, g, f);
  }

  /** One pass of the inner loop of `change_palette_in_gif` at pixel (x, y):
      either the pixel raises the exception of the whole map, or writing its
      colour extends the scan by one pixel. */
  lemma QuantizeGifStep(image: Image<Color>, out: Image<Color>, palette: seq<Color>, table: map<int, seq<int>>, x: nat, y: nat)
    requires Scanned(image, out, GifPixelQuantizer(palette, table), x, y) && x < image.width
    ensures var c := QuantizeGifPixel(Channels(AsTuple(out.rows[y][x])), palette, table);
            c.Err? ==> MapImageResult(image, GifPixelQuantizer(palette, table)) == Err(c.error)
    ensures var c := QuantizeGifPixel(Channels(AsTuple(out.rows[y][x])), palette, table);
            c.Ok? ==> Scanned(image, PutPixel(out, x, y, c.value), GifPixelQuantizer(palette, table), x + 1, y)
  {
    var f := GifPixelQuantizer(palette, table);
    ScanRead(image, out, f, x, y);
    var c := QuantizeGifPixel(Channels(AsTuple(out.rows[y][x])), palette, table);
    if c.Err? {
      ScanRaise(image, out, f, x, y);
    } else {
      ScanWrite(image, out, f, x, y, c.value);
    }
  }

  /** `change_palette_in_gif(image, palette, original_input_image)`: build the
      index -> colour table, then rewrite a copy of the image pixel by pixel. */
  method ChangePaletteInGif(image: Image<Color>, palette: seq<Color>, colors: seq<(seq<int>, int)>)
    returns (r: Result<Image<Color>>)
    ensures r == QuantizedGif(image, palette, colors)
  {
    var indexToColor := IndexToColor(colors);
    var f := GifPixelQuantizer(palette, indexToColor);
    var newImage := image;
    var w, h := image.width, image.height;
    var y := 0;
    while y < h
      invariant RowsScanned(image, newImage, f, y)
    {
      ScanStart(image, newImage, f, y);
      var x := 0;
      while x < w
        invariant Scanned(image, newImage, f, x, y)
      {
        var pixel := Channels(AsTuple(newImage.rows[y][x]));
        var newColor := QuantizeGifPixel(pixel, palette, indexToColor);
        QuantizeGifStep(image, newImage, palette, indexToColor, x, y);
        if newColor.Err? {
          return Err(newColor.error);
        }
        newImage := PutPixel(newImage, x, y, newColor.value);
        x := x + 1;
      }
      ScanRowDone(image, newImage, f, y);
      y := y + 1;
    }
    ScanDone(image, newImage, f);
    return Ok(newImage);
  }
}
