/** The vectorised quantizer of src/utils/fast_palette.py: the RGB pixels are
    flattened into an (n, 3) array, a KD-tree over the palette answers a
    nearest-neighbour query for every row of it, the answers index the
    palette array, and the result is reshaped to the image and cast to
    unsigned bytes. The tree is known only by its contract: for a non-empty
    palette it names some entry at minimal distance, ties broken in a way
    the model leaves open. */
module FastPalette {
  import opened Common
  import opened Palette

  /** `tree.query`, one index per row: the tree built over a palette, asked
      for a colour. */
  type NearestQuery = (seq<Color>, Color) -> nat

  /** The KD-tree's contract: over any non-empty palette, every answer is an
      index of an entry at minimal distance. */
  ghost predicate IsNearestQuery(query: NearestQuery) {
    forall p: seq<Color>, c: Color :: p != [] ==> IsNearest(c, p, query(p, c))
  }

  /** The scan used by the brute-force quantizer is one such query. */
  lemma FirstNearestIsQuery()
    ensures IsNearestQuery((p: seq<Color>, c: Color) => if p == [] then 0 else ClosestIndex(c, p))
  {
    forall p: seq<Color>, c: Color | p != []
      ensures IsNearest(c, p, ClosestIndex(c, p))
    {
      ClosestIndexFirst(c, p);
    }
  }

  // ---------------------------------------------------------------------------
  // reshape(-1, 3) and reshape(h, w, 3)

  /** `reshape(-1, 3)` of an image array: the pixels in row-major order. */
  function Flatten<T>(rows: seq<seq<T>>): seq<T>
    decreases |rows|
  {
    if rows == [] then [] else Flatten(rows[..|rows| - 1]) + rows[|rows| - 1]
  }

  lemma MulPred(h: nat, w: nat)
    requires h > 0
    ensures h * w - w == (h - 1) * w && w <= h * w
  {
  }

  lemma {:induction false} FlattenLength<T>(rows: seq<seq<T>>, w: nat)
    requires forall y :: 0 <= y < |rows| ==> |rows[y]| == w
    ensures |Flatten(rows)| == |rows| * w
    decreases |rows|
  {
    if rows != [] {
      FlattenLength(rows[..|rows| - 1], w);
      MulPred(|rows|, w);
    }
  }

  /** `reshape(h, w, 3)` of a flat array of h * w pixels: h rows of w. */
  function Reshape<T>(flat: seq<T>, h: nat, w: nat): (rows: seq<seq<T>>)
    requires |flat| == h * w
    ensures |rows| == h && forall y :: 0 <= y < h ==> |rows[y]| == w
    decreases h
  {
    if h == 0 then []
    else
      MulPred(h, w);
      Reshape(flat[..|flat| - w], h - 1, w) + [flat[|flat| - w..]]
  }

  /** Flattening then reshaping gives the rows back. */
  lemma {:induction false} ReshapeFlatten<T>(rows: seq<seq<T>>, w: nat)
    requires forall y :: 0 <= y < |rows| ==> |rows[y]| == w
    ensures |Flatten(rows)| == |rows| * w
    ensures Reshape(Flatten(rows), |rows|, w) == rows
    decreases |rows|
  {
    FlattenLength(rows, w);
    if rows != [] {
      var n := |rows| - 1;
      var flat := Flatten(rows);
      ReshapeFlatten(rows[..n], w);
      assert flat[..|flat| - w] == Flatten(rows[..n]);
      assert flat[|flat| - w..] == rows[n];
      assert rows == rows[..n] + [rows[n]];
    }
  }

  /** Reshaping then flattening gives the flat array back. */
  lemma {:induction false} FlattenReshape<T>(flat: seq<T>, h: nat, w: nat)
    requires |flat| == h * w
    ensures Flatten(Reshape(flat, h, w)) == flat
    decreases h
  {
    if h > 0 {
      MulPred(h, w);
      var rows := Reshape(flat, h, w);
      FlattenReshape(flat[..|flat| - w], h - 1, w);
      assert rows[..h - 1] == Reshape(flat[..|flat| - w], h - 1, w);
      assert flat == flat[..|flat| - w] + flat[|flat| - w..];
    }
  }

  /** A relation that holds entry by entry between two flat arrays holds
      pixel by pixel between their reshapes: reshape keeps positions. */
  lemma {:induction false} ReshapePointwise<T, U>(a: seq<T>, b: seq<U>, h: nat, w: nat, rel: (T, U) -> bool)
    requires |a| == h * w && |b| == h * w
    requires forall k :: 0 <= k < |a| ==> rel(a[k], b[k])
    ensures forall y, x :: 0 <= y < h && 0 <= x < w ==> rel(Reshape(a, h, w)[y][x], Reshape(b, h, w)[y][x])
    decreases h
  {
    if h > 0 {
      MulPred(h, w);
      var n := |a| - w;
      ReshapePointwise(a[..n], b[..n], h - 1, w, rel);
      var ra, rb := Reshape(a, h, w), Reshape(b, h, w);
      forall y, x | 0 <= y < h && 0 <= x < w
        ensures rel(ra[y][x], rb[y][x])
      {
        if y < h - 1 {
          assert ra[y] == Reshape(a[..n], h - 1, w)[y];
          assert rb[y] == Reshape(b[..n], h - 1, w)[y];
        } else {
          assert ra[y][x] == a[n + x] && rb[y][x] == b[n + x];
        }
      }
    }
  }

  // ---------------------------------------------------------------------------
  // change_palette

  /** `astype('uint8')`: each channel keeps its low eight bits. */
  function ToUint8(c: Color): (r: Color)
    ensures 0 <= r.r < 256 && 0 <= r.g < 256 && 0 <= r.b < 256
    ensures (r.r - c.r) % 256 == 0 && (r.g - c.g) % 256 == 0 && (r.b - c.b) % 256 == 0
  {
    RGB(c.r % 256, c.g % 256, c.b % 256)
  }

  lemma ToUint8OfByte(c: Color)
    requires IsByteColor(c)
    ensures ToUint8(c) == c
  {
  }

  /** `palette_array[indices]` for the query answers over the flat pixels. */
  function Gather(flat: seq<Color>, palette: seq<Color>, query: NearestQuery): (r: seq<Color>)
    requires IsNearestQuery(query) && palette != []
    ensures |r| == |flat|
    ensures forall k :: 0 <= k < |flat| ==> r[k] == palette[query(palette, flat[k])]
  {
    seq(|flat|, k requires 0 <= k < |flat| => palette[query(palette, flat[k])])
  }

  /** Each gathered entry is a palette colour nearest to its pixel. */
  lemma GatherNearest(flat: seq<Color>, palette: seq<Color>, query: NearestQuery, k: nat)
    requires IsNearestQuery(query) && palette != [] && k < |flat|
    ensures var r := Gather(flat, palette, query);
            r[k] in palette &&
            forall q :: q in palette ==> SquaredDistance(r[k], flat[k]) <= SquaredDistance(q, flat[k])
  {
    var i := query(palette, flat[k]);
    assert IsNearest(flat[k], palette, i);
    forall q | q in palette
      ensures SquaredDistance(palette[i], flat[k]) <= SquaredDistance(q, flat[k])
    {
      var j :| 0 <= j < |palette| && palette[j] == q;
    }
  }

  /** `fast_palette.change_palette(image, palette)` for the RGB conversion
      `image`: the tree over an empty palette raises before any query. */
  function ChangePalette(image: Image<Color>, palette: seq<Color>, query: NearestQuery): Result<Image<Color>>
    requires IsNearestQuery(query)
  {
    if palette == [] then Err(EmptyPalette)
    else
      var flat := Flatten(image.rows);
      FlattenLength(image.rows, image.width);
      var newFlat := Gather(flat, palette, query);
      Ok(MapImage(Grid(image.width, image.height, Reshape(newFlat, image.height, image.width)), ToUint8))
  }

  /** Same size; pixel (x, y) is the byte cast of the palette entry the tree
      names for input pixel (x, y); the only failure is an empty palette. */
  lemma ChangePaletteSpec(image: Image<Color>, palette: seq<Color>, query: NearestQuery)
    requires IsNearestQuery(query)
    ensures ChangePalette(image, palette, query).Err? <==> palette == []
    ensures ChangePalette(image, palette, query).Ok? ==>
              var out := ChangePalette(image, palette, query).value;
              out.width == image.width && out.height == image.height &&
              forall y, x :: 0 <= y < image.height && 0 <= x < image.width ==>
                out.rows[y][x] == ToUint8(palette[query(palette, image.rows[y][x])])
  {
    if palette != [] {
      var flat := Flatten(image.rows);
      ReshapeFlatten(image.rows, image.width);
      var newFlat := Gather(flat, palette, query);
      var rel := (c: Color, d: Color) => query(palette, c) < |palette| && d == palette[query(palette, c)];
      ReshapePointwise(flat, newFlat, image.height, image.width, rel);
    }
  }

  /** With a palette of byte colours (every palette parsed from six hex
      digits is one), every output pixel is a palette colour at minimal
      distance from its input pixel. */
  lemma ChangePaletteNearest(image: Image<Color>, palette: seq<Color>, query: NearestQuery, y: nat, x: nat)
    requires IsNearestQuery(query) && AllBytes(palette)
    requires ChangePalette(image, palette, query).Ok? && y < image.height && x < image.width
    ensures var out := ChangePalette(image, palette, query).value;
            out.rows[y][x] in palette &&
            forall q :: q in palette ==> SquaredDistance(out.rows[y][x], image.rows[y][x]) <= SquaredDistance(q, image.rows[y][x])
  {
    ChangePaletteSpec(image, palette, query);
    var i := query(palette, image.rows[y][x]);
    ToUint8OfByte(palette[i]);
  }

  /** The nearest palette colour to c is unique (entries at minimal distance
      may repeat it, but no other colour is as close). */
  predicate UniqueNearest(c: Color, palette: seq<Color>) {
    forall i, j :: 0 <= i < |palette| && 0 <= j < |palette| && IsNearest(c, palette, i) && IsNearest(c, palette, j) ==> palette[i] == palette[j]
  }

  /** A pixel with a unique nearest colour comes out the same from both
      quantizers. */
  lemma AgreesAt(image: Image<Color>, palette: seq<Color>, query: NearestQuery, y: nat, x: nat)
    requires IsNearestQuery(query) && AllBytes(palette) && palette != []
    requires y < image.height && x < image.width && UniqueNearest(image.rows[y][x], palette)
    ensures ChangePalette(image, palette, query).value.rows[y][x] == Quantized(image, palette).value.rows[y][x]
  {
    var c := image.rows[y][x];
    var i := query(palette, c);
    var j := ClosestIndex(c, palette);
    assert IsNearest(c, palette, i);
    ClosestIndexFirst(c, palette);
    assert palette[i] == palette[j];
    assert ChangePalette(image, palette, query).value.rows[y][x] == ToUint8(palette[i]) by {
      ChangePaletteSpec(image, palette, query);
    }
    ToUint8OfByte(palette[i]);
    assert Quantized(image, palette).Ok? by {
      QuantizedSpec(image, palette);
    }
    QuantizedMembers(image, palette, y, x);
  }

  /** When every pixel has a unique nearest colour, the KD-tree quantizer and
      the brute-force quantizer of palette.py produce the same image. */
  lemma AgreesWithBruteForce(image: Image<Color>, palette: seq<Color>, query: NearestQuery)
    requires IsNearestQuery(query) && AllBytes(palette) && palette != []
    requires forall y, x :: 0 <= y < image.height && 0 <= x < image.width ==> UniqueNearest(image.rows[y][x], palette)
    ensures ChangePalette(image, palette, query) == Quantized(image, palette)
  {
    ChangePaletteSpec(image, palette, query);
    QuantizedSpec(image, palette);
    var out := ChangePalette(image, palette, query).value;
    var slow := Quantized(image, palette).value;
    forall y, x | 0 <= y < image.height && 0 <= x < image.width
      ensures out.rows[y][x] == slow.rows[y][x]
    {
      AgreesAt(image, palette, query, y, x);
    }
    ImageExt(out, slow);
  }

  /** On a tie the two quantizers may pick different colours, but always
      colours at the same distance. */
  lemma TiesKeepDistance(image: Image<Color>, palette: seq<Color>, query: NearestQuery, y: nat, x: nat)
    requires IsNearestQuery(query) && AllBytes(palette) && palette != []
    requires y < image.height && x < image.width
    ensures var c := image.rows[y][x];
            SquaredDistance(ChangePalette(image, palette, query).value.rows[y][x], c) ==
            SquaredDistance(Quantized(image, palette).value.rows[y][x], c)
  {
    var c := image.rows[y][x];
    var i := query(palette, c);
    var j := ClosestIndex(c, palette);
    assert IsNearest(c, palette, i);
    ClosestIndexFirst(c, palette);
    assert SquaredDistance(palette[i], c) == SquaredDistance(palette[j], c);
    assert ChangePalette(image, palette, query).value.rows[y][x] == ToUint8(palette[i]) by {
      ChangePaletteSpec(image, palette, query);
    }
    ToUint8OfByte(palette[i]);
    assert Quantized(image, palette).Ok? by {
      QuantizedSpec(image, palette);
    }
    QuantizedMembers(image, palette, y, x);
  }

  /** The two answer the same whatever tree answers the queries. */
  lemma ChangePaletteByQueryDistance(image: Image<Color>, palette: seq<Color>, q1: NearestQuery, q2: NearestQuery, y: nat, x: nat)
    requires IsNearestQuery(q1) && IsNearestQuery(q2) && AllBytes(palette) && palette != []
    requires y < image.height && x < image.width
    ensures var c := image.rows[y][x];
            SquaredDistance(ChangePalette(image, palette, q1).value.rows[y][x], c) ==
            SquaredDistance(ChangePalette(image, palette, q2).value.rows[y][x], c)
  {
    TiesKeepDistance(image, palette, q1, y, x);
    TiesKeepDistance(image, palette, q2, y, x);
  }

  // ---------------------------------------------------------------------------
  // change_palette_in_gif

  /** One entry of `pixel_colors`: an int through the index -> colour table
      (KeyError when absent), anything else cut to its first three channels. */
  function FlatPixelColor(pixel: Pixel, table: map<int, seq<int>>): (r: Result<seq<int>>)
    ensures pixel.Index? ==> (r.Ok? <==> pixel.index in table)
    ensures pixel.Index? && r.Ok? ==> r.value == table[pixel.index]
    ensures pixel.Index? && r.Err? ==> r.error == MissingIndex(pixel.index)
    ensures pixel.Channels? ==> r.Ok? && r.value == pixel.channels[..if |pixel.channels| < 3 then |pixel.channels| else 3]
  {
    match pixel
    case Index(i) => if i in table then Ok(table[i]) else Err(MissingIndex(i))
    case Channels(t) => Ok(if |t| < 3 then t else t[..3])
  }

  function FlatPixelResolver(table: map<int, seq<int>>): Pixel -> Result<seq<int>> {
    px => FlatPixelColor(px, table)
  }

  /** `np.array(pixel_colors)` handed to `tree.query`: the query needs a
      non-empty (n, 3) array, so an empty list or an entry that is not three
      channels raises ValueError. */
  function AsColorRows(tuples: seq<seq<int>>): (r: Result<seq<Color>>)
    ensures r.Ok? <==> tuples != [] && forall k :: 0 <= k < |tuples| ==> |tuples[k]| == 3
    ensures r.Err? ==> r.error == ShapeMismatch
    ensures r.Ok? ==> |r.value| == |tuples| && forall k :: 0 <= k < |tuples| ==> AsTuple(r.value[k]) == tuples[k]
  {
    if tuples != [] && forall k :: 0 <= k < |tuples| ==> |tuples[k]| == 3 then
      Ok(seq(|tuples|, k requires 0 <= k < |tuples| => AsColor(tuples[k]).value))
    else Err(ShapeMismatch)
  }

  /** The GIF variant on the pixels as getpixel-style values, in row-major
      order: tree first, then the table lookups in order, then the query. */
  function GifFlat(pixels: seq<Pixel>, h: nat, w: nat, palette: seq<Color>, colors: seq<(seq<int>, int)>, query: NearestQuery): Result<Image<Color>>
    requires IsNearestQuery(query) && |pixels| == h * w
  {
    if palette == [] then Err(EmptyPalette)
    else
      var table := IndexToColor(colors);
      match SeqResult(pixels, FlatPixelResolver(table))
      case Err(e) => Err(e)
      case Ok(pixelColors) =>
        SeqResultOk(pixels, FlatPixelResolver(table));
        match AsColorRows(pixelColors)
        case Err(e) => Err(e)
        case Ok(rows) =>
          Ok(MapImage(Grid(w, h, Reshape(Gather(rows, palette, query), h, w)), ToUint8))
  }

  /** `fast_palette.change_palette_in_gif(image, palette, original)` for the
      RGB conversion `image`: every row of its flat array is a three-channel
      array, never an int. */
  function ChangePaletteInGif(image: Image<Color>, palette: seq<Color>, colors: seq<(seq<int>, int)>, query: NearestQuery): Result<Image<Color>>
    requires IsNearestQuery(query)
  {
    var flat := Flatten(image.rows);
    FlattenLength(image.rows, image.width);
    GifFlat(RgbEntries(flat), image.height, image.width, palette, colors, query)
  }

  /** An indexed entry resolves through the table, a longer tuple loses its
      extra channels; a missing index raises KeyError in row-major order. */
  lemma GifFlatResolves(pixels: seq<Pixel>, h: nat, w: nat, palette: seq<Color>, colors: seq<(seq<int>, int)>, query: NearestQuery, k: nat)
    requires IsNearestQuery(query) && |pixels| == h * w && palette != []
    requires k < |pixels| && pixels[k].Index? && pixels[k].index !in IndexToColor(colors)
    requires forall j :: 0 <= j < k ==> FlatPixelColor(pixels[j], IndexToColor(colors)).Ok?
    ensures GifFlat(pixels, h, w, palette, colors, query) == Err(MissingIndex(pixels[k].index))
  {
    SeqResultFirstError(pixels, FlatPixelResolver(IndexToColor(colors)), k);
  }

  /** The flat pixels of an RGB image, as the comprehension sees them. */
  function RgbEntries(flat: seq<Color>): (pixels: seq<Pixel>)
    ensures |pixels| == |flat| && forall k :: 0 <= k < |flat| ==> pixels[k] == Channels(AsTuple(flat[k]))
  {
    seq(|flat|, k requires 0 <= k < |flat| => Channels(AsTuple(flat[k])))
  }

  lemma RgbEntriesResolve(flat: seq<Color>, table: map<int, seq<int>>)
    ensures SeqResult(RgbEntries(flat), FlatPixelResolver(table)).Ok?
    ensures AsColorRows(SeqResult(RgbEntries(flat), FlatPixelResolver(table)).value) ==
              if flat == [] then Err(ShapeMismatch) else Ok(flat)
  {
    var pixels := RgbEntries(flat);
    var f := FlatPixelResolver(table);
    SeqResultOk(pixels, f);
    var tuples := SeqResult(pixels, f).value;
    assert forall k :: 0 <= k < |tuples| ==> tuples[k] == AsTuple(flat[k]);
    if flat != [] {
      var rows := AsColorRows(tuples).value;
      forall k | 0 <= k < |flat| ensures rows[k] == flat[k] {
        AsColorOfTuple(flat[k]);
        assert AsTuple(rows[k]) == AsTuple(flat[k]);
      }
      assert rows == flat;
    }
  }

  /** After the conversion to RGB the GIF variant is the plain one, except
      that an image without pixels makes the query raise. */
  lemma GifOnRgbIsPlain(image: Image<Color>, palette: seq<Color>, colors: seq<(seq<int>, int)>, query: NearestQuery)
    requires IsNearestQuery(query)
    ensures palette != [] && (image.width == 0 || image.height == 0) ==>
              ChangePaletteInGif(image, palette, colors, query) == Err(ShapeMismatch)
    ensures palette == [] || (image.width > 0 && image.height > 0) ==>
              ChangePaletteInGif(image, palette, colors, query) == ChangePalette(image, palette, query)
  {
    var flat := Flatten(image.rows);
    FlattenLength(image.rows, image.width);
    if palette != [] {
      RgbEntriesResolve(flat, IndexToColor(colors));
      if image.width > 0 && image.height > 0 {
        MulPred(image.height, image.width);
      }
    }
  }
}
