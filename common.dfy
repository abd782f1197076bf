/** Values shared by every part of the converter: colours, the pixels that
    Pillow's getpixel hands back, images as rectangular grids, the errors the
    Python code raises, and the two ways the code walks an image or a list:
    a pixel-by-pixel map that stops at the first exception, and a dictionary
    filled by successive assignments. */
module Common {

  /** An RGB triple. The channels are unbounded integers: a palette token
      may denote a channel beyond 255 (see ToUint8 in FastPalette). */
  datatype Color = RGB(r: int, g: int, b: int)

  /** What `getpixel` returns: an int for an indexed ("P") image, a tuple of
      channels otherwise (three for RGB, four for RGBA, two for LA, ...). */
  datatype Pixel = Index(index: int) | Channels(channels: seq<int>)

  /** The exceptions the core code can raise, by their cause. */
  datatype Error =
    | ZeroDivision              // ZeroDivisionError in the aspect-ratio computation
    | InvalidHex(text: string)  // ValueError from int(text, base=16)
    | EmptyPalette              // IndexError from sorted([])[0], or a tree over an empty array
    | MissingIndex(index: int)  // KeyError from index_to_color[index]
    | UnboundTable              // index_to_color read although it was never assigned
    | NotATriple(value: seq<int>)  // ValueError: a colour that is not three channels
    | ShapeMismatch             // ValueError from numpy / the tree query on a non-(n, 3) array
    | MissingKey(key: Pixel)    // KeyError from palette[color] in the serialiser

  datatype Result<+T> = Ok(value: T) | Err(error: Error) {
    predicate IsFailure() { Err? }
    function PropagateFailure<U>(): Result<U> requires Err? { Err(error) }
    function Extract(): T requires Ok? { value }
  }

  datatype Option<+T> = None | Some(value: T)

  /** A colour as the tuple (r, g, b). */
  function AsTuple(c: Color): (t: seq<int>)
    ensures |t| == 3 && t[0] == c.r && t[1] == c.g && t[2] == c.b
  {
    [c.r, c.g, c.b]
  }

  /** A tuple read back as a colour; only a tuple of exactly three channels is one. */
  function AsColor(t: seq<int>): (c: Option<Color>)
    ensures c.Some? <==> |t| == 3
    ensures c.Some? ==> AsTuple(c.value) == t
  {
    if |t| == 3 then Some(RGB(t[0], t[1], t[2])) else None
  }

  lemma AsColorOfTuple(c: Color)
    ensures AsColor(AsTuple(c)) == Some(c)
  {
  }

  /** A colour whose channels fit in a byte, as every pixel of an RGB image does. */
  predicate IsByteColor(c: Color) {
    0 <= c.r < 256 && 0 <= c.g < 256 && 0 <= c.b < 256
  }

  predicate AllBytes(palette: seq<Color>) {
    forall i :: 0 <= i < |palette| ==> IsByteColor(palette[i])
  }

  /** One channel as Pillow stores it in an 8-bit band: clamped to [0, 255]. */
  function ClipChannel(v: int): (r: int)
    ensures 0 <= r < 256
    ensures 0 <= v < 256 ==> r == v
    ensures v < 0 ==> r == 0
    ensures v >= 256 ==> r == 255
  {
    if v < 0 then 0 else if v > 255 then 255 else v
  }

  /** The colour `putpixel` stores in an RGB image: every channel clamped. */
  function Clip8(c: Color): (r: Color)
    ensures IsByteColor(r)
    ensures IsByteColor(c) ==> r == c
  {
    RGB(ClipChannel(c.r), ClipChannel(c.g), ClipChannel(c.b))
  }

  // ---------------------------------------------------------------------------
  // Images

  /** `width` x `height` pixels, stored row by row: rows[y][x] is pixel (x, y). */
  datatype Grid<T> = Grid(width: nat, height: nat, rows: seq<seq<T>>)

  predicate Rectangular<T>(g: Grid<T>) {
    |g.rows| == g.height && forall y :: 0 <= y < |g.rows| ==> |g.rows[y]| == g.width
  }

  /** A Pillow image: every one of its `height` rows holds `width` pixels. */
  type Image<T> = g: Grid<T> | Rectangular(g) witness Grid(0, 0, [])

  /** `putpixel((x, y), v)`: the image with pixel (x, y) replaced by v. */
  function PutPixel<T>(img: Image<T>, x: nat, y: nat, v: T): (r: Image<T>)
    requires x < img.width && y < img.height
    ensures r.width == img.width && r.height == img.height
    ensures r.rows == img.rows[y := img.rows[y][x := v]]
    ensures r.rows[y][x] == v
    ensures forall y', x' :: 0 <= y' < img.height && 0 <= x' < img.width && (y', x') != (y, x) ==>
              r.rows[y'][x'] == img.rows[y'][x']
  {
    Grid(img.width, img.height, img.rows[y := img.rows[y][x := v]])
  }

  /** Where a row-major scan stands after writing pixel (x, y): the rows above
      and below, and the rest of row y, are as before. */
  lemma PutPixelScan<T>(img: Image<T>, x: nat, y: nat, v: T)
    requires x < img.width && y < img.height
    ensures PutPixel(img, x, y, v).rows[..y] == img.rows[..y]
    ensures PutPixel(img, x, y, v).rows[y][..x + 1] == img.rows[y][..x] + [v]
    ensures PutPixel(img, x, y, v).rows[y][x + 1..] == img.rows[y][x + 1..]
    ensures PutPixel(img, x, y, v).rows[y + 1..] == img.rows[y + 1..]
  {
    var r := PutPixel(img, x, y, v);
    assert r.rows[y][..x + 1] == img.rows[y][..x] + [v];
  }

  // ---------------------------------------------------------------------------
  // An image rewritten in place by `for y in range(h): for x in range(w):
  // out.putpixel((x, y), f(out.getpixel((x, y))))`, where out starts as a copy
  // of the input. These predicates and lemmas carry that loop's invariants.

  /** All rows above y are done: each of their pixels holds f of the input pixel. */
  ghost predicate RowsScanned<T>(image: Image<T>, out: Image<T>, f: T -> Result<T>, y: nat) {
    y <= image.height && out.width == image.width && out.height == image.height &&
    RowsResult(image.rows[..y], f) == Ok(out.rows[..y]) &&
    out.rows[y..] == image.rows[y..]
  }

  /** The scan stands at pixel (x, y): everything before it in row-major order
      is done, everything from it on still holds the input pixel. */
  ghost predicate Scanned<T>(image: Image<T>, out: Image<T>, f: T -> Result<T>, x: nat, y: nat) {
    y < image.height && x <= image.width &&
    out.width == image.width && out.height == image.height &&
    RowsResult(image.rows[..y], f) == Ok(out.rows[..y]) &&
    SeqResult(image.rows[y][..x], f) == Ok(out.rows[y][..x]) &&
    out.rows[y][x..] == image.rows[y][x..] &&
    out.rows[y + 1..] == image.rows[y + 1..]
  }

  lemma ScanStart<T>(image: Image<T>, out: Image<T>, f: T -> Result<T>, y: nat)
    requires RowsScanned(image, out, f, y) && y < image.height
    ensures Scanned(image, out, f, 0, y)
  {
    assert out.rows[y] == out.rows[y..][0];
    assert out.rows[y + 1..] == out.rows[y..][1..];
  }

  /** The pixel under the scan has not been written yet. */
  lemma ScanRead<T>(image: Image<T>, out: Image<T>, f: T -> Result<T>, x: nat, y: nat)
    requires Scanned(image, out, f, x, y) && x < image.width
    ensures out.rows[y][x] == image.rows[y][x]
  {
    assert out.rows[y][x..][0] == image.rows[y][x..][0];
  }

  lemma ScanWrite<T>(image: Image<T>, out: Image<T>, f: T -> Result<T>, x: nat, y: nat, v: T)
    requires Scanned(image, out, f, x, y) && x < image.width && f(image.rows[y][x]) == Ok(v)
    ensures Scanned(image, PutPixel(out, x, y, v), f, x + 1, y)
  {
    SeqResultStep(image.rows[y], f, x, out.rows[y][..x]);
    PutPixelScan(out, x, y, v);
  }

  /** A pixel whose f raises ends the scan with the exception the whole map raises. */
  lemma ScanRaise<T>(image: Image<T>, out: Image<T>, f: T -> Result<T>, x: nat, y: nat)
    requires Scanned(image, out, f, x, y) && x < image.width && f(image.rows[y][x]).Err?
    ensures MapImageResult(image, f) == Err(f(image.rows[y][x]).error)
  {
    SeqResultStep(image.rows[y], f, x, out.rows[y][..x]);
    SeqResultPrefixError(image.rows[y], f, x + 1);
    RowsResultStep(image.rows, f, y, out.rows[..y]);
    RowsResultPrefixError(image.rows, f, y + 1);
  }

  lemma ScanRowDone<T>(image: Image<T>, out: Image<T>, f: T -> Result<T>, y: nat)
    requires Scanned(image, out, f, image.width, y)
    ensures RowsScanned(image, out, f, y + 1)
  {
    assert image.rows[y][..image.width] == image.rows[y];
    assert out.rows[y][..image.width] == out.rows[y];
    RowsResultStep(image.rows, f, y, out.rows[..y]);
    assert out.rows[..y + 1] == out.rows[..y] + [out.rows[y]];
  }

  lemma ScanDone<T>(image: Image<T>, out: Image<T>, f: T -> Result<T>)
    requires RowsScanned(image, out, f, image.height)
    ensures MapImageResult(image, f) == Ok(out)
  {
    assert image.rows[..image.height] == image.rows;
    assert out.rows[..image.height] == out.rows;
  }

  /** An RGB image as getpixel sees it: each pixel a three-channel tuple. */
  function RgbPixels(img: Image<Color>): (r: Image<Pixel>)
    ensures r.width == img.width && r.height == img.height
    ensures forall y, x :: 0 <= y < img.height && 0 <= x < img.width ==>
              r.rows[y][x] == Channels(AsTuple(img.rows[y][x]))
  {
    Grid(img.width, img.height,
         seq(img.height, y requires 0 <= y < img.height =>
           seq(img.width, x requires 0 <= x < img.width => Channels(AsTuple(img.rows[y][x])))))
  }

  // ---------------------------------------------------------------------------
  // Mapping with exceptions: Python evaluates element after element and the
  // first call that raises ends the whole computation with its exception.

  /** `[f(v) for v in s]` where f may raise. */
  function SeqResult<T, U>(s: seq<T>, f: T -> Result<U>): Result<seq<U>>
    decreases |s|
  {
    if s == [] then Ok([])
    else
      match SeqResult(s[..|s| - 1], f)
      case Err(e) => Err(e)
      case Ok(done) =>
        match f(s[|s| - 1])
        case Err(e) => Err(e)
        case Ok(v) => Ok(done + [v])
  }

  lemma {:induction false} SeqResultOk<T, U>(s: seq<T>, f: T -> Result<U>)
    ensures SeqResult(s, f).Ok? <==> forall i :: 0 <= i < |s| ==> f(s[i]).Ok?
    ensures SeqResult(s, f).Ok? ==>
              |SeqResult(s, f).value| == |s| &&
              forall i :: 0 <= i < |s| ==> SeqResult(s, f).value[i] == f(s[i]).value
    decreases |s|
  {
    if s != [] {
      var init := s[..|s| - 1];
      SeqResultOk(init, f);
      assert forall i :: 0 <= i < |init| ==> init[i] == s[i];
    }
  }

  /** The exception is the one of the first element that raises. */
  lemma {:induction false} SeqResultFirstError<T, U>(s: seq<T>, f: T -> Result<U>, k: nat)
    requires k < |s| && f(s[k]).Err?
    requires forall i :: 0 <= i < k ==> f(s[i]).Ok?
    ensures SeqResult(s, f) == Err(f(s[k]).error)
    decreases |s|
  {
    var init := s[..|s| - 1];
    if k < |s| - 1 {
      assert init[k] == s[k];
      SeqResultFirstError(init, f, k);
    } else {
      SeqResultOk(init, f);
      assert forall i :: 0 <= i < |init| ==> init[i] == s[i];
    }
  }

  /** Once a prefix has raised, the whole computation has raised the same way. */
  lemma {:induction false} SeqResultPrefixError<T, U>(s: seq<T>, f: T -> Result<U>, k: nat)
    requires k <= |s| && SeqResult(s[..k], f).Err?
    ensures SeqResult(s, f) == SeqResult(s[..k], f)
    decreases |s| - k
  {
    if k < |s| {
      assert s[..k + 1][..k] == s[..k];
      SeqResultPrefixError(s, f, k + 1);
    } else {
      assert s[..k] == s;
    }
  }

  /** The loop step behind SeqResult: one more element, if the prefix has not raised. */
  lemma SeqResultStep<T, U>(s: seq<T>, f: T -> Result<U>, k: nat, done: seq<U>)
    requires k < |s| && SeqResult(s[..k], f) == Ok(done)
    ensures SeqResult(s[..k + 1], f) ==
              match f(s[k]) case Err(e) => Err(e) case Ok(v) => Ok(done + [v])
  {
    assert s[..k + 1][..k] == s[..k];
  }

  /** The pixels of every row, row after row: the nested y / x loops of the
      source, stopping at the first pixel whose f raises. */
  function RowsResult<T, U>(rows: seq<seq<T>>, f: T -> Result<U>): Result<seq<seq<U>>>
    decreases |rows|
  {
    if rows == [] then Ok([])
    else
      match RowsResult(rows[..|rows| - 1], f)
      case Err(e) => Err(e)
      case Ok(done) =>
        match SeqResult(rows[|rows| - 1], f)
        case Err(e) => Err(e)
        case Ok(row) => Ok(done + [row])
  }

  lemma {:induction false} RowsResultOk<T, U>(rows: seq<seq<T>>, f: T -> Result<U>)
    ensures RowsResult(rows, f).Ok? <==>
              forall y, x :: 0 <= y < |rows| && 0 <= x < |rows[y]| ==> f(rows[y][x]).Ok?
    ensures RowsResult(rows, f).Ok? ==>
              |RowsResult(rows, f).value| == |rows| &&
              forall y :: 0 <= y < |rows| ==>
                |RowsResult(rows, f).value[y]| == |rows[y]| &&
                forall x :: 0 <= x < |rows[y]| ==> RowsResult(rows, f).value[y][x] == f(rows[y][x]).value
    decreases |rows|
  {
    if rows != [] {
      var init := rows[..|rows| - 1];
      RowsResultOk(init, f);
      SeqResultOk(rows[|rows| - 1], f);
      assert forall y :: 0 <= y < |init| ==> init[y] == rows[y];
    }
  }

  /** The exception is the one of the first raising pixel in row-major order. */
  lemma {:induction false} RowsResultFirstError<T, U>(rows: seq<seq<T>>, f: T -> Result<U>, y: nat, x: nat)
    requires y < |rows| && x < |rows[y]| && f(rows[y][x]).Err?
    requires forall y', x' :: 0 <= y' < y && 0 <= x' < |rows[y']| ==> f(rows[y'][x']).Ok?
    requires forall x' :: 0 <= x' < x ==> f(rows[y][x']).Ok?
    ensures RowsResult(rows, f) == Err(f(rows[y][x]).error)
    decreases |rows|
  {
    var init := rows[..|rows| - 1];
    assert forall y' :: 0 <= y' < |init| ==> init[y'] == rows[y'];
    if y < |rows| - 1 {
      RowsResultFirstError(init, f, y, x);
    } else {
      RowsResultOk(init, f);
      SeqResultFirstError(rows[y], f, x);
    }
  }

  lemma {:induction false} RowsResultPrefixError<T, U>(rows: seq<seq<T>>, f: T -> Result<U>, k: nat)
    requires k <= |rows| && RowsResult(rows[..k], f).Err?
    ensures RowsResult(rows, f) == RowsResult(rows[..k], f)
    decreases |rows| - k
  {
    if k < |rows| {
      assert rows[..k + 1][..k] == rows[..k];
      RowsResultPrefixError(rows, f, k + 1);
    } else {
      assert rows[..k] == rows;
    }
  }

  lemma RowsResultStep<T, U>(rows: seq<seq<T>>, f: T -> Result<U>, k: nat, done: seq<seq<U>>)
    requires k < |rows| && RowsResult(rows[..k], f) == Ok(done)
    ensures RowsResult(rows[..k + 1], f) ==
              match SeqResult(rows[k], f) case Err(e) => Err(e) case Ok(row) => Ok(done + [row])
  {
    assert rows[..k + 1][..k] == rows[..k];
  }

  /** A nested scan over rows that has produced `done` for the rows above y and
      `row` for the start of row y raises at (x, y) exactly as RowsResult does. */
  lemma RowsRaise<T, U>(rows: seq<seq<T>>, f: T -> Result<U>, x: nat, y: nat, done: seq<seq<U>>, row: seq<U>)
    requires y < |rows| && x < |rows[y]|
    requires RowsResult(rows[..y], f) == Ok(done) && SeqResult(rows[y][..x], f) == Ok(row)
    requires f(rows[y][x]).Err?
    ensures RowsResult(rows, f) == Err(f(rows[y][x]).error)
  {
    SeqResultStep(rows[y], f, x, row);
    SeqResultPrefixError(rows[y], f, x + 1);
    RowsResultStep(rows, f, y, done);
    RowsResultPrefixError(rows, f, y + 1);
  }

  /** The end of row y in such a scan. */
  lemma RowsRowDone<T, U>(rows: seq<seq<T>>, f: T -> Result<U>, y: nat, done: seq<seq<U>>, row: seq<U>)
    requires y < |rows|
    requires RowsResult(rows[..y], f) == Ok(done) && SeqResult(rows[y][..|rows[y]|], f) == Ok(row)
    ensures RowsResult(rows[..y + 1], f) == Ok(done + [row])
  {
    assert rows[y][..|rows[y]|] == rows[y];
    RowsResultStep(rows, f, y, done);
  }

  /** Every pixel through f, in row-major order, the image keeping its size;
      the first pixel whose f raises decides the exception. */
  function MapImageResult<T, U>(img: Image<T>, f: T -> Result<U>): (r: Result<Image<U>>)
    ensures r.Ok? <==> forall y, x :: 0 <= y < img.height && 0 <= x < img.width ==> f(img.rows[y][x]).Ok?
    ensures r.Ok? ==>
              r.value.width == img.width && r.value.height == img.height &&
              forall y, x :: 0 <= y < img.height && 0 <= x < img.width ==>
                r.value.rows[y][x] == f(img.rows[y][x]).value
  {
    RowsResultOk(img.rows, f);
    match RowsResult(img.rows, f)
    case Err(e) => Err(e)
    case Ok(rows) => Ok(Grid(img.width, img.height, rows))
  }

  lemma MapImageFirstError<T, U>(img: Image<T>, f: T -> Result<U>, y: nat, x: nat)
    requires y < img.height && x < img.width && f(img.rows[y][x]).Err?
    requires forall y', x' :: 0 <= y' < y && 0 <= x' < img.width ==> f(img.rows[y'][x']).Ok?
    requires forall x' :: 0 <= x' < x ==> f(img.rows[y][x']).Ok?
    ensures MapImageResult(img, f) == Err(f(img.rows[y][x]).error)
  {
    RowsResultFirstError(img.rows, f, y, x);
  }

  /** Two element-wise maps that agree position by position give the same
      list or raise the same exception. */
  lemma {:induction false} SeqResultAgree<S, T, U>(s: seq<S>, t: seq<T>, f: S -> Result<U>, g: T -> Result<U>)
    requires |s| == |t| && forall i :: 0 <= i < |s| ==> f(s[i]) == g(t[i])
    ensures SeqResult(s, f) == SeqResult(t, g)
    decreases |s|
  {
    if s != [] {
      SeqResultAgree(s[..|s| - 1], t[..|t| - 1], f, g);
    }
  }

  lemma {:induction false} RowsResultAgree<S, T, U>(a: seq<seq<S>>, b: seq<seq<T>>, f: S -> Result<U>, g: T -> Result<U>)
    requires |a| == |b|
    requires forall y :: 0 <= y < |a| ==> |a[y]| == |b[y]|
    requires forall y, x :: 0 <= y < |a| && 0 <= x < |a[y]| ==> f(a[y][x]) == g(b[y][x])
    ensures RowsResult(a, f) == RowsResult(b, g)
    decreases |a|
  {
    if a != [] {
      var n := |a| - 1;
      RowsResultAgree(a[..n], b[..n], f, g);
      SeqResultAgree(a[n], b[n], f, g);
    }
  }

  /** Two pixel maps that agree on every position give the same image or
      raise the same exception. */
  lemma MapImageResultAgree<S, T, U>(a: Image<S>, b: Image<T>, f: S -> Result<U>, g: T -> Result<U>)
    requires a.width == b.width && a.height == b.height
    requires forall y, x :: 0 <= y < a.height && 0 <= x < a.width ==> f(a.rows[y][x]) == g(b.rows[y][x])
    ensures MapImageResult(a, f) == MapImageResult(b, g)
  {
    RowsResultAgree(a.rows, b.rows, f, g);
  }

  /** Every pixel through a function that cannot raise. */
  function MapImage<T, U>(img: Image<T>, f: T -> U): (r: Image<U>)
    ensures r.width == img.width && r.height == img.height
    ensures forall y, x :: 0 <= y < img.height && 0 <= x < img.width ==> r.rows[y][x] == f(img.rows[y][x])
  {
    Grid(img.width, img.height,
         seq(img.height, y requires 0 <= y < img.height =>
           seq(img.width, x requires 0 <= x < img.width => f(img.rows[y][x]))))
  }

  /** Two images of one size with the same pixels are the same image. */
  lemma ImageExt<T>(a: Image<T>, b: Image<T>)
    requires a.width == b.width && a.height == b.height
    requires forall y, x :: 0 <= y < a.height && 0 <= x < a.width ==> a.rows[y][x] == b.rows[y][x]
    ensures a == b
  {
    assert forall y :: 0 <= y < a.height ==> a.rows[y] == b.rows[y];
  }

  /** When no pixel raises, the map with exceptions is the plain map. */
  lemma MapImageResultTotal<T, U>(img: Image<T>, f: T -> Result<U>, g: T -> U)
    requires forall y, x :: 0 <= y < img.height && 0 <= x < img.width ==> f(img.rows[y][x]) == Ok(g(img.rows[y][x]))
    ensures MapImageResult(img, f) == Ok(MapImage(img, g))
  {
    ImageExt(MapImageResult(img, f).value, MapImage(img, g));
  }

  // ---------------------------------------------------------------------------
  // Dictionaries filled by successive assignments `d[k] = v`.

  /** The dictionary after assigning each pair in turn, so a key that occurs
      twice keeps the value of its last pair. */
  function LastWins<K, V>(pairs: seq<(K, V)>): map<K, V>
    decreases |pairs|
  {
    if pairs == [] then map[]
    else
      var last := pairs[|pairs| - 1];
      LastWins(pairs[..|pairs| - 1])[last.0 := last.1]
  }

  /** The keys of the dictionary are the keys of the pairs. */
  lemma {:induction false} LastWinsKeys<K, V>(pairs: seq<(K, V)>)
    ensures LastWins(pairs).Keys == KeysOf(pairs)
    decreases |pairs|
  {
    if pairs != [] {
      LastWinsKeys(pairs[..|pairs| - 1]);
      KeysSnoc(pairs);
    }
  }

  /** The pair at i is the last one with its key, so the dictionary keeps its
      value: a later pair with the same key would have overwritten it. */
  lemma {:induction false} LastWinsAt<K, V>(pairs: seq<(K, V)>, i: nat)
    requires i < |pairs| && forall j :: i < j < |pairs| ==> pairs[j].0 != pairs[i].0
    ensures pairs[i].0 in LastWins(pairs) && LastWins(pairs)[pairs[i].0] == pairs[i].1
    decreases |pairs|
  {
    var n := |pairs| - 1;
    if i < n {
      var init := pairs[..n];
      assert pairs[n].0 != pairs[i].0;
      assert forall j :: i < j < |init| ==> init[j].0 != init[i].0;
      LastWinsAt(init, i);
    }
  }

  function KeysOf<K, V>(pairs: seq<(K, V)>): set<K> {
    set i | 0 <= i < |pairs| :: pairs[i].0
  }

  /** The keys of the pairs are the keys of all but the last, and the last one's. */
  lemma KeysSnoc<K, V>(pairs: seq<(K, V)>)
    requires pairs != []
    ensures KeysOf(pairs) == KeysOf(pairs[..|pairs| - 1]) + {pairs[|pairs| - 1].0}
  {
    var init := pairs[..|pairs| - 1];
    var keys := set i | 0 <= i < |pairs| :: pairs[i].0;
    var initKeys := set i | 0 <= i < |init| :: init[i].0;
    forall k | k in keys ensures k in initKeys + {pairs[|pairs| - 1].0} {
      var i :| 0 <= i < |pairs| && pairs[i].0 == k;
      if i < |init| { assert init[i].0 == k; }
    }
    forall k | k in initKeys ensures k in keys {
      var i :| 0 <= i < |init| && init[i].0 == k;
      assert pairs[i].0 == k;
    }
  }

  /** `{v: k for k, v in image.palette.colors.items()}`: Pillow's colour table
      (colour tuple -> palette index, in dictionary order) turned into index ->
      colour; an index that two colours share keeps the later colour. */
  function IndexToColor(colors: seq<(seq<int>, int)>): (table: map<int, seq<int>>)
    ensures table.Keys == set i | 0 <= i < |colors| :: colors[i].1
    ensures forall i :: 0 <= i < |colors| && (forall j :: i < j < |colors| ==> colors[j].1 != colors[i].1) ==>
              table[colors[i].1] == colors[i].0
  {
    var pairs := Swapped(colors);
    IndexToColorKeys(colors);
    forall i | 0 <= i < |colors| && (forall j :: i < j < |colors| ==> colors[j].1 != colors[i].1)
      ensures LastWins(pairs)[colors[i].1] == colors[i].0
    {
      assert pairs[i] == (colors[i].1, colors[i].0);
      assert forall j :: i < j < |pairs| ==> pairs[j].0 != pairs[i].0;
      LastWinsAt(pairs, i);
    }
    LastWins(pairs)
  }

  function Swapped(colors: seq<(seq<int>, int)>): (pairs: seq<(int, seq<int>)>)
    ensures |pairs| == |colors|
    ensures forall i :: 0 <= i < |colors| ==> pairs[i] == (colors[i].1, colors[i].0)
  {
    seq(|colors|, i requires 0 <= i < |colors| => (colors[i].1, colors[i].0))
  }

  lemma IndexToColorKeys(colors: seq<(seq<int>, int)>)
    ensures LastWins(Swapped(colors)).Keys == set i | 0 <= i < |colors| :: colors[i].1
  {
    var pairs := Swapped(colors);
    LastWinsKeys(pairs);
    var keys := set i | 0 <= i < |pairs| :: pairs[i].0;
    var want := set i | 0 <= i < |colors| :: colors[i].1;
    forall k | k in keys ensures k in want {
      var i :| 0 <= i < |pairs| && pairs[i].0 == k;
      assert colors[i].1 == k;
    }
    forall k | k in want ensures k in keys {
      var i :| 0 <= i < |colors| && colors[i].1 == k;
      assert pairs[i].0 == k;
    }
  }
}
