/** src/converter.py: the MakeCode Arcade serialiser, the list wrapper for
    animations, and the steps of `convert` that are the program's own (the
    target size, the palette string, the colour -> digit map, and the order
    in which resizing, quantizing and serialising happen). */
module Converter {
  import opened Common
  import opened Strings
  import Palette
  import FastPalette

  // ---------------------------------------------------------------------------
  // image_to_makecode_arcade

  /** The `palette` dictionary of the serialiser: colour tuple -> token. */
  type PaletteMap = map<Color, string>

  /** `palette[color]`: only a three-channel tuple that is a key has a token;
      anything else raises KeyError. */
  function Lookup(key: Pixel, palette: PaletteMap): (r: Result<string>)
    ensures r.Ok? <==> key.Channels? && AsColor(key.channels).Some? && AsColor(key.channels).value in palette
    ensures r.Ok? ==> r.value == palette[AsColor(key.channels).value]
    ensures r.Err? ==> r.error == MissingKey(key)
  {
    if key.Channels? && AsColor(key.channels).Some? && AsColor(key.channels).value in palette then
      Ok(palette[AsColor(key.channels).value])
    else Err(MissingKey(key))
  }

  /** The colour the `is_gif` branch looks up: an int through `index_to_color`
      (unbound when the image had no palette, KeyError when the index is
      absent), a tuple of more than three channels without its last one,
      anything else as getpixel returned it. */
  function GifColor(pixel: Pixel, table: Option<map<int, seq<int>>>): (r: Result<Pixel>)
    ensures pixel.Index? && table.None? ==> r == Err(UnboundTable)
    ensures pixel.Index? && table.Some? ==>
              r == if pixel.index in table.value then Ok(Channels(table.value[pixel.index])) else Err(MissingIndex(pixel.index))
    ensures pixel.Channels? && |pixel.channels| > 3 ==> r == Ok(Channels(pixel.channels[..|pixel.channels| - 1]))
    ensures pixel.Channels? && |pixel.channels| <= 3 ==> r == Ok(pixel)
  {
    match pixel
    case Index(i) =>
      if table.None? then Err(UnboundTable)
      else if i in table.value then Ok(Channels(table.value[i]))
      else Err(MissingIndex(i))
    case Channels(t) => if |t| > 3 then Ok(Channels(t[..|t| - 1])) else Ok(pixel)
  }

  /** The token appended for one pixel. */
  function PixelToken(pixel: Pixel, palette: PaletteMap, isGif: bool, table: Option<map<int, seq<int>>>): Result<string> {
    if isGif then
      match GifColor(pixel, table)
      case Err(e) => Err(e)
      case Ok(color) => Lookup(color, palette)
    else Lookup(pixel, palette)
  }

  function Tokenizer(palette: PaletteMap, isGif: bool, table: Option<map<int, seq<int>>>): Pixel -> Result<string> {
    px => PixelToken(px, palette, isGif, table)
  }

  /** `index_to_color` when it is assigned: only for a GIF whose image has a palette. */
  function IndexTable(isGif: bool, colors: Option<seq<(seq<int>, int)>>): (t: Option<map<int, seq<int>>>)
    ensures t.Some? <==> isGif && colors.Some?
  {
    if isGif && colors.Some? then Some(IndexToColor(colors.value)) else None
  }

  /** One row of the image text: its tokens, then a newline. */
  function RowLine(tokens: seq<string>): string {
    Concat(tokens) + "\n"
  }

  function RowLines(rows: seq<seq<string>>): (lines: seq<string>)
    ensures |lines| == |rows| && forall y :: 0 <= y < |rows| ==> lines[y] == RowLine(rows[y])
  {
    seq(|rows|, y requires 0 <= y < |rows| => RowLine(rows[y]))
  }

  /** The MakeCode Arcade image literal for a grid of tokens. */
  function MakeCodeText(rows: seq<seq<string>>): string {
    OpenText(rows) + "`"
  }

  /** The text before the closing backtick: the opening line and the rows. */
  function OpenText(rows: seq<seq<string>>): string {
    "img`\n" + Concat(RowLines(rows))
  }

  /** What `image_to_makecode_arcade(image, palette, is_gif)` returns, where
      `colors` is `image.palette.colors` (None when the image has no palette):
      the text of the token grid, or the exception of the first pixel in
      row-major order that has no token. */
  function Serialized(image: Image<Pixel>, palette: PaletteMap, isGif: bool, colors: Option<seq<(seq<int>, int)>>): Result<string> {
    match MapImageResult(image, Tokenizer(palette, isGif, IndexTable(isGif, colors)))
    case Err(e) => Err(e)
    case Ok(tokens) => Ok(MakeCodeText(tokens.rows))
  }

  lemma OpenTextSnoc(rows: seq<seq<string>>, row: seq<string>)
    ensures OpenText(rows + [row]) == OpenText(rows) + Concat(row) + "\n"
  {
    assert RowLines(rows + [row]) == RowLines(rows) + [RowLine(row)];
    ConcatSnoc(RowLines(rows), RowLine(row));
  }

  // The invariants of the serialiser's two loops: the rows above y are
  // done and their text is written; row y is done up to x.

  ghost predicate TextScanned(image: Image<Pixel>, f: Pixel -> Result<string>, y: nat, done: seq<seq<string>>, text: string) {
    y <= image.height && RowsResult(image.rows[..y], f) == Ok(done) && text == OpenText(done)
  }

  ghost predicate RowScanned(image: Image<Pixel>, f: Pixel -> Result<string>, x: nat, y: nat,
                             done: seq<seq<string>>, row: seq<string>, text: string) {
    y < image.height && x <= image.width &&
    RowsResult(image.rows[..y], f) == Ok(done) && SeqResult(image.rows[y][..x], f) == Ok(row) &&
    text == OpenText(done) + Concat(row)
  }

  lemma RowScanStart(image: Image<Pixel>, f: Pixel -> Result<string>, y: nat, done: seq<seq<string>>, text: string)
    requires TextScanned(image, f, y, done, text) && y < image.height
    ensures RowScanned(image, f, 0, y, done, [], text)
  {
  }

  lemma RowScanStep(image: Image<Pixel>, f: Pixel -> Result<string>, x: nat, y: nat,
                    done: seq<seq<string>>, row: seq<string>, text: string, token: string)
    requires RowScanned(image, f, x, y, done, row, text) && x < image.width
    requires f(image.rows[y][x]) == Ok(token)
    ensures RowScanned(image, f, x + 1, y, done, row + [token], text + token)
  {
    SeqResultStep(image.rows[y], f, x, row);
    ConcatSnoc(row, token);
  }

  lemma RowScanRaise(image: Image<Pixel>, f: Pixel -> Result<string>, x: nat, y: nat,
                     done: seq<seq<string>>, row: seq<string>, text: string)
    requires RowScanned(image, f, x, y, done, row, text) && x < image.width
    requires f(image.rows[y][x]).Err?
    ensures MapImageResult(image, f) == Err(f(image.rows[y][x]).error)
  {
    RowsRaise(image.rows, f, x, y, done, row);
  }

  lemma RowScanDone(image: Image<Pixel>, f: Pixel -> Result<string>, y: nat,
                    done: seq<seq<string>>, row: seq<string>, text: string)
    requires RowScanned(image, f, image.width, y, done, row, text)
    ensures TextScanned(image, f, y + 1, done + [row], text + "\n")
  {
    RowsRowDone(image.rows, f, y, done, row);
    OpenTextSnoc(done, row);
  }

  lemma TextScanDone(image: Image<Pixel>, f: Pixel -> Result<string>, done: seq<seq<string>>, text: string)
    requires TextScanned(image, f, image.height, done, text)
    ensures MapImageResult(image, f) == Ok(Grid(image.width, image.height, done))
    ensures MakeCodeText(done) == text + "`"
  {
    assert image.rows[..image.height] == image.rows;
  }

  /** `image_to_makecode_arcade(image, palette, is_gif)`: append the token of
      every pixel, row by row, a newline after each row. */
  method ImageToMakeCodeArcade(image: Image<Pixel>, palette: PaletteMap, isGif: bool, colors: Option<seq<(seq<int>, int)>>)
    returns (r: Result<string>)
    ensures r == Serialized(image, palette, isGif, colors)
  {
    var w, h := image.width, image.height;
    var mkcdStr := "img`\n";
    var indexToColor: Option<map<int, seq<int>>> := None;
    if isGif && colors.Some? {
      indexToColor := Some(IndexToColor(colors.value));
    }
    ghost var f := Tokenizer(palette, isGif, indexToColor);
    ghost var done: seq<seq<string>> := [];
    var y := 0;
    while y < h
      invariant TextScanned(image, f, y, done, mkcdStr)
    {
      RowScanStart(image, f, y, done, mkcdStr);
      ghost var row: seq<string> := [];
      var x := 0;
      while x < w
        invariant RowScanned(image, f, x, y, done, row, mkcdStr)
      {
        var color := image.rows[y][x];
        if isGif {
          if color.Index? {
            if indexToColor.None? || color.index !in indexToColor.value {
              RowScanRaise(image, f, x, y, done, row, mkcdStr);
              return if indexToColor.None? then Err(UnboundTable) else Err(MissingIndex(color.index));
            }
            color := Channels(indexToColor.value[color.index]);
          } else if |color.channels| > 3 {
            color := Channels(color.channels[..|color.channels| - 1]);
          }
        }
        var token := Lookup(color, palette);
        if token.Err? {
          RowScanRaise(image, f, x, y, done, row, mkcdStr);
          return Err(token.error);
        }
        RowScanStep(image, f, x, y, done, row, mkcdStr, token.value);
        mkcdStr := mkcdStr + token.value;
        row := row + [token.value];
        x := x + 1;
      }
      RowScanDone(image, f, y, done, row, mkcdStr);
      mkcdStr := mkcdStr + "\n";
      done := done + [row];
      y := y + 1;
    }
    TextScanDone(image, f, done, mkcdStr);
    mkcdStr := mkcdStr + "`";
    return Ok(mkcdStr);
  }

  /** The serialiser fails exactly when some pixel has no token; otherwise its
      text is the token grid of the image, pixel (x, y) giving token (x, y). */
  lemma SerializedSpec(image: Image<Pixel>, palette: PaletteMap, isGif: bool, colors: Option<seq<(seq<int>, int)>>)
    ensures var table := IndexTable(isGif, colors);
            Serialized(image, palette, isGif, colors).Ok? <==>
              forall y, x :: 0 <= y < image.height && 0 <= x < image.width ==> PixelToken(image.rows[y][x], palette, isGif, table).Ok?
    ensures var table := IndexTable(isGif, colors);
            Serialized(image, palette, isGif, colors).Ok? ==>
              exists tokens: Image<string> ::
                tokens.width == image.width && tokens.height == image.height &&
                (forall y, x :: 0 <= y < image.height && 0 <= x < image.width ==>
                   PixelToken(image.rows[y][x], palette, isGif, table) == Ok(tokens.rows[y][x])) &&
                Serialized(image, palette, isGif, colors).value == MakeCodeText(tokens.rows)
  {
    var f := Tokenizer(palette, isGif, IndexTable(isGif, colors));
    var m := MapImageResult(image, f);
    if m.Ok? {
      assert forall y, x :: 0 <= y < image.height && 0 <= x < image.width ==> f(image.rows[y][x]) == Ok(m.value.rows[y][x]);
    }
  }

  /** The first pixel in row-major order without a token decides the exception;
      in particular a colour that is not a key raises KeyError, with no default token. */
  lemma SerializedFirstMissing(image: Image<Pixel>, palette: PaletteMap, isGif: bool, colors: Option<seq<(seq<int>, int)>>, x: nat, y: nat)
    requires y < image.height && x < image.width
    requires PixelToken(image.rows[y][x], palette, isGif, IndexTable(isGif, colors)).Err?
    requires forall y', x' :: 0 <= y' < y && 0 <= x' < image.width ==> PixelToken(image.rows[y'][x'], palette, isGif, IndexTable(isGif, colors)).Ok?
    requires forall x' :: 0 <= x' < x ==> PixelToken(image.rows[y][x'], palette, isGif, IndexTable(isGif, colors)).Ok?
    ensures Serialized(image, palette, isGif, colors) == Err(PixelToken(image.rows[y][x], palette, isGif, IndexTable(isGif, colors)).error)
    ensures !isGif ==> Serialized(image, palette, isGif, colors) == Err(MissingKey(image.rows[y][x]))
  {
    MapImageFirstError(image, Tokenizer(palette, isGif, IndexTable(isGif, colors)), y, x);
  }

  /** The text opens with "img`" and a newline and closes with a backtick. */
  lemma MakeCodeTextMarkers(rows: seq<seq<string>>)
    ensures |MakeCodeText(rows)| >= 6
    ensures MakeCodeText(rows)[..5] == "img`\n"
    ensures MakeCodeText(rows)[|MakeCodeText(rows)| - 1] == '`'
  {
    var t := MakeCodeText(rows);
    assert t == "img`\n" + (Concat(RowLines(rows)) + "`");
  }

  /** A token grid whose tokens hold no newline is, line by line, the opening
      line, one line per row with that row's tokens in order, and the closing
      backtick: h + 2 lines for h rows. */
  lemma MakeCodeTextLines(rows: seq<seq<string>>)
    requires forall y, x :: 0 <= y < |rows| && 0 <= x < |rows[y]| ==> '\n' !in rows[y][x]
    ensures SplitLines(MakeCodeText(rows)) == ["img`\n"] + RowLines(rows) + ["`"]
    ensures |SplitLines(MakeCodeText(rows))| == |rows| + 2
  {
    var lines := ["img`\n"] + RowLines(rows);
    forall y | 0 <= y < |rows| ensures IsLine(RowLine(rows[y])) {
      ConcatNoNewline(rows[y]);
    }
    assert IsLine("img`\n");
    assert forall i :: 0 <= i < |lines| ==> IsLine(lines[i]) by {
      forall i | 0 <= i < |lines| ensures IsLine(lines[i]) {
        if i > 0 { assert lines[i] == RowLine(rows[i - 1]); }
      }
    }
    SplitLinesOfLines(lines, "`");
    ConcatCons("img`\n", RowLines(rows));
    assert MakeCodeText(rows) == Concat(lines) + "`";
    assert IndexOf("`", '\n') == 1;
  }

  lemma {:induction false} ConcatNoNewline(parts: seq<string>)
    requires forall i :: 0 <= i < |parts| ==> '\n' !in parts[i]
    ensures '\n' !in Concat(parts)
    decreases |parts|
  {
    if parts != [] {
      ConcatNoNewline(parts[..|parts| - 1]);
    }
  }

  // ---------------------------------------------------------------------------
  // The list of images written for an animation

  /** One frame of the list: the text's first line indented by four spaces,
      its middle lines by eight, its last line by four, then ",\n". The text
      is never empty: it is what the serialiser returned. */
  function FrameBlock(text: string): string
    requires text != []
  {
    var lines := SplitLines(text);
    Indent(lines[0], "    ") +
    Indent(Concat(if |lines| >= 2 then lines[1..|lines| - 1] else []), "        ") +
    Indent(lines[|lines| - 1], "    ") +
    ",\n"
  }

  /** "[\n", then the block of every frame in order, then "]". */
  function GifList(texts: seq<string>): string
    requires forall i :: 0 <= i < |texts| ==> texts[i] != []
  {
    "[\n" + GifBody(texts) + "]"
  }

  /** A token grid fit for the block layout: every row has a first token
      that starts with a printable character, and no token holds a newline. */
  predicate PrintableRows(rows: seq<seq<string>>) {
    (forall y :: 0 <= y < |rows| ==> |rows[y]| > 0 && |rows[y][0]| > 0 && !IsSpace(rows[y][0][0])) &&
    (forall y, x :: 0 <= y < |rows| && 0 <= x < |rows[y]| ==> '\n' !in rows[y][x])
  }

  /** A row whose first token starts with a printable character is not blank. */
  lemma RowLineStart(row: seq<string>)
    requires |row| > 0 && |row[0]| > 0 && !IsSpace(row[0][0])
    ensures !IsBlank(RowLine(row))
  {
    ConcatCons(row[0], row[1..]);
    assert [row[0]] + row[1..] == row;
    assert RowLine(row)[0] == row[0][0];
  }

  /** Text whose lines are a first line, middle lines and a last line, the
      first and last starting with a printable character, frames as four
      spaces and the first line, the middle lines indented, four spaces and
      the last line. */
  lemma FrameBlockOfLines(text: string, first: string, middle: seq<string>, last: string)
    requires text != [] && SplitLines(text) == [first] + middle + [last]
    requires first != [] && '\n' !in first[..|first| - 1] && !IsSpace(first[0])
    requires last != [] && '\n' !in last[..|last| - 1] && !IsSpace(last[0])
    ensures FrameBlock(text) == "    " + first + Indent(Concat(middle), "        ") + "    " + last + ",\n"
  {
    var lines := SplitLines(text);
    ThreeParts(lines, first, middle, last);
    IndentOneLine(first, "    ");
    IndentOneLine(last, "    ");
  }

  lemma ThreeParts<T>(s: seq<T>, first: T, middle: seq<T>, last: T)
    requires s == [first] + middle + [last]
    ensures |s| >= 2 && s[0] == first && s[|s| - 1] == last && s[1..|s| - 1] == middle
  {
  }

  /** The opening and closing lines start with a printable character and
      hold no newline before their end. */
  lemma MarkersPrintable()
    ensures "img`\n"[..4] == "img`" && '\n' !in "img`" && !IsSpace("img`\n"[0])
    ensures "`"[..0] == [] && !IsSpace("`"[0])
  {
  }

  /** Every row line of a frame, indented by eight spaces. */
  function IndentedRows(rows: seq<seq<string>>): string {
    Concat(seq(|rows|, y requires 0 <= y < |rows| => "        " + RowLine(rows[y])))
  }

  /** The rows of the text, each indented by eight spaces. */
  lemma IndentRowLines(rows: seq<seq<string>>)
    requires PrintableRows(rows)
    ensures Indent(Concat(RowLines(rows)), "        ") ==
              IndentedRows(rows)
  {
    var body := RowLines(rows);
    forall y | 0 <= y < |rows| ensures IsLine(body[y]) && IndentLine(body[y], "        ") == "        " + RowLine(rows[y]) {
      ConcatNoNewline(rows[y]);
      RowLineStart(rows[y]);
    }
    IndentLines(body, "        ");
    var indented := seq(|body|, i requires 0 <= i < |body| => IndentLine(body[i], "        "));
    assert indented == seq(|rows|, y requires 0 <= y < |rows| => "        " + RowLine(rows[y]));
    assert Concat(indented) == IndentedRows(rows);
  }

  /** The block of a serialised frame: "    img`", the rows indented by eight
      spaces, "    `", then ",\n". */
  lemma FrameBlockShape(rows: seq<seq<string>>)
    requires PrintableRows(rows)
    ensures FrameBlock(MakeCodeText(rows)) == "    img`\n" + IndentedRows(rows) + "    `,\n"
  {
    var text := MakeCodeText(rows);
    MakeCodeTextLines(rows);
    MarkersPrintable();
    FrameBlockOfLines(text, "img`\n", RowLines(rows), "`");
    IndentRowLines(rows);
    BlockMarkers(IndentedRows(rows));
  }

  /** The indented markers around the rows, as written in one piece. */
  lemma BlockMarkers(body: string)
    ensures "    " + "img`\n" + body + "    " + "`" + ",\n" ==
            "    img`\n" + body + "    `,\n"
  {
    assert "    " + "img`\n" == "    img`\n";
    assert "    " + "`" + ",\n" == "    `,\n";
    Regroup("    img`\n" + body, "    ", "`", ",\n");
  }

  lemma Regroup<T>(p: seq<T>, c: seq<T>, d: seq<T>, e: seq<T>)
    ensures p + c + d + e == p + (c + d + e)
  {
  }

  // ---------------------------------------------------------------------------
  // The palette string

  /** The tokens of the default palette string: the sixteen colours of
      MakeCode Arcade, black first and last. */
  const ArcadeTokens: seq<string> := [
    "#000000", "#ffffff", "#ff2121", "#ff93c4", "#ff8135", "#fff609", "#249ca3", "#78dc52",
    "#003fad", "#87f2ff", "#8e2ec4", "#a4839f", "#5c406c", "#e5cdc4", "#91463d", "#000000"]

  /** The default palette string: those tokens, comma-separated. */
  const DefaultPalette: string := JoinWith(ArcadeTokens, ',')

  /** The colours the default string denotes. */
  const ArcadeColors: seq<Color> := [
    RGB(0, 0, 0), RGB(255, 255, 255), RGB(255, 33, 33), RGB(255, 147, 196),
    RGB(255, 129, 53), RGB(255, 246, 9), RGB(36, 156, 163), RGB(120, 220, 82),
    RGB(0, 63, 173), RGB(135, 242, 255), RGB(142, 46, 196), RGB(164, 131, 159),
    RGB(92, 64, 108), RGB(229, 205, 196), RGB(145, 70, 61), RGB(0, 0, 0)]

  /** Python's `s[i:j]` for 0 <= i, j: both ends are clipped to the length,
      and the slice is empty when they cross. */
  function Slice(s: string, i: nat, j: nat): (r: string)
    ensures var a, b := if i <= |s| then i else |s|, if j <= |s| then j else |s|;
            |r| == if a <= b then b - a else 0
    ensures forall k :: 0 <= k < |r| ==> r[k] == s[i + k]
  {
    var a := if i <= |s| then i else |s|;
    var b := if j <= |s| then j else |s|;
    if a <= b then s[a..b] else []
  }

  /** One token of the palette string: drop every '#', read `n[:2]`, `n[2:4]`
      and `n[4:]` as hexadecimal, in that order. */
  function ParseToken(token: string): Result<Color> {
    var n := RemoveAll(token, '#');
    var r :- ParseHex(Slice(n, 0, 2));
    var g :- ParseHex(Slice(n, 2, 4));
    var b :- ParseHex(Slice(n, 4, |n|));
    Ok(RGB(r, g, b))
  }

  function TokenParser(): string -> Result<Color> {
    t => ParseToken(t)
  }

  /** The palette string `convert` works from: the given one, or the default. */
  function PaletteText(palette: Option<string>): string {
    if palette.None? then DefaultPalette else palette.value
  }

  /** The palette of `convert`: its string split at the commas, each token
      parsed, the first bad token raising ValueError. */
  function ParsePalette(palette: Option<string>): Result<seq<Color>> {
    SeqResult(Split(PaletteText(palette), ','), TokenParser())
  }

  /** A well-formed token: six hex digits, with '#' signs anywhere. */
  predicate WellFormedToken(token: string) {
    var n := RemoveAll(token, '#');
    |n| == 6 && AllHex(n)
  }

  /** A well-formed token `#rrggbb` is the colour (0xrr, 0xgg, 0xbb), each
      channel in [0, 255]. */
  lemma ParseWellFormedToken(token: string)
    requires WellFormedToken(token)
    ensures var n := RemoveAll(token, '#');
            ParseToken(token) == Ok(RGB(HexValue(n[..2]), HexValue(n[2..4]), HexValue(n[4..])))
    ensures ParseToken(token).Ok? && IsByteColor(ParseToken(token).value)
  {
    var n := RemoveAll(token, '#');
    assert Slice(n, 0, 2) == n[..2] && Slice(n, 2, 4) == n[2..4] && Slice(n, 4, |n|) == n[4..];
    HexValueBound(n[..2]);
    HexValueBound(n[2..4]);
    HexValueBound(n[4..]);
  }

  /** A token with fewer than five digits leaves `n[4:]` empty, and
      `int("", 16)` raises. */
  lemma ShortTokenRaises(token: string)
    requires |RemoveAll(token, '#')| <= 4
    ensures ParseToken(token).Err?
  {
    var n := RemoveAll(token, '#');
    assert |Slice(n, 4, |n|)| == 0;
  }

  /** Two lower-case hex digits, zero-padded. */
  function Hex2(n: nat): string
    requires n < 256
  {
    [HexDigit(n / 16), HexDigit(n % 16)]
  }

  lemma Hex2Value(n: nat)
    requires n < 256
    ensures |Hex2(n)| == 2 && AllHex(Hex2(n)) && HexValue(Hex2(n)) == n
    ensures '#' !in Hex2(n) && ',' !in Hex2(n)
  {
    var s := Hex2(n);
    assert s[..1] == [HexDigit(n / 16)] && s[..1][..0] == [];
    assert HexValue(s[..1]) == n / 16;
    assert HexValue(s) == (n / 16) * 16 + n % 16;
  }

  /** `#rrggbb` for a colour of bytes. */
  function FormatToken(c: Color): string
    requires IsByteColor(c)
  {
    "#" + (Hex2(c.r) + Hex2(c.g) + Hex2(c.b))
  }

  /** A formatted token is well formed: '#' and six hex digits, no comma. */
  lemma FormatTokenDigits(c: Color)
    requires IsByteColor(c)
    ensures RemoveAll(FormatToken(c), '#') == Hex2(c.r) + Hex2(c.g) + Hex2(c.b)
    ensures WellFormedToken(FormatToken(c)) && ',' !in FormatToken(c)
  {
    var t := FormatToken(c);
    Hex2Value(c.r);
    Hex2Value(c.g);
    Hex2Value(c.b);
    assert t[1..] == Hex2(c.r) + Hex2(c.g) + Hex2(c.b);
  }

  /** Writing a colour as a token and reading it back gives the colour. */
  lemma ParseFormatToken(c: Color)
    requires IsByteColor(c)
    ensures ParseToken(FormatToken(c)) == Ok(c)
  {
    var t := FormatToken(c);
    var n := RemoveAll(t, '#');
    FormatTokenDigits(c);
    ParseWellFormedToken(t);
    Hex2Value(c.r);
    Hex2Value(c.g);
    Hex2Value(c.b);
    assert n[..2] == Hex2(c.r) && n[2..4] == Hex2(c.g) && n[4..] == Hex2(c.b);
  }

  /** N comma-separated tokens give N colours in the same order, or raise
      when one of them does not parse. */
  lemma ParsePaletteSpec(palette: Option<string>)
    ensures var tokens := Split(PaletteText(palette), ',');
            ParsePalette(palette).Ok? <==> forall i :: 0 <= i < |tokens| ==> ParseToken(tokens[i]).Ok?
    ensures var tokens := Split(PaletteText(palette), ',');
            ParsePalette(palette).Ok? ==>
              |ParsePalette(palette).value| == |tokens| && |tokens| >= 1 &&
              forall i :: 0 <= i < |tokens| ==> ParseToken(tokens[i]) == Ok(ParsePalette(palette).value[i])
  {
    ParseTokensSpec(Split(PaletteText(palette), ','));
  }

  lemma ParseTokensSpec(tokens: seq<string>)
    ensures SeqResult(tokens, TokenParser()).Ok? <==> forall i :: 0 <= i < |tokens| ==> ParseToken(tokens[i]).Ok?
    ensures SeqResult(tokens, TokenParser()).Ok? ==>
              |SeqResult(tokens, TokenParser()).value| == |tokens| &&
              forall i :: 0 <= i < |tokens| ==> ParseToken(tokens[i]) == Ok(SeqResult(tokens, TokenParser()).value[i])
  {
    var f := TokenParser();
    SeqResultOk(tokens, f);
    forall i | 0 <= i < |tokens| ensures f(tokens[i]) == ParseToken(tokens[i]) {}
  }

  /** Tokens that parse, parsed in order, give their colours. */
  lemma ParseTokensOk(tokens: seq<string>, colors: seq<Color>)
    requires |tokens| == |colors|
    requires forall i :: 0 <= i < |tokens| ==> ParseToken(tokens[i]) == Ok(colors[i])
    ensures SeqResult(tokens, TokenParser()) == Ok(colors)
  {
    ParseTokensSpec(tokens);
    var parsed := SeqResult(tokens, TokenParser());
    assert parsed.Ok? by {
      forall i | 0 <= i < |tokens| ensures ParseToken(tokens[i]).Ok? {}
    }
    assert parsed.value == colors by {
      forall i | 0 <= i < |tokens| ensures parsed.value[i] == colors[i] {}
    }
  }

  /** Comma-free tokens that parse, joined with commas, parse to their colours. */
  lemma ParseJoined(tokens: seq<string>, colors: seq<Color>)
    requires |tokens| == |colors| >= 1
    requires forall i :: 0 <= i < |tokens| ==> ',' !in tokens[i] && ParseToken(tokens[i]) == Ok(colors[i])
    ensures ParsePalette(Some(JoinWith(tokens, ','))) == Ok(colors)
  {
    JoinSplit(tokens, ',');
    ParseTokensOk(tokens, colors);
  }

  /** Joining the tokens of any non-empty list of byte colours with commas
      and parsing the result gives the list back. */
  lemma ParsePaletteRoundTrip(colors: seq<Color>)
    requires |colors| >= 1 && forall i :: 0 <= i < |colors| ==> IsByteColor(colors[i])
    ensures var tokens := seq(|colors|, i requires 0 <= i < |colors| => FormatToken(colors[i]));
            ParsePalette(Some(JoinWith(tokens, ','))) == Ok(colors)
  {
    var tokens := seq(|colors|, i requires 0 <= i < |colors| => FormatToken(colors[i]));
    forall i | 0 <= i < |tokens| ensures ',' !in tokens[i] && ParseToken(tokens[i]) == Ok(colors[i]) {
      FormatTokenDigits(colors[i]);
      ParseFormatToken(colors[i]);
    }
    ParseJoined(tokens, colors);
  }

  /** The text of default tokens 0 and 1. */
  lemma ArcadeTokenText0()
    ensures FormatToken(RGB(0, 0, 0)) == "#000000"
    ensures FormatToken(RGB(255, 255, 255)) == "#ffffff"
  {
  }

  /** Default tokens 0 and 1 are the formatting of Arcade colours 0 and 1. */
  lemma ArcadeTokenPair0(i: nat)
    requires 0 <= i <= 1
    ensures ArcadeTokens[i] == FormatToken(ArcadeColors[i])
  {
    ArcadeTokenText0();
    if i == 0 {
      assert ArcadeColors[0] == RGB(0, 0, 0) && ArcadeTokens[0] == "#000000";
    } else {
      assert ArcadeColors[1] == RGB(255, 255, 255) && ArcadeTokens[1] == "#ffffff";
    }
  }

  /** The text of default tokens 2 and 3. */
  lemma ArcadeTokenText1()
    ensures FormatToken(RGB(255, 33, 33)) == "#ff2121"
    ensures FormatToken(RGB(255, 147, 196)) == "#ff93c4"
  {
  }

  /** Default tokens 2 and 3 are the formatting of Arcade colours 2 and 3. */
  lemma ArcadeTokenPair1(i: nat)
    requires 2 <= i <= 3
    ensures ArcadeTokens[i] == FormatToken(ArcadeColors[i])
  {
    ArcadeTokenText1();
    if i == 2 {
      assert ArcadeColors[2] == RGB(255, 33, 33) && ArcadeTokens[2] == "#ff2121";
    } else {
      assert ArcadeColors[3] == RGB(255, 147, 196) && ArcadeTokens[3] == "#ff93c4";
    }
  }

  /** The text of default tokens 4 and 5. */
  lemma ArcadeTokenText2()
    ensures FormatToken(RGB(255, 129, 53)) == "#ff8135"
    ensures FormatToken(RGB(255, 246, 9)) == "#fff609"
  {
  }

  /** Default tokens 4 and 5 are the formatting of Arcade colours 4 and 5. */
  lemma ArcadeTokenPair2(i: nat)
    requires 4 <= i <= 5
    ensures ArcadeTokens[i] == FormatToken(ArcadeColors[i])
  {
    ArcadeTokenText2();
    if i == 4 {
      assert ArcadeColors[4] == RGB(255, 129, 53) && ArcadeTokens[4] == "#ff8135";
    } else {
      assert ArcadeColors[5] == RGB(255, 246, 9) && ArcadeTokens[5] == "#fff609";
    }
  }

  /** The text of default tokens 6 and 7. */
  lemma ArcadeTokenText3()
    ensures FormatToken(RGB(36, 156, 163)) == "#249ca3"
    ensures FormatToken(RGB(120, 220, 82)) == "#78dc52"
  {
  }

  /** Default tokens 6 and 7 are the formatting of Arcade colours 6 and 7. */
  lemma ArcadeTokenPair3(i: nat)
    requires 6 <= i <= 7
    ensures ArcadeTokens[i] == FormatToken(ArcadeColors[i])
  {
    ArcadeTokenText3();
    if i == 6 {
      assert ArcadeColors[6] == RGB(36, 156, 163) && ArcadeTokens[6] == "#249ca3";
    } else {
      assert ArcadeColors[7] == RGB(120, 220, 82) && ArcadeTokens[7] == "#78dc52";
    }
  }

  /** The text of default tokens 8 and 9. */
  lemma ArcadeTokenText4()
    ensures FormatToken(RGB(0, 63, 173)) == "#003fad"
    ensures FormatToken(RGB(135, 242, 255)) == "#87f2ff"
  {
  }

  /** Default tokens 8 and 9 are the formatting of Arcade colours 8 and 9. */
  lemma ArcadeTokenPair4(i: nat)
    requires 8 <= i <= 9
    ensures ArcadeTokens[i] == FormatToken(ArcadeColors[i])
  {
    ArcadeTokenText4();
    if i == 8 {
      assert ArcadeColors[8] == RGB(0, 63, 173) && ArcadeTokens[8] == "#003fad";
    } else {
      assert ArcadeColors[9] == RGB(135, 242, 255) && ArcadeTokens[9] == "#87f2ff";
    }
  }

  /** The text of default tokens 10 and 11. */
  lemma ArcadeTokenText5()
    ensures FormatToken(RGB(142, 46, 196)) == "#8e2ec4"
    ensures FormatToken(RGB(164, 131, 159)) == "#a4839f"
  {
  }

  /** Default tokens 10 and 11 are the formatting of Arcade colours 10 and 11. */
  lemma ArcadeTokenPair5(i: nat)
    requires 10 <= i <= 11
    ensures ArcadeTokens[i] == FormatToken(ArcadeColors[i])
  {
    ArcadeTokenText5();
    if i == 10 {
      assert ArcadeColors[10] == RGB(142, 46, 196) && ArcadeTokens[10] == "#8e2ec4";
    } else {
      assert ArcadeColors[11] == RGB(164, 131, 159) && ArcadeTokens[11] == "#a4839f";
    }
  }

  /** The text of default tokens 12 and 13. */
  lemma ArcadeTokenText6()
    ensures FormatToken(RGB(92, 64, 108)) == "#5c406c"
    ensures FormatToken(RGB(229, 205, 196)) == "#e5cdc4"
  {
  }

  /** Default tokens 12 and 13 are the formatting of Arcade colours 12 and 13. */
  lemma ArcadeTokenPair6(i: nat)
    requires 12 <= i <= 13
    ensures ArcadeTokens[i] == FormatToken(ArcadeColors[i])
  {
    ArcadeTokenText6();
    if i == 12 {
      assert ArcadeColors[12] == RGB(92, 64, 108) && ArcadeTokens[12] == "#5c406c";
    } else {
      assert ArcadeColors[13] == RGB(229, 205, 196) && ArcadeTokens[13] == "#e5cdc4";
    }
  }

  /** The text of default tokens 14 and 15. */
  lemma ArcadeTokenText7()
    ensures FormatToken(RGB(145, 70, 61)) == "#91463d"
    ensures FormatToken(RGB(0, 0, 0)) == "#000000"
  {
  }

  /** Default tokens 14 and 15 are the formatting of Arcade colours 14 and 15. */
  lemma ArcadeTokenPair7(i: nat)
    requires 14 <= i <= 15
    ensures ArcadeTokens[i] == FormatToken(ArcadeColors[i])
  {
    ArcadeTokenText7();
    if i == 14 {
      assert ArcadeColors[14] == RGB(145, 70, 61) && ArcadeTokens[14] == "#91463d";
    } else {
      assert ArcadeColors[15] == RGB(0, 0, 0) && ArcadeTokens[15] == "#000000";
    }
  }

  lemma ArcadeColorBytes(i: nat)
    requires i < 16
    ensures IsByteColor(ArcadeColors[i])
  {
  }

  lemma ArcadeTokenFormat(i: nat)
    requires i < 16
    ensures ArcadeTokens[i] == FormatToken(ArcadeColors[i])
  {
    match i / 2
    case 0 => ArcadeTokenPair0(i);
    case 1 => ArcadeTokenPair1(i);
    case 2 => ArcadeTokenPair2(i);
    case 3 => ArcadeTokenPair3(i);
    case 4 => ArcadeTokenPair4(i);
    case 5 => ArcadeTokenPair5(i);
    case 6 => ArcadeTokenPair6(i);
    case 7 => ArcadeTokenPair7(i);
  }

  lemma ArcadeTokenColor(i: nat)
    requires i < 16
    ensures ',' !in ArcadeTokens[i] && ParseToken(ArcadeTokens[i]) == Ok(ArcadeColors[i])
  {
    ArcadeColorBytes(i);
    ArcadeTokenFormat(i);
    FormatTokenDigits(ArcadeColors[i]);
    ParseFormatToken(ArcadeColors[i]);
  }

  /** With no palette given, the default string gives the sixteen Arcade colours in order. */
  lemma DefaultPaletteColors()
    ensures ParsePalette(None) == Ok(ArcadeColors)
  {
    forall i | 0 <= i < |ArcadeTokens| ensures ',' !in ArcadeTokens[i] && ParseToken(ArcadeTokens[i]) == Ok(ArcadeColors[i]) {
      ArcadeTokenColor(i);
    }
    ParseJoined(ArcadeTokens, ArcadeColors);
  }

  // ---------------------------------------------------------------------------
  // The colour -> digit map

  /** The assignments `arcade_palette_map[color] = hex(index)[2:]`, in index order. */
  function MapEntries(palette: seq<Color>): (e: seq<(Color, string)>)
    ensures |e| == |palette| && forall i :: 0 <= i < |palette| ==> e[i] == (palette[i], Hex(i))
  {
    seq(|palette|, i requires 0 <= i < |palette| => (palette[i], Hex(i)))
  }

  function ArcadePaletteMap(palette: seq<Color>): PaletteMap {
    LastWins(MapEntries(palette))
  }

  /** The loop over `enumerate(palette)` that fills the map. */
  method BuildPaletteMap(palette: seq<Color>) returns (arcadePaletteMap: PaletteMap)
    ensures arcadePaletteMap == ArcadePaletteMap(palette)
  {
    arcadePaletteMap := map[];
    var index := 0;
    while index < |palette|
      invariant 0 <= index <= |palette|
      invariant arcadePaletteMap == LastWins(MapEntries(palette)[..index])
    {
      var entries := MapEntries(palette)[..index + 1];
      assert entries[..index] == MapEntries(palette)[..index];
      arcadePaletteMap := arcadePaletteMap[palette[index] := Hex(index)];
      index := index + 1;
    }
    assert MapEntries(palette)[..index] == MapEntries(palette);
  }

  /** i is the index of the last occurrence of c. */
  predicate IsLastIndex(palette: seq<Color>, c: Color, i: int) {
    0 <= i < |palette| && palette[i] == c && forall j :: i < j < |palette| ==> palette[j] != c
  }

  lemma {:induction false} LastIndexExists(palette: seq<Color>, c: Color, k: nat) returns (i: nat)
    requires k < |palette| && palette[k] == c
    ensures IsLastIndex(palette, c, i)
    decreases |palette| - k
  {
    if forall j :: k < j < |palette| ==> palette[j] != c {
      i := k;
    } else {
      var j :| k < j < |palette| && palette[j] == c;
      i := LastIndexExists(palette, c, j);
    }
  }

  /** The keys are exactly the palette's colours, and each maps to the hex
      digits of its last index: a later duplicate overwrites an earlier one. */
  lemma ArcadePaletteMapSpec(palette: seq<Color>)
    ensures forall c :: c in ArcadePaletteMap(palette) <==> c in palette
    ensures forall c, i :: IsLastIndex(palette, c, i) ==> ArcadePaletteMap(palette)[c] == Hex(i)
    ensures forall c :: c in ArcadePaletteMap(palette) ==>
              exists i :: IsLastIndex(palette, c, i) && ArcadePaletteMap(palette)[c] == Hex(i)
  {
    var m := ArcadePaletteMap(palette);
    var e := MapEntries(palette);
    LastWinsKeys(e);
    forall c ensures c in m <==> c in palette {
      if c in palette {
        var i :| 0 <= i < |palette| && palette[i] == c;
        assert e[i].0 == c;
      }
    }
    forall c, i | IsLastIndex(palette, c, i) ensures m[c] == Hex(i) {
      LastIndexToken(palette, c, i);
    }
    forall c | c in m ensures exists i :: IsLastIndex(palette, c, i) && m[c] == Hex(i) {
      var k :| 0 <= k < |palette| && palette[k] == c;
      var i := LastIndexExists(palette, c, k);
      LastIndexToken(palette, c, i);
    }
  }

  /** The token of a colour is the hex form of its last index. */
  lemma LastIndexToken(palette: seq<Color>, c: Color, i: nat)
    requires IsLastIndex(palette, c, i)
    ensures c in ArcadePaletteMap(palette) && ArcadePaletteMap(palette)[c] == Hex(i)
  {
    var e := MapEntries(palette);
    assert forall j :: i < j < |e| ==> e[j].0 != e[i].0;
    LastWinsAt(e, i);
  }

  /** Distinct colours get distinct tokens, so the text determines the colours. */
  lemma ArcadeTokensDistinct(palette: seq<Color>, c1: Color, c2: Color)
    requires c1 in ArcadePaletteMap(palette) && c2 in ArcadePaletteMap(palette)
    requires ArcadePaletteMap(palette)[c1] == ArcadePaletteMap(palette)[c2]
    ensures c1 == c2
  {
    ArcadePaletteMapSpec(palette);
    var i1 :| IsLastIndex(palette, c1, i1) && ArcadePaletteMap(palette)[c1] == Hex(i1);
    var i2 :| IsLastIndex(palette, c2, i2) && ArcadePaletteMap(palette)[c2] == Hex(i2);
    HexInjective(i1, i2);
  }

  /** Every token of the map is the hex form of an index: printable
      lower-case hex digits without a leading zero, one character when the
      palette has at most sixteen colours. */
  lemma ArcadeTokenPrintable(palette: seq<Color>, c: Color)
    requires c in ArcadePaletteMap(palette)
    ensures var t := ArcadePaletteMap(palette)[c];
            |t| >= 1 && AllHex(t) && '\n' !in t && !IsSpace(t[0]) &&
            (forall k :: 0 <= k < |t| ==> IsLowerHexDigit(t[k])) && (|t| == 1 || t[0] != '0')
    ensures |palette| <= 16 ==> |ArcadePaletteMap(palette)[c]| == 1
  {
    ArcadePaletteMapSpec(palette);
    var i :| IsLastIndex(palette, c, i) && ArcadePaletteMap(palette)[c] == Hex(i);
    HexLength(i);
  }

  /** In the default palette black is both index 0 and index 15, so the later
      one wins and black is written "f"; white is "1". */
  lemma DefaultBlackIsF(palette: seq<Color>)
    requires palette == ArcadeColors
    ensures RGB(0, 0, 0) in ArcadePaletteMap(palette) && ArcadePaletteMap(palette)[RGB(0, 0, 0)] == "f"
  {
    assert IsLastIndex(palette, RGB(0, 0, 0), 15);
    LastIndexToken(palette, RGB(0, 0, 0), 15);
  }

  /** White is index 1 only, so it is written "1". */
  lemma DefaultWhiteIsOne(palette: seq<Color>)
    requires palette == ArcadeColors
    ensures RGB(255, 255, 255) in ArcadePaletteMap(palette) && ArcadePaletteMap(palette)[RGB(255, 255, 255)] == "1"
  {
    assert IsLastIndex(palette, RGB(255, 255, 255), 1);
    LastIndexToken(palette, RGB(255, 255, 255), 1);
  }

  // ---------------------------------------------------------------------------
  // The target size

  /** Python's `round` of the exact quotient n / d: to the nearest integer,
      halves to the even neighbour. */
  function RoundHalfEven(n: int, d: int): int
    requires d > 0
  {
    var q, m := n / d, n % d;
    if 2 * m < d then q
    else if 2 * m > d then q + 1
    else if q % 2 == 0 then q
    else q + 1
  }

  /** The rounded quotient is within half of n / d, and an exact half goes to
      the even neighbour. */
  lemma RoundHalfEvenSpec(n: int, d: int)
    requires d > 0
    ensures var r := RoundHalfEven(n, d);
            -d <= 2 * (n - r * d) <= d &&
            ((2 * (n - r * d) == d || 2 * (n - r * d) == -d) ==> r % 2 == 0)
  {
    var q, m := n / d, n % d;
    assert n - q * d == m;
    assert n - (q + 1) * d == m - d;
  }

  lemma MulGap(k: int, d: int)
    requires d > 0
    ensures k >= 1 ==> k * d >= d
    ensures k >= 2 ==> k * d >= 2 * d
    ensures k <= -1 ==> k * d <= -d
    ensures k <= -2 ==> k * d <= -2 * d
  {
    assert k * d - 2 * d == (k - 2) * d;
    assert k * d - d == (k - 1) * d;
    assert k * d + d == (k + 1) * d;
    assert k * d + 2 * d == (k + 2) * d;
  }

  /** Only one integer is that close with that tie-break. */
  lemma RoundHalfEvenUnique(n: int, d: int, r: int)
    requires d > 0
    requires -d <= 2 * (n - r * d) <= d
    requires (2 * (n - r * d) == d || 2 * (n - r * d) == -d) ==> r % 2 == 0
    ensures r == RoundHalfEven(n, d)
  {
    var s := RoundHalfEven(n, d);
    RoundHalfEvenSpec(n, d);
    assert (n - s * d) - (n - r * d) == (r - s) * d;
    MulGap(r - s, d);
  }

  /** The size `convert` resizes to: the input size when neither is given, a
      missing one computed from the other to keep the aspect ratio, both as
      given otherwise. The division by a zero input dimension raises. */
  function TargetSize(imgWidth: nat, imgHeight: nat, width: Option<int>, height: Option<int>): Result<(int, int)> {
    if width.None? && height.None? then Ok((imgWidth, imgHeight))
    else if height.None? then
      if imgWidth == 0 then Err(ZeroDivision) else Ok((width.value, RoundHalfEven(width.value * imgHeight, imgWidth)))
    else if width.None? then
      if imgHeight == 0 then Err(ZeroDivision) else Ok((RoundHalfEven(height.value * imgWidth, imgHeight), height.value))
    else Ok((width.value, height.value))
  }

  /** The four cases; a computed side keeps the ratio to within half a pixel. */
  lemma TargetSizeSpec(imgWidth: nat, imgHeight: nat, width: Option<int>, height: Option<int>)
    ensures width.None? && height.None? ==> TargetSize(imgWidth, imgHeight, width, height) == Ok((imgWidth, imgHeight))
    ensures width.Some? && height.Some? ==> TargetSize(imgWidth, imgHeight, width, height) == Ok((width.value, height.value))
    ensures width.Some? && height.None? ==>
              (TargetSize(imgWidth, imgHeight, width, height).Err? <==> imgWidth == 0) &&
              (imgWidth > 0 ==>
                 var size := TargetSize(imgWidth, imgHeight, width, height).value;
                 size.0 == width.value &&
                 -(imgWidth as int) <= 2 * (width.value * imgHeight - size.1 * imgWidth) <= imgWidth)
    ensures width.None? && height.Some? ==>
              (TargetSize(imgWidth, imgHeight, width, height).Err? <==> imgHeight == 0) &&
              (imgHeight > 0 ==>
                 var size := TargetSize(imgWidth, imgHeight, width, height).value;
                 size.1 == height.value &&
                 -(imgHeight as int) <= 2 * (height.value * imgWidth - size.0 * imgHeight) <= imgHeight)
  {
    if width.Some? && height.None? && imgWidth > 0 {
      RoundHalfEvenSpec(width.value * imgHeight, imgWidth);
    }
    if width.None? && height.Some? && imgHeight > 0 {
      RoundHalfEvenSpec(height.value * imgWidth, imgHeight);
    }
  }

  /** When the given side is a whole multiple of the input's, the computed side is exact. */
  lemma TargetSizeExact(imgWidth: nat, imgHeight: nat, k: nat)
    requires imgWidth > 0
    ensures TargetSize(imgWidth, imgHeight, Some(k * imgWidth), None) == Ok((k * imgWidth, k * imgHeight))
  {
    assert k * imgWidth * imgHeight - (k * imgHeight) * imgWidth == 0;
    RoundHalfEvenUnique(k * imgWidth * imgHeight, imgWidth, k * imgHeight);
  }

  // ---------------------------------------------------------------------------
  // convert

  /** `OutputOptions`: the MakeCode Arcade text, or a preview image. */
  datatype OutputOption = MakeCodeArcadeString | PilImage

  /** What `convert` returns: the text, or the quantized picture. */
  datatype Output = Text(text: string) | Picture(picture: Image<Color>)

  /** Resizing one frame to the target size with Lanczos resampling, then the
      RGB conversion `change_palette` starts with; Pillow may raise. */
  function Resizer<F>(resize: (F, int, int) -> Result<Image<Color>>, width: int, height: int): F -> Result<Image<Color>> {
    frame => resize(frame, width, height)
  }

  function Quantizer(palette: seq<Color>, query: FastPalette.NearestQuery): Image<Color> -> Result<Image<Color>>
    requires FastPalette.IsNearestQuery(query)
  {
    (img: Image<Color>) => FastPalette.ChangePalette(img, palette, query)
  }

  /** `image_to_makecode_arcade(frame, arcade_palette_map)` on a quantized frame:
      `is_gif` is not passed, so every pixel is looked up as its RGB tuple. */
  function FrameText(palette: PaletteMap): Image<Color> -> Result<string> {
    (img: Image<Color>) => Serialized(RgbPixels(img), palette, false, None)
  }

  /** The frames resized for a GIF: all of them for text, only the first
      for a picture (the loop breaks after it). */
  function GifSources<F>(frames: seq<F>, output: OutputOption): (s: seq<F>)
    ensures |s| <= |frames| && s == frames[..|s|]
    ensures output.PilImage? && frames != [] ==> |s| == 1
    ensures output.MakeCodeArcadeString? ==> s == frames
  {
    if output.PilImage? && frames != [] then frames[..1] else frames
  }

  /** A serialised image text is never empty. */
  lemma SerializedNonEmpty(image: Image<Pixel>, palette: PaletteMap, isGif: bool, colors: Option<seq<(seq<int>, int)>>)
    ensures Serialized(image, palette, isGif, colors).Ok? ==> Serialized(image, palette, isGif, colors).value != []
  {
    var m := MapImageResult(image, Tokenizer(palette, isGif, IndexTable(isGif, colors)));
    if m.Ok? {
      MakeCodeTextMarkers(m.value.rows);
    }
  }

  lemma FrameTextsNonEmpty(frames: seq<Image<Color>>, palette: PaletteMap)
    ensures SeqResult(frames, FrameText(palette)).Ok? ==>
              forall i :: 0 <= i < |SeqResult(frames, FrameText(palette)).value| ==> SeqResult(frames, FrameText(palette)).value[i] != []
  {
    SeqResultOk(frames, FrameText(palette));
    forall i | 0 <= i < |frames| ensures FrameText(palette)(frames[i]).Ok? ==> FrameText(palette)(frames[i]).value != [] {
      SerializedNonEmpty(RgbPixels(frames[i]), palette, false, None);
    }
  }

  /** The blocks of the frames, one after the other. */
  function GifBody(texts: seq<string>): string
    requires forall i :: 0 <= i < |texts| ==> texts[i] != []
  {
    JoinMap(texts, FrameBlock)
  }

  /** The text of a GIF: every quantized frame serialised, the first frame
      that raises ending it, then the list of blocks. */
  function GifText(frames: seq<Image<Color>>, palette: PaletteMap): Result<string> {
    var texts :- SeqResult(frames, FrameText(palette));
    FrameTextsNonEmpty(frames, palette);
    Ok(GifList(texts))
  }

  /** `convert(input, output, width, height, palette, is_gif)`, step by step
      in the order the source takes them: the target size, resizing, parsing
      the palette, quantizing (a picture is returned here), the colour ->
      digit map, and the text. `frames` are the frames of the input (one at
      least, the input's own first); `query` stands for the KD-tree. */
  function Converted<F>(input: F, frames: seq<F>, imgWidth: nat, imgHeight: nat, output: OutputOption,
                        width: Option<int>, height: Option<int>, palette: Option<string>, isGif: bool,
                        resize: (F, int, int) -> Result<Image<Color>>, query: FastPalette.NearestQuery): Result<Output>
    requires FastPalette.IsNearestQuery(query)
    requires isGif ==> frames != []
  {
    var size :- TargetSize(imgWidth, imgHeight, width, height);
    if isGif then
      var resized :- SeqResult(GifSources(frames, output), Resizer(resize, size.0, size.1));
      var colors :- ParsePalette(palette);
      if output.PilImage? then
        SeqResultOk(GifSources(frames, output), Resizer(resize, size.0, size.1));
        var picture :- FastPalette.ChangePalette(resized[0], colors, query);
        Ok(Picture(picture))
      else
        var quantized :- SeqResult(resized, Quantizer(colors, query));
        var text :- GifText(quantized, ArcadePaletteMap(colors));
        Ok(Text(text))
    else
      var resized :- resize(input, size.0, size.1);
      var colors :- ParsePalette(palette);
      var quantized :- FastPalette.ChangePalette(resized, colors, query);
      if output.PilImage? then Ok(Picture(quantized))
      else
        var text :- Serialized(RgbPixels(quantized), ArcadePaletteMap(colors), false, None);
        Ok(Text(text))
  }

  /** The resize loop of a GIF: every frame in turn, stopping after the
      first when a picture is wanted. */
  method ResizeFrames<F>(frames: seq<F>, output: OutputOption, resize: (F, int, int) -> Result<Image<Color>>, newWidth: int, newHeight: int)
    returns (r: Result<seq<Image<Color>>>)
    ensures r == SeqResult(GifSources(frames, output), Resizer(resize, newWidth, newHeight))
  {
    ghost var f := Resizer(resize, newWidth, newHeight);
    var outputFrames: seq<Image<Color>> := [];
    var frameCount := 0;
    while frameCount < |frames|
      invariant 0 <= frameCount <= |frames|
      invariant output.PilImage? ==> frameCount == 0
      invariant SeqResult(frames[..frameCount], f) == Ok(outputFrames)
    {
      var frame := resize(frames[frameCount], newWidth, newHeight);
      SeqResultStep(frames, f, frameCount, outputFrames);
      if frame.Err? {
        SeqResultPrefixError(GifSources(frames, output), f, frameCount + 1);
        return Err(frame.error);
      }
      outputFrames := outputFrames + [frame.value];
      frameCount := frameCount + 1;
      if output.PilImage? {
        break;
      }
    }
    assert frames[..|frames|] == frames;
    r := Ok(outputFrames);
  }

  /** The quantize loop of a GIF: `output_frames[i] = change_palette(frame, palette)`. */
  method QuantizeFrames(frames: seq<Image<Color>>, palette: seq<Color>, query: FastPalette.NearestQuery)
    returns (r: Result<seq<Image<Color>>>)
    requires FastPalette.IsNearestQuery(query)
    ensures r == SeqResult(frames, Quantizer(palette, query))
  {
    ghost var f := Quantizer(palette, query);
    var outputFrames := frames;
    var i := 0;
    while i < |outputFrames|
      invariant 0 <= i <= |outputFrames| == |frames|
      invariant SeqResult(frames[..i], f) == Ok(outputFrames[..i])
      invariant outputFrames[i..] == frames[i..]
    {
      assert outputFrames[i] == frames[i] by { assert outputFrames[i..][0] == frames[i..][0]; }
      var frame := FastPalette.ChangePalette(outputFrames[i], palette, query);
      SeqResultStep(frames, f, i, outputFrames[..i]);
      if frame.Err? {
        SeqResultPrefixError(frames, f, i + 1);
        return Err(frame.error);
      }
      ghost var before := outputFrames;
      outputFrames := outputFrames[i := frame.value];
      assert outputFrames[..i + 1] == before[..i] + [frame.value];
      assert outputFrames[i + 1..] == before[i + 1..];
      i := i + 1;
    }
    assert frames[..i] == frames && outputFrames[..i] == outputFrames;
    r := Ok(outputFrames);
  }

  /** The text loop of a GIF stands after frame i: the texts so far, and
      the opening text followed by their blocks. */
  ghost predicate FramesScanned(frames: seq<Image<Color>>, palette: PaletteMap, i: nat, texts: seq<string>, opening: string, out: string) {
    i <= |frames| && SeqResult(frames[..i], FrameText(palette)) == Ok(texts) &&
    (forall k :: 0 <= k < |texts| ==> texts[k] != []) &&
    out == opening + GifBody(texts)
  }

  lemma FramesScanStart(frames: seq<Image<Color>>, palette: PaletteMap, opening: string)
    ensures FramesScanned(frames, palette, 0, [], opening, opening)
  {
    assert frames[..0] == [];
  }

  lemma FramesScanStep(frames: seq<Image<Color>>, palette: PaletteMap, i: nat, texts: seq<string>, opening: string, out: string, text: string)
    requires FramesScanned(frames, palette, i, texts, opening, out) && i < |frames|
    requires FrameText(palette)(frames[i]) == Ok(text) && text != []
    ensures FramesScanned(frames, palette, i + 1, texts + [text], opening, out + FrameBlock(text))
  {
    SeqResultStep(frames, FrameText(palette), i, texts);
    GifBodyStep(texts, text, opening, out);
  }

  /** One more block after the ones written so far. */
  lemma GifBodyStep(texts: seq<string>, text: string, opening: string, out: string)
    requires (forall k :: 0 <= k < |texts| ==> texts[k] != []) && text != []
    requires out == opening + GifBody(texts)
    ensures forall k :: 0 <= k < |texts + [text]| ==> (texts + [text])[k] != []
    ensures out + FrameBlock(text) == opening + GifBody(texts + [text])
  {
    JoinMapSnoc(texts, text, FrameBlock);
    AppendAssoc(opening, GifBody(texts), FrameBlock(text));
  }

  lemma AppendAssoc<T>(a: seq<T>, b: seq<T>, c: seq<T>)
    ensures (a + b) + c == a + (b + c)
  {
  }

  lemma FramesScanRaise(frames: seq<Image<Color>>, palette: PaletteMap, i: nat, texts: seq<string>, opening: string, out: string)
    requires FramesScanned(frames, palette, i, texts, opening, out) && i < |frames|
    requires FrameText(palette)(frames[i]).Err?
    ensures GifText(frames, palette) == Err(FrameText(palette)(frames[i]).error)
  {
    SeqResultStep(frames, FrameText(palette), i, texts);
    SeqResultPrefixError(frames, FrameText(palette), i + 1);
  }

  lemma FramesScanDone(frames: seq<Image<Color>>, palette: PaletteMap, texts: seq<string>, out: string)
    requires FramesScanned(frames, palette, |frames|, texts, "[\n", out)
    ensures GifText(frames, palette) == Ok(out + "]")
  {
    assert frames[..|frames|] == frames;
    FrameTextsNonEmpty(frames, palette);
  }

  /** The lines of one frame's text, re-indented and followed by ",\n". */
  method IndentFrame(text: string) returns (block: string)
    requires text != []
    ensures block == FrameBlock(text)
  {
    var originalLines := SplitLines(text);
    block := Indent(originalLines[0], "    ");
    block := block + Indent(Concat(if |originalLines| >= 2 then originalLines[1..|originalLines| - 1] else []), "        ");
    block := block + Indent(originalLines[|originalLines| - 1], "    ");
    block := block + ",\n";
  }

  /** The text loop of a GIF: each frame serialised, split into lines and
      indented, the blocks appended between "[\n" and "]". */
  method SerializeFrames(frames: seq<Image<Color>>, arcadePaletteMap: PaletteMap) returns (r: Result<string>)
    ensures r == GifText(frames, arcadePaletteMap)
  {
    ghost var texts: seq<string> := [];
    var outputStr := "[\n";
    FramesScanStart(frames, arcadePaletteMap, outputStr);
    var i := 0;
    while i < |frames|
      invariant FramesScanned(frames, arcadePaletteMap, i, texts, "[\n", outputStr)
    {
      var text := ImageToMakeCodeArcade(RgbPixels(frames[i]), arcadePaletteMap, false, None);
      if text.Err? {
        FramesScanRaise(frames, arcadePaletteMap, i, texts, "[\n", outputStr);
        return Err(text.error);
      }
      SerializedNonEmpty(RgbPixels(frames[i]), arcadePaletteMap, false, None);
      FramesScanStep(frames, arcadePaletteMap, i, texts, "[\n", outputStr, text.value);
      var block := IndentFrame(text.value);
      outputStr := outputStr + block;
      texts := texts + [text.value];
      i := i + 1;
    }
    FramesScanDone(frames, arcadePaletteMap, texts, outputStr);
    r := Ok(outputStr + "]");
  }

  /** `convert`, statement by statement. */
  method Convert<F>(input: F, frames: seq<F>, imgWidth: nat, imgHeight: nat, output: OutputOption,
                    width: Option<int>, height: Option<int>, palette: Option<string>, isGif: bool,
                    resize: (F, int, int) -> Result<Image<Color>>, query: FastPalette.NearestQuery)
    returns (r: Result<Output>)
    requires FastPalette.IsNearestQuery(query)
    requires isGif ==> frames != []
    ensures r == Converted(input, frames, imgWidth, imgHeight, output, width, height, palette, isGif, resize, query)
  {
    var size := TargetSize(imgWidth, imgHeight, width, height);
    if size.Err? {
      return Err(size.error);
    }
    var newWidth, newHeight := size.value.0, size.value.1;
    if isGif {
      var outputFrames := ResizeFrames(frames, output, resize, newWidth, newHeight);
      if outputFrames.Err? {
        return Err(outputFrames.error);
      }
      var colors := ParsePalette(palette);
      if colors.Err? {
        return Err(colors.error);
      }
      if output.PilImage? {
        SeqResultOk(GifSources(frames, output), Resizer(resize, newWidth, newHeight));
        var picture := FastPalette.ChangePalette(outputFrames.value[0], colors.value, query);
        if picture.Err? {
          return Err(picture.error);
        }
        return Ok(Picture(picture.value));
      }
      var quantized := QuantizeFrames(outputFrames.value, colors.value, query);
      if quantized.Err? {
        return Err(quantized.error);
      }
      var arcadePaletteMap := BuildPaletteMap(colors.value);
      var text := SerializeFrames(quantized.value, arcadePaletteMap);
      if text.Err? {
        return Err(text.error);
      }
      return Ok(Text(text.value));
    } else {
      var outputImage := resize(input, newWidth, newHeight);
      if outputImage.Err? {
        return Err(outputImage.error);
      }
      var colors := ParsePalette(palette);
      if colors.Err? {
        return Err(colors.error);
      }
      var quantized := FastPalette.ChangePalette(outputImage.value, colors.value, query);
      if quantized.Err? {
        return Err(quantized.error);
      }
      if output.PilImage? {
        return Ok(Picture(quantized.value));
      }
      var arcadePaletteMap := BuildPaletteMap(colors.value);
      var text := ImageToMakeCodeArcade(RgbPixels(quantized.value), arcadePaletteMap, false, None);
      if text.Err? {
        return Err(text.error);
      }
      return Ok(Text(text.value));
    }
  }

  // ---------------------------------------------------------------------------
  // What convert promises

  /** The blocks keep the frames' order: the blocks of two runs of frames
      are those of the first run followed by those of the second. */
  lemma GifBodyAppend(a: seq<string>, b: seq<string>)
    requires forall i :: 0 <= i < |a| ==> a[i] != []
    requires forall i :: 0 <= i < |b| ==> b[i] != []
    ensures forall i :: 0 <= i < |a + b| ==> (a + b)[i] != []
    ensures GifBody(a + b) == GifBody(a) + GifBody(b)
  {
    JoinMapAppend(a, b, FrameBlock);
  }

  /** One frame gives one block. */
  lemma GifBodySingle(text: string)
    requires text != []
    ensures GifBody([text]) == FrameBlock(text)
  {
    JoinMapSnoc([], text, FrameBlock);
    assert [] + [text] == [text];
  }

  /** A GIF's text raises exactly when the text of some frame does. */
  lemma GifTextRaises(frames: seq<Image<Color>>, palette: PaletteMap)
    ensures GifText(frames, palette).Ok? <==> forall i :: 0 <= i < |frames| ==> FrameText(palette)(frames[i]).Ok?
  {
    SeqResultOk(frames, FrameText(palette));
  }

  /** Otherwise it is the list of the frames' texts, in order. */
  lemma GifTexts(frames: seq<Image<Color>>, palette: PaletteMap) returns (texts: seq<string>)
    requires forall i :: 0 <= i < |frames| ==> FrameText(palette)(frames[i]).Ok?
    ensures |texts| == |frames|
    ensures forall i :: 0 <= i < |frames| ==> FrameText(palette)(frames[i]) == Ok(texts[i]) && texts[i] != []
    ensures GifText(frames, palette) == Ok(GifList(texts))
  {
    SeqResultOk(frames, FrameText(palette));
    FrameTextsNonEmpty(frames, palette);
    texts := SeqResult(frames, FrameText(palette)).value;
  }

  /** The token of every pixel of a quantized image: the digit of its colour. */
  function DigitRows(img: Image<Color>, palette: PaletteMap): (rows: seq<seq<string>>)
    requires forall y, x :: 0 <= y < img.height && 0 <= x < img.width ==> img.rows[y][x] in palette
    ensures |rows| == img.height
    ensures forall y :: 0 <= y < img.height ==> |rows[y]| == img.width
    ensures forall y, x :: 0 <= y < img.height && 0 <= x < img.width ==> rows[y][x] == palette[img.rows[y][x]]
  {
    seq(img.height, y requires 0 <= y < img.height =>
      seq(img.width, x requires 0 <= x < img.width => palette[img.rows[y][x]]))
  }

  /** Every pixel of a frame quantized to a palette of byte colours is a key
      of that palette's digit map; the quantizer raises only on an empty palette. */
  lemma QuantizedKeys(image: Image<Color>, colors: seq<Color>, query: FastPalette.NearestQuery)
    requires FastPalette.IsNearestQuery(query) && AllBytes(colors) && colors != []
    ensures FastPalette.ChangePalette(image, colors, query).Ok?
    ensures var out := FastPalette.ChangePalette(image, colors, query).value;
            forall y, x :: 0 <= y < out.height && 0 <= x < out.width ==> out.rows[y][x] in colors && out.rows[y][x] in ArcadePaletteMap(colors)
  {
    FastPalette.ChangePaletteSpec(image, colors, query);
    var out := FastPalette.ChangePalette(image, colors, query).value;
    ArcadePaletteMapSpec(colors);
    forall y, x | 0 <= y < out.height && 0 <= x < out.width ensures out.rows[y][x] in colors {
      FastPalette.ChangePaletteNearest(image, colors, query, y, x);
    }
  }

  /** Serialising a quantized frame never raises KeyError: its text is the
      grid of the digits of its colours, each the hex form of the last index
      of that colour in the palette. */
  lemma QuantizedText(image: Image<Color>, colors: seq<Color>, query: FastPalette.NearestQuery, out: Image<Color>)
    requires FastPalette.IsNearestQuery(query) && AllBytes(colors)
    requires FastPalette.ChangePalette(image, colors, query) == Ok(out)
    ensures forall y, x :: 0 <= y < out.height && 0 <= x < out.width ==> out.rows[y][x] in ArcadePaletteMap(colors)
    ensures FrameText(ArcadePaletteMap(colors))(out) == Ok(MakeCodeText(DigitRows(out, ArcadePaletteMap(colors))))
    ensures forall y, x, i :: 0 <= y < out.height && 0 <= x < out.width && IsLastIndex(colors, out.rows[y][x], i) ==>
              DigitRows(out, ArcadePaletteMap(colors))[y][x] == Hex(i)
  {
    QuantizedKeys(image, colors, query);
    SerializedDigits(out, ArcadePaletteMap(colors));
    ArcadePaletteMapSpec(colors);
  }

  /** The block a quantized frame of at least one column takes in the list of
      a GIF: "    img`", each row of digits indented by eight spaces, then
      "    `" and ",\n". */
  lemma QuantizedFrameBlock(image: Image<Color>, colors: seq<Color>, query: FastPalette.NearestQuery, out: Image<Color>)
    requires FastPalette.IsNearestQuery(query) && AllBytes(colors)
    requires FastPalette.ChangePalette(image, colors, query) == Ok(out) && out.width > 0
    ensures forall y, x :: 0 <= y < out.height && 0 <= x < out.width ==> out.rows[y][x] in ArcadePaletteMap(colors)
    ensures var rows := DigitRows(out, ArcadePaletteMap(colors));
            FrameText(ArcadePaletteMap(colors))(out) == Ok(MakeCodeText(rows)) &&
            FrameBlock(MakeCodeText(rows)) ==
              "    img`\n" +
              IndentedRows(rows) +
              "    `,\n"
  {
    QuantizedKeys(image, colors, query);
    SerializedDigits(out, ArcadePaletteMap(colors));
    DigitRowsBlock(out, colors);
  }

  lemma DigitRowsBlock(img: Image<Color>, colors: seq<Color>)
    requires img.width > 0
    requires forall y, x :: 0 <= y < img.height && 0 <= x < img.width ==> img.rows[y][x] in ArcadePaletteMap(colors)
    ensures var rows := DigitRows(img, ArcadePaletteMap(colors));
            FrameBlock(MakeCodeText(rows)) == "    img`\n" + IndentedRows(rows) + "    `,\n"
  {
    DigitRowsPrintable(img, colors);
    FrameBlockShape(DigitRows(img, ArcadePaletteMap(colors)));
  }

  /** The digit grid of an image of palette colours, at least one column wide,
      fits the block layout. */
  lemma DigitRowsPrintable(img: Image<Color>, colors: seq<Color>)
    requires img.width > 0
    requires forall y, x :: 0 <= y < img.height && 0 <= x < img.width ==> img.rows[y][x] in ArcadePaletteMap(colors)
    ensures PrintableRows(DigitRows(img, ArcadePaletteMap(colors)))
  {
    var rows := DigitRows(img, ArcadePaletteMap(colors));
    forall y | 0 <= y < |rows| ensures |rows[y]| > 0 && |rows[y][0]| > 0 && !IsSpace(rows[y][0][0]) {
      ArcadeTokenPrintable(colors, img.rows[y][0]);
    }
    forall y, x | 0 <= y < |rows| && 0 <= x < |rows[y]| ensures '\n' !in rows[y][x] {
      ArcadeTokenPrintable(colors, img.rows[y][x]);
    }
  }

  /** An RGB image whose every colour has a token serialises to its digit grid. */
  lemma SerializedDigits(img: Image<Color>, palette: PaletteMap)
    requires forall y, x :: 0 <= y < img.height && 0 <= x < img.width ==> img.rows[y][x] in palette
    ensures Serialized(RgbPixels(img), palette, false, None) == Ok(MakeCodeText(DigitRows(img, palette)))
  {
    var px := RgbPixels(img);
    var f := Tokenizer(palette, false, IndexTable(false, None));
    var digits: Image<string> := Grid(img.width, img.height, DigitRows(img, palette));
    forall y, x | 0 <= y < img.height && 0 <= x < img.width
      ensures f(px.rows[y][x]) == Ok(digits.rows[y][x])
    {
      AsColorOfTuple(img.rows[y][x]);
    }
    var tokens := MapImageResult(px, f);
    ImageExt(tokens.value, digits);
  }

  /** A still image converted to text: once the size is computed, the frame
      resized and the palette parsed to byte colours, conversion cannot fail,
      and the text is the digit grid of the quantized frame. */
  lemma ConvertedStillText<F>(input: F, frames: seq<F>, imgWidth: nat, imgHeight: nat,
                              width: Option<int>, height: Option<int>, palette: Option<string>,
                              resize: (F, int, int) -> Result<Image<Color>>, query: FastPalette.NearestQuery,
                              size: (int, int), resized: Image<Color>, colors: seq<Color>, out: Image<Color>)
    requires FastPalette.IsNearestQuery(query)
    requires TargetSize(imgWidth, imgHeight, width, height) == Ok(size)
    requires resize(input, size.0, size.1) == Ok(resized)
    requires ParsePalette(palette) == Ok(colors) && AllBytes(colors)
    requires FastPalette.ChangePalette(resized, colors, query) == Ok(out)
    ensures forall y, x :: 0 <= y < out.height && 0 <= x < out.width ==> out.rows[y][x] in ArcadePaletteMap(colors)
    ensures Converted(input, frames, imgWidth, imgHeight, MakeCodeArcadeString, width, height, palette, false, resize, query) ==
              Ok(Text(MakeCodeText(DigitRows(out, ArcadePaletteMap(colors)))))
  {
    QuantizedText(resized, colors, query, out);
  }

  /** The same, for a frame whose text is known. */
  lemma StillFrameText<F>(input: F, frames: seq<F>, imgWidth: nat, imgHeight: nat,
                          width: Option<int>, height: Option<int>, palette: Option<string>,
                          resize: (F, int, int) -> Result<Image<Color>>, query: FastPalette.NearestQuery,
                          size: (int, int), resized: Image<Color>, colors: seq<Color>, out: Image<Color>, text: string)
    requires FastPalette.IsNearestQuery(query)
    requires TargetSize(imgWidth, imgHeight, width, height) == Ok(size)
    requires resize(input, size.0, size.1) == Ok(resized)
    requires ParsePalette(palette) == Ok(colors) && AllBytes(colors)
    requires FastPalette.ChangePalette(resized, colors, query) == Ok(out)
    requires FrameText(ArcadePaletteMap(colors))(out) == Ok(text)
    ensures Converted(input, frames, imgWidth, imgHeight, MakeCodeArcadeString, width, height, palette, false, resize, query) ==
              Ok(Text(text))
  {
  }

  lemma StillFrameTexts<F>(frames: seq<F>, imgWidth: nat, imgHeight: nat,
                           width: Option<int>, height: Option<int>, palette: Option<string>,
                           resize: (F, int, int) -> Result<Image<Color>>, query: FastPalette.NearestQuery,
                           size: (int, int), colors: seq<Color>, resized: seq<Image<Color>>, quantized: seq<Image<Color>>, texts: seq<string>)
    requires FastPalette.IsNearestQuery(query)
    requires TargetSize(imgWidth, imgHeight, width, height) == Ok(size)
    requires ParsePalette(palette) == Ok(colors) && AllBytes(colors)
    requires |resized| == |quantized| == |texts| == |frames|
    requires forall i :: 0 <= i < |frames| ==>
               resize(frames[i], size.0, size.1) == Ok(resized[i]) &&
               FastPalette.ChangePalette(resized[i], colors, query) == Ok(quantized[i]) &&
               FrameText(ArcadePaletteMap(colors))(quantized[i]) == Ok(texts[i])
    ensures forall i :: 0 <= i < |frames| ==>
              Converted(frames[i], frames, imgWidth, imgHeight, MakeCodeArcadeString, width, height, palette, false, resize, query) ==
                Ok(Text(texts[i]))
  {
    forall i | 0 <= i < |frames|
      ensures Converted(frames[i], frames, imgWidth, imgHeight, MakeCodeArcadeString, width, height, palette, false, resize, query) ==
                Ok(Text(texts[i]))
    {
      StillFrameText(frames[i], frames, imgWidth, imgHeight, width, height, palette, resize, query,
                     size, resized[i], colors, quantized[i], texts[i]);
    }
  }

  /** Parsing never gives an empty palette. */
  lemma ParsedNonEmpty(palette: Option<string>)
    ensures ParsePalette(palette).Ok? ==> |ParsePalette(palette).value| >= 1
  {
    ParsePaletteSpec(palette);
  }

  /** Quantizing frames to a non-empty palette never raises. */
  lemma QuantizedFrames(resized: seq<Image<Color>>, colors: seq<Color>, query: FastPalette.NearestQuery)
    requires FastPalette.IsNearestQuery(query) && colors != []
    ensures SeqResult(resized, Quantizer(colors, query)).Ok?
    ensures var q := SeqResult(resized, Quantizer(colors, query)).value;
            |q| == |resized| &&
            forall i :: 0 <= i < |resized| ==> FastPalette.ChangePalette(resized[i], colors, query) == Ok(q[i])
  {
    var f := Quantizer(colors, query);
    forall i | 0 <= i < |resized| ensures f(resized[i]).Ok? {
      FastPalette.ChangePaletteSpec(resized[i], colors, query);
    }
    SeqResultOk(resized, f);
  }

  /** The preview of a GIF is the preview of its first frame converted alone. */
  lemma ConvertedGifPicture<F>(input: F, frames: seq<F>, imgWidth: nat, imgHeight: nat,
                               width: Option<int>, height: Option<int>, palette: Option<string>,
                               resize: (F, int, int) -> Result<Image<Color>>, query: FastPalette.NearestQuery)
    requires FastPalette.IsNearestQuery(query) && frames != []
    ensures Converted(input, frames, imgWidth, imgHeight, PilImage, width, height, palette, true, resize, query) ==
            Converted(frames[0], frames, imgWidth, imgHeight, PilImage, width, height, palette, false, resize, query)
  {
    var size := TargetSize(imgWidth, imgHeight, width, height);
    if size.Ok? {
      var f := Resizer(resize, size.value.0, size.value.1);
      var first := GifSources(frames, PilImage);
      assert first == [frames[0]];
      SeqResultOk(first, f);
    }
  }

  /** The text of a GIF is the list of the texts its frames give when each
      is converted alone, at the size computed from the image: with every
      frame resized and a palette of byte colours, it cannot fail. */
  lemma ConvertedGifText<F>(input: F, frames: seq<F>, imgWidth: nat, imgHeight: nat,
                            width: Option<int>, height: Option<int>, palette: Option<string>,
                            resize: (F, int, int) -> Result<Image<Color>>, query: FastPalette.NearestQuery,
                            size: (int, int), colors: seq<Color>)
    requires FastPalette.IsNearestQuery(query) && frames != []
    requires TargetSize(imgWidth, imgHeight, width, height) == Ok(size)
    requires forall i :: 0 <= i < |frames| ==> resize(frames[i], size.0, size.1).Ok?
    requires ParsePalette(palette) == Ok(colors) && AllBytes(colors)
    ensures exists texts: seq<string> ::
              |texts| == |frames| &&
              (forall i :: 0 <= i < |frames| ==>
                 texts[i] != [] &&
                 Converted(frames[i], frames, imgWidth, imgHeight, MakeCodeArcadeString, width, height, palette, false, resize, query) ==
                   Ok(Text(texts[i]))) &&
              Converted(input, frames, imgWidth, imgHeight, MakeCodeArcadeString, width, height, palette, true, resize, query) ==
                Ok(Text(GifList(texts)))
  {
    ParsedNonEmpty(palette);
    var resized, quantized, texts := GifFrameTexts(frames, resize, query, size, colors);
    StillFrameTexts(frames, imgWidth, imgHeight, width, height, palette, resize, query, size, colors, resized, quantized, texts);
    GifConvertedSteps(input, frames, imgWidth, imgHeight, width, height, palette, resize, query, size, colors, resized, quantized);
  }

  /** The frames of a GIF resized, quantized and serialised, none raising. */
  lemma GifFrameTexts<F>(frames: seq<F>, resize: (F, int, int) -> Result<Image<Color>>, query: FastPalette.NearestQuery,
                         size: (int, int), colors: seq<Color>)
    returns (resized: seq<Image<Color>>, quantized: seq<Image<Color>>, texts: seq<string>)
    requires FastPalette.IsNearestQuery(query) && colors != [] && AllBytes(colors)
    requires forall i :: 0 <= i < |frames| ==> resize(frames[i], size.0, size.1).Ok?
    ensures SeqResult(GifSources(frames, MakeCodeArcadeString), Resizer(resize, size.0, size.1)) == Ok(resized)
    ensures SeqResult(resized, Quantizer(colors, query)) == Ok(quantized)
    ensures |resized| == |quantized| == |texts| == |frames|
    ensures forall i :: 0 <= i < |frames| ==>
              resize(frames[i], size.0, size.1) == Ok(resized[i]) &&
              FastPalette.ChangePalette(resized[i], colors, query) == Ok(quantized[i]) &&
              texts[i] != [] && FrameText(ArcadePaletteMap(colors))(quantized[i]) == Ok(texts[i])
    ensures GifText(quantized, ArcadePaletteMap(colors)) == Ok(GifList(texts))
  {
    resized := ResizedFrames(frames, resize, size);
    QuantizedFrames(resized, colors, query);
    quantized := SeqResult(resized, Quantizer(colors, query)).value;
    texts := QuantizedFrameTexts(resized, quantized, colors, query);
  }

  lemma QuantizedTextOk(image: Image<Color>, colors: seq<Color>, query: FastPalette.NearestQuery, out: Image<Color>)
    requires FastPalette.IsNearestQuery(query) && AllBytes(colors)
    requires FastPalette.ChangePalette(image, colors, query) == Ok(out)
    ensures FrameText(ArcadePaletteMap(colors))(out).Ok?
  {
    QuantizedText(image, colors, query, out);
  }

  lemma ResizedFrames<F>(frames: seq<F>, resize: (F, int, int) -> Result<Image<Color>>, size: (int, int))
    returns (resized: seq<Image<Color>>)
    requires forall i :: 0 <= i < |frames| ==> resize(frames[i], size.0, size.1).Ok?
    ensures SeqResult(GifSources(frames, MakeCodeArcadeString), Resizer(resize, size.0, size.1)) == Ok(resized)
    ensures |resized| == |frames| && forall i :: 0 <= i < |frames| ==> resize(frames[i], size.0, size.1) == Ok(resized[i])
  {
    var f := Resizer(resize, size.0, size.1);
    SeqResultOk(frames, f);
    resized := SeqResult(frames, f).value;
  }

  lemma QuantizedFrameTexts(resized: seq<Image<Color>>, quantized: seq<Image<Color>>, colors: seq<Color>, query: FastPalette.NearestQuery)
    returns (texts: seq<string>)
    requires FastPalette.IsNearestQuery(query) && AllBytes(colors)
    requires |quantized| == |resized|
    requires forall i :: 0 <= i < |resized| ==> FastPalette.ChangePalette(resized[i], colors, query) == Ok(quantized[i])
    ensures |texts| == |quantized|
    ensures forall i :: 0 <= i < |quantized| ==> texts[i] != [] && FrameText(ArcadePaletteMap(colors))(quantized[i]) == Ok(texts[i])
    ensures GifText(quantized, ArcadePaletteMap(colors)) == Ok(GifList(texts))
  {
    var m := ArcadePaletteMap(colors);
    forall i | 0 <= i < |quantized| ensures FrameText(m)(quantized[i]).Ok? {
      QuantizedTextOk(resized[i], colors, query, quantized[i]);
    }
    texts := GifTexts(quantized, m);
  }

  /** The text of a GIF once its frames are resized and quantized. */
  lemma GifConvertedSteps<F>(input: F, frames: seq<F>, imgWidth: nat, imgHeight: nat,
                             width: Option<int>, height: Option<int>, palette: Option<string>,
                             resize: (F, int, int) -> Result<Image<Color>>, query: FastPalette.NearestQuery,
                             size: (int, int), colors: seq<Color>, resized: seq<Image<Color>>, quantized: seq<Image<Color>>)
    requires FastPalette.IsNearestQuery(query) && frames != []
    requires TargetSize(imgWidth, imgHeight, width, height) == Ok(size)
    requires SeqResult(GifSources(frames, MakeCodeArcadeString), Resizer(resize, size.0, size.1)) == Ok(resized)
    requires ParsePalette(palette) == Ok(colors)
    requires SeqResult(resized, Quantizer(colors, query)) == Ok(quantized)
    requires GifText(quantized, ArcadePaletteMap(colors)).Ok?
    ensures Converted(input, frames, imgWidth, imgHeight, MakeCodeArcadeString, width, height, palette, true, resize, query) ==
              Ok(Text(GifText(quantized, ArcadePaletteMap(colors)).value))
  {
  }
}
