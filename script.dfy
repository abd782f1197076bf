/** main.py: the early script form of the converter. It resizes the input to
    160 pixels wide keeping the aspect ratio, quantizes it with the
    brute-force nested helpers, parses a hard-coded tuple of the sixteen
    Arcade colours, numbers them, and serialises the image. Its nested
    `distance`, `get_closest_color` and `change_palette` are the same code as
    src/utils/palette.py, and its `image_to_makecode_arcade` the same as the
    non-GIF case of src/converter.py, so those are the ones of the Palette
    and Converter modules. */
module Script {
  import opened Common
  import opened Strings
  import Palette
  import FastPalette
  import opened Converter

  /** The fixed target width. */
  const TargetWidth: int := 160

  /** `new_width, new_height = 160, None`, then
      `new_height = round(new_width * height / width)`; a zero width raises. */
  function ScriptSize(width: nat, height: nat): (r: Result<(int, int)>)
    ensures r.Err? <==> width == 0
    ensures r.Err? ==> r.error == ZeroDivision
    ensures r.Ok? ==> r.value.0 == TargetWidth
  {
    if width == 0 then Err(ZeroDivision)
    else Ok((TargetWidth, RoundHalfEven(TargetWidth * height, width)))
  }

  /** The height keeps the aspect ratio to within half a pixel. */
  lemma ScriptSizeRounds(width: nat, height: nat)
    requires width > 0
    ensures ScriptSize(width, height).Ok?
    ensures -(width as int) <= 2 * (TargetWidth * height - ScriptSize(width, height).value.1 * width) <= width
  {
    RoundHalfEvenSpec(TargetWidth * height, width);
  }

  /** The script's size is the one `convert` computes for width 160 and no height. */
  lemma ScriptSizeIsConvertSize(width: nat, height: nat)
    ensures ScriptSize(width, height) == TargetSize(width, height, Some(TargetWidth), None)
  {
  }

  /** Doubling an image gives twice the width's worth of height: a width
      that divides 160 evenly scales the height exactly. */
  lemma ScriptSizeExact(width: nat, height: nat, k: nat)
    requires width > 0 && k * width == TargetWidth
    ensures ScriptSize(width, height) == Ok((TargetWidth, k * height))
  {
    TargetSizeExact(width, height, k);
  }

  /** The hard-coded palette: strip '#', split each token into `n[:2]`,
      `n[2:4]` and `n[4:]`, and read each part as hexadecimal. */
  function ScriptPalette(): Result<seq<Color>> {
    SeqResult(ArcadeTokens, TokenParser())
  }

  /** The hard-coded tuple parses to the sixteen Arcade colours in order. */
  lemma ScriptPaletteColors()
    ensures ScriptPalette() == Ok(ArcadeColors)
    ensures |ArcadeColors| == 16
  {
    forall i | 0 <= i < |ArcadeTokens| ensures ParseToken(ArcadeTokens[i]) == Ok(ArcadeColors[i]) {
      ArcadeTokenColor(i);
    }
    ParseTokensOk(ArcadeTokens, ArcadeColors);
  }

  /** The text the script writes: the size, the resize, the palette, the
      brute-force quantizer, the colour -> digit map and the serialiser, in
      the order the script runs them. */
  function ScriptOutput<F>(input: F, width: nat, height: nat, resize: (F, int, int) -> Result<Image<Color>>): Result<string> {
    ScriptRun(input, width, height, resize, ScriptPalette())
  }

  /** The script once the hard-coded tuple has been parsed to `parsed`: the
      parse needs no input, so only its outcome matters, and it is consulted
      after the resize as in the script. */
  function ScriptRun<F>(input: F, width: nat, height: nat, resize: (F, int, int) -> Result<Image<Color>>,
                        parsed: Result<seq<Color>>): Result<string> {
    var size :- ScriptSize(width, height);
    var resized :- resize(input, size.0, size.1);
    var colors :- parsed;
    var quantized :- Palette.Quantized(resized, colors);
    Serialized(RgbPixels(quantized), ArcadePaletteMap(colors), false, None)
  }

  /** The script runs with the sixteen Arcade colours. */
  lemma ScriptOutputRuns<F>(input: F, width: nat, height: nat, resize: (F, int, int) -> Result<Image<Color>>)
    ensures ScriptOutput(input, width, height, resize) == ScriptRun(input, width, height, resize, Ok(ArcadeColors))
  {
    ScriptPaletteColors();
  }

  /** The script from the size computation to the text handed to `write_text`. */
  method RunScript<F>(input: F, width: nat, height: nat, resize: (F, int, int) -> Result<Image<Color>>)
    returns (r: Result<string>)
    ensures r == ScriptOutput(input, width, height, resize)
  {
    var size := ScriptSize(width, height);
    if size.Err? {
      return Err(size.error);
    }
    var newWidth, newHeight := size.value.0, size.value.1;
    var outputImage := resize(input, newWidth, newHeight);
    if outputImage.Err? {
      return Err(outputImage.error);
    }
    var arcadePalette := ScriptPalette();
    if arcadePalette.Err? {
      return Err(arcadePalette.error);
    }
    var quantized := Palette.ChangePalette(outputImage.value, arcadePalette.value);
    if quantized.Err? {
      return Err(quantized.error);
    }
    var arcadePaletteMap := BuildPaletteMap(arcadePalette.value);
    r := ImageToMakeCodeArcade(RgbPixels(quantized.value), arcadePaletteMap, false, None);
  }

  /** Every pixel the brute-force quantizer writes with a palette of byte
      colours is its closest palette colour and a key of the digit map. */
  lemma QuantizedKeysOfMap(image: Image<Color>, colors: seq<Color>, out: Image<Color>)
    requires AllBytes(colors)
    requires Palette.Quantized(image, colors) == Ok(out)
    ensures out.width == image.width && out.height == image.height
    ensures forall y, x :: 0 <= y < out.height && 0 <= x < out.width ==>
              Palette.GetClosestColor(image.rows[y][x], colors) == Ok(out.rows[y][x]) &&
              out.rows[y][x] in ArcadePaletteMap(colors)
  {
    assert out.width == image.width && out.height == image.height by {
      Palette.QuantizedSpec(image, colors);
    }
    forall y, x | 0 <= y < out.height && 0 <= x < out.width
      ensures Palette.GetClosestColor(image.rows[y][x], colors) == Ok(out.rows[y][x])
      ensures out.rows[y][x] in ArcadePaletteMap(colors)
    {
      Palette.QuantizedMembers(image, colors, y, x);
      ArcadePaletteMapSpec(colors);
    }
  }

  /** Once the image is resized the script cannot fail: the text is the grid
      of the digits of the closest Arcade colour to every pixel. */
  lemma ScriptText<F>(input: F, width: nat, height: nat, resize: (F, int, int) -> Result<Image<Color>>,
                      resized: Image<Color>, out: Image<Color>)
    requires width > 0
    requires resize(input, TargetWidth, RoundHalfEven(TargetWidth * height, width)) == Ok(resized)
    requires Palette.Quantized(resized, ArcadeColors) == Ok(out)
    ensures forall y, x :: 0 <= y < out.height && 0 <= x < out.width ==> out.rows[y][x] in ArcadePaletteMap(ArcadeColors)
    ensures ScriptOutput(input, width, height, resize) == Ok(MakeCodeText(DigitRows(out, ArcadePaletteMap(ArcadeColors))))
  {
    ScriptOutputRuns(input, width, height, resize);
    ArcadeColorsBytes();
    ScriptRunText(input, width, height, resize, resized, ArcadeColors, out);
  }

  /** The same, once the palette is parsed to byte colours. */
  lemma ScriptRunText<F>(input: F, width: nat, height: nat, resize: (F, int, int) -> Result<Image<Color>>,
                         resized: Image<Color>, colors: seq<Color>, out: Image<Color>)
    requires width > 0 && AllBytes(colors)
    requires resize(input, TargetWidth, RoundHalfEven(TargetWidth * height, width)) == Ok(resized)
    requires Palette.Quantized(resized, colors) == Ok(out)
    ensures forall y, x :: 0 <= y < out.height && 0 <= x < out.width ==> out.rows[y][x] in ArcadePaletteMap(colors)
    ensures ScriptRun(input, width, height, resize, Ok(colors)) == Ok(MakeCodeText(DigitRows(out, ArcadePaletteMap(colors))))
  {
    QuantizedKeysOfMap(resized, colors, out);
    SerializedDigits(out, ArcadePaletteMap(colors));
    ScriptRunSerialized(input, width, height, resize, resized, colors, out);
  }

  /** After a successful resize and quantization the script returns what the
      serialiser returns for the quantized image. */
  lemma ScriptRunSerialized<F>(input: F, width: nat, height: nat, resize: (F, int, int) -> Result<Image<Color>>,
                               resized: Image<Color>, colors: seq<Color>, out: Image<Color>)
    requires width > 0
    requires resize(input, TargetWidth, RoundHalfEven(TargetWidth * height, width)) == Ok(resized)
    requires Palette.Quantized(resized, colors) == Ok(out)
    ensures ScriptRun(input, width, height, resize, Ok(colors)) == Serialized(RgbPixels(out), ArcadePaletteMap(colors), false, None)
  {
    assert ScriptSize(width, height) == Ok((TargetWidth, RoundHalfEven(TargetWidth * height, width)));
  }

  /** The script's map writes black as "f": the second black entry, index
      15, overwrites the first. */
  lemma ScriptBlackIsF(palette: seq<Color>)
    requires ScriptPalette() == Ok(palette)
    ensures RGB(0, 0, 0) in ArcadePaletteMap(palette) && ArcadePaletteMap(palette)[RGB(0, 0, 0)] == "f"
  {
    assert palette == ArcadeColors by {
      ScriptPaletteColors();
    }
    DefaultBlackIsF(palette);
  }

  /** The script's map writes white as "1". */
  lemma ScriptWhiteIsOne(palette: seq<Color>)
    requires ScriptPalette() == Ok(palette)
    ensures RGB(255, 255, 255) in ArcadePaletteMap(palette) && ArcadePaletteMap(palette)[RGB(255, 255, 255)] == "1"
  {
    assert palette == ArcadeColors by {
      ScriptPaletteColors();
    }
    DefaultWhiteIsOne(palette);
  }

  /** A pixel whose colour is in the palette keeps it, and so is written
      with that colour's digit. */
  lemma KeptToken(image: Image<Color>, palette: seq<Color>, out: Image<Color>, y: nat, x: nat, k: nat, token: string)
    requires Palette.Quantized(image, palette) == Ok(out)
    requires y < image.height && x < image.width && k < |palette| && palette[k] == image.rows[y][x]
    requires IsByteColor(image.rows[y][x])
    requires image.rows[y][x] in ArcadePaletteMap(palette) && ArcadePaletteMap(palette)[image.rows[y][x]] == token
    ensures out.rows[y][x] in ArcadePaletteMap(palette) && ArcadePaletteMap(palette)[out.rows[y][x]] == token
  {
    MemberPixelKept(image, palette, out, y, x);
  }

  /** A pixel that already has a palette colour keeps it. Its channels are
      bytes, as those of every pixel of a resized RGB image are. */
  lemma MemberPixelKept(image: Image<Color>, palette: seq<Color>, out: Image<Color>, y: nat, x: nat)
    requires Palette.Quantized(image, palette) == Ok(out)
    requires y < image.height && x < image.width && image.rows[y][x] in palette
    requires IsByteColor(image.rows[y][x])
    ensures out.rows[y][x] == image.rows[y][x]
  {
    Palette.QuantizedSpec(image, palette);
    Palette.ClosestOfMember(image.rows[y][x], palette);
  }

  /** The sixteen Arcade colours have byte channels. */
  lemma ArcadeColorsBytes()
    ensures AllBytes(ArcadeColors)
  {
    forall i | 0 <= i < |ArcadeColors| ensures IsByteColor(ArcadeColors[i]) {
      ArcadeColorBytes(i);
    }
  }

  /** With unique closest colours the KD-tree quantizer of `convert` writes
      the image the script's brute-force quantizer writes. */
  lemma FastIsBruteForce(resized: Image<Color>, query: FastPalette.NearestQuery)
    requires FastPalette.IsNearestQuery(query)
    requires forall y, x :: 0 <= y < resized.height && 0 <= x < resized.width ==>
               FastPalette.UniqueNearest(resized.rows[y][x], ArcadeColors)
    ensures FastPalette.ChangePalette(resized, ArcadeColors, query).Ok?
    ensures FastPalette.ChangePalette(resized, ArcadeColors, query) == Palette.Quantized(resized, ArcadeColors)
  {
    ArcadeColorsBytes();
    FastPalette.ChangePaletteSpec(resized, ArcadeColors, query);
    FastPalette.AgreesWithBruteForce(resized, ArcadeColors, query);
  }

  /** For width 160, no height and no palette, `convert` computes the
      script's size and parses the sixteen Arcade colours. */
  lemma ConvertDefaults(width: nat, height: nat)
    requires width > 0
    ensures TargetSize(width, height, Some(TargetWidth), None) == Ok((TargetWidth, RoundHalfEven(TargetWidth * height, width)))
    ensures ParsePalette(None) == Ok(ArcadeColors) && AllBytes(ArcadeColors)
  {
    ArcadeColorsBytes();
    DefaultPaletteColors();
  }

  /** When every pixel of the resized image has a unique closest Arcade
      colour, the script writes the text `convert` returns for width 160,
      no height and the default palette. */
  lemma ScriptAgreesWithConvert<F>(input: F, frames: seq<F>, width: nat, height: nat,
                                   resize: (F, int, int) -> Result<Image<Color>>, query: FastPalette.NearestQuery,
                                   resized: Image<Color>)
    requires FastPalette.IsNearestQuery(query) && width > 0
    requires resize(input, TargetWidth, RoundHalfEven(TargetWidth * height, width)) == Ok(resized)
    requires forall y, x :: 0 <= y < resized.height && 0 <= x < resized.width ==>
               FastPalette.UniqueNearest(resized.rows[y][x], ArcadeColors)
    ensures ScriptOutput(input, width, height, resize).Ok?
    ensures Converted(input, frames, width, height, MakeCodeArcadeString, Some(TargetWidth), None, None, false, resize, query) ==
              Ok(Text(ScriptOutput(input, width, height, resize).value))
  {
    ConvertDefaults(width, height);
    FastIsBruteForce(resized, query);
    var out := FastPalette.ChangePalette(resized, ArcadeColors, query).value;
    ConvertedStillText(input, frames, width, height, Some(TargetWidth), None, None, resize, query,
                       (TargetWidth, RoundHalfEven(TargetWidth * height, width)), resized, ArcadeColors, out);
    ScriptText(input, width, height, resize, resized, out);
  }
}
