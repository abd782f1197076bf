# Image to MakeCode Arcade — a Dafny model

Image-to-MakeCode-Arcade turns a picture, or every frame of a GIF, into the
text of a MakeCode Arcade image literal:

```
img`
0f1
...
`
```

The converter runs in these steps:

1. It computes a target size, keeping the aspect ratio when only one side is
   given.
2. It resizes the image.
3. It parses a comma-separated list of `#rrggbb` colours. The default is the
   16-colour Arcade palette.
4. It replaces every pixel with its nearest palette colour. This is done
   either by brute force (`sorted(...)[0]`) or with a KD-tree over the
   palette.
5. It writes each pixel as the hexadecimal digit of its colour's position in
   the palette.

For a GIF, every frame becomes one indented block of a TypeScript list.
`main.py` is the early script form of the same converter. It always targets a
width of 160 and always uses the Arcade palette.

The model is written on values. An image is an `Image<T>`: a grid of `height`
rows, each holding `width` pixels. The source's exceptions become `Result`
values:

- `KeyError` for a colour missing from the digit map.
- `ValueError` for a bad hexadecimal token.
- `IndexError` for an empty palette.
- `ZeroDivisionError` for a zero-sized input.

Every per-pixel loop fails with the exception of the first failing pixel in
row-major order, because that is the pixel at which Python raises.

The modules are:

- `Common` (common.dfy): colours, pixels, images, errors, and `putpixel`.
  - Row-major maps that can fail (`MapImageResult`).
  - Last-write-wins dictionaries (`LastWins`).
  - The loop invariants shared by the nested pixel loops.
- `Strings` (strings.dfy): Python's `str.replace`, `split`/`join`,
  `splitlines(keepends=True)`, `textwrap.indent`, `int(s, 16)` and `hex`.
- `Palette` (palette.dfy): `src/utils/palette.py`, the brute-force
  quantizer, together with `distance` and `get_closest_color`.
- `FastPalette` (fast_palette.dfy): `src/utils/fast_palette.py`, the KD-tree
  quantizer working on NumPy arrays.
- `Converter` (converter.dfy): `src/converter.py`. It contains the
  serialiser, the palette parser, the colour -> digit map, the target size,
  `convert` and the GIF list.
- `Script` (script.dfy): `main.py`.

The source's loops are methods: `ChangePalette`, `ChangePaletteInGif`,
`ImageToMakeCodeArcade`, `BuildPaletteMap`, `ResizeFrames`, `QuantizeFrames`,
`SerializeFrames`, `Convert` and `RunScript`. Each method is proved equal to a
function, and the lemmas state the source's promises about that function.

## Model

| member | source | states |
|---|---|---|
| Palette.SquaredDistance | src/utils/palette.py:7-18 | The squared distance is never negative and is zero exactly when the two colours are equal. |
| Palette.DistanceSymmetric | src/utils/palette.py:16-18 | `distance(c1, c2) == distance(c2, c1)`. |
| Palette.ClosestAmongFirst | src/utils/palette.py:27-31 | Among the first n entries, the scan ends at the first one at minimal distance. |
| Palette.ClosestIndexFirst | src/utils/palette.py:21-31 | The index is the first entry at minimal distance, which is what a stable sort by distance puts first. |
| Palette.GetClosestColor | src/utils/palette.py:21-31 | Raises `IndexError` exactly when the palette is empty (`[0]` of an empty list). |
| Palette.ClosestColorNearest | src/utils/palette.py:21-31 | On a non-empty palette the result is a palette colour at minimal distance, namely the first such entry. |
| Palette.FirstNearestUnique | src/utils/palette.py:31 | At most one index is the first nearest, so the result is determined. |
| Palette.ClosestOfMember | src/utils/palette.py:21-31 | A colour already in the palette is its own closest colour. |
| Palette.ClosestTieBreak | src/utils/palette.py:31 | Any entry at least as close as the result is exactly as close and comes no earlier: ties go to the earliest entry. |
| Common.Clip8 | src/utils/palette.py:51 | `putpixel` stores channels clamped to [0, 255]; a byte colour is stored unchanged. |
| Palette.QuantizedSpec | src/utils/palette.py:34-53 | The quantized image keeps the size, and each pixel is the closest colour to the input pixel at the same place, clamped to bytes as `putpixel` stores it. It fails exactly when the palette is empty and the image has a pixel. |
| Palette.QuantizedMembers | src/utils/palette.py:47-51 | For a palette of byte colours, every output pixel is its input pixel's closest colour: a palette colour at minimal distance. |
| Palette.QuantizedIdempotent | src/utils/palette.py:34-53 | For a palette of byte colours, quantizing an already quantized image changes nothing. |
| Palette.QuantizeStep | src/utils/palette.py:47-51 | One pass of the inner loop either raises the error of the whole image (empty palette) or writes the pixel's clamped closest colour and extends the scan by one pixel. |
| Palette.ChangePalette | src/utils/palette.py:34-53 | The nested `putpixel` loop returns exactly the quantized image, or the first pixel's error. |
| Palette.ResolvePixel | src/utils/palette.py:75-81 | An index is looked up in `index_to_color`; a missing one raises `KeyError`. A tuple longer than 3 loses its last channel; other tuples are kept. |
| Palette.TupleQuantizer | src/utils/palette.py:16-31 | An empty palette raises. A tuple that is not three channels fails to unpack. A triple gets its closest colour, clamped as `putpixel` stores it. |
| Palette.QuantizeGifPixel | src/utils/palette.py:73-83 | A GIF pixel is resolved first, then quantized; a resolution error propagates. |
| Common.IndexToColor | src/utils/palette.py:71 | The inverted table has as keys exactly the indices of the colour table. Each index maps to the colour of its last occurrence. |
| Common.IndexToColorKeys | src/converter.py:40 | The dictionary comprehension's keys are exactly the indices it reads. |
| Palette.GifIndexLikeDirect | src/utils/palette.py:75-82 | An index pixel quantizes like the colour its table entry names. |
| Palette.GifMissingIndex | src/utils/palette.py:76-77 | An index absent from the colour table raises `KeyError` for that index. |
| Palette.GifAlphaDropped | src/utils/palette.py:78-79 | An RGBA pixel quantizes like its RGB part. |
| Palette.GifOnRgbIsPlain | src/utils/palette.py:56-85 | After `convert("RGB")` every pixel is a triple, so the GIF variant equals `change_palette`. |
| Palette.QuantizeGifStep | src/utils/palette.py:73-83 | One pass of the GIF loop body either raises the error of the whole image or writes the pixel's colour and extends the scan by one pixel. |
| Palette.ChangePaletteInGif | src/utils/palette.py:56-85 | The nested loop returns exactly the GIF quantization, or the first pixel's error. |
| Common.PutPixel | src/utils/palette.py:51 | `putpixel` changes pixel (x, y) and no other, and keeps the size. |
| Common.MapImageResult | src/utils/palette.py:47-53 | The per-pixel loop succeeds iff every pixel succeeds, and then pixel (x, y) is the result for input pixel (x, y). |
| Common.LastWinsKeys | src/converter.py:145-147 | A dictionary filled in order has as keys exactly the keys written. |
| Common.LastWinsAt | src/converter.py:145-147 | A key holds the value of its last write. |
| FastPalette.FirstNearestIsQuery | src/utils/fast_palette.py:27-31 | The brute-force first-nearest scan is one admissible nearest-neighbour query. |
| FastPalette.Reshape | src/utils/fast_palette.py:35 | `reshape(h, w, 3)` gives h rows of w pixels. |
| FastPalette.ReshapeFlatten | src/utils/fast_palette.py:24-35 | Flattening and then reshaping returns the original rows. |
| FastPalette.FlattenReshape | src/utils/fast_palette.py:24-35 | Reshaping and then flattening returns the original flat array. |
| FastPalette.ReshapePointwise | src/utils/fast_palette.py:31-35 | A relation that holds entry by entry between two flat arrays holds pixel by pixel between their reshapes. |
| FastPalette.ToUint8 | src/utils/fast_palette.py:38 | `astype('uint8')` gives channels in [0, 255], congruent modulo 256 to the input. |
| FastPalette.ToUint8OfByte | src/utils/fast_palette.py:38 | Byte channels pass through `astype('uint8')` unchanged. |
| FastPalette.GatherNearest | src/utils/fast_palette.py:27-32 | Each entry of `palette_array[indices]` is a palette colour at minimal distance from its pixel. |
| FastPalette.ChangePaletteSpec | src/utils/fast_palette.py:8-40 | Fails exactly when the palette is empty. Otherwise the size is kept, and pixel (x, y) is the queried palette colour of input pixel (x, y), cast to uint8. |
| FastPalette.ChangePaletteNearest | src/utils/fast_palette.py:8-40 | For a palette of byte colours, every output pixel is a palette colour at minimal distance from its input pixel. |
| FastPalette.AgreesAt | src/utils/fast_palette.py:27-38 | At a pixel with a unique nearest colour, the KD-tree quantizer and the brute-force one write the same colour. |
| FastPalette.AgreesWithBruteForce | src/utils/fast_palette.py:8-40 | When every pixel has a unique nearest colour, the KD-tree quantizer and the brute-force one give the same image. |
| FastPalette.TiesKeepDistance | src/utils/fast_palette.py:27-32 | Whatever a tie picks, the KD-tree result is as close to the input pixel as the brute-force result. |
| FastPalette.ChangePaletteByQueryDistance | src/utils/fast_palette.py:27-32 | Any two admissible nearest queries give every pixel equally distant colours. |
| FastPalette.FlatPixelColor | src/utils/fast_palette.py:70-72 | An index is looked up (a missing one raises `KeyError`). A tuple keeps at most its first three channels. |
| FastPalette.AsColorRows | src/utils/fast_palette.py:70-75 | The query accepts a non-empty array whose rows are all triples; anything else raises `ValueError`. |
| FastPalette.GifFlatResolves | src/utils/fast_palette.py:67-75 | The first index missing from the colour table makes the GIF variant raise `KeyError` for that index. |
| FastPalette.RgbEntriesResolve | src/utils/fast_palette.py:53-72 | RGB triples resolve to themselves; an empty image raises `ValueError`. |
| FastPalette.GifOnRgbIsPlain | src/utils/fast_palette.py:43-84 | On an RGB image the GIF variant equals `change_palette`, except that an empty image raises `ValueError` when the palette is non-empty. |
| Converter.Lookup | src/converter.py:52-53 | `palette[color]` succeeds exactly when the pixel is a triple whose colour is a key. It then gives that key's digit; otherwise it raises `KeyError` for the pixel. |
| Converter.GifColor | src/converter.py:44-50 | An index pixel is resolved through `index_to_color`. An unbound table or a missing index raises. A tuple longer than 3 loses its last channel. |
| Converter.IndexTable | src/converter.py:39-40 | `index_to_color` exists exactly for a GIF whose image has a palette. |
| Converter.ImageToMakeCodeArcade | src/converter.py:23-57 | The nested loop returns exactly the serialised text, or the error of the first pixel without a digit. |
| Converter.SerializedSpec | src/converter.py:23-57 | Serialisation succeeds iff every pixel has a digit. The text is then "img`\n", a line of digits per row, and "`". |
| Converter.SerializedFirstMissing | src/converter.py:42-53 | The first pixel in row-major order without a digit decides the `KeyError`. |
| Converter.SerializedNonEmpty | src/converter.py:37-57 | The serialised text is never empty. |
| Converter.MakeCodeTextMarkers | src/converter.py:37-56 | The text starts with "img`\n" and ends with "`". |
| Converter.MakeCodeTextLines | src/converter.py:154-155 | `splitlines(keepends=True)` of the text gives the opening line, one line per row, and the closing "`". |
| Converter.FrameBlockOfLines | src/converter.py:154-159 | A frame block is the first line indented by four spaces, the middle lines by eight, the last line by four, then ",\n". |
| Converter.IndentRowLines | src/converter.py:157 | `indent` of the joined row lines puts eight spaces before every row. |
| Converter.FrameBlockShape | src/converter.py:154-159 | The block of a frame is "    img`\n", then each row indented by eight spaces, then "    `,\n". |
| Converter.IndentFrame | src/converter.py:154-159 | The statements building one frame's block compute exactly that block. |
| Converter.Slice | src/converter.py:120 | `n[i:j]` clips both ends to the length and is empty when they cross. |
| Converter.ParseWellFormedToken | src/converter.py:116-124 | A token of six hex digits (with any number of '#') parses to its three byte channels. |
| Converter.ShortTokenRaises | src/converter.py:120-124 | A token of at most four digits leaves `n[4:]` empty, and `int('', 16)` raises `ValueError`. |
| Converter.ParseFormatToken | src/converter.py:116-124 | Formatting a byte colour as `#rrggbb` and parsing it gives the colour back. |
| Converter.ParsePaletteSpec | src/converter.py:114-124 | The palette parses iff every comma-separated token does. Colour i is then token i's colour, and there is at least one. |
| Converter.ParseTokensSpec | src/converter.py:118-124 | The per-token list comprehension succeeds iff every token parses, and keeps their order. |
| Converter.ParseJoined | src/converter.py:114-124 | Joining comma-free tokens with ',' and parsing gives the tokens' colours back. |
| Converter.ParsePaletteRoundTrip | src/converter.py:114-124 | For any non-empty list of byte colours, parsing their `#rrggbb` list gives the colours back. |
| Converter.ArcadeTokenColor | src/converter.py:115 | Each default token has no comma and parses to its Arcade colour. |
| Converter.DefaultPaletteColors | src/converter.py:114-124 | The default palette string parses to the 16 Arcade colours, in order. |
| Converter.ParsedNonEmpty | src/converter.py:116 | `split(",")` never gives an empty list, so a parsed palette is non-empty. |
| Strings.RemoveAll | src/converter.py:118 | `s.replace("#", "")` leaves no '#' and keeps a string without one unchanged. |
| Strings.RemoveAllAppend | src/converter.py:118 | Removal distributes over concatenation, so the kept characters keep their order. |
| Strings.RemoveAllCounts | src/converter.py:118 | Every occurrence of '#' goes, and every other character is kept as many times as it occurs. |
| Strings.Split | src/converter.py:116 | `split(",")` gives at least one piece, and no piece holds a comma. |
| Strings.SplitJoin | src/converter.py:116 | Joining the pieces of `split(",")` with commas gives the string back. |
| Strings.JoinSplit | src/converter.py:116 | Splitting comma-free pieces joined with commas gives the pieces back. |
| Strings.SplitLinesConcat | src/converter.py:155 | `splitlines(keepends=True)` loses nothing: its lines concatenate to the text. |
| Strings.SplitLinesOfLines | src/converter.py:155 | Text made of complete lines splits into exactly those lines. |
| Strings.IndentLine | src/converter.py:156-158 | `indent` prefixes a line unless it is whitespace only. |
| Strings.IndentLines | src/converter.py:157 | Indenting joined lines indents each line on its own. |
| Strings.Hex | src/converter.py:147 | `hex(i)[2:]` is a non-empty string of lower-case hex digits without a leading zero, and has no space, newline or backtick. |
| Strings.HexRoundTrip | src/converter.py:147 | Reading `hex(i)[2:]` as hexadecimal gives i back. |
| Strings.HexInjective | src/converter.py:147 | Different indices get different digit strings. |
| Strings.HexLength | src/converter.py:147 | An index has one digit exactly when it is below 16, and two from 16 to 255. |
| Converter.BuildPaletteMap | src/converter.py:144-147 | The `enumerate` loop builds exactly the last-write-wins map of those pairs. |
| Converter.LastIndexExists | src/converter.py:145-147 | Every palette colour has a last index. |
| Converter.ArcadePaletteMapSpec | src/converter.py:144-147 | The keys are exactly the palette colours, and each maps to the hex digits of its LAST index. |
| Converter.LastIndexToken | src/converter.py:145-147 | A colour's last index gives its digit. |
| Converter.ArcadeTokensDistinct | src/converter.py:145-147 | Distinct keys have distinct digits, so the text determines the quantized image. |
| Converter.ArcadeTokenPrintable | src/converter.py:147 | Every digit string is non-empty lower-case hex without a leading zero or a newline, and a single character for palettes of at most 16 colours. |
| Converter.DefaultBlackIsF | src/converter.py:114-147 | With the default palette, black, listed at 0 and again at 15, is written "f". |
| Converter.DefaultWhiteIsOne | src/converter.py:114-147 | With the default palette, white is written "1". |
| Converter.RoundHalfEvenSpec | src/converter.py:91-93 | `round(n / d)` is within half of n / d, and an exact half rounds to the even neighbour. |
| Converter.RoundHalfEvenUnique | src/converter.py:91-93 | Those two properties determine the rounding. |
| Converter.TargetSizeSpec | src/converter.py:83-94 | Covers the four cases of given and missing sides. A computed side keeps the aspect ratio to within half a pixel, and a zero divisor raises `ZeroDivisionError`. |
| Converter.TargetSizeExact | src/converter.py:90-91 | Scaling the width by an integer factor scales the height by the same factor. |
| Converter.GifSources | src/converter.py:97-108 | Every frame is resized for text; only the first is resized for a picture (the loop breaks). |
| Converter.ResizeFrames | src/converter.py:97-108 | The resize loop returns the resized frames, or the first error. |
| Converter.QuantizeFrames | src/converter.py:132-136 | The loop replacing `output_frames[i]` returns every quantized frame, or the first error. |
| Converter.SerializeFrames | src/converter.py:150-162 | The frame loop returns exactly "[\n", every frame's block in order, and "]", or the first frame's error. |
| Converter.GifBodyStep | src/converter.py:153-160 | Appending one frame's block extends the list body by that frame. |
| Converter.GifBodyAppend | src/converter.py:152-161 | The body of two runs of frames is the body of the first followed by that of the second. |
| Converter.GifBodySingle | src/converter.py:153-160 | A single frame gives exactly its block. |
| Converter.GifTextRaises | src/converter.py:150-162 | The GIF text is produced iff every frame serialises. |
| Converter.GifTexts | src/converter.py:150-162 | The GIF text is the list of the frames' own serialisations, in order, and none is empty. |
| Converter.QuantizedKeys | src/converter.py:135-147 | Every quantized pixel is a palette colour, hence a key of the digit map: no `KeyError`. |
| Converter.QuantizedText | src/converter.py:139-165 | A quantized image always serialises. Its digits are those of each pixel's colour's last index. |
| Converter.QuantizedFrameBlock | src/converter.py:150-160 | A quantized frame serialises, and its GIF block is "    img`\n", the rows indented by eight spaces, and "    `,\n". |
| Converter.SerializedDigits | src/converter.py:23-57 | An RGB image all of whose colours are keys serialises to the text of its digit grid. |
| Converter.Convert | src/converter.py:60-165 | `convert`, statement by statement, returns exactly `Converted`: the target size, the resize, the palette parse, the quantization, then the picture or the text, with the first error raised. |
| Converter.ConvertedStillText | src/converter.py:60-165 | A still image whose palette parses yields the digit text of its quantized image. |
| Converter.StillFrameTexts | src/converter.py:127-162 | Each frame converted on its own gives its own text. |
| Converter.ConvertedGifPicture | src/converter.py:97-131 | A GIF preview is the preview of its first frame. |
| Converter.ConvertedGifText | src/converter.py:127-162 | A GIF whose frames resize and whose palette parses yields the list of the texts each frame gives on its own. |
| Converter.GifFrameTexts | src/converter.py:127-162 | The resize, quantize and serialise loops over frames succeed together. Their list is the frames' texts. |
| Converter.QuantizedFrames | src/converter.py:132-136 | With a non-empty palette every frame quantizes. |
| Script.ScriptSize | main.py:30-37 | The width is 160; a zero width raises `ZeroDivisionError`. |
| Script.ScriptSizeRounds | main.py:33-35 | The height keeps the aspect ratio to within half a pixel. |
| Script.ScriptSizeIsConvertSize | main.py:30-37 | The script's size is the size `convert` computes for width 160. |
| Script.ScriptSizeExact | main.py:30-37 | An input width dividing 160 scales the height exactly. |
| Script.ScriptPaletteColors | main.py:94-119 | The hard-coded tuple parses to the 16 Arcade colours. |
| Script.RunScript | main.py:30-159 | The script, from sizing to `write_text`, produces exactly `ScriptOutput`: the size, the resize, the parsed palette, the brute-force quantization and the serialised text, or the first error. |
| Script.QuantizedKeysOfMap | main.py:71-91 | Every pixel after the nested `change_palette` is its closest Arcade colour and a key of the digit map. |
| Script.ScriptText | main.py:122-159 | Once resized, the script cannot fail. It writes the digit grid of the quantized image. |
| Script.ScriptRunText | main.py:122-159 | With any parsed palette of byte colours in place of the hard-coded one, the resized script cannot fail and writes the digit grid of the quantized image. |
| Script.ScriptBlackIsF | main.py:153-156 | The script writes black as "f". |
| Script.ScriptWhiteIsOne | main.py:153-156 | The script writes white as "1". |
| Script.MemberPixelKept | main.py:83-89 | A byte pixel already in the palette keeps its colour. |
| Script.KeptToken | main.py:83-89 | Such a pixel is written with its own colour's digit. |
| Script.FastIsBruteForce | main.py:71-91 | With unique nearest Arcade colours, the KD-tree quantizer of `convert` and the script's brute-force one give the same image. |
| Script.ScriptAgreesWithConvert | main.py:30-159 | When every resized pixel has a unique nearest Arcade colour, the script writes what `convert` returns for width 160 and the default palette. |

## Left out

- Pillow is not part of this model: opening, resizing (`resize` with LANCZOS
  or ANTIALIAS), `convert("RGB")`, `Image.fromarray`, `copy` and the GIF frame
  iterator. Resizing is a function parameter that may fail. Frames are a
  sequence given to `convert`.
- `putpixel` raises `OverflowError` for a channel beyond a C `int`; the model
  only clamps (`Common.Clip8`) and does not raise.
- `distance` uses `sqrt` over floats. The model compares squared integer
  distances. For byte colours (squared distances at most 195075) the float
  square roots order colours the same way. For channels far beyond a byte,
  float rounding can tie two distances that differ; the model does not
  capture that.
- The KD-tree (`scipy.spatial.KDTree`) is a nearest-neighbour query
  parameter. Its internal structure is not modelled. When two palette colours
  are equally near, the choice is left open. The lemmas that compare the two
  quantizers require unique nearest colours, or compare distances only.
- `round(new_width * img_height / img_width)` divides in floating point
  before rounding. The model rounds the exact quotient half to even. For
  very large sizes the float quotient can differ.
- `int(s, 16)` is modelled on digits only. Python also accepts surrounding
  whitespace, a leading `+` or `-` (so `#-1ffff` gives a red channel of -1),
  underscores between digits, and a `0x` prefix; the model rejects those
  tokens.
- `splitlines(keepends=True)` is modelled as breaking at '\n' only. Python
  also breaks at '\r', '\v', '\f' and other separators. The texts it splits
  here hold only "img`", '`', newlines and lower-case hex digits
  (`Strings.Hex`), so the two agree on them.
- Logging, `tqdm` progress bars, `print`, argument parsing and file I/O in
  `main.py` are not modelled. `src/main.py` and `src/utils/logger.py` are not
  part of this model.
- Script.RunScript: `main.py`'s `change_palette` does not convert to RGB
  first. The model takes the resized image as an RGB image, so it does not
  cover an indexed or RGBA input, where unpacking in `distance` would raise.
- The GIF quantizers' index and RGBA branches are modelled.
  `Palette.GifOnRgbIsPlain` and `FastPalette.GifOnRgbIsPlain` show that they
  cannot be reached after `convert("RGB")`. `convert` imports only the
  KD-tree `change_palette` and calls it for every frame, as the code does.
- Black is at index 0 and at index 15 of the default palette; the later
  write wins, so black serialises as "f" (`Converter.DefaultBlackIsF`).
- A palette token longer than six digits (`#1234567`) parses with a blue
  channel above 255. `astype('uint8')` then wraps that channel. The wrapped
  colour is usually not a key of the digit map, and the serialiser raises
  `KeyError`; it is a key when it equals another palette colour (with
  `#000000,#0000100` the wrapped (0, 0, 256) is black). The model keeps this
  behaviour: `ToUint8` and `Lookup` model it. The lemmas about serialising
  quantized images require byte colours, which every well-formed token gives.
- Palette.QuantizedMembers: stated for palettes of byte colours only. With a
  channel above 255 the stored colour is the clamped one, which need not be
  a palette colour.
- Palette.QuantizedIdempotent: stated for palettes of byte colours only. With
  the palette [(0, 0, 300), (0, 0, 250)], the pixel (0, 0, 300) is stored as
  (0, 0, 255), which quantizes again to (0, 0, 250).
- Script.MemberPixelKept and Script.KeptToken: stated for byte pixels, as
  every pixel of a resized RGB image is.
