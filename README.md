# img-using-text: pixel grid to text, modelled in Dafny

The library turns a raster image into ASCII-art-like text. An image is drawn
onto an offscreen canvas (`ImagePixels`), and a scanner walks the canvas row by
row, left to right, turning each pixel into a piece of text. Rows are separated
by a newline. There are two scanners:

- the fixed-glyph `pixelsToText` of `src/index.js`: each pixel goes through
  `charForPixel(pixel, charIndex)`, by default `'x'` for ink and `' '` for
  background (`isWhiteOrTransparent`);
- the text-cycling `pixelsToText` of `src/utils.js`: an ink pixel receives
  `text[charIndex % text.length]`, any other pixel a space (default ink test
  `!isWhite(r, g, b)`, which ignores alpha).

In both, `charIndex` counts every pixel visited over the whole grid. It is
never reset between rows.

Files:

- `wrappers.dfy` (`Wrappers`): `Option`, used for arguments and option fields
  the caller may leave out.
- `pixels.dfy` (`Pixels`): the canvas bytes (`Cell`), the `{r, g, b, a}`
  record (`Pixel`), the one-point read `Sample`, the drawn bitmap `Rasterize`,
  and `Count`. `Count(x)` is how often a loop `k < x` runs when `x` may be
  fractional.
- `layout.dfy` (`Layout`): the row-major layout both scanners produce.
  `Units` is the list of pushed pieces and `Render` joins them. Lemmas place
  every piece: the unit for column `j` of row `i` sits at
  `Position(w, i, j) = i * (w + 1) + j` and is computed from that pixel and
  index `i * w + j`. A newline closes every row but the last.
- `image_pixels.dfy` (`Sampling`): `src/ImagePixels.js`. It holds the
  dimension rule `Dimensions` and the class `ImagePixels` (fields `width`,
  `height`, and the surface bitmap `cells`; `Get` is a read).
- `index.dfy` (`Index`): `src/index.js`. It holds the classifier, the default
  glyph rule, option merging, and the imperative scan (`PixelsToText`,
  `HandleRow`), which is proved equal to `Layout.Render`.
- `utils.dfy` (`Utils`): `src/utils.js`. It holds the unresized sampler
  class, `isWhite`, the default insertion rule, and the imperative
  text-cycling scan, which is proved equal to `CyclingText`.
- `classifiers.dfy` (`Classifiers`): how the two renderers relate.

Modelling choices:

- The canvas is abstract. Its bitmap is a `seq<seq<Cell>>`. The picture the
  browser paints is a caller-supplied function `drawn(x, y)`.
- Dimensions are exact `real`s. The source computes them in IEEE doubles;
  what the model keeps from that is that they may be fractional:
  `ImagePixels.js` can produce a fractional `height` (and a fractional
  `width` if one is passed).
  A canvas truncates its size, so the bitmap is `⌊width⌋ × ⌊height⌋`. The scan
  loops `j < width` and `i < height` run `⌈width⌉` and `⌈height⌉` times
  (`Count`). A read past the bitmap gives transparent black, which is what
  `getImageData` reports outside a canvas. The scan therefore stays on the
  surface exactly when it visits no row or no column, or both dimensions are
  whole numbers (`ScanStaysOnSurfaceExactlyWhen`). A fractional width or
  height adds one column or row of transparent black
  (`FractionalWidthReadsPastEdge`, `FractionalHeightReadsPastEdge`).
- Caller options are `Option` fields. `Resolve` lays them over the defaults
  field by field, as `Object.assign({}, defaults, options)` does.

In these places the code behaves differently from what one might expect.
The model follows the code:

- `get` does not check its bounds. Off the surface it returns what the canvas
  reports (transparent black); it does not fail.
- The text-cycling scan does not reject an empty `text`. `text[NaN]` is
  `undefined`, and `join('')` turns that into the empty string, so an ink
  pixel then contributes nothing (`Utils.CharAt`).
- Fractional dimensions are not rounded before use. The loops round up and
  the surface rounds down, as described above.
- A grid with no columns does not render as the empty string. Every row
  after the first still pushes its newline, so `h >= 1` rows of width 0 give
  `h - 1` newlines (`Index.ZeroColumnText`).
- An image of width 0 and positive height, sampled at a positive given
  width and a positive stretch, does not fail. `img.height / img.width` is `Infinity`, so the sampler's
  `height` is `Infinity` (src/ImagePixels.js:16-18). The scan
  `i < imgPixels.height` (src/index.js:55) then never ends, pushing one row
  of pieces after another. The model excludes a zero image width
  (see `Sampling.Dimensions` under "Left out").

## Model

| member | source | states |
|---|---|---|
| Pixels.ToPixel | src/ImagePixels.js:34-40 | r, g, b are the cell's first three bytes; `a * 255` is the fourth byte, so `0 <= a <= 1` |
| Pixels.Sample | src/ImagePixels.js:33-41 | a one-point read: inside the bitmap the cell's bytes with alpha scaled into [0, 1]; outside it transparent black |
| Pixels.Rasterize | src/ImagePixels.js:19-23 | the drawn surface has exactly `rows` rows of `columns` cells, cell (x, y) being the painted colour |
| Pixels.Count | src/index.js:55 | the number of loop iterations for a bound `x`: the least natural number not below `x` |
| Pixels.CountIsLoopBound | src/index.js:38 | `k < x` holds exactly while `k < Count(x)`, so a loop over a real bound runs `Count(x)` times |
| Layout.Separator | src/index.js:35-37 | the newline pushed before every row but the first |
| Layout.Row | src/index.js:38-41 | the pieces of one row's column loop: `unit(row[j], base + j)` for each column `j` in order |
| Layout.Units | src/index.js:34-57 | the pieces the first `n` rows push: each row's separator, then its row pieces, with the running index `i * w` at the start of row `i` |
| Layout.Render | src/index.js:55-58 | the whole scan joined: the reference definition both imperative scans are proved equal to |
| Layout.Join | src/index.js:58 | the pushed pieces concatenated in order, as `chars.join('')` does (also src/utils.js:55); its properties are the `Join` lemmas below |
| Layout.UnitsLength | src/index.js:34-42 | `n >= 1` rows of `w` cells push `n * w` cell pieces and `n - 1` newlines; zero rows push nothing |
| Layout.UnitsCell | src/index.js:38-40 | the piece for column `j` of row `i` is at `i * (w + 1) + j` and is `unit(pixel(j, i), i * w + j)`: the index grows by one per pixel and is never reset per row |
| Layout.UnitsSeparator | src/index.js:35-37 | the piece right after the last cell of every row but the last is a newline |
| Layout.UnitsNewlineCount | src/index.js:35-37 | when pieces never contain a newline, `n >= 1` rows produce exactly `n - 1` newlines |
| Layout.JoinAppend | src/index.js:58 | `join('')` over two runs of pieces is the concatenation of their joins |
| Layout.JoinSingleChars | src/index.js:58 | one-character pieces join to a string with one character per piece, in order |
| Layout.JoinNewlines | src/index.js:58 | the joined string has a newline only if some piece has one |
| Layout.JoinWithin | src/utils.js:55 | every character of the joined string comes from some piece |
| Layout.UnitsWithin | src/utils.js:42-53 | the pieces of a scan use only characters the unit rule can produce, plus the newline |
| Layout.UnitsAgree | src/utils.js:46-53 | two unit rules that agree on every pixel and index give the same pieces |
| Layout.RenderSingleChars | src/index.js:55-58 | with one-character pieces the text has exactly one character per pushed piece |
| Layout.RenderCell | src/index.js:38-41 | with one-character pieces, text position `i * (w + 1) + j` holds the character for pixel `(j, i)` at index `i * w + j` |
| Layout.RenderShape | src/index.js:34-42 | with one-character pieces, `h >= 1` rows give length `h * w + h - 1`, each cell at its position, and a newline between rows |
| Sampling.OutputWidth | src/ImagePixels.js:17 | a given non-zero width is kept; an omitted or zero width falls back to the image's width |
| Sampling.Dimensions | src/ImagePixels.js:15-18 | the output width as above; `height * img.width == width * img.height * yStretch`, with `yStretch` defaulting to 1; both non-negative |
| Sampling.DefaultDimensions | test/index.test.js:30-34 | with neither width nor stretch given, the sampler has exactly the image's width and height |
| Sampling.ZeroWidthIsOmitted | src/ImagePixels.js:17 | a width of 0 is falsy and gives the same dimensions as an omitted width |
| Sampling.ResizedDimensions | test/index.test.js:36-40 | a requested width is kept, and the height keeps the image's aspect ratio times the stretch |
| Sampling.HalfStretchHalvesHeight | test/index.test.js:42-47 | a stretch of 0.5 halves the default-stretch height; with the default width it is `img.height / 2` |
| Sampling.ImagePixels.constructor | src/ImagePixels.js:15-24 | fields equal `Dimensions(img, width, yStretch)`; the bitmap is the drawn image on a `⌊width⌋ × ⌊height⌋` surface |
| Sampling.ImagePixels.Get | src/ImagePixels.js:33-41 | a read of point (i, j): inside the surface its bytes, alpha scaled; channels in range and `0 <= a <= 1` |
| Sampling.ImagePixels.Snapshot | src/index.js:38-39 | everything a full scan reads: `Rows()` rows of `Columns()` pixels, row `j` column `i` being `Get(i, j)` |
| Sampling.SurfaceSize | src/ImagePixels.js:20-21 | the surface is exactly `⌊width⌋` by `⌊height⌋` |
| Sampling.WholeDimensionsStayOnSurface | src/ImagePixels.js:20-23 | with whole-number dimensions the scan visits exactly the surface's points |
| Sampling.FractionalWidthReadsPastEdge | src/ImagePixels.js:20 | a fractional width makes the scan visit one column past the surface, read as transparent black |
| Sampling.FractionalHeightReadsPastEdge | src/ImagePixels.js:21 | a fractional height makes the scan visit one row past the surface, read as transparent black |
| Sampling.ScanStaysOnSurfaceExactlyWhen | src/ImagePixels.js:20-23 | every point a scan visits lies on the surface if and only if there are no rows, no columns, or both dimensions are whole numbers |
| Index.IsWhiteOrTransparent | src/index.js:12 | background: alpha below 0.1, or all of r, g, b above 250; its boundaries are `ClassifierBoundaries` |
| Index.ClassifierBoundaries | test/index.test.js:18-26 | (249,249,249,1) and (250,250,250,1) are ink, (251,251,251,1) background; alpha 0.1 is ink, 0.05 background |
| Index.DefaultCharForPixel | src/index.js:25-30 | the default glyph is `"x"` exactly for pixels that are not white-or-transparent and `" "` exactly for those that are |
| Index.Resolve | src/index.js:23-31 | each option given by the caller overrides its default; an absent `async` is false, an absent `charForPixel` is the default rule |
| Index.HandleRow | src/index.js:34-42 | pushes a newline unless `i == 0`, then one piece per column in increasing order for pixel `(j, i)` with indices `charIndex, charIndex + 1, ...`; the index advances by the column count |
| Index.PixelsToText | src/index.js:22-58 | without `async` the result is `Layout.Render` of the sampler's grid under the resolved `charForPixel`; with `async` a deferred result |
| Index.DefaultText | src/index.js:22-58 | the synchronous output under the default glyph rule; its shape is stated by the lemmas below |
| Index.DefaultTextShape | src/index.js:55-58 | default output of `h >= 1` rows: length `h * w + h - 1`, `'x'` exactly at ink pixels and `' '` elsewhere, a newline between consecutive rows |
| Index.DefaultTextNewlines | src/index.js:35-37 | default output of `h >= 1` rows holds exactly `h - 1` newlines |
| Index.DefaultTextEnds | src/index.js:35-41 | with at least one column the default output neither starts nor ends with a newline |
| Index.ZeroColumnText | src/index.js:34-41 | `h >= 1` rows with no columns render as `h - 1` newlines and nothing else |
| Index.EmptyGridText | src/index.js:55-58 | zero rows give the empty string |
| Index.ThreeByTwoExample | src/index.js:34-58 | a 3 × 2 grid with only the top-left pixel inked renders as `"x  \n   "` |
| Utils.ImagePixels.constructor | src/utils.js:5-13 | width and height are the image's own; the bitmap is the image drawn at its own size |
| Utils.ImagePixels.Get | src/utils.js:15-23 | a read of point (i, j): its bytes with alpha scaled; channels in range and `0 <= a <= 1` |
| Utils.ImagePixels.Snapshot | src/utils.js:42-47 | everything a scan reads: `height` rows of `width` pixels, row `j` column `i` being `Get(i, j)` |
| Utils.ScanStaysOnSurface | src/utils.js:7-10 | every point the scan reads lies on the surface |
| Utils.IsWhite | src/utils.js:28-30 | near-white: all of r, g, b above 250, alpha not consulted |
| Utils.DefaultShouldInsertChar | src/utils.js:35-37 | a pixel receives a character exactly when not all of r, g, b are above 250 |
| Utils.TransparentPixelStillInserts | src/utils.js:35-37 | alpha plays no part: a dark pixel receives a character at every alpha, even fully transparent |
| Utils.Resolve | src/utils.js:33-38 | each option given by the caller overrides its default; absent `reverseText` is false, absent `shouldInsertChar` is the default rule |
| Utils.CharAt | src/utils.js:48 | with a non-empty text, the one character at `index % text.length`; with an empty text nothing (`undefined` joins as empty) |
| Utils.Piece | src/utils.js:47-51 | the piece for one pixel: `CharAt(text, index)` when the pixel is inserted, a space otherwise; `PieceAt` states the application |
| Utils.CyclingText | src/utils.js:32-56 | the text-cycling output under the resolved insertion rule: `Layout.Render` with `Piece` as the unit rule |
| Utils.PixelsToText | src/utils.js:32-56 | the result is `CyclingText` of the sampler's grid: the pieces of `Layout.Units` under the insertion rule, joined |
| Utils.ScanRow | src/utils.js:46-53 | the column loop of one row: for pixel `(j, i)` the text character at the running index if inserted, else a space, in column order; the index advances by the row's width |
| Utils.ReverseTextIgnored | src/utils.js:33-34 | the output is the same whatever `reverseText` is |
| Utils.CyclingTextShape | src/utils.js:41-53 | `h >= 1` rows: length `h * w + h - 1`; pixel `(j, i)` gives `text[(i * w + j) % text.length]` if inserted, else `' '`; a newline between rows |
| Utils.CyclingTextAlphabet | src/utils.js:47-51 | with a non-empty text every output character is from the text, a space or a newline |
| Utils.CyclingTextNewlines | src/utils.js:42-45 | with a text free of newlines the output holds exactly `h - 1` newlines |
| Classifiers.AgreeWhenOpaque | src/utils.js:28-30 | for alpha at least 0.1, utils' `isWhite` and index's `isWhiteOrTransparent` agree |
| Classifiers.DisagreeOnTransparentInk | src/index.js:12 | a nearly transparent dark pixel is background for index.js and ink for utils.js |
| Classifiers.CyclingXIsDefaultText | src/index.js:25-30 | cycling the text `"x"` with index.js's ink test reproduces the fixed-glyph default output exactly |

## Left out

- Image loading is browser I/O and is not modelled. This covers `imageFromFile`, `fileToPixels`, `urlToPixels`, `fileToText` and `urlToText` (src/index.js:66-124), `imagePixelsPromise` (src/ImagePixels.js:44-51), and `fileToPixels` and `imageFromFile` (src/utils.js:58-79). The model starts from a loaded `Image`.
- The canvas is a foreign API. `document.createElement`, `getContext` and the `mockCanvas` test hook are not modelled. `drawImage` resampling becomes the caller-supplied `drawn` function.
- Index.PixelsToText: with `async` set, the result is only marked `Deferred`. The per-row `setTimeout` scheduling and the promise's eventual text are not modelled. The scan itself is the same `HandleRow`.
- Sampling.Dimensions: it requires `img.width > 0`. With a zero image width the source divides by zero. The result is `NaN` when no width is given, or when the image height is 0: `0 / 0` is `NaN`, and `0 * NaN` is `NaN` too. A zero stretch also gives `NaN` (`Infinity * 0`). Otherwise `img.height / 0` is `Infinity`. A positive given width makes the sampler's height `Infinity`, on which the scan does not terminate. A negative given width is truthy and makes it `-Infinity`, on which the scan runs no row and gives `""`. Exact reals express neither value.
- Sampling.Dimensions: it requires a non-negative width and stretch, as the documented "width" and "stretch" arguments are sizes. Negative values are outside the model.
- Sampling.ImagePixels.constructor: it carries the same requires as `Dimensions`.
- IEEE-754 rounding of the aspect-ratio product and of `/ 255` is not modelled. Arithmetic is exact.
- Sampling.DefaultDimensions: holds for every image only under exact arithmetic. In doubles, `img.width * (img.height / img.width)` is often not exactly `img.height`. A 7 × 29 image gets height `29.000000000000004`: the surface has 29 rows, the scan reads 30, and the last reads as transparent black. A 7 × 61 image gets `60.99999999999999`: the surface truncates to 60 rows, so the image's last row is never drawn, while the scan still reads 61. The default-size expectation then holds only for the images whose quotient rounds back exactly.
- The canvas's size attributes are `unsigned long`: an assigned size is reduced modulo 2^32, and one above 2^31 - 1 resets that attribute to its default (300 for the width, 150 for the height). Neither limit is modelled; only truncation to the whole part is.
- A caller option given explicitly as `undefined` is not modelled. The model's `None` means "absent". `Object.assign` copies an explicit `undefined` over the default. For `charForPixel` (index.js) and `shouldInsertChar` (utils.js) the call then fails at the first pixel, so only when the grid has at least one row and one column. `async: undefined` is falsy and takes the synchronous path (src/index.js:43). `reverseText` is never read (src/utils.js:33), so `reverseText: undefined` changes nothing.
- Utils.CharAt: counts the text in Unicode characters (Dafny `char`s), where JavaScript's `text.length` and `text[k]` count UTF-16 code units. For a text wholly inside the Basic Multilingual Plane the two agree. A text with a character outside it cycles differently: for `"😀a"` the source cycles through three code units (the two surrogate halves, then `a`), the model through two characters. A lone surrogate, which the source emits when such a character's halves land on non-adjacent pieces, has no Dafny `char` and cannot be represented.
- Utils.ScanRow: counts the text in Unicode characters, not UTF-16 code units, as `Utils.CharAt` above.
- Utils.PixelsToText: counts the text in Unicode characters, not UTF-16 code units, as `Utils.CharAt` above.
- Utils.CyclingTextShape: counts the text in Unicode characters, not UTF-16 code units, as `Utils.CharAt` above.
- Utils.CyclingTextAlphabet: counts the text in Unicode characters, not UTF-16 code units, as `Utils.CharAt` above.
- A `text` argument that is not a string at all (for example `undefined`) is not modelled. The model takes a `string`.
- The shape lemmas need one-character pieces. The default rule gives them, and so does the text-cycling rule with a non-empty text; with an empty text an inserted pixel's piece is `""`. The newline-count lemmas need only pieces that contain no newline. For a caller's `charForPixel` that returns longer text, the piece-level statements hold (`Index.PixelsToText`, `Layout.UnitsCell`, `Layout.UnitsSeparator`), and so does `Layout.UnitsNewlineCount` when the callback never returns a newline.
