/**
 * The text-cycling renderer of `src/utils.js`: an unresized pixel sampler, a
 * whiteness test that ignores alpha, and a scan that writes the caller's
 * text over the ink pixels, one character per pixel, cycling through it.
 */
module Utils {
  import opened Wrappers
  import opened Pixels
  import Layout

  /** The sampler: a surface of exactly the image's own size. */
  class ImagePixels {
    var width: nat
    var height: nat
    var cells: seq<seq<Cell>>

    ghost predicate Valid()
      reads this
    {
      Shaped(cells, width, height)
    }

    /** Draws the image at its own size; `drawn(x, y)` is the colour painted at column x, row y. */
    constructor (img: Image, drawn: (int, int) -> Cell)
      ensures Valid()
      ensures width == img.width && height == img.height
      ensures cells == Rasterize(drawn, img.width, img.height)
    {
      height := img.height;
      width := img.width;
      new;
      cells := Rasterize(drawn, img.width, img.height);
    }

    /**
     * The pixel at column `i`, row `j`: the cell's colour bytes with alpha
     * scaled into [0, 1], or transparent black off the surface. A read: the
     * sampler is left as it was.
     */
    function Get(i: int, j: int): (p: Pixel)
      reads this
      ensures Inside(cells, i, j) ==>
        p.r == cells[j][i].r && p.g == cells[j][i].g && p.b == cells[j][i].b &&
        p.a * 255.0 == cells[j][i].alpha as real
      ensures 0 <= p.r < 256 && 0 <= p.g < 256 && 0 <= p.b < 256
      ensures 0.0 <= p.a <= 1.0
    {
      Sample(cells, i, j)
    }

    /** Everything a full scan reads: `height` rows of `width` pixels, row `j` column `i` being `Get(i, j)`. */
    function Snapshot(): (grid: seq<seq<Pixel>>)
      reads this
      ensures |grid| == height && Layout.Rectangular(grid, width)
      ensures forall j, i :: 0 <= j < height && 0 <= i < width ==> grid[j][i] == Get(i, j)
    {
      SampleGrid(cells, width, height)
    }
  }

  /** A scan of a valid sampler reads only points of its surface. */
  lemma ScanStaysOnSurface(s: ImagePixels)
    requires s.Valid()
    ensures forall j, i :: 0 <= j < s.height && 0 <= i < s.width ==> Inside(s.cells, i, j)
  {
  }

  /** Near-white: all three colour channels above 250. */
  predicate IsWhite(r: int, g: int, b: int) {
    r > 250 && g > 250 && b > 250
  }

  /** The default insertion rule: any pixel that is not near-white, whatever its alpha. */
  function DefaultShouldInsertChar(p: Pixel): (insert: bool)
    ensures insert <==> !(p.r > 250 && p.g > 250 && p.b > 250)
  {
    !IsWhite(p.r, p.g, p.b)
  }

  /** A fully transparent dark pixel still receives a character: alpha plays no part. */
  lemma TransparentPixelStillInserts(r: int, g: int, b: int)
    requires r <= 250
    ensures forall a: real :: DefaultShouldInsertChar(Pixel(r, g, b, a))
  {
  }

  /** The options a caller may pass; an absent field keeps its default. */
  datatype Options = Options(reverseText: Option<bool>, shouldInsertChar: Option<Pixel -> bool>)

  /** The options in force once the caller's fields are laid over the defaults. */
  datatype Settings = Settings(reverseText: bool, shouldInsertChar: Pixel -> bool)

  /** `Object.assign({}, defaults, options)`: each given field overrides its default. */
  function Resolve(options: Options): (s: Settings)
    ensures options.reverseText.Some? ==> s.reverseText == options.reverseText.value
    ensures options.reverseText.None? ==> !s.reverseText
    ensures options.shouldInsertChar.Some? ==> s.shouldInsertChar == options.shouldInsertChar.value
    ensures options.shouldInsertChar.None? ==> s.shouldInsertChar == DefaultShouldInsertChar
  {
    Settings(options.reverseText.GetOr(false), options.shouldInsertChar.GetOr(DefaultShouldInsertChar))
  }

  /**
   * `text[index % text.length]` as `join('')` sees it: one character of the
   * text, or nothing when the text is empty (the lookup is then undefined,
   * which joins as the empty string).
   */
  function CharAt(text: string, index: nat): (s: string)
    ensures |text| > 0 ==> s == [text[index % |text|]] && s[0] in text
    ensures |text| == 0 ==> s == ""
  {
    if |text| == 0 then "" else [text[index % |text|]]
  }

  /** The piece pushed for one pixel: the text's next character when it is inserted, a space otherwise. */
  function Piece(text: string, insert: Pixel -> bool): (Pixel, nat) -> string {
    (p: Pixel, index: nat) => if insert(p) then CharAt(text, index) else " "
  }

  /** Applying `Piece`: the character or the space for one pixel and index. */
  lemma PieceAt(text: string, insert: Pixel -> bool, p: Pixel, index: nat)
    ensures Piece(text, insert)(p, index) == if insert(p) then CharAt(text, index) else " "
  {
  }

  /** The text `pixelsToText(imgPixels, text, options)` produces for a grid of rows of `w` pixels. */
  function CyclingText(grid: seq<seq<Pixel>>, w: nat, text: string, options: Options): string {
    Layout.Render(grid, w, Piece(text, Resolve(options).shouldInsertChar))
  }

  /**
   * The scan: rows top to bottom, a newline before every row but the first,
   * one piece per column; the running index advances on every pixel,
   * whether a character or a space was written. `reverseText` is read and
   * never consulted.
   */
  method PixelsToText(imgPixels: ImagePixels, text: string, options: Options) returns (out: string)
    ensures out == CyclingText(imgPixels.Snapshot(), imgPixels.width, text, options)
  {
    var settings := Resolve(options);
    var reverseText, shouldInsertChar := settings.reverseText, settings.shouldInsertChar;
    ghost var unit := Piece(text, shouldInsertChar);
    ghost var grid := imgPixels.Snapshot();
    var chars: seq<string> := [];
    var charIndex: nat := 0;
    var i: nat := 0;
    while i < imgPixels.height
      invariant i <= imgPixels.height
      invariant charIndex == i * imgPixels.width
      invariant chars == Layout.Units(grid, imgPixels.width, unit, i)
    {
      if i != 0 {
        chars := chars + ["\n"];
      }
      chars, charIndex := ScanRow(imgPixels, text, shouldInsertChar, i, chars, charIndex);
      Layout.UnitsStep(grid, imgPixels.width, unit, i);
      assert i * imgPixels.width + imgPixels.width == (i + 1) * imgPixels.width;
      i := i + 1;
    }
    out := Layout.Join(chars);
  }

  /**
   * The inner loop of the scan, over the columns of row `i`: the text's
   * character at the running index for an inserted pixel, a space
   * otherwise, the index advancing on every pixel.
   */
  method ScanRow(imgPixels: ImagePixels, text: string, shouldInsertChar: Pixel -> bool, i: nat,
                 chars: seq<string>, charIndex: nat)
    returns (chars': seq<string>, charIndex': nat)
    ensures charIndex' == charIndex + imgPixels.width
    ensures chars' == chars + Layout.Row(SampleRow(imgPixels.cells, imgPixels.width, i), charIndex, Piece(text, shouldInsertChar))
  {
    ghost var row := SampleRow(imgPixels.cells, imgPixels.width, i);
    ghost var unit := Piece(text, shouldInsertChar);
    chars', charIndex' := chars, charIndex;
    var j: nat := 0;
    while j < imgPixels.width
      invariant j <= imgPixels.width
      invariant charIndex' == charIndex + j
      invariant chars' == chars + Layout.Row(row[..j], charIndex, unit)
    {
      Layout.RowExtend(row, charIndex, unit, j);
      PieceAt(text, shouldInsertChar, row[j], charIndex');
      if shouldInsertChar(imgPixels.Get(j, i)) {
        chars' := chars' + [CharAt(text, charIndex')];
      } else {
        chars' := chars' + [" "];
      }
      charIndex' := charIndex' + 1;
      j := j + 1;
    }
    assert row[..j] == row;
  }

  /** The output does not depend on `reverseText`. */
  lemma ReverseTextIgnored(grid: seq<seq<Pixel>>, w: nat, text: string, insert: Option<Pixel -> bool>, r1: Option<bool>, r2: Option<bool>)
    ensures CyclingText(grid, w, text, Options(r1, insert)) == CyclingText(grid, w, text, Options(r2, insert))
  {
  }

  /**
   * The cycling text of `h >= 1` rows over a non-empty text: `h * w`
   * characters and `h - 1` newlines; pixel `(j, i)` gets
   * `text[(i * w + j) % |text|]` when it is inserted and a space otherwise.
   */
  lemma CyclingTextShape(grid: seq<seq<Pixel>>, w: nat, text: string, options: Options)
    requires Layout.Rectangular(grid, w) && |grid| >= 1 && |text| > 0
    ensures |CyclingText(grid, w, text, options)| == |grid| * w + |grid| - 1
    ensures forall i, j :: 0 <= i < |grid| && 0 <= j < w ==>
      Layout.Position(w, i, j) < |CyclingText(grid, w, text, options)| &&
      CyclingText(grid, w, text, options)[Layout.Position(w, i, j)] ==
        if Resolve(options).shouldInsertChar(grid[i][j]) then text[(i * w + j) % |text|] else ' '
    ensures forall i :: 0 <= i < |grid| - 1 ==>
      Layout.Position(w, i, w) < |CyclingText(grid, w, text, options)| &&
      CyclingText(grid, w, text, options)[Layout.Position(w, i, w)] == '\n'
  {
    var insert := Resolve(options).shouldInsertChar;
    var unit := Piece(text, insert);
    forall p, k: nat ensures |unit(p, k)| == 1 {
      PieceAt(text, insert, p, k);
    }
    Layout.RenderShape(grid, w, unit);
    forall i, j | 0 <= i < |grid| && 0 <= j < w
      ensures unit(grid[i][j], i * w + j)[0] == if insert(grid[i][j]) then text[(i * w + j) % |text|] else ' '
    {
      PieceAt(text, insert, grid[i][j], i * w + j);
    }
  }

  /** With a non-empty text, every character written is one of the text's, a space or a newline. */
  lemma CyclingTextAlphabet(grid: seq<seq<Pixel>>, w: nat, text: string, options: Options)
    requires |text| > 0
    ensures forall c :: c in CyclingText(grid, w, text, options) ==> c in text || c == ' ' || c == '\n'
  {
    var insert := Resolve(options).shouldInsertChar;
    var unit := Piece(text, insert);
    var allowed := (set c | c in text) + {' ', '\n'};
    forall p, k: nat, c | c in unit(p, k) ensures c in allowed {
      PieceAt(text, insert, p, k);
    }
    var units := Layout.Units(grid, w, unit, |grid|);
    Layout.UnitsWithin(grid, w, unit, |grid|, allowed);
    Layout.JoinWithin(units, allowed);
  }

  /** A text without newlines gives exactly one newline between consecutive rows and no other. */
  lemma CyclingTextNewlines(grid: seq<seq<Pixel>>, w: nat, text: string, options: Options)
    requires |grid| >= 1 && '\n' !in text
    ensures multiset(CyclingText(grid, w, text, options))['\n'] == |grid| - 1
  {
    var insert := Resolve(options).shouldInsertChar;
    var unit := Piece(text, insert);
    forall p, k: nat ensures '\n' !in unit(p, k) {
      PieceAt(text, insert, p, k);
    }
    Layout.UnitsNewlineCount(grid, w, unit, |grid|);
  }
}
