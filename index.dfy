/**
 * The fixed-glyph text renderer of `src/index.js`: a background classifier,
 * the default glyph rule, option merging, and the synchronous scan that
 * turns a sampler's grid into text.
 */
module Index {
  import opened Wrappers
  import opened Pixels
  import Layout
  import Sampling

  /** Background: nearly transparent, or all three colour channels above 250. */
  predicate IsWhiteOrTransparent(r: int, g: int, b: int, a: real) {
    a < 0.1 || (r > 250 && g > 250 && b > 250)
  }

  /** The boundary cases the classifier is meant to draw. */
  lemma ClassifierBoundaries()
    ensures !IsWhiteOrTransparent(249, 249, 249, 1.0)
    ensures !IsWhiteOrTransparent(250, 250, 250, 1.0)
    ensures IsWhiteOrTransparent(251, 251, 251, 1.0)
    ensures !IsWhiteOrTransparent(249, 249, 249, 0.1)
    ensures IsWhiteOrTransparent(249, 249, 249, 0.05)
  {
  }

  /** The default glyph rule: `'x'` for an ink pixel, a space for background. */
  function DefaultCharForPixel(p: Pixel, index: nat): (s: string)
    ensures s == "x" <==> !IsWhiteOrTransparent(p.r, p.g, p.b, p.a)
    ensures s == " " <==> IsWhiteOrTransparent(p.r, p.g, p.b, p.a)
    ensures |s| == 1
  {
    if !IsWhiteOrTransparent(p.r, p.g, p.b, p.a) then "x" else " "
  }

  /** The options a caller may pass; an absent field keeps its default. */
  datatype Options = Options(async: Option<bool>, charForPixel: Option<(Pixel, nat) -> string>)

  /** The options in force once the caller's fields are laid over the defaults. */
  datatype Settings = Settings(async: bool, charForPixel: (Pixel, nat) -> string)

  const NoOptions := Options(None, None)

  /** `Object.assign({}, defaults, options)`: each given field overrides its default. */
  function Resolve(options: Options): (s: Settings)
    ensures options.async.Some? ==> s.async == options.async.value
    ensures options.async.None? ==> !s.async
    ensures options.charForPixel.Some? ==> s.charForPixel == options.charForPixel.value
    ensures options.charForPixel.None? ==> s.charForPixel == DefaultCharForPixel
  {
    Settings(options.async.GetOr(false), options.charForPixel.GetOr(DefaultCharForPixel))
  }

  /** What `pixelsToText` hands back: the text, or a promise for it. */
  datatype Rendering = Text(text: string) | Deferred

  /**
   * `handleRow(i)`: a newline unless `i` is the first row, then one piece per
   * column in increasing order for pixel `(j, i)`, each given the running
   * index, which advances once per column.
   */
  method HandleRow(imgPixels: Sampling.ImagePixels, charForPixel: (Pixel, nat) -> string, i: nat,
                   chars: seq<string>, charIndex: nat)
    returns (chars': seq<string>, charIndex': nat)
    ensures charIndex' == charIndex + imgPixels.Columns()
    ensures chars' == chars + Layout.Separator(i) +
      Layout.Row(SampleRow(imgPixels.cells, imgPixels.Columns(), i), charIndex, charForPixel)
  {
    ghost var row := SampleRow(imgPixels.cells, imgPixels.Columns(), i);
    chars', charIndex' := chars, charIndex;
    if i != 0 {
      chars' := chars' + ["\n"];
    }
    ghost var start := chars';
    var j: nat := 0;
    while (j as real) < imgPixels.width
      invariant j <= imgPixels.Columns()
      invariant charIndex' == charIndex + j
      invariant chars' == start + Layout.Row(row[..j], charIndex, charForPixel)
      decreases imgPixels.Columns() - j
    {
      CountIsLoopBound(imgPixels.width, j);
      Layout.RowExtend(row, charIndex, charForPixel, j);
      chars' := chars' + [charForPixel(imgPixels.Get(j, i), charIndex')];
      charIndex' := charIndex' + 1;
      j := j + 1;
    }
    CountIsLoopBound(imgPixels.width, j);
    assert row[..j] == row;
  }

  /**
   * The synchronous `pixelsToText`: rows top to bottom, the running index
   * never reset between rows, the pieces joined at the end. With `async`
   * set the text is produced later, row by row; that branch is not modelled
   * beyond its promise.
   */
  method PixelsToText(imgPixels: Sampling.ImagePixels, options: Options) returns (out: Rendering)
    ensures Resolve(options).async ==> out == Deferred
    ensures !Resolve(options).async ==>
      out == Text(Layout.Render(imgPixels.Snapshot(), imgPixels.Columns(), Resolve(options).charForPixel))
  {
    var settings := Resolve(options);
    if settings.async {
      return Deferred;
    }
    ghost var grid := imgPixels.Snapshot();
    ghost var w := imgPixels.Columns();
    var chars: seq<string> := [];
    var charIndex: nat := 0;
    var i: nat := 0;
    while (i as real) < imgPixels.height
      invariant i <= imgPixels.Rows()
      invariant charIndex == i * w
      invariant chars == Layout.Units(grid, w, settings.charForPixel, i)
      decreases imgPixels.Rows() - i
    {
      CountIsLoopBound(imgPixels.height, i);
      chars, charIndex := HandleRow(imgPixels, settings.charForPixel, i, chars, charIndex);
      assert grid[i] == SampleRow(imgPixels.cells, w, i);
      assert i * w + w == (i + 1) * w;
      i := i + 1;
    }
    CountIsLoopBound(imgPixels.height, i);
    out := Text(Layout.Join(chars));
  }

  /** The text the default glyph rule gives for a grid whose rows hold `w` pixels. */
  function DefaultText(grid: seq<seq<Pixel>>, w: nat): string {
    Layout.Render(grid, w, DefaultCharForPixel)
  }

  /**
   * The default text of `h >= 1` rows: `h * w` glyphs and `h - 1` newlines,
   * `'x'` exactly at ink pixels, a newline between consecutive rows.
   */
  lemma DefaultTextShape(grid: seq<seq<Pixel>>, w: nat)
    requires Layout.Rectangular(grid, w) && |grid| >= 1
    ensures |DefaultText(grid, w)| == |grid| * w + |grid| - 1
    ensures forall i, j :: 0 <= i < |grid| && 0 <= j < w ==>
      Layout.Position(w, i, j) < |DefaultText(grid, w)| &&
      DefaultText(grid, w)[Layout.Position(w, i, j)] ==
        if IsWhiteOrTransparent(grid[i][j].r, grid[i][j].g, grid[i][j].b, grid[i][j].a) then ' ' else 'x'
    ensures forall i :: 0 <= i < |grid| - 1 ==>
      Layout.Position(w, i, w) < |DefaultText(grid, w)| &&
      DefaultText(grid, w)[Layout.Position(w, i, w)] == '\n'
  {
    Layout.RenderShape(grid, w, DefaultCharForPixel);
    forall i, j | 0 <= i < |grid| && 0 <= j < w
      ensures DefaultText(grid, w)[Layout.Position(w, i, j)] ==
        if IsWhiteOrTransparent(grid[i][j].r, grid[i][j].g, grid[i][j].b, grid[i][j].a) then ' ' else 'x'
    {
      Layout.RenderCell(grid, w, DefaultCharForPixel, i, j);
    }
  }

  /** The default text of `h >= 1` rows holds exactly `h - 1` newlines. */
  lemma DefaultTextNewlines(grid: seq<seq<Pixel>>, w: nat)
    requires |grid| >= 1
    ensures multiset(DefaultText(grid, w))['\n'] == |grid| - 1
  {
    Layout.UnitsNewlineCount(grid, w, DefaultCharForPixel, |grid|);
  }

  /** With at least one column the default text neither starts nor ends with a newline. */
  lemma DefaultTextEnds(grid: seq<seq<Pixel>>, w: nat)
    requires Layout.Rectangular(grid, w) && |grid| >= 1 && w >= 1
    ensures |DefaultText(grid, w)| >= 1
    ensures DefaultText(grid, w)[0] != '\n'
    ensures DefaultText(grid, w)[|DefaultText(grid, w)| - 1] != '\n'
  {
    var h := |grid|;
    Layout.RenderCell(grid, w, DefaultCharForPixel, 0, 0);
    Layout.RenderCell(grid, w, DefaultCharForPixel, h - 1, w - 1);
    Layout.LastRowStart(grid, w, DefaultCharForPixel, h);
    Layout.RenderSingleChars(grid, w, DefaultCharForPixel);
  }

  /** An empty grid gives the empty string. */
  lemma EmptyGridText(w: nat)
    ensures DefaultText([], w) == ""
  {
  }

  /**
   * A grid of `h >= 1` rows and no columns gives `h - 1` newlines and
   * nothing else: each row after the first still pushes its newline.
   */
  lemma ZeroColumnText(grid: seq<seq<Pixel>>)
    requires Layout.Rectangular(grid, 0) && |grid| >= 1
    ensures DefaultText(grid, 0) == seq(|grid| - 1, _ => '\n')
  {
    DefaultTextShape(grid, 0);
    forall i | 0 <= i < |grid| - 1 ensures DefaultText(grid, 0)[i] == '\n' {
      assert Layout.Position(0, i, 0) == i;
    }
  }

  /** A 3 x 2 grid whose only ink pixel is the top-left one. */
  lemma ThreeByTwoExample()
    ensures var ink, paper := Pixel(0, 0, 0, 1.0), Pixel(255, 255, 255, 1.0);
      DefaultText([[ink, paper, paper], [paper, paper, paper]], 3) == "x  \n   "
  {
    var ink, paper := Pixel(0, 0, 0, 1.0), Pixel(255, 255, 255, 1.0);
    var grid := [[ink, paper, paper], [paper, paper, paper]];
    assert Layout.Units(grid, 3, DefaultCharForPixel, 1) == ["x", " ", " "];
    var units := Layout.Units(grid, 3, DefaultCharForPixel, 2);
    assert units == ["x", " ", " ", "\n", " ", " ", " "];
    Layout.JoinSingleChars(units);
  }
}
