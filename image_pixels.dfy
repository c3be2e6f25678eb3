/**
 * The resizing pixel sampler of `src/ImagePixels.js`: an image drawn onto a
 * surface of a chosen width, with a height that keeps the image's aspect
 * ratio scaled by a vertical stretch factor, read back one point at a time.
 */
module Sampling {
  import opened Wrappers
  import opened Pixels
  import Layout

  /** The sampler's `width` and `height` fields. */
  datatype Size = Size(width: real, height: real)

  /** `width || img.width`: a missing or zero width falls back to the image's own. */
  function OutputWidth(img: Image, width: Option<real>): (w: real)
    ensures width.Some? && width.value != 0.0 ==> w == width.value
    ensures width.None? || width.value == 0.0 ==> w == img.width as real
  {
    if width.Some? && width.value != 0.0 then width.value else img.width as real
  }

  /**
   * The dimensions the constructor computes: the output width, and a height
   * that keeps the image's height-to-width ratio times the stretch factor.
   */
  function Dimensions(img: Image, width: Option<real>, yStretch: Option<real>): (d: Size)
    requires img.width > 0
    requires width.Some? ==> width.value >= 0.0
    requires yStretch.Some? ==> yStretch.value >= 0.0
    ensures d.width == OutputWidth(img, width)
    ensures d.height * (img.width as real) == d.width * (img.height as real) * yStretch.GetOr(1.0)
    ensures d.width >= 0.0 && d.height >= 0.0
  {
    var aspectRatio := (img.height as real / img.width as real) * yStretch.GetOr(1.0);
    var w := OutputWidth(img, width);
    ProductNonNegative(img.height as real / img.width as real, yStretch.GetOr(1.0));
    ProductNonNegative(w, aspectRatio);
    Size(w, w * aspectRatio)
  }

  lemma ProductNonNegative(x: real, y: real)
    requires x >= 0.0 && y >= 0.0
    ensures x * y >= 0.0
  {
  }

  /** With neither a width nor a stretch factor, the sampler has the image's own size. */
  lemma DefaultDimensions(img: Image)
    requires img.width > 0
    ensures Dimensions(img, None, None) == Size(img.width as real, img.height as real)
  {
    var d := Dimensions(img, None, None);
    assert d.height * (img.width as real) == (img.width as real) * (img.height as real);
  }

  /** A width of zero is falsy and behaves exactly like an omitted width. */
  lemma ZeroWidthIsOmitted(img: Image, yStretch: Option<real>)
    requires img.width > 0
    requires yStretch.Some? ==> yStretch.value >= 0.0
    ensures Dimensions(img, Some(0.0), yStretch) == Dimensions(img, None, yStretch)
  {
  }

  /** Resizing keeps the aspect ratio: the height scales with the requested width. */
  lemma ResizedDimensions(img: Image, width: real, yStretch: Option<real>)
    requires img.width > 0 && width > 0.0
    requires yStretch.Some? ==> yStretch.value >= 0.0
    ensures Dimensions(img, Some(width), yStretch).width == width
    ensures Dimensions(img, Some(width), yStretch).height * (img.width as real)
         == width * (img.height as real) * yStretch.GetOr(1.0)
  {
  }

  /** A stretch of one half gives half the height the default stretch gives, for the same width. */
  lemma HalfStretchHalvesHeight(img: Image, width: Option<real>)
    requires img.width > 0
    requires width.Some? ==> width.value >= 0.0
    ensures Dimensions(img, width, Some(0.5)).height == Dimensions(img, width, None).height / 2.0
    ensures width.None? ==> Dimensions(img, width, Some(0.5)).height == img.height as real / 2.0
  {
    var half := Dimensions(img, width, Some(0.5));
    var full := Dimensions(img, width, None);
    assert half.height * (img.width as real) == full.height * (img.width as real) / 2.0;
    if width.None? {
      DefaultDimensions(img);
    }
  }

  /**
   * The sampler. `width` and `height` are the values the constructor
   * computes (they may be fractional); the surface's bitmap `cells` holds
   * the whole-number parts of them, as a canvas truncates its size.
   */
  class ImagePixels {
    var width: real
    var height: real
    var cells: seq<seq<Cell>>

    ghost predicate Valid()
      reads this
    {
      width >= 0.0 && height >= 0.0 && Shaped(cells, width.Floor, height.Floor)
    }

    /**
     * Sizes a surface by `Dimensions` and draws the image onto it;
     * `drawn(x, y)` is the colour the browser paints at surface column x,
     * row y.
     */
    constructor (img: Image, width: Option<real>, yStretch: Option<real>, drawn: (int, int) -> Cell)
      requires img.width > 0
      requires width.Some? ==> width.value >= 0.0
      requires yStretch.Some? ==> yStretch.value >= 0.0
      ensures Valid()
      ensures Size(this.width, this.height) == Dimensions(img, width, yStretch)
      ensures cells == Rasterize(drawn, this.width.Floor, this.height.Floor)
    {
      var size := Dimensions(img, width, yStretch);
      this.width := size.width;
      this.height := size.height;
      new;
      cells := Rasterize(drawn, this.width.Floor, this.height.Floor);
    }

    /** Columns a scan `j < width` visits. */
    function Columns(): nat
      reads this
    {
      Count(width)
    }

    /** Rows a scan `i < height` visits. */
    function Rows(): nat
      reads this
    {
      Count(height)
    }

    /**
     * The pixel at column `i`, row `j`: the cell's colour bytes with alpha
     * scaled into [0, 1], or transparent black off the surface. A read: the
     * sampler is left as it was.
     */
    function Get(i: int, j: int): (p: Pixel)
      reads this
      ensures Inside(cells, i, j) ==>
        p.r == cells[j][i].r && p.g == cells[j][i].g && p.b == cells[j][i].b &&
        p.a * 255.0 == cells[j][i].alpha as real
      ensures 0 <= p.r < 256 && 0 <= p.g < 256 && 0 <= p.b < 256
      ensures 0.0 <= p.a <= 1.0
    {
      Sample(cells, i, j)
    }

    /** Everything a full scan reads: `Rows()` rows of `Columns()` pixels, row `j` column `i` being `Get(i, j)`. */
    function Snapshot(): (grid: seq<seq<Pixel>>)
      reads this
      ensures |grid| == Rows() && Layout.Rectangular(grid, Columns())
      ensures forall j, i :: 0 <= j < Rows() && 0 <= i < Columns() ==> grid[j][i] == Get(i, j)
    {
      SampleGrid(cells, Columns(), Rows())
    }
  }

  /** The surface is sized exactly to the whole parts of the sampler's width and height. */
  lemma SurfaceSize(s: ImagePixels)
    requires s.Valid()
    ensures |s.cells| == s.height.Floor
    ensures forall y :: 0 <= y < |s.cells| ==> |s.cells[y]| == s.width.Floor
  {
  }

  /** With whole-number dimensions a scan reads the surface and nothing outside it. */
  lemma WholeDimensionsStayOnSurface(s: ImagePixels)
    requires s.Valid()
    requires s.width.Floor as real == s.width && s.height.Floor as real == s.height
    ensures s.Columns() == s.width.Floor && s.Rows() == s.height.Floor
    ensures forall j, i :: 0 <= j < s.Rows() && 0 <= i < s.Columns() ==> Inside(s.cells, i, j)
  {
  }

  /**
   * A fractional width adds one column past the surface's edge; the scan
   * reads it as transparent black.
   */
  lemma FractionalWidthReadsPastEdge(s: ImagePixels, j: int)
    requires s.Valid()
    requires s.width.Floor as real != s.width
    ensures s.Columns() == s.width.Floor + 1
    ensures s.Get(s.width.Floor, j) == Pixel(0, 0, 0, 0.0)
  {
  }

  /**
   * A fractional height adds one row past the surface's bottom edge; the
   * scan reads it as transparent black.
   */
  lemma FractionalHeightReadsPastEdge(s: ImagePixels, i: int)
    requires s.Valid()
    requires s.height.Floor as real != s.height
    ensures s.Rows() == s.height.Floor + 1
    ensures s.Get(i, s.height.Floor) == Pixel(0, 0, 0, 0.0)
  {
  }

  /**
   * A scan reads only points of the surface exactly when it reads nothing
   * (no rows or no columns) or both dimensions are whole numbers.
   */
  lemma ScanStaysOnSurfaceExactlyWhen(s: ImagePixels)
    requires s.Valid()
    ensures (forall j, i :: 0 <= j < s.Rows() && 0 <= i < s.Columns() ==> Inside(s.cells, i, j)) <==>
      (s.Rows() == 0 || s.Columns() == 0 ||
       (s.width.Floor as real == s.width && s.height.Floor as real == s.height))
  {
    if s.Rows() > 0 && s.Columns() > 0 {
      if s.width.Floor as real != s.width {
        assert !Inside(s.cells, s.width.Floor, 0);
      } else if s.height.Floor as real != s.height {
        assert !Inside(s.cells, 0, s.height.Floor);
      } else {
        WholeDimensionsStayOnSurface(s);
      }
    }
  }
}
