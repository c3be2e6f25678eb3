/**
 * How the two renderers relate: the whiteness test of `src/utils.js` is the
 * background test of `src/index.js` without its transparency clause, and the
 * text-cycling scan over the one-letter text "x" with the index.js
 * classifier reproduces the fixed-glyph default output.
 */
module Classifiers {
  import opened Wrappers
  import opened Pixels
  import Layout
  import Index
  import Utils

  /** On pixels that are not nearly transparent the two classifiers agree. */
  lemma AgreeWhenOpaque(p: Pixel)
    requires p.a >= 0.1
    ensures Index.IsWhiteOrTransparent(p.r, p.g, p.b, p.a) <==> Utils.IsWhite(p.r, p.g, p.b)
  {
  }

  /** A nearly transparent dark pixel is background for index.js and ink for utils.js. */
  lemma DisagreeOnTransparentInk(p: Pixel)
    requires p.a < 0.1 && p.r <= 250
    ensures Index.IsWhiteOrTransparent(p.r, p.g, p.b, p.a)
    ensures Utils.DefaultShouldInsertChar(p)
  {
  }

  /** The ink test of index.js, as an insertion rule for the text-cycling scan. */
  function IsInk(p: Pixel): bool {
    !Index.IsWhiteOrTransparent(p.r, p.g, p.b, p.a)
  }

  /** Cycling through "x" over the index.js ink pixels gives the fixed-glyph default text. */
  lemma CyclingXIsDefaultText(grid: seq<seq<Pixel>>, w: nat, reverseText: Option<bool>)
    ensures Utils.CyclingText(grid, w, "x", Utils.Options(reverseText, Some(IsInk))) == Index.DefaultText(grid, w)
  {
    var unit := Utils.Piece("x", IsInk);
    forall p, k: nat ensures unit(p, k) == Index.DefaultCharForPixel(p, k) {
      assert Utils.CharAt("x", k) == "x" by {
        assert k % 1 == 0;
      }
      assert unit(p, k) == if IsInk(p) then Utils.CharAt("x", k) else " ";
    }
    Layout.UnitsAgree(grid, w, unit, Index.DefaultCharForPixel, |grid|);
  }
}
