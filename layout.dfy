/**
 * The row-major text layout both `pixelsToText` scanners produce: every grid
 * cell becomes one unit chosen from the pixel and a running index that counts
 * cells across the whole grid, rows are separated by one newline, and the
 * pieces are concatenated as `chars.join('')` does.
 */
module Layout {
  import opened Pixels

  /** Offset in the unit sequence of column `j` of row `i`, when rows hold `w` cells. */
  function Position(w: nat, i: nat, j: nat): nat {
    i * (w + 1) + j
  }

  /** Every row of `grid` holds `w` cells. */
  ghost predicate Rectangular(grid: seq<seq<Pixel>>, w: nat) {
    forall i :: 0 <= i < |grid| ==> |grid[i]| == w
  }

  /** The newline pushed before row `i`: none before the first row. */
  function Separator(i: nat): seq<string> {
    if i != 0 then ["\n"] else []
  }

  /** One row's units; the cell in column `j` is given index `base + j`. */
  function Row(row: seq<Pixel>, base: nat, unit: (Pixel, nat) -> string): seq<string> {
    seq(|row|, j requires 0 <= j < |row| => unit(row[j], base + j))
  }

  /** Extending a row prefix by one cell appends that cell's unit. */
  lemma RowExtend(row: seq<Pixel>, base: nat, unit: (Pixel, nat) -> string, j: nat)
    requires j < |row|
    ensures Row(row[..j + 1], base, unit) == Row(row[..j], base, unit) + [unit(row[j], base + j)]
  {
  }

  /** The units pushed for the first `n` rows of a grid whose rows hold `w` cells. */
  function Units(grid: seq<seq<Pixel>>, w: nat, unit: (Pixel, nat) -> string, n: nat): seq<string>
    requires n <= |grid|
  {
    if n == 0 then []
    else Units(grid, w, unit, n - 1) + Separator(n - 1) + Row(grid[n - 1], (n - 1) * w, unit)
  }

  /** One more row: its separator, then its cells, indexed from where the previous rows stopped. */
  lemma UnitsStep(grid: seq<seq<Pixel>>, w: nat, unit: (Pixel, nat) -> string, i: nat)
    requires i < |grid|
    ensures Units(grid, w, unit, i + 1) == Units(grid, w, unit, i) + Separator(i) + Row(grid[i], i * w, unit)
  {
  }

  /** The pieces concatenated in order, as `Array.prototype.join('')` does. */
  function Join(units: seq<string>): string {
    if units == [] then "" else Join(units[..|units| - 1]) + units[|units| - 1]
  }

  /** The text a scan of the whole grid produces. */
  function Render(grid: seq<seq<Pixel>>, w: nat, unit: (Pixel, nat) -> string): string {
    Join(Units(grid, w, unit, |grid|))
  }

  /** `unit` never produces a newline, whatever the pixel and index. */
  ghost predicate NewlineFree(unit: (Pixel, nat) -> string) {
    forall p, k :: '\n' !in unit(p, k)
  }

  /** Every piece is exactly one character. */
  predicate SingleChars(units: seq<string>) {
    forall k :: 0 <= k < |units| ==> |units[k]| == 1
  }

  /** Row `i + 1` starts right after the last slot of row `i`. */
  lemma PositionStep(w: nat, i: nat)
    ensures Position(w, i + 1, 0) == Position(w, i, w) + 1
  {
    assert (i + 1) * (w + 1) == i * (w + 1) + w + 1;
  }

  /** Row `n` starts after `n` full rows and their `n` newlines. */
  lemma PositionRowStart(w: nat, n: nat)
    ensures Position(w, n, 0) == n * w + n
  {
    assert n * (w + 1) == n * w + n;
  }

  /** `n` rows produce `n * w` cell units and `n - 1` separators. */
  lemma {:induction false} UnitsLength(grid: seq<seq<Pixel>>, w: nat, unit: (Pixel, nat) -> string, n: nat)
    requires Rectangular(grid, w) && n <= |grid|
    ensures |Units(grid, w, unit, n)| == if n == 0 then 0 else n * w + n - 1
  {
    if n > 0 {
      UnitsLength(grid, w, unit, n - 1);
      assert (n - 1) * w + w == n * w;
    }
  }

  /** The units before the last row of `n >= 1` rows fill every slot before `Position(w, n - 1, 0)`. */
  lemma LastRowStart(grid: seq<seq<Pixel>>, w: nat, unit: (Pixel, nat) -> string, n: nat)
    requires Rectangular(grid, w) && 1 <= n <= |grid|
    ensures |Units(grid, w, unit, n - 1) + Separator(n - 1)| == Position(w, n - 1, 0)
    ensures |Units(grid, w, unit, n)| == Position(w, n - 1, w)
  {
    UnitsLength(grid, w, unit, n - 1);
    UnitsLength(grid, w, unit, n);
    PositionRowStart(w, n - 1);
    PositionRowStart(w, n);
    PositionStep(w, n - 1);
  }

  /**
   * The unit for column `j` of row `i` sits at `Position(w, i, j)` and is what
   * `unit` gives for that cell's pixel and the running index `i * w + j`.
   */
  lemma {:induction false} UnitsCell(grid: seq<seq<Pixel>>, w: nat, unit: (Pixel, nat) -> string, n: nat, i: nat, j: nat)
    requires Rectangular(grid, w) && n <= |grid|
    requires i < n && j < w
    ensures Position(w, i, j) < |Units(grid, w, unit, n)|
    ensures Units(grid, w, unit, n)[Position(w, i, j)] == unit(grid[i][j], i * w + j)
  {
    var prefix := Units(grid, w, unit, n - 1) + Separator(n - 1);
    LastRowStart(grid, w, unit, n);
    if i == n - 1 {
      assert Position(w, i, j) == |prefix| + j;
    } else {
      UnitsCell(grid, w, unit, n - 1, i, j);
    }
  }

  /** Exactly one newline follows the last cell of every row but the last. */
  lemma {:induction false} UnitsSeparator(grid: seq<seq<Pixel>>, w: nat, unit: (Pixel, nat) -> string, n: nat, i: nat)
    requires Rectangular(grid, w) && n <= |grid|
    requires i + 1 < n
    ensures Position(w, i, w) < |Units(grid, w, unit, n)|
    ensures Units(grid, w, unit, n)[Position(w, i, w)] == "\n"
  {
    var prefix := Units(grid, w, unit, n - 1) + Separator(n - 1);
    LastRowStart(grid, w, unit, n);
    PositionStep(w, i);
    if i == n - 2 {
      assert Position(w, i, w) == |prefix| - 1;
    } else {
      LastRowStart(grid, w, unit, n - 1);
      UnitsSeparator(grid, w, unit, n - 1, i);
    }
  }

  /** Joining two runs of pieces joins their texts. */
  lemma {:induction false} JoinAppend(a: seq<string>, b: seq<string>)
    ensures Join(a + b) == Join(a) + Join(b)
  {
    if b == [] {
      assert a + b == a;
    } else {
      var b' := b[..|b| - 1];
      assert (a + b)[..|a + b| - 1] == a + b';
      assert (a + b)[|a + b| - 1] == b[|b| - 1];
      JoinAppend(a, b');
    }
  }

  /** Pieces of one character each join to a text with one character per piece. */
  lemma {:induction false} JoinSingleChars(units: seq<string>)
    requires SingleChars(units)
    ensures |Join(units)| == |units|
    ensures forall k :: 0 <= k < |units| ==> Join(units)[k] == units[k][0]
  {
    if units != [] {
      JoinSingleChars(units[..|units| - 1]);
    }
  }

  /** A newline in the joined text comes from a piece that holds one. */
  lemma {:induction false} JoinNewlines(units: seq<string>)
    requires forall k :: 0 <= k < |units| ==> '\n' !in units[k]
    ensures '\n' !in Join(units)
  {
    if units != [] {
      JoinNewlines(units[..|units| - 1]);
    }
  }

  /** Every character of the joined text comes from one of the pieces. */
  lemma {:induction false} JoinWithin(units: seq<string>, chars: set<char>)
    requires forall k, c :: 0 <= k < |units| && c in units[k] ==> c in chars
    ensures forall c :: c in Join(units) ==> c in chars
  {
    if units != [] {
      JoinWithin(units[..|units| - 1], chars);
    }
  }

  /** A scan draws only on what `unit` can produce and the newline. */
  lemma {:induction false} UnitsWithin(grid: seq<seq<Pixel>>, w: nat, unit: (Pixel, nat) -> string, n: nat, chars: set<char>)
    requires n <= |grid| && '\n' in chars
    requires forall p, k, c :: c in unit(p, k) ==> c in chars
    ensures forall m, c :: 0 <= m < |Units(grid, w, unit, n)| && c in Units(grid, w, unit, n)[m] ==> c in chars
  {
    if n > 0 {
      UnitsWithin(grid, w, unit, n - 1, chars);
    }
  }

  /** Two unit rules that agree on every pixel and index lay out the same text. */
  lemma {:induction false} UnitsAgree(grid: seq<seq<Pixel>>, w: nat, u1: (Pixel, nat) -> string, u2: (Pixel, nat) -> string, n: nat)
    requires n <= |grid|
    requires forall p, k :: u1(p, k) == u2(p, k)
    ensures Units(grid, w, u1, n) == Units(grid, w, u2, n)
  {
    if n > 0 {
      UnitsAgree(grid, w, u1, u2, n - 1);
      assert Row(grid[n - 1], (n - 1) * w, u1) == Row(grid[n - 1], (n - 1) * w, u2);
    }
  }

  /** When `unit` never yields a newline, a scan of `n >= 1` rows holds exactly `n - 1` of them. */
  lemma {:induction false} UnitsNewlineCount(grid: seq<seq<Pixel>>, w: nat, unit: (Pixel, nat) -> string, n: nat)
    requires n <= |grid| && NewlineFree(unit)
    ensures multiset(Join(Units(grid, w, unit, n)))['\n'] == if n == 0 then 0 else n - 1
  {
    if n > 0 {
      var row := Row(grid[n - 1], (n - 1) * w, unit);
      UnitsNewlineCount(grid, w, unit, n - 1);
      JoinAppend(Units(grid, w, unit, n - 1) + Separator(n - 1), row);
      JoinAppend(Units(grid, w, unit, n - 1), Separator(n - 1));
      JoinNewlines(row);
      assert Join(Separator(n - 1)) == if n - 1 != 0 then "\n" else "" by {
        if n - 1 != 0 {
          assert Separator(n - 1)[..0] == [];
        }
      }
    }
  }

  /** With one-character units the text has one character per unit. */
  lemma RenderSingleChars(grid: seq<seq<Pixel>>, w: nat, unit: (Pixel, nat) -> string)
    requires forall p, k :: |unit(p, k)| == 1
    ensures var units := Units(grid, w, unit, |grid|);
      SingleChars(units) && |Render(grid, w, unit)| == |units| &&
      forall k :: 0 <= k < |units| ==> Render(grid, w, unit)[k] == units[k][0]
  {
    var units := Units(grid, w, unit, |grid|);
    forall k | 0 <= k < |units| ensures |units[k]| == 1 {
      UnitsSingle(grid, w, unit, |grid|, k);
    }
    assert SingleChars(units);
    JoinSingleChars(units);
  }

  /**
   * The shape of the text when every cell yields one character: `h` rows of
   * `w` characters separated by `h - 1` newlines, the character for column
   * `j` of row `i` at `Position(w, i, j)`, a newline closing every row but
   * the last.
   */
  lemma RenderShape(grid: seq<seq<Pixel>>, w: nat, unit: (Pixel, nat) -> string)
    requires Rectangular(grid, w) && |grid| >= 1
    requires forall p, k :: |unit(p, k)| == 1
    ensures |Render(grid, w, unit)| == |grid| * w + |grid| - 1
    ensures forall i, j :: 0 <= i < |grid| && 0 <= j < w ==>
      Position(w, i, j) < |Render(grid, w, unit)| &&
      Render(grid, w, unit)[Position(w, i, j)] == unit(grid[i][j], i * w + j)[0]
    ensures forall i :: 0 <= i < |grid| - 1 ==>
      Position(w, i, w) < |Render(grid, w, unit)| &&
      Render(grid, w, unit)[Position(w, i, w)] == '\n'
  {
    UnitsLength(grid, w, unit, |grid|);
    RenderSingleChars(grid, w, unit);
    forall i, j | 0 <= i < |grid| && 0 <= j < w
      ensures Position(w, i, j) < |Render(grid, w, unit)|
      ensures Render(grid, w, unit)[Position(w, i, j)] == unit(grid[i][j], i * w + j)[0]
    {
      RenderCell(grid, w, unit, i, j);
    }
    forall i | 0 <= i < |grid| - 1
      ensures Position(w, i, w) < |Render(grid, w, unit)|
      ensures Render(grid, w, unit)[Position(w, i, w)] == '\n'
    {
      UnitsSeparator(grid, w, unit, |grid|, i);
    }
  }

  /** The character for one cell, under one-character units. */
  lemma RenderCell(grid: seq<seq<Pixel>>, w: nat, unit: (Pixel, nat) -> string, i: nat, j: nat)
    requires Rectangular(grid, w) && i < |grid| && j < w
    requires forall p, k :: |unit(p, k)| == 1
    ensures Position(w, i, j) < |Render(grid, w, unit)|
    ensures Render(grid, w, unit)[Position(w, i, j)] == unit(grid[i][j], i * w + j)[0]
  {
    RenderSingleChars(grid, w, unit);
    UnitsCell(grid, w, unit, |grid|, i, j);
  }

  /** With one-character units, every piece of a scan is one character. */
  lemma {:induction false} UnitsSingle(grid: seq<seq<Pixel>>, w: nat, unit: (Pixel, nat) -> string, n: nat, k: nat)
    requires n <= |grid| && k < |Units(grid, w, unit, n)|
    requires forall p, k :: |unit(p, k)| == 1
    ensures |Units(grid, w, unit, n)[k]| == 1
  {
    var prefix := Units(grid, w, unit, n - 1);
    if k < |prefix| {
      UnitsSingle(grid, w, unit, n - 1, k);
    }
  }
}
