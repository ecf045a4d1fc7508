/** `generate_progress_bar`: a bar of `length` cells, the first
    `int(p / 100 * length)` of them full, followed by the percentage. The
    percentage is a real number here; its two-decimal rendering is the
    parameter `shown`. */
module ProgressBar {

  /** The cell the bar is filled with. */
  const Full: char := '\U{2588}'

  /** The bar's width when the caller gives none. */
  const DefaultLength: int := 20

  /** Python's `int(x)` on a float: truncation toward zero. The result has the
      sign of `x` (or is zero) and lies within one of it. */
  function Trunc(x: real): (n: int)
    ensures 0.0 <= x ==> 0 <= n && n as real <= x < n as real + 1.0
    ensures x < 0.0 ==> n <= 0 && n as real - 1.0 < x <= n as real
  {
    if x >= 0.0 then x.Floor else -((-x).Floor)
  }

  /** `c * n` in Python: `n` copies of `c`, and the empty text when `n` is not positive. */
  function Repeat(c: char, n: int): (s: string)
    ensures |s| == if n <= 0 then 0 else n
    ensures forall i :: 0 <= i < |s| ==> s[i] == c
  {
    if n <= 0 then [] else [c] + Repeat(c, n - 1)
  }

  /** The number of full cells for percentage `p`: for a non-negative
      percentage and width, the whole part of `p / 100 * length`. */
  function FilledCells(p: real, length: int): (n: int)
    ensures 0.0 <= p && 0 <= length ==> 0 <= n && n as real <= p / 100.0 * length as real < n as real + 1.0
  {
    Trunc(p / 100.0 * length as real)
  }

  /** The cells between the brackets: `filled` full cells, then `length - filled` blanks. */
  function Cells(p: real, length: int): string {
    var filled := FilledCells(p, length);
    Repeat(Full, filled) + Repeat(' ', length - filled)
  }

  /** The whole bar: `[cells] shown%`. */
  function Render(p: real, shown: string, length: int): (r: string)
    ensures |r| == |Cells(p, length)| + |shown| + 4
    ensures r[0] == '[' && r[1..|Cells(p, length)| + 1] == Cells(p, length)
    ensures r[|Cells(p, length)| + 1..|Cells(p, length)| + 3] == "] "
    ensures r[|r| - |shown| - 1..|r| - 1] == shown && r[|r| - 1] == '%'
  {
    "[" + Cells(p, length) + "] " + shown + "%"
  }

  /** The cells hold exactly the full cells first and the blanks after; there
      are `length` of them unless more than `length` are full or fewer than
      none. */
  lemma CellsLayout(p: real, length: int)
    ensures var f := FilledCells(p, length);
            var full := if f <= 0 then 0 else f;
            var blank := if length - f <= 0 then 0 else length - f;
            && |Cells(p, length)| == full + blank
            && (forall i :: 0 <= i < full ==> Cells(p, length)[i] == Full)
            && (forall i :: full <= i < full + blank ==> Cells(p, length)[i] == ' ')
  {
    var f := FilledCells(p, length);
    var a, b := Repeat(Full, f), Repeat(' ', length - f);
    assert Cells(p, length) == a + b;
    assert forall i :: 0 <= i < |a| ==> (a + b)[i] == a[i];
    assert forall i :: |a| <= i < |a| + |b| ==> (a + b)[i] == b[i - |a|];
  }

  /** For a percentage in [0, 100] the full-cell count is floor(p / 100 * 20),
      between 0 and 20, and full plus blank cells make exactly 20. */
  lemma DefaultBarBounds(p: real)
    requires 0.0 <= p <= 100.0
    ensures FilledCells(p, DefaultLength) == (p / 100.0 * 20.0).Floor
    ensures 0 <= FilledCells(p, DefaultLength) <= DefaultLength
    ensures |Cells(p, DefaultLength)| == DefaultLength
  {
    var x := p / 100.0 * 20.0;
    assert x <= 20.0;
    var f := FilledCells(p, DefaultLength);
    assert f as real <= x;
    CellsLayout(p, DefaultLength);
  }

  /** 0% fills no cell, 50% fills ten and 100% fills all twenty. */
  lemma DefaultBarEndpoints()
    ensures FilledCells(0.0, DefaultLength) == 0
    ensures FilledCells(50.0, DefaultLength) == 10
    ensures FilledCells(100.0, DefaultLength) == DefaultLength
  {
    assert 50.0 / 100.0 * 20.0 == 10.0;
    assert 100.0 / 100.0 * 20.0 == 20.0;
  }

  /** Truncation toward zero never decreases as its argument grows. */
  lemma TruncMonotonic(x: real, y: real)
    requires x <= y
    ensures Trunc(x) <= Trunc(y)
  {
    if 0.0 <= x {
      assert Trunc(x) as real <= x <= y < Trunc(y) as real + 1.0;
    } else if y < 0.0 {
      assert Trunc(x) as real - 1.0 < x <= y <= Trunc(y) as real;
    }
  }

  /** The full-cell count never decreases as the percentage grows. */
  lemma FilledMonotonic(p: real, q: real, length: int)
    requires p <= q && 0 <= length
    ensures FilledCells(p, length) <= FilledCells(q, length)
  {
    assert p / 100.0 * length as real <= q / 100.0 * length as real;
    TruncMonotonic(p / 100.0 * length as real, q / 100.0 * length as real);
  }

  /** Above 100% the blanks vanish and the bar can outgrow its width: from
      105% on, a 20-cell bar has more than 20 full cells and no blank. */
  lemma DefaultBarOverflow(p: real)
    requires 105.0 <= p
    ensures FilledCells(p, DefaultLength) > DefaultLength
    ensures |Cells(p, DefaultLength)| == FilledCells(p, DefaultLength)
    ensures forall i :: 0 <= i < |Cells(p, DefaultLength)| ==> Cells(p, DefaultLength)[i] == Full
  {
    assert p / 100.0 * 20.0 >= 21.0;
    CellsLayout(p, DefaultLength);
  }
}
