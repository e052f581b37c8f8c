/** Arithmetic of row-major positions: row * width + column. */
module RowMajor {
  /** The place of pixel (x, y). */
  function PixelIndex(width: nat, x: nat, y: nat): nat {
    y * width + x
  }

  lemma Distribute(a: int, b: int, c: int)
    ensures (a + b) * c == a * c + b * c
  {
  }

  lemma DistributeLeft(a: int, b: int, c: int)
    ensures a * (b + c) == a * b + a * c
  {
  }

  lemma TimesMonotone(a: int, b: int, c: nat)
    requires a <= b
    ensures a * c <= b * c
  {
  }

  /** The row and the column of a position are its quotient and its remainder. */
  lemma RowAndColumn(width: nat, row: nat, x: nat)
    requires x < width
    ensures (row * width + x) / width == row && (row * width + x) % width == x
  {
    var d := (row * width + x) / width;
    assert row * width + x == d * width + (row * width + x) % width;
    if d < row {
      TimesMonotone(d + 1, row, width);
    } else if d > row {
      TimesMonotone(row + 1, d, width);
    }
  }

  /** A quotient is the row whose span holds the position. */
  lemma LineOfByte(lineLength: nat, line: nat, b: nat)
    requires lineLength > 0
    ensures b / lineLength == line <==> line * lineLength <= b < line * lineLength + lineLength
    ensures b / lineLength < line <==> b < line * lineLength
  {
    var q := b / lineLength;
    assert q * lineLength <= b < q * lineLength + lineLength;
    if q < line { TimesMonotone(q + 1, line, lineLength); }
    if line < q { TimesMonotone(line + 1, q, lineLength); }
  }

  function Quotient(a: nat, d: nat): nat
    requires d > 0
  {
    a / d
  }

  lemma QuotientMonotone(a: nat, b: nat, d: nat)
    requires d > 0 && a <= b
    ensures a / d <= b / d
  {
    LineOfByte(d, a / d, a);
    LineOfByte(d, a / d, b);
  }

  lemma QuotientBound(a: nat, d: nat)
    requires d > 0
    ensures a / d <= a
  {
    LineOfByte(d, a / d, a);
    TimesMonotone(1, d, a / d);
  }
}
