/** The dirty line range that drawing calls widen and the deferred worker flushes. */
module DirtyRange {
  import opened Words
  import opened RowMajor

  /** `dirty_lines_start` and `dirty_lines_end`. */
  datatype Range = Range(first: U32, last: U32)

  /** What the worker leaves behind when it takes the range. */
  function Clean(yres: U32): Range
    requires yres > 0
  {
    Range(yres - 1, 0)
  }

  /** The range after a drawing call marked `height` lines from `y` (-1: the whole screen). */
  function Marked(r: Range, yres: U32, y: I32, height: I32): Range {
    var top := if y == -1 then 0 else y;
    var lines := if y == -1 then yres else height;
    var bottom := ToU32(top + lines - 1);
    Range(if ToU32(top) < r.first then ToU32(top) else r.first,
          if bottom > r.last then bottom else r.last)
  }

  /** The range after the worker saw a touched page at byte `offset`. */
  function Widened(r: Range, yres: U32, lineLength: nat, pageSize: nat, offset: nat): Range
    requires yres > 0 && lineLength > 0 && pageSize > 0
  {
    var low := ToU32(offset / lineLength);
    var high := Min(ToU32((offset + pageSize - 1) / lineLength), yres - 1);
    Range(if low < r.first then low else r.first, if high > r.last then high else r.last)
  }

  /** The lines that `update_display` sends for a request. */
  function ToSend(r: Range, yres: U32): (s: Range)
    requires yres > 0
    ensures s.first <= s.last < yres
    ensures s == r || s == Range(0, yres - 1)
    ensures s == r <==> r.first <= r.last < yres
  {
    if r.first > r.last || r.first > yres - 1 || r.last > yres - 1 then Range(0, yres - 1) else r
  }

  predicate InRange(r: Range, line: nat) {
    r.first <= line <= r.last
  }

  /** No on-screen line of an ordered request is dropped. */
  lemma OrderedRequestsAreSent(r: Range, yres: U32, line: nat)
    requires yres > 0 && line < yres && InRange(r, line)
    ensures InRange(ToSend(r, yres), line)
  {
  }

  /** A batch of marks, in the order in which they took the lock. */
  function MarkAll(r: Range, yres: U32, marks: seq<Mark>): Range {
    if marks == [] then r else
      var m := marks[|marks| - 1];
      Marked(MarkAll(r, yres, marks[..|marks| - 1]), yres, m.y, m.height)
  }

  /** The worker's pass over the page list. */
  function WidenAll(r: Range, yres: U32, lineLength: nat, pageSize: nat, pages: seq<nat>): Range
    requires yres > 0 && lineLength > 0 && pageSize > 0
  {
    if pages == [] then r else
      Widened(WidenAll(r, yres, lineLength, pageSize, pages[..|pages| - 1]), yres, lineLength, pageSize,
          pages[|pages| - 1])
  }

  // ----- The exact hull -----

  datatype Mark = Mark(y: I32, height: I32)

  /** A mark whose rectangle is on the screen and not empty, or the whole-screen mark. */
  predicate OnScreen(m: Mark, yres: U32) {
    m.y == -1 || (0 <= m.y && 1 <= m.height && m.y + m.height <= yres)
  }

  predicate MarkHas(m: Mark, yres: U32, line: nat) {
    line < yres && (m.y == -1 || m.y <= line < m.y + m.height)
  }

  function MarkLines(m: Mark, yres: U32): set<nat> {
    set line: nat | line < yres && MarkHas(m, yres, line)
  }

  ghost predicate PageHas(offset: nat, lineLength: nat, pageSize: nat, line: nat)
    requires lineLength > 0
  {
    exists b: nat :: offset <= b < offset + pageSize && b / lineLength == line
  }

  /** The on-screen lines that hold a byte of a page. */
  ghost function PageLines(offset: nat, yres: U32, lineLength: nat, pageSize: nat): set<nat>
    requires lineLength > 0
  {
    set line: nat | line < yres && PageHas(offset, lineLength, pageSize, line)
  }

  ghost function AllMarkLines(marks: seq<Mark>, yres: U32): set<nat> {
    if marks == [] then {} else AllMarkLines(marks[..|marks| - 1], yres) + MarkLines(marks[|marks| - 1], yres)
  }

  ghost function AllPageLines(pages: seq<nat>, yres: U32, lineLength: nat, pageSize: nat): set<nat>
    requires lineLength > 0
  {
    if pages == [] then {} else
      AllPageLines(pages[..|pages| - 1], yres, lineLength, pageSize) +
          PageLines(pages[|pages| - 1], yres, lineLength, pageSize)
  }

  /** The smallest interval that contains the lines, or the clean marker if there are none. */
  ghost predicate IsHull(r: Range, lines: set<nat>, yres: U32)
    requires yres > 0
  {
    if lines == {} then r == Clean(yres) else
      r.first in lines && r.last in lines && forall line | line in lines :: InRange(r, line) && line < yres
  }

  lemma HullOfInterval(r: Range, lines: set<nat>, yres: U32, a: U32, b: U32, more: set<nat>)
    requires yres > 0 && IsHull(r, lines, yres) && a <= b < yres
    requires forall line: nat :: line in more <==> a <= line <= b
    ensures IsHull(Range(if a < r.first then a else r.first, if b > r.last then b else r.last), lines + more, yres)
  {
    assert a in more && b in more;
  }

  lemma MarkGivesHull(r: Range, lines: set<nat>, yres: U32, m: Mark)
    requires 0 < yres < 0x8000_0000 && IsHull(r, lines, yres) && OnScreen(m, yres)
    ensures IsHull(Marked(r, yres, m.y, m.height), lines + MarkLines(m, yres), yres)
  {
    var a := if m.y == -1 then 0 else m.y;
    var b := if m.y == -1 then yres - 1 else m.y + m.height - 1;
    SmallToU32(a);
    SmallToU32(b);
    HullOfInterval(r, lines, yres, a, b, MarkLines(m, yres));
  }

  lemma SmallToU32(x: nat)
    requires x < 0x1_0000_0000
    ensures ToU32(x) == x
  {
  }

  lemma {:induction false} MarksGiveHull(marks: seq<Mark>, yres: U32)
    requires 0 < yres < 0x8000_0000 && forall i | 0 <= i < |marks| :: OnScreen(marks[i], yres)
    ensures IsHull(MarkAll(Clean(yres), yres, marks), AllMarkLines(marks, yres), yres)
  {
    if marks == [] {
    } else {
      var front, m := marks[..|marks| - 1], marks[|marks| - 1];
      MarksGiveHull(front, yres);
      MarkGivesHull(MarkAll(Clean(yres), yres, front), AllMarkLines(front, yres), yres, m);
    }
  }

  /** A page holds a byte of exactly the lines between its first and its last byte's. */
  lemma PageLinesAreInterval(offset: nat, yres: U32, lineLength: nat, pageSize: nat, line: nat)
    requires lineLength > 0 && pageSize > 0
    ensures line in PageLines(offset, yres, lineLength, pageSize) <==>
            line < yres && offset / lineLength <= line <= (offset + pageSize - 1) / lineLength
  {
    var last := offset + pageSize - 1;
    if line < yres && offset / lineLength <= line <= last / lineLength {
      var b := if offset / lineLength == line then offset else line * lineLength;
      LineOfByte(lineLength, line, b);
      LineOfByte(lineLength, line, offset);
      LineOfByte(lineLength, line, last);
      assert offset <= b < offset + pageSize && b / lineLength == line;
    }
    forall b: nat | offset <= b < offset + pageSize
      ensures offset / lineLength <= b / lineLength <= last / lineLength
    {
      LineOfByte(lineLength, b / lineLength, b);
      LineOfByte(lineLength, b / lineLength, offset);
      LineOfByte(lineLength, b / lineLength, last);
    }
  }

  lemma {:induction false} PagesGiveHull(r: Range, lines: set<nat>, yres: U32, lineLength: nat, pageSize: nat,
                                         pages: seq<nat>)
    requires yres > 0 && lineLength > 0 && pageSize > 0 && IsHull(r, lines, yres)
    requires forall i | 0 <= i < |pages| :: pages[i] + pageSize < 0x1_0000_0000 && pages[i] / lineLength < yres
    ensures IsHull(WidenAll(r, yres, lineLength, pageSize, pages),
            lines + AllPageLines(pages, yres, lineLength, pageSize), yres)
  {
    if pages == [] {
      assert lines + AllPageLines(pages, yres, lineLength, pageSize) == lines;
    } else {
      var front, p := pages[..|pages| - 1], pages[|pages| - 1];
      PagesGiveHull(r, lines, yres, lineLength, pageSize, front);
      var before := lines + AllPageLines(front, yres, lineLength, pageSize);
      assert lines + AllPageLines(pages, yres, lineLength, pageSize) ==
             before + PageLines(p, yres, lineLength, pageSize);
      PageGivesHull(WidenAll(r, yres, lineLength, pageSize, front), before, yres, lineLength, pageSize, p);
    }
  }

  lemma PageGivesHull(r: Range, lines: set<nat>, yres: U32, lineLength: nat, pageSize: nat, p: nat)
    requires yres > 0 && lineLength > 0 && pageSize > 0 && IsHull(r, lines, yres)
    requires p + pageSize < 0x1_0000_0000 && p / lineLength < yres
    ensures IsHull(Widened(r, yres, lineLength, pageSize, p), lines + PageLines(p, yres, lineLength, pageSize), yres)
  {
    var low, high := p / lineLength, (p + pageSize - 1) / lineLength;
    QuotientBound(p + pageSize - 1, lineLength);
    SmallToU32(low);
    SmallToU32(high);
    QuotientMonotone(p, p + pageSize - 1, lineLength);
    assert low <= Min(high, yres - 1) < yres;
    IntervalOfPage(p, yres, lineLength, pageSize);
    HullOfInterval(r, lines, yres, low, Min(high, yres - 1), PageLines(p, yres, lineLength, pageSize));
  }

  lemma IntervalOfPage(p: nat, yres: U32, lineLength: nat, pageSize: nat)
    requires yres > 0 && lineLength > 0 && pageSize > 0
    ensures forall line: nat :: line in PageLines(p, yres, lineLength, pageSize) <==>
              p / lineLength <= line <= Min((p + pageSize - 1) / lineLength, yres - 1)
  {
    forall line: nat
      ensures line in PageLines(p, yres, lineLength, pageSize) <==>
              p / lineLength <= line <= Min((p + pageSize - 1) / lineLength, yres - 1)
    {
      PageLinesAreInterval(p, yres, lineLength, pageSize, line);
    }
  }

  /** After the worker resets the range, and whatever on-screen marks and touched pages follow,
      the range it hands to `update_display` is the hull of the lines they touched. */
  lemma FlushedRangeIsHull(marks: seq<Mark>, pages: seq<nat>, yres: U32, lineLength: nat, pageSize: nat)
    requires 0 < yres < 0x8000_0000 && lineLength > 0 && pageSize > 0
    requires forall i | 0 <= i < |marks| :: OnScreen(marks[i], yres)
    requires forall i | 0 <= i < |pages| :: pages[i] + pageSize < 0x1_0000_0000 && pages[i] / lineLength < yres
    ensures IsHull(WidenAll(MarkAll(Clean(yres), yres, marks), yres, lineLength, pageSize, pages),
                   AllMarkLines(marks, yres) + AllPageLines(pages, yres, lineLength, pageSize), yres)
  {
    MarksGiveHull(marks, yres);
    PagesGiveHull(MarkAll(Clean(yres), yres, marks), AllMarkLines(marks, yres), yres, lineLength, pageSize, pages);
  }

  // ----- Marks that are not on the screen -----

  /** A mark's lines are sent by the next flush, whatever the range held before. */
  ghost predicate NeverDropped(m: Mark, yres: U32)
    requires yres > 0
  {
    forall r: Range, line | line in MarkLines(m, yres) :: InRange(ToSend(Marked(r, yres, m.y, m.height), yres), line)
  }

  /** The guard of the one case in which a mark drops lines: a rectangle that starts above
      the screen and ends on it, because the signed start becomes a huge unsigned one. */
  predicate CutOffAbove(m: Mark, yres: U32) {
    m.y < -1 && 0 <= m.y + m.height - 1 < yres
  }

  lemma WholeOrUncutIsSent(m: Mark, yres: U32, r: Range, line: nat)
    requires 1 < yres < 0x8000_0000 && !CutOffAbove(m, yres) && line in MarkLines(m, yres)
    ensures InRange(ToSend(Marked(r, yres, m.y, m.height), yres), line)
  {
    if m.y >= 0 {
      SmallToU32(m.y);
    }
  }

  lemma CutIsDropped(m: Mark, yres: U32, r: Range)
    requires 1 < yres < 0x8000_0000 && CutOffAbove(m, yres) && r == Range(1, 1)
    ensures 0 in MarkLines(m, yres) && !InRange(ToSend(Marked(r, yres, m.y, m.height), yres), 0)
  {
    SmallToU32(m.y + m.height - 1);
  }

  lemma NeverDroppedIff(m: Mark, yres: U32)
    requires 1 < yres < 0x8000_0000
    ensures NeverDropped(m, yres) <==> !CutOffAbove(m, yres)
  {
    if CutOffAbove(m, yres) {
      CutIsDropped(m, yres, Range(1, 1));
    } else {
      forall r: Range, line | line in MarkLines(m, yres)
        ensures InRange(ToSend(Marked(r, yres, m.y, m.height), yres), line)
      {
        WholeOrUncutIsSent(m, yres, r, line);
      }
    }
  }
}
