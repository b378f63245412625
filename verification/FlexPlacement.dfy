// Where flex layout puts the items of a line, said of the placed items and rectangles
// (compositor/src/layout.rs).
module FlexPlacement {
  import opened Options
  import opened Arithmetic
  import opened Geometry
  import opened FlexLayout

  // --- Growth -------------------------------------------------------------------------------------

  predicate Still(line: seq<LayoutItem>) { forall c | c in line :: c.grow == 0.0 }

  lemma {:induction false} StillTotal(line: seq<LayoutItem>)
    requires Still(line)
    ensures TotalGrow(line) == 0.0
  {
    if line != [] {
      StillTotal(line[..|line| - 1]);
    }
  }

  lemma {:induction false} GrowingTotal(line: seq<LayoutItem>, c: LayoutItem)
    requires c in line && forall d | d in line :: 0.0 <= d.grow
    ensures c.grow <= TotalGrow(line)
  {
    var before, last := line[..|line| - 1], line[|line| - 1];
    assert line == before + [last];
    if c in before {
      GrowingTotal(before, c);
    } else {
      NoShrinking(before);
    }
  }

  lemma {:induction false} NoShrinking(line: seq<LayoutItem>)
    requires forall d | d in line :: 0.0 <= d.grow
    ensures 0.0 <= TotalGrow(line)
  {
    if line != [] {
      NoShrinking(line[..|line| - 1]);
    }
  }

  // On a line where something grows, the items start at the beginning, stand the gap apart, and each
  // gets its basis and its share of the free space, up to its maximum.
  lemma GrowingLine(f: Flex, line: seq<LayoutItem>, cross: nat, k: nat)
    requires k < |line| && (forall d | d in line :: 0.0 <= d.grow) && exists c | c in line :: 0.0 < c.grow
    ensures PlacedAt(f, line, cross, 0).main == 0
    ensures k + 1 < |line| ==> GapAfter(f, line, cross, k) == f.gap
    ensures var free := Max(f.main - TotalBasis(f, line) - (|line| - 1) * f.gap, 0);
            var size := Basis(f, line[k]) + f.share(free, line[k].grow, TotalGrow(line));
            PlacedAt(f, line, cross, k).mainSize == AtMost(size, MaxMain(f, line[k]))
  {
    var c :| c in line && 0.0 < c.grow;
    GrowingTotal(line, c);
    hide TotalBasis, TotalGrow;
  }

  // --- Along the main axis ------------------------------------------------------------------------

  // The space between the k-th item and the next.
  function GapAfter(f: Flex, line: seq<LayoutItem>, cross: nat, k: nat): int
    requires k + 1 < |line|
  {
    var p := PlacedAt(f, line, cross, k);
    PlacedAt(f, line, cross, k + 1).main - p.main - p.mainSize
  }

  // Where the last item ends.
  function LastEnd(f: Flex, line: seq<LayoutItem>, cross: nat): int
    requires line != []
  {
    var p := PlacedAt(f, line, cross, |line| - 1);
    p.main + p.mainSize
  }

  // What maxima take from the items of a line that does not grow.
  function CutOff(f: Flex, line: seq<LayoutItem>): nat {
    SizesAtMostBasis(f, line);
    TotalBasis(f, line) - TotalSize(f, line)
  }

  lemma {:induction false} NothingCutOff(f: Flex, line: seq<LayoutItem>)
    requires forall c | c in line :: MaxMain(f, c).None? || Basis(f, c) <= MaxMain(f, c).value
    ensures CutOff(f, line) == 0
  {
    if line != [] {
      NothingCutOff(f, line[..|line| - 1]);
    }
  }

  // A line that does not grow: each item has its basis, up to its maximum, and neighbours stand the gap
  // apart, except that the two spacing modes widen every gap alike.
  lemma StillLine(f: Flex, line: seq<LayoutItem>, cross: nat, k: nat)
    requires Still(line) && k < |line|
    ensures PlacedAt(f, line, cross, k).mainSize == AtMost(Basis(f, line[k]), MaxMain(f, line[k]))
    ensures k + 1 < |line| && f.justify != SpaceBetween && f.justify != SpaceAround ==>
              GapAfter(f, line, cross, k) == f.gap
    ensures k + 1 < |line| ==> f.gap <= GapAfter(f, line, cross, k) == GapAfter(f, line, cross, 0)
  {
    StillTotal(line);
    hide TotalBasis, TotalGrow;
  }

  // Justification of a fitting line that does not grow: where it starts and where it ends. What maxima
  // cut off its items is missing at the end.
  lemma JustifyExact(f: Flex, line: seq<LayoutItem>, cross: nat)
    requires line != [] && Still(line) && FitsMain(f, line)
    ensures var first, end := PlacedAt(f, line, cross, 0).main, LastEnd(f, line, cross) + CutOff(f, line);
            && (f.justify == JustifyStart ==> first == 0)
            && (f.justify == JustifyEnd ==> end == f.main)
            && (f.justify == JustifyCenter ==> first <= f.main - end <= first + 1)
            && (f.justify == SpaceBetween ==> first == 0)
            && (f.justify == SpaceBetween && 2 <= |line| ==> f.main - (|line| - 2) <= end <= f.main)
            && (f.justify == SpaceBetween && |line| == 1 ==> end == Basis(f, line[0]))
  {
    StillTotal(line);
    var last := |line| - 1;
    assert line[..last + 1] == line;
    EdgeIsEnd(f, line, last);
    FreeWhenFits(f, line);
    DoubledGaps(last, f.gap, Extra(f, line));
    if 1 < |line| {
      Remaining(Free(f, line), last);
    } else {
      assert line[..0] == [] && TotalBasis(f, line[..0]) == 0;
    }
    hide TotalSize, TotalGrow, Free, TotalBasis;
  }

  lemma Remaining(a: nat, n: nat)
    requires 1 <= n
    ensures n * (a / n) <= a <= n * (a / n) + n - 1
  {
  }

  // SpaceAround leaves a half share before the first item and two whole shares between neighbours.
  lemma SpaceAroundExact(f: Flex, line: seq<LayoutItem>, cross: nat, k: nat)
    requires Still(line) && k < |line| && f.justify == SpaceAround && FitsMain(f, line)
    ensures var free := f.main - TotalBasis(f, line) - (|line| - 1) * f.gap;
            && PlacedAt(f, line, cross, 0).main == free / (2 * |line|)
            && (k + 1 < |line| ==> GapAfter(f, line, cross, k) == f.gap + 2 * (free / |line|))
  {
    StillTotal(line);
    AroundLead(f, line);
    FreeWhenFits(f, line);
    hide TotalBasis, TotalGrow, Free, Lead, Extra;
  }

  // A line that does not fit starts at the beginning and keeps the gap, whatever the mode.
  lemma OverfullLine(f: Flex, line: seq<LayoutItem>, cross: nat, k: nat)
    requires k < |line| && f.main <= TotalBasis(f, line) + (|line| - 1) * f.gap
    ensures PlacedAt(f, line, cross, 0).main == 0
    ensures k + 1 < |line| ==> GapAfter(f, line, cross, k) == f.gap
  {
    hide TotalBasis, TotalGrow;
  }

  // --- Across the main axis -----------------------------------------------------------------------

  // The band of a wrapped line is as wide as its widest item; an unwrapped line has the container's.
  lemma BandExact(f: Flex, line: seq<LayoutItem>)
    requires line != []
    ensures f.wrap ==> exists c | c in line :: LineCross(f, line) == CrossBasis(f, c)
    ensures f.wrap ==> forall c | c in line :: CrossBasis(f, c) <= LineCross(f, line)
    ensures !f.wrap ==> LineCross(f, line) == f.cross
  {
    if f.wrap {
      WidestExists(f, line);
      forall c | c in line ensures CrossBasis(f, c) <= LineCross(f, line) {
        WidestIsWidest(f, line, c);
      }
    }
  }

  lemma {:induction false} WidestExists(f: Flex, line: seq<LayoutItem>)
    requires line != []
    ensures exists c | c in line :: WidestCross(f, line) == CrossBasis(f, c)
  {
    var before, last := line[..|line| - 1], line[|line| - 1];
    assert last in line;
    if before != [] {
      WidestExists(f, before);
      var c :| c in before && WidestCross(f, before) == CrossBasis(f, c);
      assert c in line;
    } else {
      assert WidestCross(f, before) == 0;
    }
  }

  // Start and stretched items begin where the band begins, end items end where it ends, and centred
  // ones are in its middle, within one; stretched items fill it up to their maximum, the others keep
  // their own size up to theirs.
  lemma AlignExact(f: Flex, line: seq<LayoutItem>, cross: nat, k: nat)
    requires k < |line|
    ensures var p, band := PlacedAt(f, line, cross, k), LineCross(f, line);
            && (f.align == AlignStretch ==> p.crossSize == AtMost(band, MaxCross(f, line[k])))
            && (f.align != AlignStretch ==> p.crossSize == AtMost(CrossBasis(f, line[k]), MaxCross(f, line[k])))
            && (f.align == AlignStart || f.align == AlignStretch ==> p.cross == cross)
            && (p.crossSize <= band ==>
                  && (f.align == AlignEnd ==> p.cross + p.crossSize == cross + band)
                  && (f.align == AlignCenter ==>
                        p.cross - cross <= cross + band - p.cross - p.crossSize <= p.cross - cross + 1))
            && (band < p.crossSize ==> p.cross == cross)
  {
    hide LineCross, Pos, MainSize;
  }

  // --- From line to line --------------------------------------------------------------------------

  lemma {:induction false} OnePerChild(f: Flex, lines: seq<seq<LayoutItem>>)
    ensures |PlacedLines(f, lines)| == |Flatten(lines)|
  {
    if lines != [] {
      OnePerChild(f, lines[..|lines| - 1]);
    }
  }

  // The i-th item of the k-th line, among all that are placed.
  lemma {:induction false} ItemOfLine(f: Flex, lines: seq<seq<LayoutItem>>, k: nat, i: nat)
    requires k < |lines| && i < |lines[k]|
    ensures var at := |Flatten(lines[..k])| + i;
            && at < |PlacedLines(f, lines)|
            && PlacedLines(f, lines)[at] == PlacedAt(f, lines[k], NextCross(f, lines[..k]), i)
  {
    hide PlacedAt, NextCross;
    OnePerChild(f, lines[..k]);
    if k < |lines| - 1 {
      var before := lines[..|lines| - 1];
      assert before[..k] == lines[..k];
      ItemOfLine(f, before, k, i);
    }
  }

  // The first line is at the start, and each next one a gap after the band of the one before.
  lemma BandsFollow(f: Flex, lines: seq<seq<LayoutItem>>, k: nat, i: nat, j: nat)
    requires k + 1 < |lines| && i < |lines[k]| && j < |lines[k + 1]|
    requires f.align == AlignStart || f.align == AlignStretch
    ensures var at, next := |Flatten(lines[..k])| + i, |Flatten(lines[..k + 1])| + j;
            && at < |PlacedLines(f, lines)| && next < |PlacedLines(f, lines)|
            && var p, q := PlacedLines(f, lines)[at], PlacedLines(f, lines)[next];
            && p.id == lines[k][i].id && q.id == lines[k + 1][j].id
            && q.cross == p.cross + LineCross(f, lines[k]) + f.gap
            && (k == 0 ==> p.cross == 0)
  {
    ItemOfLine(f, lines, k, i);
    ItemOfLine(f, lines, k + 1, j);
    assert lines[..k + 1][..k] == lines[..k];
    hide PlacedLines, Flatten, LineCross, Pos, MainSize;
  }

  // --- Rectangles ---------------------------------------------------------------------------------

  // In a row the main axis runs to the right and items have their own width; in a column it runs down.
  lemma RectExact(f: Flex, container: Rect, line: seq<LayoutItem>, cross: nat, k: nat)
    requires Still(line) && k < |line|
    ensures var p := PlacedAt(f, line, cross, k);
            var r, c := ToRect(f, container, p), line[k];
            && (f.isRow ==> && r.x == container.x + p.main && r.y == container.y + p.cross
                            && r.width == AtMost(c.minWidth, c.maxWidth)
                            && (f.align != AlignStretch ==> r.height == AtMost(c.minHeight, c.maxHeight))
                            && (f.align == AlignStretch ==> r.height == AtMost(LineCross(f, line), c.maxHeight)))
            && (!f.isRow ==> && r.y == container.y + p.main && r.x == container.x + p.cross
                             && r.height == AtMost(c.minHeight, c.maxHeight)
                             && (f.align != AlignStretch ==> r.width == AtMost(c.minWidth, c.maxWidth))
                             && (f.align == AlignStretch ==> r.width == AtMost(LineCross(f, line), c.maxWidth)))
  {
    StillLine(f, line, cross, k);
    AlignExact(f, line, cross, k);
    hide LineCross, Pos, MainSize, CrossSize, CrossOffset;
  }
}
