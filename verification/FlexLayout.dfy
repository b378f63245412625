// Flex layout: greedy line breaking and the placement of items along and across the lines
// (compositor/src/layout.rs). Sizes are unbounded; the share of free space a growing item gets is
// computed in floating point and is any natural number here.
module FlexLayout {
  import opened Options
  import opened Arithmetic
  import opened Geometry

  datatype Justify = JustifyStart | JustifyCenter | JustifyEnd | SpaceBetween | SpaceAround
  datatype Align = AlignStart | AlignCenter | AlignEnd | AlignStretch

  datatype LayoutItem = LayoutItem(id: nat, minWidth: nat, minHeight: nat,
                                   maxWidth: Option<nat>, maxHeight: Option<nat>, grow: real)

  // The flex parameters: direction, wrapping, alignment, the gap, the size of the container along
  // and across the main axis, and the growth arithmetic.
  datatype Flex = Flex(isRow: bool, wrap: bool, justify: Justify, align: Align, gap: nat, main: nat, cross: nat,
                       share: (nat, real, real) -> nat)

  function Basis(f: Flex, c: LayoutItem): nat { if f.isRow then c.minWidth else c.minHeight }

  function CrossBasis(f: Flex, c: LayoutItem): nat { if f.isRow then c.minHeight else c.minWidth }

  function MaxMain(f: Flex, c: LayoutItem): Option<nat> { if f.isRow then c.maxWidth else c.maxHeight }

  function MaxCross(f: Flex, c: LayoutItem): Option<nat> { if f.isRow then c.maxHeight else c.maxWidth }

  // --- Line breaking --------------------------------------------------------------------------

  // The space a line takes: the items and the gaps between them.
  function Used(f: Flex, line: seq<LayoutItem>): nat {
    if |line| <= 1 then (if line == [] then 0 else Basis(f, line[0]))
    else Used(f, line[..|line| - 1]) + f.gap + Basis(f, line[|line| - 1])
  }

  function Flatten(lines: seq<seq<LayoutItem>>): seq<LayoutItem> {
    if lines == [] then [] else Flatten(lines[..|lines| - 1]) + lines[|lines| - 1]
  }

  // No line is empty, a line of several items fits, and the first item of the next line would not
  // have fitted on it.
  ghost predicate Broken(f: Flex, lines: seq<seq<LayoutItem>>) {
    && (forall k | 0 <= k < |lines| :: lines[k] != [] && (1 < |lines[k]| ==> Used(f, lines[k]) <= f.main))
    && (forall k | 0 <= k < |lines| - 1 :: f.main < Used(f, lines[k]) + f.gap + Basis(f, lines[k + 1][0]))
  }

  method BreakLines(f: Flex, children: seq<LayoutItem>) returns (lines: seq<seq<LayoutItem>>)
    requires children != [] && f.wrap
    ensures Flatten(lines) == children && Broken(f, lines)
  {
    hide Used, Broken, Flatten;
    lines := [];
    var current: seq<LayoutItem> := [];
    var used := 0;
    FlattenNone();
    for k := 0 to |children|
      invariant Flatten(lines) + current == children[..k]
      invariant k == 0 ==> lines == [] && current == []
      invariant 0 < k ==> current != [] && Broken(f, lines + [current]) && used == Used(f, current)
    {
      var child := children[k];
      if current != [] && f.main < used + f.gap + Basis(f, child) {
        BreakAt(f, lines, current, child);
        lines := lines + [current];
        current, used := [child], Basis(f, child);
      } else if current != [] {
        KeepOn(f, lines, current, child);
        current, used := current + [child], used + f.gap + Basis(f, child);
      } else {
        FirstItem(f, child);
        current, used := [child], Basis(f, child);
      }
      assert children[..k + 1] == children[..k] + [child];
    }
    assert children[..|children|] == children;
    FlattenOneMore(lines, current);
    lines := lines + [current];
  }

  lemma FlattenNone()
    ensures Flatten([]) == []
  {
  }

  lemma FirstItem(f: Flex, child: LayoutItem)
    ensures Broken(f, [] + [[child]]) && Used(f, [child]) == Basis(f, child)
  {
  }

  lemma FlattenOneMore(lines: seq<seq<LayoutItem>>, line: seq<LayoutItem>)
    ensures Flatten(lines + [line]) == Flatten(lines) + line
  {
    assert (lines + [line])[..|lines|] == lines;
  }

  lemma BreakAt(f: Flex, lines: seq<seq<LayoutItem>>, current: seq<LayoutItem>, child: LayoutItem)
    requires current != [] && Broken(f, lines + [current]) && f.main < Used(f, current) + f.gap + Basis(f, child)
    ensures Broken(f, lines + [current] + [[child]]) && Used(f, [child]) == Basis(f, child)
    ensures Flatten(lines + [current]) + [child] == Flatten(lines) + current + [child]
  {
    assert Used(f, [child]) == Basis(f, child);
    hide Used;
    FlattenOneMore(lines, current);
    var before, after := lines + [current], lines + [current] + [[child]];
    forall k | 0 <= k < |after| - 1 ensures f.main < Used(f, after[k]) + f.gap + Basis(f, after[k + 1][0]) {
      assert after[k] == before[k];
      if k < |before| - 1 { assert after[k + 1] == before[k + 1]; }
    }
  }

  lemma KeepOn(f: Flex, lines: seq<seq<LayoutItem>>, current: seq<LayoutItem>, child: LayoutItem)
    requires current != [] && Broken(f, lines + [current]) && Used(f, current) + f.gap + Basis(f, child) <= f.main
    ensures Broken(f, lines + [current + [child]])
    ensures Used(f, current + [child]) == Used(f, current) + f.gap + Basis(f, child)
    ensures Flatten(lines) + (current + [child]) == Flatten(lines) + current + [child]
  {
    assert (current + [child])[..|current|] == current;
    assert Used(f, current + [child]) == Used(f, current) + f.gap + Basis(f, child);
    hide Used;
    var before, after := lines + [current], lines + [current + [child]];
    forall k | 0 <= k < |after| ensures after[k] != [] && (1 < |after[k]| ==> Used(f, after[k]) <= f.main) {
      assert k < |lines| ==> after[k] == before[k];
    }
    assert before[|lines|] == current;
    forall k | 0 <= k < |after| - 1 ensures f.main < Used(f, after[k]) + f.gap + Basis(f, after[k + 1][0]) {
      assert after[k] == before[k] && after[k + 1][0] == before[k + 1][0];
    }
  }

  // --- Placement on a line --------------------------------------------------------------------

  // An item placed in the container: offsets and sizes along and across the main axis.
  datatype Placed = Placed(id: nat, main: nat, cross: nat, mainSize: nat, crossSize: nat)

  function TotalBasis(f: Flex, line: seq<LayoutItem>): nat {
    if line == [] then 0 else TotalBasis(f, line[..|line| - 1]) + Basis(f, line[|line| - 1])
  }

  function TotalGrow(line: seq<LayoutItem>): real {
    if line == [] then 0.0 else TotalGrow(line[..|line| - 1]) + line[|line| - 1].grow
  }

  function WidestCross(f: Flex, line: seq<LayoutItem>): nat {
    if line == [] then 0 else Max(WidestCross(f, line[..|line| - 1]), CrossBasis(f, line[|line| - 1]))
  }

  // The size of the line across the main axis.
  function LineCross(f: Flex, line: seq<LayoutItem>): nat {
    if f.wrap then WidestCross(f, line) else f.cross
  }

  // The space left on the line, or 0.
  function Free(f: Flex, line: seq<LayoutItem>): nat
    requires line != []
  {
    Max(f.main - TotalBasis(f, line) - (|line| - 1) * f.gap, 0)
  }

  // Whether the free space is distributed by justification.
  predicate Justifies(f: Flex, line: seq<LayoutItem>)
    requires line != []
  {
    TotalGrow(line) == 0.0 && 0 < Free(f, line)
  }

  // Where the first item starts.
  function Lead(f: Flex, line: seq<LayoutItem>): nat
    requires line != []
  {
    if !Justifies(f, line) then 0
    else match f.justify
         case JustifyStart => 0
         case JustifyCenter => Free(f, line) / 2
         case JustifyEnd => Free(f, line)
         case SpaceBetween => 0
         case SpaceAround => Free(f, line) / (2 * |line|)
  }

  // The extra gap of the two spacing modes.
  function Extra(f: Flex, line: seq<LayoutItem>): nat
    requires line != []
  {
    if !Justifies(f, line) then 0
    else if f.justify == SpaceBetween && 1 < |line| then Free(f, line) / (|line| - 1)
    else if f.justify == SpaceAround then Free(f, line) / |line|
    else 0
  }

  // The distance between two neighbours; SpaceAround adds its extra gap twice.
  function Stride(f: Flex, line: seq<LayoutItem>): nat
    requires line != []
  {
    f.gap + Extra(f, line) + if f.justify == SpaceAround then Extra(f, line) else 0
  }

  function MainSize(f: Flex, line: seq<LayoutItem>, c: LayoutItem): nat
    requires line != []
  {
    var total := TotalGrow(line);
    AtMost(Basis(f, c) + (if 0.0 < total then f.share(Free(f, line), c.grow, total) else 0), MaxMain(f, c))
  }

  function CrossSize(f: Flex, line: seq<LayoutItem>, c: LayoutItem): nat {
    AtMost(if f.align == AlignStretch then LineCross(f, line) else CrossBasis(f, c), MaxCross(f, c))
  }

  function CrossOffset(f: Flex, line: seq<LayoutItem>, c: LayoutItem): nat {
    var slack := Max(LineCross(f, line) - CrossSize(f, line, c), 0);
    match f.align
    case AlignStart => 0
    case AlignStretch => 0
    case AlignCenter => slack / 2
    case AlignEnd => slack
  }

  // Where the k-th item starts.
  function Pos(f: Flex, line: seq<LayoutItem>, k: nat): nat
    requires k < |line|
  {
    if k == 0 then Lead(f, line) else Pos(f, line, k - 1) + MainSize(f, line, line[k - 1]) + Stride(f, line)
  }

  function PlacedAt(f: Flex, line: seq<LayoutItem>, cross: nat, k: nat): Placed
    requires k < |line|
  {
    var c := line[k];
    Placed(c.id, Pos(f, line, k), cross + CrossOffset(f, line, c), MainSize(f, line, c), CrossSize(f, line, c))
  }

  // One line: a first pass over its items for the totals, a second one to place them.
  method PlaceLine(f: Flex, line: seq<LayoutItem>, cross: nat) returns (placed: seq<Placed>, lineCross: nat)
    requires line != []
    ensures lineCross == LineCross(f, line)
    ensures |placed| == |line| && forall k | 0 <= k < |line| :: placed[k] == PlacedAt(f, line, cross, k)
  {
    var totalBasis, totalGrow := 0, 0.0;
    lineCross := 0;
    for k := 0 to |line|
      invariant totalBasis == TotalBasis(f, line[..k]) && totalGrow == TotalGrow(line[..k])
      invariant lineCross == WidestCross(f, line[..k])
    {
      assert line[..k + 1][..k] == line[..k];
      totalBasis := totalBasis + Basis(f, line[k]);
      totalGrow := totalGrow + line[k].grow;
      lineCross := Max(lineCross, CrossBasis(f, line[k]));
    }
    assert line[..|line|] == line;
    if !f.wrap { lineCross := f.cross; }
    placed := PlaceItems(f, line, cross, totalBasis, totalGrow, lineCross);
  }

  method PlaceItems(f: Flex, line: seq<LayoutItem>, cross: nat, totalBasis: nat, totalGrow: real, lineCross: nat)
    returns (placed: seq<Placed>)
    requires line != [] && totalBasis == TotalBasis(f, line) && totalGrow == TotalGrow(line)
             && lineCross == LineCross(f, line)
    ensures |placed| == |line| && forall k | 0 <= k < |line| :: placed[k] == PlacedAt(f, line, cross, k)
  {
    hide TotalBasis, TotalGrow, LineCross;
    var count := |line|;
    var free := Max(f.main - totalBasis - (count - 1) * f.gap, 0);
    var pos, extra := 0, 0;
    if totalGrow == 0.0 && 0 < free {
      match f.justify {
        case JustifyStart =>
        case JustifyCenter => pos := free / 2;
        case JustifyEnd => pos := free;
        case SpaceBetween => if 1 < count { extra := free / (count - 1); }
        case SpaceAround =>
          pos := free / (2 * count);
          extra := free / count;
      }
    }
    assert free == Free(f, line) && pos == Lead(f, line) && extra == Extra(f, line);
    hide Lead, Extra, Free;
    placed := [];
    for k := 0 to count
      invariant |placed| == k && forall m | 0 <= m < k :: placed[m] == PlacedAt(f, line, cross, m)
      invariant k < count ==> pos == Pos(f, line, k)
    {
      var c := line[k];
      var size := AtMost(Basis(f, c) + (if 0.0 < totalGrow then f.share(free, c.grow, totalGrow) else 0),
                         MaxMain(f, c));
      var crossSize := AtMost(if f.align == AlignStretch then lineCross else CrossBasis(f, c), MaxCross(f, c));
      var slack := Max(lineCross - crossSize, 0);
      var offset := match f.align
        case AlignStart => 0
        case AlignStretch => 0
        case AlignCenter => slack / 2
        case AlignEnd => slack;
      placed := placed + [Placed(c.id, pos, cross + offset, size, crossSize)];
      pos := pos + size + (f.gap + extra);
      if f.justify == SpaceAround { pos := pos + extra; }
    }
  }

  // --- Disjointness ---------------------------------------------------------------------------

  predicate Apart(a: Placed, b: Placed) {
    || a.main + a.mainSize <= b.main || b.main + b.mainSize <= a.main
    || a.cross + a.crossSize <= b.cross || b.cross + b.crossSize <= a.cross
  }

  ghost predicate AllApart(ps: seq<Placed>) {
    forall i, j | 0 <= i < j < |ps| :: Apart(ps[i], ps[j])
  }

  // Items of a line follow each other along the main axis, at least the gap apart.
  lemma {:induction false} ItemsFollow(f: Flex, line: seq<LayoutItem>, j: nat, k: nat)
    requires j < k < |line|
    ensures Pos(f, line, j) + MainSize(f, line, line[j]) + f.gap <= Pos(f, line, k)
  {
    if j < k - 1 {
      ItemsFollow(f, line, j, k - 1);
    }
  }

  lemma {:induction false} WidestIsWidest(f: Flex, line: seq<LayoutItem>, c: LayoutItem)
    requires c in line
    ensures CrossBasis(f, c) <= WidestCross(f, line)
  {
    if c != line[|line| - 1] {
      WidestIsWidest(f, line[..|line| - 1], c);
    }
  }

  // On a wrapped line every item stays inside the line's band.
  lemma ItemInBand(f: Flex, line: seq<LayoutItem>, c: LayoutItem)
    requires f.wrap && c in line
    ensures CrossOffset(f, line, c) + CrossSize(f, line, c) <= LineCross(f, line)
  {
    WidestIsWidest(f, line, c);
  }

  ghost predicate InBand(p: Placed, lo: nat, hi: nat) { lo <= p.cross && p.cross + p.crossSize <= hi }

  // The items of one line are apart, and inside the band of a wrapped line.
  lemma LineApart(f: Flex, line: seq<LayoutItem>, cross: nat, placed: seq<Placed>)
    requires |placed| == |line| && forall k | 0 <= k < |line| :: placed[k] == PlacedAt(f, line, cross, k)
    ensures AllApart(placed)
    ensures f.wrap ==> forall p | p in placed :: InBand(p, cross, cross + LineCross(f, line))
  {
    forall i, j | 0 <= i < j < |placed| ensures Apart(placed[i], placed[j]) {
      ItemsFollow(f, line, i, j);
    }
    if f.wrap {
      forall k | 0 <= k < |placed| ensures InBand(placed[k], cross, cross + LineCross(f, line)) {
        ItemInBand(f, line, line[k]);
      }
    }
  }

  // --- The whole layout -----------------------------------------------------------------------

  ghost predicate Matches(ps: seq<Placed>, children: seq<LayoutItem>) {
    |ps| == |children| && forall k | 0 <= k < |ps| :: ps[k].id == children[k].id
  }

  lemma JoinApart(a: seq<Placed>, b: seq<Placed>, border: nat)
    requires AllApart(a) && AllApart(b)
    requires (forall p | p in a :: p.cross + p.crossSize <= border) && (forall p | p in b :: border <= p.cross)
    ensures AllApart(a + b)
  {
    forall i, j | 0 <= i < j < |a + b| ensures Apart((a + b)[i], (a + b)[j]) {
      if i < |a| && |a| <= j {
        assert a[i] in a && b[j - |a|] in b;
      }
    }
  }

  // The items of one line.
  function PlacedLine(f: Flex, line: seq<LayoutItem>, cross: nat): seq<Placed> {
    seq(|line|, k requires 0 <= k < |line| => PlacedAt(f, line, cross, k))
  }

  // Where the line after the given ones starts.
  function NextCross(f: Flex, lines: seq<seq<LayoutItem>>): nat {
    if lines == [] then 0 else NextCross(f, lines[..|lines| - 1]) + LineCross(f, lines[|lines| - 1]) + f.gap
  }

  // The items of all lines, line by line.
  function PlacedLines(f: Flex, lines: seq<seq<LayoutItem>>): seq<Placed> {
    if lines == [] then []
    else PlacedLines(f, lines[..|lines| - 1]) + PlacedLine(f, lines[|lines| - 1], NextCross(f, lines[..|lines| - 1]))
  }

  // The children are broken into lines and placed line by line: one rectangle per child, in
  // order, all apart, for every justification, alignment and growth share.
  method LayoutFlex(f: Flex, children: seq<LayoutItem>) returns (result: seq<Placed>, ghost lines: seq<seq<LayoutItem>>)
    ensures Flatten(lines) == children && result == PlacedLines(f, lines)
    ensures if f.wrap then Broken(f, lines) else children != [] ==> lines == [children]
    ensures Matches(result, children) && AllApart(result)
  {
    result, lines := [], [];
    if children == [] { return; }
    var ls := [children];
    if f.wrap {
      ls := BreakLines(f, children);
    } else {
      assert [children][..0] == [];
      assert Flatten([children]) == children;
    }
    result := PlaceLines(f, ls);
    lines := ls;
  }

  method PlaceLines(f: Flex, lines: seq<seq<LayoutItem>>) returns (result: seq<Placed>)
    requires (f.wrap || |lines| == 1) && forall k | 0 <= k < |lines| :: lines[k] != []
    ensures result == PlacedLines(f, lines) && Matches(result, Flatten(lines)) && AllApart(result)
  {
    hide Flatten, PlacedLines, NextCross, LineCross, AllApart, Matches;
    NoLines(f);
    result := [];
    var cross: nat := 0;
    for k := 0 to |lines|
      invariant result == PlacedLines(f, lines[..k]) && cross == NextCross(f, lines[..k])
      invariant Matches(result, Flatten(lines[..k])) && AllApart(result)
      invariant f.wrap ==> forall p | p in result :: p.cross + p.crossSize <= cross
      invariant !f.wrap && k == 0 ==> result == []
    {
      assert lines[..k + 1] == lines[..k] + [lines[k]];
      var placed, lineCross := PlaceLine(f, lines[k], cross);
      OneMoreLine(f, lines[..k], lines[k], result, placed);
      result := result + placed;
      cross := cross + lineCross + f.gap;
    }
    assert lines[..|lines|] == lines;
  }

  lemma NoLines(f: Flex)
    ensures PlacedLines(f, []) == [] && NextCross(f, []) == 0 && Matches([], Flatten([])) && AllApart([])
  {
  }

  // Placing one more line below the others.
  lemma OneMoreLine(f: Flex, lines: seq<seq<LayoutItem>>, line: seq<LayoutItem>, result: seq<Placed>,
                    placed: seq<Placed>)
    requires line != [] && result == PlacedLines(f, lines) && Matches(result, Flatten(lines)) && AllApart(result)
    requires |placed| == |line| && forall k | 0 <= k < |line| :: placed[k] == PlacedAt(f, line, NextCross(f, lines), k)
    requires if f.wrap then forall p | p in result :: p.cross + p.crossSize <= NextCross(f, lines) else result == []
    ensures result + placed == PlacedLines(f, lines + [line])
    ensures NextCross(f, lines + [line]) == NextCross(f, lines) + LineCross(f, line) + f.gap
    ensures Matches(result + placed, Flatten(lines + [line])) && AllApart(result + placed)
    ensures f.wrap ==> forall p | p in result + placed :: p.cross + p.crossSize <= NextCross(f, lines + [line])
  {
    hide Flatten, LineCross, PlacedAt, PlacedLine, PlacedLines, NextCross, Matches, AllApart;
    var cross := NextCross(f, lines);
    LinesUnfold(f, lines, line, placed);
    FlattenOneMore(lines, line);
    IdsMatch(f, line, cross, placed);
    MatchesConcat(result, placed, Flatten(lines), line);
    LineApart(f, line, cross, placed);
    if f.wrap {
      JoinApart(result, placed, cross);
    } else {
      assert result + placed == placed;
    }
  }

  lemma LinesUnfold(f: Flex, lines: seq<seq<LayoutItem>>, line: seq<LayoutItem>, placed: seq<Placed>)
    requires |placed| == |line| && forall k | 0 <= k < |line| :: placed[k] == PlacedAt(f, line, NextCross(f, lines), k)
    ensures PlacedLines(f, lines + [line]) == PlacedLines(f, lines) + placed
    ensures NextCross(f, lines + [line]) == NextCross(f, lines) + LineCross(f, line) + f.gap
  {
    assert (lines + [line])[..|lines|] == lines;
    hide PlacedAt, LineCross;
    assert placed == PlacedLine(f, line, NextCross(f, lines));
  }

  lemma MatchesConcat(a: seq<Placed>, b: seq<Placed>, c: seq<LayoutItem>, d: seq<LayoutItem>)
    requires Matches(a, c) && Matches(b, d)
    ensures Matches(a + b, c + d)
  {
  }

  lemma IdsMatch(f: Flex, line: seq<LayoutItem>, cross: nat, placed: seq<Placed>)
    requires |placed| == |line| && forall k | 0 <= k < |line| :: placed[k] == PlacedAt(f, line, cross, k)
    ensures Matches(placed, line)
  {
  }

  // In the container, for both directions.
  function ToRect(f: Flex, container: Rect, p: Placed): Rect {
    if f.isRow then Rect(container.x + p.main, container.y + p.cross, p.mainSize, p.crossSize)
    else Rect(container.x + p.cross, container.y + p.main, p.crossSize, p.mainSize)
  }

  // Placed items that are apart give rectangles that share no pixel.
  lemma RectsDisjoint(f: Flex, container: Rect, ps: seq<Placed>, i: nat, j: nat, x: int, y: int)
    requires AllApart(ps) && i < j < |ps|
    ensures !(Inside(ToRect(f, container, ps[i]), x, y) && Inside(ToRect(f, container, ps[j]), x, y))
  {
  }

  // --- Staying inside the main axis -----------------------------------------------------------

  lemma DivTimes(a: nat, n: nat)
    requires 1 <= n
    ensures n * (a / n) <= a
  {
  }

  // What the items take when the line does not grow: their sizes, cut down to their maxima.
  function TotalSize(f: Flex, line: seq<LayoutItem>): nat {
    if line == [] then 0
    else TotalSize(f, line[..|line| - 1]) + AtMost(Basis(f, line[|line| - 1]), MaxMain(f, line[|line| - 1]))
  }

  lemma {:induction false} SizesAtMostBasis(f: Flex, line: seq<LayoutItem>)
    ensures TotalSize(f, line) <= TotalBasis(f, line)
  {
    if line != [] {
      SizesAtMostBasis(f, line[..|line| - 1]);
    }
  }

  // The far edge of the k-th item of a line that does not grow.
  function Edge(f: Flex, line: seq<LayoutItem>, k: nat): int
    requires k < |line|
  {
    Lead(f, line) + TotalSize(f, line[..k + 1]) + k * Stride(f, line)
  }

  lemma {:induction false} EdgeIsEnd(f: Flex, line: seq<LayoutItem>, k: nat)
    requires k < |line| && TotalGrow(line) == 0.0
    ensures Pos(f, line, k) + MainSize(f, line, line[k]) == Edge(f, line, k)
  {
    hide Lead, Stride, Free;
    assert line[..k + 1][..k] == line[..k];
    if 0 < k {
      EdgeIsEnd(f, line, k - 1);
      OneStrideMore(k, Stride(f, line));
    } else {
      assert TotalSize(f, line[..0]) == 0;
    }
  }

  lemma OneStrideMore(k: nat, stride: nat)
    requires 1 <= k
    ensures k * stride == (k - 1) * stride + stride
  {
  }

  predicate FitsMain(f: Flex, line: seq<LayoutItem>)
    requires line != []
  {
    TotalBasis(f, line) + (|line| - 1) * f.gap <= f.main
  }

  ghost predicate StaysInside(f: Flex, line: seq<LayoutItem>) {
    forall k | 0 <= k < |line| :: Pos(f, line, k) + MainSize(f, line, line[k]) <= f.main
  }

  // The last item reaches furthest.
  lemma LastDecides(f: Flex, line: seq<LayoutItem>)
    requires line != []
    ensures StaysInside(f, line)
       <==> Pos(f, line, |line| - 1) + MainSize(f, line, line[|line| - 1]) <= f.main
  {
    hide Pos, MainSize;
    forall k | 0 <= k < |line| - 1
      ensures Pos(f, line, k) + MainSize(f, line, line[k]) <= Pos(f, line, |line| - 1)
    {
      ItemsFollow(f, line, k, |line| - 1);
    }
  }

  // A line that does not grow stays inside if and only if its lead, its sizes and its strides fit.
  lemma StaysInsideIff(f: Flex, line: seq<LayoutItem>)
    requires line != [] && TotalGrow(line) == 0.0
    ensures StaysInside(f, line) <==> Lead(f, line) + TotalSize(f, line) + (|line| - 1) * Stride(f, line) <= f.main
  {
    assert line[..|line|] == line;
    LastDecides(f, line);
    EdgeIsEnd(f, line, |line| - 1);
    hide Pos, MainSize, Lead, Stride, TotalSize, StaysInside;
  }

  lemma DoubledGaps(n: nat, gap: nat, extra: nat)
    ensures n * (gap + extra) == n * gap + n * extra
    ensures n * (gap + extra + extra) == n * gap + n * extra * 2
  {
  }

  // A line that fits and does not grow stays inside the main axis in every mode but SpaceAround.
  lemma StaysInsideUnlessAround(f: Flex, line: seq<LayoutItem>)
    requires line != [] && TotalGrow(line) == 0.0 && FitsMain(f, line) && f.justify != SpaceAround
    ensures StaysInside(f, line)
  {
    StaysInsideIff(f, line);
    SizesAtMostBasis(f, line);
    FreeWhenFits(f, line);
    DoubledGaps(|line| - 1, f.gap, Extra(f, line));
    if 1 < |line| {
      DivTimes(Free(f, line), |line| - 1);
    }
    hide TotalBasis, TotalSize, StaysInside, Free;
  }

  lemma {:induction false} UsedIsTotal(f: Flex, line: seq<LayoutItem>)
    requires line != []
    ensures Used(f, line) == TotalBasis(f, line) + (|line| - 1) * f.gap
  {
    if 1 < |line| {
      UsedIsTotal(f, line[..|line| - 1]);
      OneStrideMore(|line| - 1, f.gap);
    } else {
      assert TotalBasis(f, line[..0]) == 0;
    }
  }

  // So every line of several items that line breaking makes stays inside.
  lemma BrokenLinesStayInside(f: Flex, lines: seq<seq<LayoutItem>>, k: nat)
    requires Broken(f, lines) && k < |lines| && 1 < |lines[k]|
    requires TotalGrow(lines[k]) == 0.0 && f.justify != SpaceAround
    ensures StaysInside(f, lines[k])
  {
    UsedIsTotal(f, lines[k]);
    hide Used, TotalBasis, TotalGrow;
    StaysInsideUnlessAround(f, lines[k]);
  }

  // SpaceAround adds its extra gap twice between items: a line that does not grow stays inside if
  // and only if its sizes, its gaps, the lead and the doubled extra gaps fit.
  lemma SpaceAroundStaysInsideIff(f: Flex, line: seq<LayoutItem>)
    requires line != [] && TotalGrow(line) == 0.0 && f.justify == SpaceAround
    ensures StaysInside(f, line)
       <==> TotalSize(f, line) + (|line| - 1) * f.gap
            + Free(f, line) / (2 * |line|) + 2 * (|line| - 1) * (Free(f, line) / |line|) <= f.main
  {
    StaysInsideIff(f, line);
    AroundLead(f, line);
    hide TotalGrow, TotalSize, Lead, Extra, Free, StaysInside;
    DoubledGaps(|line| - 1, f.gap, Extra(f, line));
    Doubled(|line| - 1, Free(f, line) / |line|);
  }

  lemma FreeWhenFits(f: Flex, line: seq<LayoutItem>)
    requires line != [] && FitsMain(f, line)
    ensures Free(f, line) + TotalBasis(f, line) + (|line| - 1) * f.gap == f.main
  {
  }

  lemma Doubled(n: nat, q: nat)
    ensures 2 * n * q == n * q * 2
  {
  }

  lemma AroundLead(f: Flex, line: seq<LayoutItem>)
    requires line != [] && TotalGrow(line) == 0.0 && f.justify == SpaceAround
    ensures Lead(f, line) == Free(f, line) / (2 * |line|) && Extra(f, line) == Free(f, line) / |line|
  {
    if Free(f, line) == 0 {
      ZeroShare(2 * |line|);
      ZeroShare(|line|);
    }
  }

  lemma ZeroShare(n: nat)
    requires 1 <= n
    ensures 0 / n == 0
  {
  }

  // Two items of width 1 on an axis of 6: the second one ends at 7.
  lemma SpaceAroundOverflows(f: Flex, c: LayoutItem)
    requires f.isRow && f.gap == 0 && f.main == 6 && f.justify == SpaceAround
    requires c.minWidth == 1 && c.maxWidth == None && c.grow == 0.0
    ensures FitsMain(f, [c, c]) && !StaysInside(f, [c, c])
  {
    var line := [c, c];
    assert line[..1][..0] == [] && line[..1] == [c];
    assert TotalBasis(f, [c]) == 1 && TotalBasis(f, line) == 2;
    assert TotalGrow([c]) == 0.0 && TotalGrow(line) == 0.0;
    assert Free(f, line) == 4;
    SpaceAroundStaysInsideIff(f, line);
  }
}
