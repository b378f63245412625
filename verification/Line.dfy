// The integer line rasteriser of compositor/src/framebuffer_backend.rs, seen through the offsets
// (i, j) walked from the start point towards the end point; d and e are the extents |dx| and |dy|.
module Line {

  // Twice the signed distance of (i, j) from the ideal line, scaled by the axis lengths.
  function Twice(d: nat, e: nat, i: int, j: int): int {
    2 * (d * j - e * i)
  }

  // Which offsets belong to the line: on the longer axis every offset appears, and the other
  // offset is the ideal one rounded half up, so it is at most half a pixel away.
  predicate OnLine(d: nat, e: nat, i: int, j: int) {
    && 0 <= i <= d
    && 0 <= j <= e
    && (if e <= d then d == 0 || 0 < Twice(d, e, i, j) + d <= d + d
        else 0 <= Twice(d, e, i, j) + e < e + e)
  }

  // The step count at an offset: its coordinate on the longer axis.
  function Major(d: nat, e: nat, i: int, j: int): int {
    if e <= d then i else j
  }

  function Steps(d: nat, e: nat): nat {
    if e <= d then d else e
  }

  // The source's error term at offset (i, j).
  function Err(d: nat, e: nat, i: int, j: int): int {
    d - e + d * j - e * i
  }

  // The offset after one turn of the loop: the two tests on e2 of the source.
  function Advance(d: nat, e: nat, i: int, j: int): (int, int) {
    var e2 := 2 * Err(d, e, i, j);
    (if 0 <= e2 + e then i + 1 else i, if e2 <= d then j + 1 else j)
  }

  lemma AdvanceBranches(d: nat, e: nat, i: int, j: int)
    ensures Advance(d, e, i, j).0 == if 0 <= 2 * Err(d, e, i, j) + e then i + 1 else i
    ensures Advance(d, e, i, j).1 == if 2 * Err(d, e, i, j) <= d then j + 1 else j
  {
  }

  lemma MultipleGrows(n: nat, k: int)
    ensures 1 <= k ==> n <= n * k
    ensures k <= -1 ==> n * k + n <= 0
  {
    if 1 <= k {
      assert n * k == n + n * (k - 1);
    } else if k <= -1 {
      assert n * k + n == n * (k + 1);
    }
  }

  // A line holds one offset per step.
  lemma OneOffsetPerStep(d: nat, e: nat, i: int, j: int, i': int, j': int)
    requires OnLine(d, e, i, j) && OnLine(d, e, i', j')
    requires Major(d, e, i, j) == Major(d, e, i', j')
    ensures i == i' && j == j'
  {
    if e <= d {
      assert d * j - d * j' == d * (j - j');
      MultipleGrows(d, j - j');
    } else {
      assert e * i - e * i' == e * (i - i');
      MultipleGrows(e, i - i');
    }
  }

  lemma EndsAreOnLine(d: nat, e: nat)
    ensures OnLine(d, e, 0, 0) && OnLine(d, e, d, e)
  {
    assert Twice(d, e, 0, 0) == 0;
    assert Twice(d, e, d, e) == 0 by { assert d * e == e * d; }
  }

  // The walk is at the end point exactly when all steps are taken.
  lemma EndIsLastStep(d: nat, e: nat, i: int, j: int)
    requires OnLine(d, e, i, j)
    ensures (i == d && j == e) <==> Major(d, e, i, j) == Steps(d, e)
  {
    EndsAreOnLine(d, e);
    if Major(d, e, i, j) == Steps(d, e) {
      OneOffsetPerStep(d, e, i, j, d, e);
    }
  }

  // How a step on either axis moves the distance and the error term.
  lemma StepMoves(d: nat, e: nat, i: int, j: int)
    ensures Twice(d, e, i + 1, j) == Twice(d, e, i, j) - 2 * e
    ensures Twice(d, e, i, j + 1) == Twice(d, e, i, j) + 2 * d
    ensures Twice(d, e, i + 1, j + 1) == Twice(d, e, i, j) + 2 * d - 2 * e
    ensures 2 * Err(d, e, i, j) == Twice(d, e, i, j) + 2 * d - 2 * e
  {
    assert e * (i + 1) == e * i + e;
    assert d * (j + 1) == d * j + d;
  }

  // How the source updates the error term in the two branches of its loop.
  lemma StepMovesErr(d: nat, e: nat, i: int, j: int)
    ensures Err(d, e, i + 1, j) == Err(d, e, i, j) - e
    ensures Err(d, e, i, j + 1) == Err(d, e, i, j) + d
    ensures Err(d, e, i + 1, j + 1) == Err(d, e, i, j) - e + d
  {
    assert e * (i + 1) == e * i + e;
    assert d * (j + 1) == d * j + d;
  }

  // The distance measured from the far corner.
  lemma FromFarCorner(d: nat, e: nat, i: int, j: int)
    ensures d * j - e * i == d * (j - e) - e * (i - d)
  {
    assert d * (j - e) == d * j - d * e;
    assert e * (i - d) == e * i - e * d;
  }

  // An offset that meets the rounding bound and has steps left lies in the box.
  lemma RoundingStaysInBox(d: nat, e: nat, i: int, j: int)
    requires 0 <= i && 0 <= j && 0 < Steps(d, e) && Major(d, e, i, j) <= Steps(d, e)
    requires if e <= d then Twice(d, e, i, j) <= d else 0 <= Twice(d, e, i, j) + e
    ensures i <= d && j <= e
  {
    FromFarCorner(d, e, i, j);
    var p, q := d * (j - e), e * (i - d);
    MultipleGrows(d, j - e);
    MultipleGrows(e, i - d);
    assert e <= d ==> q <= 0;
    assert d < e ==> p <= 0;
  }

  // One turn from a point of the line other than the end lands on the line, one step further.
  lemma AdvanceStaysOnLine(d: nat, e: nat, i: int, j: int)
    requires OnLine(d, e, i, j) && !(i == d && j == e)
    ensures var (i', j') := Advance(d, e, i, j);
            OnLine(d, e, i', j') && Major(d, e, i', j') == Major(d, e, i, j) + 1
  {
    EndIsLastStep(d, e, i, j);
    StepMoves(d, e, i, j);
    var (i', j') := Advance(d, e, i, j);
    RoundingStaysInBox(d, e, i', j');
  }

  // Half a pixel: the minor offset is within half a step of the ideal line.
  lemma WithinHalfPixel(d: nat, e: nat, i: int, j: int)
    requires OnLine(d, e, i, j)
    ensures 0 <= Twice(d, e, i, j) + Steps(d, e) <= 2 * Steps(d, e)
  {
    if d == 0 && e == 0 {
      assert d * j == 0 && e * i == 0;
    }
  }

  // The offset after k turns of the loop.
  function Walk(d: nat, e: nat, k: nat): (int, int) {
    if k == 0 then (0, 0)
    else
      var (i, j) := Walk(d, e, k - 1);
      Advance(d, e, i, j)
  }

  // The walk takes exactly Steps(d, e) turns: before that it is on the line, inside the box and not
  // yet at the end point, and then it is at the end point.
  lemma {:induction false} WalkTakesEveryStep(d: nat, e: nat, k: nat)
    requires k <= Steps(d, e)
    ensures var (i, j) := Walk(d, e, k);
            OnLine(d, e, i, j) && Major(d, e, i, j) == k && ((i == d && j == e) <==> k == Steps(d, e))
  {
    hide OnLine, Advance;
    if k == 0 {
      EndsAreOnLine(d, e);
    } else {
      WalkTakesEveryStep(d, e, k - 1);
      var (i, j) := Walk(d, e, k - 1);
      AdvanceStaysOnLine(d, e, i, j);
    }
    var (i, j) := Walk(d, e, k);
    EndIsLastStep(d, e, i, j);
  }
}
