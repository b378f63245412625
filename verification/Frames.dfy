// Physical ranges and the page frames in them, the vocabulary of the frame allocators
// (kernel/src/mm/allocator.rs, kernel/src/mm/pools.rs). Addresses are unbounded.
module Frames {

  const FRAME := 0x1000

  datatype Range = Range(start: nat, end: nat)

  datatype Region = Region(base: nat, len: nat, usable: bool)

  function AlignUp(n: nat): nat { (n + 0xFFF) / FRAME * FRAME }

  lemma AlignUpBounds(n: nat)
    ensures n <= AlignUp(n) < n + FRAME && AlignUp(n) % FRAME == 0
    ensures n % FRAME == 0 ==> AlignUp(n) == n
  {
  }

  lemma NoFrameBelow(n: nat, p: nat)
    requires p % FRAME == 0 && n <= p
    ensures AlignUp(n) <= p
  {
  }

  // The whole aligned frames of [from, end), in order.
  function PagesFrom(from: nat, end: nat): seq<nat>
    decreases if from < end then end - from else 0
  {
    AlignUpBounds(from);
    var p := AlignUp(from);
    if p + FRAME <= end then [p] + PagesFrom(p + FRAME, end) else []
  }

  // The frames of a list of ranges, range by range.
  function Pages(rs: seq<Range>): seq<nat> {
    if rs == [] then [] else PagesFrom(rs[0].start, rs[0].end) + Pages(rs[1..])
  }

  predicate FrameIn(p: nat, from: nat, end: nat) {
    p % FRAME == 0 && from <= p && p + FRAME <= end
  }

  ghost predicate Distinct(ps: seq<nat>) {
    forall i, j | 0 <= i < j < |ps| :: ps[i] != ps[j]
  }

  predicate Disjoint(a: Range, b: Range) {
    a.end <= b.start || b.end <= a.start || a.end <= a.start || b.end <= b.start
  }

  ghost predicate PairwiseDisjoint(rs: seq<Range>) {
    forall i, j | 0 <= i < j < |rs| :: Disjoint(rs[i], rs[j])
  }

  predicate Holds(r: Range, a: nat) { r.start <= a < r.end }

  ghost predicate Covered(rs: seq<Range>, a: nat) {
    exists r | r in rs :: Holds(r, a)
  }

  // A range lists exactly the aligned frames that fit in it, ascending.
  lemma {:induction false} PagesFromExact(from: nat, end: nat)
    ensures forall p :: p in PagesFrom(from, end) <==> FrameIn(p, from, end)
    ensures forall i, j | 0 <= i < j < |PagesFrom(from, end)| :: PagesFrom(from, end)[i] < PagesFrom(from, end)[j]
    decreases if from < end then end - from else 0
  {
    AlignUpBounds(from);
    var q := AlignUp(from);
    if q + FRAME <= end {
      PagesFromExact(q + FRAME, end);
      var rest := PagesFrom(q + FRAME, end);
      assert PagesFrom(from, end) == [q] + rest;
      assert forall p | p in rest :: q < p;
      forall i, j | 0 <= i < j < |[q] + rest| ensures ([q] + rest)[i] < ([q] + rest)[j] {
        assert ([q] + rest)[j] == rest[j - 1] && rest[j - 1] in rest;
      }
      forall p: nat ensures p in PagesFrom(from, end) <==> FrameIn(p, from, end) {
        if FrameIn(p, from, end) && p != q {
          NextFrame(from, p);
          assert p in rest;
        }
      }
    } else {
      forall p: nat ensures !FrameIn(p, from, end) {
        if p % FRAME == 0 && from <= p { NoFrameBelow(from, p); }
      }
    }
  }

  // A frame above the first one is at least one frame above it.
  lemma NextFrame(from: nat, p: nat)
    requires p % FRAME == 0 && from <= p && p != AlignUp(from)
    ensures AlignUp(from) + FRAME <= p
  {
    NoFrameBelow(from, p);
    AlignUpBounds(from);
  }

  ghost predicate FrameInSome(p: nat, rs: seq<Range>) {
    exists r | r in rs :: FrameIn(p, r.start, r.end)
  }

  // A list of ranges lists exactly the frames that fit in one of them.
  lemma {:induction false} PagesExact(rs: seq<Range>, p: nat)
    ensures p in Pages(rs) <==> FrameInSome(p, rs)
  {
    if rs != [] {
      PagesFromExact(rs[0].start, rs[0].end);
      PagesExact(rs[1..], p);
      assert forall r :: r in rs <==> r == rs[0] || r in rs[1..];
    }
  }

  lemma DistinctConcat(a: seq<nat>, b: seq<nat>)
    requires Distinct(a) && Distinct(b) && forall p, q | p in a && q in b :: p != q
    ensures Distinct(a + b)
  {
    forall i, j | 0 <= i < j < |a + b| ensures (a + b)[i] != (a + b)[j] {
      if i < |a| && |a| <= j {
        assert a[i] in a && b[j - |a|] in b;
      }
    }
  }

  // Disjoint ranges list no frame twice.
  lemma {:induction false} PagesDistinct(rs: seq<Range>)
    requires PairwiseDisjoint(rs)
    ensures Distinct(Pages(rs))
  {
    if rs != [] {
      var r, rest := rs[0], rs[1..];
      PagesDistinct(rest);
      PagesFromExact(r.start, r.end);
      forall p, q | p in PagesFrom(r.start, r.end) && q in Pages(rest) ensures p != q {
        PagesExact(rest, q);
        var s :| s in rest && FrameIn(q, s.start, s.end);
        assert Disjoint(r, s);
      }
      DistinctConcat(PagesFrom(r.start, r.end), Pages(rest));
    }
  }
}
