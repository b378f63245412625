// Paging through the kernel's kind index (kernel/src/graph/store.rs) and following its cursor to
// the end (userland/src/runtime.rs, userland/src/graph.rs). The cursor of a page counts results,
// while the next page skips that many index positions, readable or not.
module Paging {

  const PAGE := 100

  // The readable ids among positions [from, to) of the index, in order.
  function Readable(ids: seq<nat>, readable: set<nat>, from: nat, to: nat): seq<nat>
    requires to <= |ids|
    decreases if from < to then to - from else 0
  {
    if to <= from then []
    else (if ids[from] in readable then [ids[from]] else []) + Readable(ids, readable, from + 1, to)
  }

  // Where a page that starts at `from` and wants n more results stops.
  function Stop(ids: seq<nat>, readable: set<nat>, from: nat, n: nat): (p: nat)
    ensures from <= |ids| ==> from <= p <= |ids|
    ensures |ids| < from ==> p == from
    decreases |ids| - from
  {
    if |ids| <= from || n == 0 then from
    else Stop(ids, readable, from + 1, if ids[from] in readable then n - 1 else n)
  }

  // The ids of one page.
  function Page(ids: seq<nat>, readable: set<nat>, cursor: nat): seq<nat> {
    var p := Stop(ids, readable, cursor, PAGE);
    if p <= |ids| then Readable(ids, readable, cursor, p) else []
  }

  // The cursor of the next page, or 0.
  function Next(ids: seq<nat>, readable: set<nat>, cursor: nat): nat {
    if Stop(ids, readable, cursor, PAGE) < |ids| then cursor + PAGE else 0
  }

  // Reading one more position.
  lemma {:induction false} ReadableOneMore(ids: seq<nat>, readable: set<nat>, from: nat, to: nat)
    requires from <= to < |ids|
    ensures Readable(ids, readable, from, to + 1)
         == Readable(ids, readable, from, to) + if ids[to] in readable then [ids[to]] else []
    decreases 1 + to - from
  {
    if from < to {
      ReadableOneMore(ids, readable, from + 1, to);
    } else {
      assert Readable(ids, readable, from + 1, to + 1) == [];
    }
  }

  // A page that stops early holds all n results it wanted.
  lemma {:induction false} StopsFull(ids: seq<nat>, readable: set<nat>, from: nat, n: nat)
    requires Stop(ids, readable, from, n) < |ids|
    ensures from + n <= Stop(ids, readable, from, n)
    ensures |Readable(ids, readable, from, Stop(ids, readable, from, n))| == n
    decreases |ids| - from
  {
    if 0 < n {
      StopsFull(ids, readable, from + 1, if ids[from] in readable then n - 1 else n);
    }
  }

  // Pages continue only while the index does.
  lemma NextIsInside(ids: seq<nat>, readable: set<nat>, cursor: nat)
    ensures Next(ids, readable, cursor) != 0 ==> cursor < Next(ids, readable, cursor) < |ids|
  {
    if Next(ids, readable, cursor) != 0 {
      StopsFull(ids, readable, cursor, PAGE);
    }
  }

  // Everything collected by following the cursor from a position.
  function Follow(ids: seq<nat>, readable: set<nat>, cursor: nat): seq<nat>
    decreases |ids| - cursor
  {
    NextIsInside(ids, readable, cursor);
    var next := Next(ids, readable, cursor);
    Page(ids, readable, cursor) + if next == 0 then [] else Follow(ids, readable, next)
  }

  lemma {:induction false} ReadableSplits(ids: seq<nat>, readable: set<nat>, from: nat, mid: nat, to: nat)
    requires from <= mid <= to <= |ids|
    ensures Readable(ids, readable, from, to) == Readable(ids, readable, from, mid) + Readable(ids, readable, mid, to)
    decreases if from < mid then mid - from else 0
  {
    if from < mid {
      ReadableSplits(ids, readable, from + 1, mid, to);
    }
  }

  ghost predicate Occurs(ids: seq<nat>, from: nat, to: nat, id: nat) {
    exists k | from <= k < to && k < |ids| :: ids[k] == id
  }

  lemma OccursSplits(ids: seq<nat>, from: nat, to: nat, id: nat)
    requires from < to <= |ids|
    ensures Occurs(ids, from, to, id) <==> ids[from] == id || Occurs(ids, from + 1, to, id)
  {
    if Occurs(ids, from, to, id) && ids[from] != id {
      var k :| from <= k < to && ids[k] == id;
      assert from + 1 <= k;
    }
  }

  lemma {:induction false} ReadableMembers(ids: seq<nat>, readable: set<nat>, from: nat, to: nat, id: nat)
    requires to <= |ids|
    ensures id in Readable(ids, readable, from, to) <==> id in readable && Occurs(ids, from, to, id)
    decreases if from < to then to - from else 0
  {
    if from < to {
      ReadableMembers(ids, readable, from + 1, to, id);
      OccursSplits(ids, from, to, id);
    }
  }

  // Following the cursor misses no readable id and invents none.
  lemma {:induction false} FollowMissesNothing(ids: seq<nat>, readable: set<nat>, cursor: nat, id: nat)
    ensures id in Follow(ids, readable, cursor) <==> id in readable && Occurs(ids, cursor, |ids|, id)
    decreases |ids| - cursor
  {
    NextIsInside(ids, readable, cursor);
    var stop, next := Stop(ids, readable, cursor, PAGE), Next(ids, readable, cursor);
    if stop <= |ids| {
      ReadableMembers(ids, readable, cursor, stop, id);
    }
    if next != 0 {
      StopsFull(ids, readable, cursor, PAGE);
      FollowMissesNothing(ids, readable, next, id);
    }
  }

  lemma {:induction false} ReadableLength(ids: seq<nat>, readable: set<nat>, from: nat, to: nat)
    requires from <= to <= |ids|
    ensures |Readable(ids, readable, from, to)| <= to - from
    ensures |Readable(ids, readable, from, to)| == to - from
       <==> (forall k | from <= k < to :: ids[k] in readable)
    decreases if from < to then to - from else 0
  {
    if from < to {
      ReadableLength(ids, readable, from + 1, to);
      assert (forall k | from <= k < to :: ids[k] in readable)
        <==> ids[from] in readable && forall k | from + 1 <= k < to :: ids[k] in readable;
    }
  }

  // Following never yields fewer results than there are readable ids.
  lemma {:induction false} FollowIsLongEnough(ids: seq<nat>, readable: set<nat>, cursor: nat)
    requires cursor <= |ids|
    ensures |Readable(ids, readable, cursor, |ids|)| <= |Follow(ids, readable, cursor)|
    decreases |ids| - cursor
  {
    var next := Next(ids, readable, cursor);
    NextIsInside(ids, readable, cursor);
    if next != 0 {
      StopsFull(ids, readable, cursor, PAGE);
      FollowIsLongEnough(ids, readable, next);
      ReadableSplits(ids, readable, cursor, next, |ids|);
      ReadableLength(ids, readable, cursor, next);
    }
  }

  // Every page but the last starts with a full page of readable ids.
  predicate FullPages(ids: seq<nat>, readable: set<nat>, cursor: nat)
    decreases |ids| - cursor
  {
    NextIsInside(ids, readable, cursor);
    var next := Next(ids, readable, cursor);
    next != 0 ==> (forall k | cursor <= k < next :: ids[k] in readable) && FullPages(ids, readable, next)
  }

  // A page that starts with a full page of readable ids stops right after it.
  lemma {:induction false} StopsAtOnce(ids: seq<nat>, readable: set<nat>, from: nat, n: nat)
    requires from + n <= |ids| && forall k | from <= k < from + n :: ids[k] in readable
    ensures Stop(ids, readable, from, n) == from + n
    decreases n
  {
    if 0 < n {
      StopsAtOnce(ids, readable, from + 1, n - 1);
    }
  }

  // The caller sees every readable id exactly once, in order, if and only if every page but the
  // last starts with a full page of readable ids.
  lemma {:induction false} ExactlyOnceIff(ids: seq<nat>, readable: set<nat>, cursor: nat)
    requires cursor <= |ids|
    ensures Follow(ids, readable, cursor) == Readable(ids, readable, cursor, |ids|)
            <==> FullPages(ids, readable, cursor)
    decreases |ids| - cursor
  {
    var next := Next(ids, readable, cursor);
    NextIsInside(ids, readable, cursor);
    if next != 0 {
      StopsFull(ids, readable, cursor, PAGE);
      ExactlyOnceIff(ids, readable, next);
      FollowIsLongEnough(ids, readable, next);
      ReadableSplits(ids, readable, cursor, next, |ids|);
      ReadableLength(ids, readable, cursor, next);
      if forall k | cursor <= k < next :: ids[k] in readable {
        StopsAtOnce(ids, readable, cursor, PAGE);
        var page, rest, all := Page(ids, readable, cursor), Follow(ids, readable, next),
                               Readable(ids, readable, next, |ids|);
        assert (page + rest)[|page|..] == rest && (page + all)[|page|..] == all;
      }
    }
  }

  // How many of the positions [from, to) are readable.
  function Count(ids: seq<nat>, readable: set<nat>, from: nat, to: nat): nat
    requires to <= |ids|
  {
    |Readable(ids, readable, from, to)|
  }

  // A page wanting n more results stops before the end exactly when n readable ids come before the
  // last position.
  lemma {:induction false} StopsEarlyIff(ids: seq<nat>, readable: set<nat>, from: nat, n: nat)
    requires from < |ids|
    ensures Stop(ids, readable, from, n) < |ids| <==> n <= Count(ids, readable, from, |ids| - 1)
    decreases |ids| - from
  {
    if n != 0 && from + 1 < |ids| {
      StopsEarlyIff(ids, readable, from + 1, if ids[from] in readable then n - 1 else n);
    }
  }

  // More positions hold no fewer readable ids.
  lemma CountGrows(ids: seq<nat>, readable: set<nat>, from: nat, mid: nat, to: nat)
    requires from <= mid <= to <= |ids|
    ensures Count(ids, readable, mid, to) <= Count(ids, readable, from, to)
  {
    ReadableSplits(ids, readable, from, mid, to);
  }

  // The start of a position's block of PAGE positions.
  function BlockStart(u: nat): (b: nat)
    ensures b <= u < b + PAGE && b % PAGE == 0
  {
    u / PAGE * PAGE
  }

  // The index alone decides: fewer than a page of readable ids lie between the block of an
  // unreadable position and the last position.
  predicate ShortAfterGaps(ids: seq<nat>, readable: set<nat>, cursor: nat) {
    forall u | cursor <= u < |ids| && ids[u] !in readable :: Count(ids, readable, BlockStart(u), |ids| - 1) < PAGE
  }

  lemma {:induction false} FullPagesIff(ids: seq<nat>, readable: set<nat>, cursor: nat)
    requires cursor % PAGE == 0
    ensures FullPages(ids, readable, cursor) <==> ShortAfterGaps(ids, readable, cursor)
    decreases |ids| - cursor
  {
    NextIsInside(ids, readable, cursor);
    var next := Next(ids, readable, cursor);
    if next == 0 {
      forall u | cursor <= u < |ids| ensures Count(ids, readable, BlockStart(u), |ids| - 1) < PAGE {
        StopsEarlyIff(ids, readable, cursor, PAGE);
        LaterBlock(cursor, u);
        if BlockStart(u) <= |ids| - 1 {
          CountGrows(ids, readable, cursor, BlockStart(u), |ids| - 1);
        }
      }
    } else {
      StopsEarlyIff(ids, readable, cursor, PAGE);
      FullPagesIff(ids, readable, next);
      forall u | cursor <= u < next ensures BlockStart(u) == cursor {
        LaterBlock(cursor, u);
      }
      assert ShortAfterGaps(ids, readable, cursor)
        <==> (forall k | cursor <= k < next :: ids[k] in readable) && ShortAfterGaps(ids, readable, next);
    }
  }

  lemma LaterBlock(cursor: nat, u: nat)
    requires cursor % PAGE == 0 && cursor <= u
    ensures cursor <= BlockStart(u) && (u < cursor + PAGE ==> BlockStart(u) == cursor)
  {
  }

  // The caller sees every readable id exactly once, in order, if and only if fewer than a page of
  // readable ids lie between the block of each unreadable position and the last position.
  lemma SeenOnceIff(ids: seq<nat>, readable: set<nat>)
    ensures Follow(ids, readable, 0) == Readable(ids, readable, 0, |ids|) <==> ShortAfterGaps(ids, readable, 0)
  {
    ExactlyOnceIff(ids, readable, 0);
    FullPagesIff(ids, readable, 0);
  }

  // 102 ids of which only the first is unreadable: the id at position 100 comes twice.
  lemma SeenTwice(ids: seq<nat>, readable: set<nat>)
    requires |ids| == 102 && ids[0] !in readable && forall k | 1 <= k < 102 :: ids[k] in readable
    ensures !ShortAfterGaps(ids, readable, 0)
    ensures Follow(ids, readable, 0) == ids[1..101] + [ids[100], ids[101]]
  {
    assert BlockStart(0) == 0;
    ReadableRange(ids, readable, 1, 101);
    ReadableRange(ids, readable, 100, 102);
    StopsAtOnce(ids, readable, 1, PAGE);
    assert Stop(ids, readable, 0, PAGE) == 101 && Next(ids, readable, 0) == 100;
    assert Readable(ids, readable, 0, 101) == Readable(ids, readable, 1, 101);
    StopsEarlyIff(ids, readable, 100, PAGE);
    ReadableLength(ids, readable, 100, 101);
    assert Next(ids, readable, 100) == 0;
    assert Follow(ids, readable, 100) == Page(ids, readable, 100);
  }

  lemma {:induction false} ReadableRange(ids: seq<nat>, readable: set<nat>, from: nat, to: nat)
    requires from <= to <= |ids| && forall k | from <= k < to :: ids[k] in readable
    ensures Readable(ids, readable, from, to) == ids[from..to]
    decreases if from < to then to - from else 0
  {
    if from < to {
      ReadableRange(ids, readable, from + 1, to);
    }
  }

  // A caller that can read everything sees the whole index, each id once, in id order.
  lemma FullReaderSeesIndex(ids: seq<nat>, readable: set<nat>)
    requires forall id | id in ids :: id in readable
    ensures Follow(ids, readable, 0) == ids
  {
    AllPagesFull(ids, readable, 0);
    ExactlyOnceIff(ids, readable, 0);
    ReadableRange(ids, readable, 0, |ids|);
    assert ids[0..|ids|] == ids;
  }

  lemma {:induction false} AllPagesFull(ids: seq<nat>, readable: set<nat>, cursor: nat)
    requires forall id | id in ids :: id in readable
    ensures FullPages(ids, readable, cursor)
    decreases |ids| - cursor
  {
    NextIsInside(ids, readable, cursor);
    if Next(ids, readable, cursor) != 0 {
      AllPagesFull(ids, readable, Next(ids, readable, cursor));
    }
  }
}
