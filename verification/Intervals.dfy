/** Sequences of address ranges with reference counts: when they tile the address
space, the count they give each address, and what splitting, merging and
counting up do to them. */
module Intervals {
  import opened Pages

  datatype Range = Range(start: int, end: int, refcnt: int)

  ghost predicate Follows(r: seq<Range>, i: int) {
    0 < i < |r| ==> r[i].start == r[i - 1].end + 1
  }

  /** The ranges follow one another without gaps, from address lo to the top. */
  ghost predicate TilesFrom(r: seq<Range>, lo: int) {
    && |r| > 0 && r[0].start == lo && r[|r| - 1].end == TOP
    && (forall i :: 0 <= i < |r| ==> r[i].start <= r[i].end)
    && (forall i :: Follows(r, i))
  }

  ghost predicate Tiles(r: seq<Range>) {
    TilesFrom(r, 0)
  }

  ghost predicate Differ(r: seq<Range>, i: int) {
    0 < i < |r| ==> r[i - 1].refcnt != r[i].refcnt
  }

  /** Neighbours have different counts: no two ranges could be one. */
  ghost predicate Canonical(r: seq<Range>) {
    Tiles(r) && forall i :: Differ(r, i)
  }

  /** The count of an address. */
  ghost function CountAt(r: seq<Range>, a: int): int
    requires |r| > 0
  {
    if |r| == 1 || a <= r[0].end then r[0].refcnt else CountAt(r[1..], a)
  }

  lemma TilesTail(r: seq<Range>, lo: int)
    requires TilesFrom(r, lo) && |r| > 1
    ensures r[1].start == r[0].end + 1 && TilesFrom(r[1..], r[1].start)
  {
    assert Follows(r, 1);
    forall i ensures Follows(r[1..], i) {
      assert Follows(r, i + 1);
    }
  }

  /** An earlier range ends before a later one starts. */
  lemma {:induction false} EndsBefore(r: seq<Range>, lo: int, i: nat, j: nat)
    requires TilesFrom(r, lo) && i < j < |r|
    ensures r[i].end < r[j].start
    decreases j
  {
    assert Follows(r, j);
    if i < j - 1 {
      EndsBefore(r, lo, i, j - 1);
    }
  }

  /** The range with index i gives its addresses their count. */
  lemma {:induction false} CountInRange(r: seq<Range>, lo: int, i: nat, a: int)
    requires TilesFrom(r, lo) && i < |r| && r[i].start <= a <= r[i].end
    ensures CountAt(r, a) == r[i].refcnt
  {
    if i > 0 {
      EndsBefore(r, lo, 0, i);
      TilesTail(r, lo);
      CountInRange(r[1..], r[1].start, i - 1, a);
    }
  }

  /** Every address is in some range. */
  lemma {:induction false} RangeOf(r: seq<Range>, lo: int, a: int) returns (i: nat)
    requires TilesFrom(r, lo) && lo <= a <= TOP
    ensures i < |r| && r[i].start <= a <= r[i].end
    ensures CountAt(r, a) == r[i].refcnt
  {
    if a <= r[0].end {
      i := 0;
    } else {
      TilesTail(r, lo);
      i := RangeOf(r[1..], r[1].start, a);
      i := i + 1;
    }
  }

  // --- uniqueness ---

  lemma EndsAtTop(r: seq<Range>, lo: int)
    requires TilesFrom(r, lo)
    ensures r[0].end <= TOP && (|r| == 1 <==> r[0].end == TOP)
  {
    if |r| > 1 {
      EndsBefore(r, lo, 0, |r| - 1);
    }
  }

  lemma FirstEnd(r: seq<Range>, q: seq<Range>, lo: int)
    requires TilesFrom(r, lo) && TilesFrom(q, lo) && forall i :: Differ(r, i)
    requires forall a :: lo <= a <= TOP ==> CountAt(r, a) == CountAt(q, a)
    ensures r[0].end >= q[0].end
  {
    EndsAtTop(r, lo);
    EndsAtTop(q, lo);
    if r[0].end < q[0].end {
      var a := r[0].end + 1;
      assert CountAt(r, lo) == CountAt(q, lo) && CountAt(r, a) == CountAt(q, a);
      assert Differ(r, 1);
      TilesTail(r, lo);
      CountInRange(r, lo, 1, a);
    }
  }

  /** There is only one canonical tiling with given counts. */
  lemma {:induction false} CanonicalUniqueFrom(r: seq<Range>, q: seq<Range>, lo: int)
    requires TilesFrom(r, lo) && TilesFrom(q, lo)
    requires (forall i :: Differ(r, i)) && (forall i :: Differ(q, i))
    requires forall a :: lo <= a <= TOP ==> CountAt(r, a) == CountAt(q, a)
    ensures r == q
    decreases |r|
  {
    EndsAtTop(r, lo);
    EndsAtTop(q, lo);
    assert CountAt(r, lo) == CountAt(q, lo);
    FirstEnd(r, q, lo);
    FirstEnd(q, r, lo);
    if |r| > 1 {
      TilesTail(r, lo);
      TilesTail(q, lo);
      forall i ensures Differ(r[1..], i) && Differ(q[1..], i) {
        assert Differ(r, i + 1) && Differ(q, i + 1);
      }
      forall a | r[1].start <= a <= TOP ensures CountAt(r[1..], a) == CountAt(q[1..], a) {
        assert CountAt(r, a) == CountAt(q, a);
      }
      CanonicalUniqueFrom(r[1..], q[1..], r[1].start);
    }
    assert r == [r[0]] + r[1..] && q == [q[0]] + q[1..];
  }

  lemma CanonicalUnique(r: seq<Range>, q: seq<Range>)
    requires Canonical(r) && Canonical(q)
    requires forall a :: 0 <= a <= TOP ==> CountAt(r, a) == CountAt(q, a)
    ensures r == q
  {
    hide CountAt;
    CanonicalUniqueFrom(r, q, 0);
  }

  // --- splitting, merging, counting up ---

  ghost function SplitAt(r: seq<Range>, i: nat, cut: int): seq<Range>
    requires i < |r|
  {
    r[..i] + [r[i].(end := cut - 1), r[i].(start := cut)] + r[i + 1..]
  }

  /** Range i + 1 goes into range i, which takes its count. */
  ghost function MergeAt(r: seq<Range>, i: nat): seq<Range>
    requires i + 1 < |r|
  {
    r[..i] + [r[i + 1].(start := r[i].start)] + r[i + 2..]
  }

  ghost function Bumped(r: seq<Range>, i: nat, inc: int): seq<Range>
    requires i < |r|
  {
    r[i := r[i].(refcnt := r[i].refcnt + inc)]
  }

  lemma SplitTiles(r: seq<Range>, i: nat, cut: int)
    requires Tiles(r) && i < |r| && r[i].start < cut <= r[i].end
    ensures Tiles(SplitAt(r, i, cut))
  {
    var q := SplitAt(r, i, cut);
    forall j ensures Follows(q, j) {
      assert Follows(r, j) && Follows(r, j - 1);
    }
  }

  lemma MergeTiles(r: seq<Range>, i: nat)
    requires Tiles(r) && i + 1 < |r|
    ensures Tiles(MergeAt(r, i))
  {
    var q := MergeAt(r, i);
    assert Follows(r, i + 1);
    forall j ensures Follows(q, j) {
      assert Follows(r, j) && Follows(r, j + 1);
    }
  }

  lemma BumpTiles(r: seq<Range>, i: nat, inc: int)
    requires Tiles(r) && i < |r|
    ensures Tiles(Bumped(r, i, inc))
  {
    var q := Bumped(r, i, inc);
    forall j ensures Follows(q, j) {
      assert Follows(r, j);
    }
  }

  lemma SplitCount(r: seq<Range>, i: nat, cut: int, a: int)
    requires Tiles(r) && i < |r| && r[i].start < cut <= r[i].end && 0 <= a <= TOP
    ensures CountAt(SplitAt(r, i, cut), a) == CountAt(r, a)
  {
    SplitTiles(r, i, cut);
    var j := RangeOf(r, 0, a);
    CountInRange(SplitAt(r, i, cut), 0, if j < i || (j == i && a < cut) then j else j + 1, a);
  }

  lemma MergeCount(r: seq<Range>, i: nat, a: int)
    requires Tiles(r) && i + 1 < |r| && 0 <= a <= TOP
    ensures CountAt(MergeAt(r, i), a) == if r[i].start <= a <= r[i].end then r[i + 1].refcnt else CountAt(r, a)
  {
    MergeTiles(r, i);
    assert Follows(r, i + 1);
    var j := RangeOf(r, 0, a);
    if j < i {
      EndsBefore(r, 0, j, i);
    } else if j > i {
      EndsBefore(r, 0, i, j);
    }
    CountInRange(MergeAt(r, i), 0, if j <= i then j else j - 1, a);
  }

  lemma BumpCount(r: seq<Range>, i: nat, inc: int, a: int)
    requires Tiles(r) && i < |r| && 0 <= a <= TOP
    ensures CountAt(Bumped(r, i, inc), a) == CountAt(r, a) + if r[i].start <= a <= r[i].end then inc else 0
  {
    BumpTiles(r, i, inc);
    var j := RangeOf(r, 0, a);
    if j < i {
      EndsBefore(r, 0, j, i);
    } else if j > i {
      EndsBefore(r, 0, i, j);
    }
    CountInRange(Bumped(r, i, inc), 0, j, a);
  }

  // --- a pass over start..end, counting by inc ---

  /** The count that a whole pass is to give an address that had count f(a). */
  ghost function Wanted(r: seq<Range>, start: int, end: int, inc: int, a: int): int
    requires |r| > 0
  {
    CountAt(r, a) + if start <= a <= end then inc else 0
  }

  /** Halfway through a pass over r, with range i of q next: what was before i is done,
      what is from i on to end still lacks inc, also where i reaches back before start. */
  ghost predicate Halfway(r: seq<Range>, q: seq<Range>, i: nat, start: int, end: int, inc: int) {
    && Tiles(r) && Tiles(q) && i < |q|
    && (forall a :: 0 <= a <= TOP ==>
          CountAt(q, a) + (if q[i].start <= a <= end then inc else 0) == Wanted(r, start, end, inc, a))
    && (forall j :: j < i ==> Differ(q, j)) && (forall j :: j > i ==> Differ(q, j))
    && (i > 0 ==> q[i - 1].refcnt != q[i].refcnt + inc)
  }

  ghost predicate Finished(r: seq<Range>, q: seq<Range>, start: int, end: int, inc: int) {
    && Tiles(r) && Canonical(q)
    && forall a :: 0 <= a <= TOP ==> CountAt(q, a) == Wanted(r, start, end, inc, a)
  }

  lemma StartSplit(r: seq<Range>, i: nat, start: int, end: int, inc: int)
    requires Canonical(r) && i < |r| && r[i].start < start <= r[i].end && start <= end <= TOP && inc != 0
    ensures Halfway(r, SplitAt(r, i, start), i + 1, start, end, inc)
  {
    hide CountAt;
    var q := SplitAt(r, i, start);
    SplitTiles(r, i, start);
    forall a | 0 <= a <= TOP ensures CountAt(q, a) == CountAt(r, a) {
      SplitCount(r, i, start, a);
    }
    forall j | j != i + 1 ensures Differ(q, j) {
      assert Differ(r, j) && Differ(r, j - 1);
    }
  }

  lemma StartMerge(r: seq<Range>, i: nat, end: int, inc: int)
    requires Canonical(r) && i + 1 < |r| && r[i + 1].start <= end <= TOP && r[i].refcnt == r[i + 1].refcnt + inc
    ensures Halfway(r, MergeAt(r, i), i, r[i + 1].start, end, inc)
  {
    hide CountAt;
    var q := MergeAt(r, i);
    MergeTiles(r, i);
    assert Follows(r, i + 1);
    forall a | 0 <= a <= TOP
      ensures CountAt(q, a) == CountAt(r, a) - if r[i].start <= a <= r[i].end then inc else 0
    {
      MergeCount(r, i, a);
      if r[i].start <= a <= r[i].end {
        CountInRange(r, 0, i, a);
      }
    }
    assert Differ(r, i);
    forall j | j != i ensures Differ(q, j) {
      assert Differ(r, j) && Differ(r, j + 1);
    }
  }

  lemma StartPlain(r: seq<Range>, i: nat, end: int, inc: int)
    requires Canonical(r) && i < |r| && r[i].start <= end <= TOP && (i > 0 ==> r[i - 1].refcnt != r[i].refcnt + inc)
    ensures Halfway(r, r, i, r[i].start, end, inc)
  {
    hide CountAt;
  }

  /** All of the pass is counted; only the ranges on either side of its end may be equal. */
  ghost predicate Passed(r: seq<Range>, q: seq<Range>, i: nat, start: int, end: int, inc: int) {
    && Tiles(r) && Tiles(q) && 0 < i <= |q|
    && (forall a :: 0 <= a <= TOP ==> CountAt(q, a) == Wanted(r, start, end, inc, a))
    && (forall j :: j != i ==> Differ(q, j))
  }

  /** Range i is counted; the next one, if it is still in the pass, comes next. */
  lemma Step(r: seq<Range>, q: seq<Range>, i: nat, start: int, end: int, inc: int)
    requires Halfway(r, q, i, start, end, inc) && q[i].end <= end <= TOP
    ensures i + 1 < |q| && q[i + 1].start <= end ==> Halfway(r, Bumped(q, i, inc), i + 1, start, end, inc)
    ensures i + 1 == |q| || q[i + 1].start > end ==> Passed(r, Bumped(q, i, inc), i + 1, start, end, inc)
  {
    hide CountAt;
    var q' := Bumped(q, i, inc);
    BumpTiles(q, i, inc);
    assert Follows(q, i + 1) && Differ(q, i + 1);
    forall a | 0 <= a <= TOP
      ensures CountAt(q', a) == CountAt(q, a) + if q[i].start <= a <= q[i].end then inc else 0
    {
      BumpCount(q, i, inc, a);
    }
    forall j | j != i + 1 ensures Differ(q', j) {
      assert j == i || Differ(q, j);
    }
  }

  /** Cutting off range i at the end of the pass is no harm. */
  lemma StepCut(r: seq<Range>, q: seq<Range>, i: nat, start: int, end: int, inc: int)
    requires Halfway(r, q, i, start, end, inc) && q[i].start <= end < q[i].end && inc != 0
    ensures Tiles(SplitAt(q, i, end + 1))
    ensures Passed(r, Bumped(SplitAt(q, i, end + 1), i, inc), i + 1, start, end, inc)
  {
    hide CountAt;
    var q1 := SplitAt(q, i, end + 1);
    var q2 := Bumped(q1, i, inc);
    SplitTiles(q, i, end + 1);
    BumpTiles(q1, i, inc);
    forall a | 0 <= a <= TOP
      ensures CountAt(q2, a) == CountAt(q, a) + if q[i].start <= a <= end then inc else 0
    {
      SplitCount(q, i, end + 1, a);
      BumpCount(q1, i, inc, a);
    }
    forall j | j != i + 1 ensures Differ(q2, j) {
      if j < i {
        assert Differ(q, j);
      } else if j > i + 1 {
        assert Differ(q, j - 1);
      }
    }
  }

  ghost function MergedIfEqual(q: seq<Range>, i: nat): seq<Range>
    requires i + 1 < |q|
  {
    if q[i].refcnt == q[i + 1].refcnt then MergeAt(q, i) else q
  }

  /** Range i, put into the one before it if they have the same count. */
  ghost function MergedBack(q: seq<Range>, i: nat): seq<Range>
    requires i < |q|
  {
    if i > 0 then MergedIfEqual(q, i - 1) else q
  }

  lemma PassFinished(r: seq<Range>, q: seq<Range>, i: nat, start: int, end: int, inc: int)
    requires Passed(r, q, i, start, end, inc)
    ensures Finished(r, if i < |q| then MergedBack(q, i) else q, start, end, inc)
  {
    hide CountAt;
    if i < |q| {
      MergedEqual(q, i - 1);
    }
  }

  /** Merging equal neighbours, where they are equal, changes no count and mends the only flaw. */
  lemma MergedEqual(q: seq<Range>, i: nat)
    requires Tiles(q) && i + 1 < |q| && forall j :: j != i + 1 ==> Differ(q, j)
    ensures Canonical(MergedIfEqual(q, i))
    ensures forall a :: 0 <= a <= TOP ==> CountAt(MergedIfEqual(q, i), a) == CountAt(q, a)
  {
    hide CountAt;
    if q[i].refcnt == q[i + 1].refcnt {
      var q' := MergeAt(q, i);
      MergeTiles(q, i);
      forall a | 0 <= a <= TOP ensures CountAt(q', a) == CountAt(q, a) {
        MergeCount(q, i, a);
        if q[i].start <= a <= q[i].end {
          CountInRange(q, 0, i, a);
        }
      }
      forall j ensures Differ(q', j) {
        if j <= i {
          assert Differ(q, j);
        } else {
          assert Differ(q, j + 1);
        }
      }
    } else {
      assert Differ(q, i + 1);
    }
  }

  // --- undoing at the range where a pass fails ---

  /** The range i, perhaps cut off at the end of the pass. */
  ghost function CutOff(q: seq<Range>, i: nat, end: int): seq<Range>
    requires i < |q|
  {
    if q[i].end > end then SplitAt(q, i, end + 1) else q
  }

  /** The pass has counted start..x - 1 only; p shows that, but range i, where x is,
      may have the same count as either of its neighbours. */
  ghost predicate Undoing(r: seq<Range>, p: seq<Range>, i: nat, start: int, x: int, inc: int) {
    && Tiles(r) && Tiles(p) && i < |p| && p[i].start <= x <= p[i].end
    && (forall a :: 0 <= a <= TOP ==> CountAt(p, a) == Wanted(r, start, x - 1, inc, a))
    && (forall j :: j != i && j != i + 1 ==> Differ(p, j))
  }

  lemma CutOffHalfway(r: seq<Range>, q: seq<Range>, i: nat, start: int, end: int, inc: int)
    requires Halfway(r, q, i, start, end, inc) && q[i].start <= end && start <= end
    ensures var p := CutOff(q, i, end);
            && Tiles(p) && i < |p| && p[i].start == q[i].start && p[i].refcnt == q[i].refcnt && p[i].end <= end
            && (forall a :: 0 <= a <= TOP ==> CountAt(p, a) == CountAt(q, a))
            && (forall j :: j != i && j != i + 1 ==> Differ(p, j))
            && (i > 0 ==> p[i - 1] == q[i - 1])
  {
    hide CountAt;
    if q[i].end > end {
      SplitTiles(q, i, end + 1);
      forall a | 0 <= a <= TOP ensures CountAt(SplitAt(q, i, end + 1), a) == CountAt(q, a) {
        SplitCount(q, i, end + 1, a);
      }
      var p := SplitAt(q, i, end + 1);
      forall j | j != i && j != i + 1 ensures Differ(p, j) {
        if j < i {
          assert Differ(q, j);
        } else {
          assert Differ(q, j - 1);
        }
      }
    }
  }

  /** A range that reaches back before start is split there, and its front part mended. */
  lemma UndoFront(r: seq<Range>, q: seq<Range>, i: nat, start: int, end: int, inc: int)
    requires Halfway(r, q, i, start, end, inc) && q[i].start < start <= end && start <= q[i].end && inc != 0
    ensures var p := CutOff(q, i, end);
            i < |p| && start <= p[i].end && Undoing(r, Bumped(SplitAt(p, i, start), i, inc), i + 1, start, start, inc)
            && (var p' := Bumped(SplitAt(p, i, start), i, inc); p'[i].refcnt != p'[i + 1].refcnt)
  {
    hide CountAt;
    CutOffHalfway(r, q, i, start, end, inc);
    var p := CutOff(q, i, end);
    var p1 := SplitAt(p, i, start);
    var p' := Bumped(p1, i, inc);
    SplitTiles(p, i, start);
    BumpTiles(p1, i, inc);
    forall a | 0 <= a <= TOP ensures CountAt(p', a) == CountAt(r, a) {
      SplitCount(p, i, start, a);
      BumpCount(p1, i, inc, a);
      assert CountAt(q, a) + (if q[i].start <= a <= end then inc else 0) == Wanted(r, start, end, inc, a);
    }
    forall j | j != i + 1 && j != i + 2 ensures Differ(p', j) {
      if j < i {
        assert Differ(p, j);
      } else if j > i + 2 {
        assert Differ(p, j - 1);
      }
    }
  }

  lemma UndoPlain(r: seq<Range>, q: seq<Range>, i: nat, start: int, end: int, inc: int)
    requires Halfway(r, q, i, start, end, inc) && start <= q[i].start <= end
    ensures Undoing(r, CutOff(q, i, end), i, start, q[i].start, inc)
  {
    hide CountAt;
    CutOffHalfway(r, q, i, start, end, inc);
  }

  lemma UndoBack(r: seq<Range>, p: seq<Range>, i: nat, start: int, x: int, inc: int)
    requires Undoing(r, p, i, start, x, inc)
    ensures var p' := MergedBack(p, i);
            var j := if |p'| == |p| then i else i - 1;
            Undoing(r, p', j, start, x, inc) && Differ(p', j)
  {
    if i > 0 && p[i - 1].refcnt == p[i].refcnt {
      UndoMergePrev(r, p, i, start, x, inc);
    }
  }

  lemma UndoMergePrev(r: seq<Range>, p: seq<Range>, i: nat, start: int, x: int, inc: int)
    requires Undoing(r, p, i, start, x, inc) && i > 0 && p[i - 1].refcnt == p[i].refcnt
    ensures Undoing(r, MergeAt(p, i - 1), i - 1, start, x, inc) && Differ(MergeAt(p, i - 1), i - 1)
  {
    hide CountAt;
    var p' := MergeAt(p, i - 1);
    MergeTiles(p, i - 1);
    assert Follows(p, i);
    forall a | 0 <= a <= TOP ensures CountAt(p', a) == CountAt(p, a) {
      MergeCount(p, i - 1, a);
      if p[i - 1].start <= a <= p[i - 1].end {
        CountInRange(p, 0, i - 1, a);
      }
    }
    assert Differ(p, i - 1);
    forall j | j != i - 1 && j != i ensures Differ(p', j) {
      if j < i - 1 {
        assert Differ(p, j);
      } else {
        assert Differ(p, j + 1);
      }
    }
  }

  /** Once the previous range differs, merging with an equal next one leaves nothing to mend. */
  lemma UndoMergeNext(r: seq<Range>, p: seq<Range>, i: nat, start: int, x: int, inc: int)
    requires Undoing(r, p, i, start, x, inc) && Differ(p, i)
    ensures Finished(r, if i + 1 < |p| then MergedIfEqual(p, i) else p, start, x - 1, inc)
  {
    hide CountAt;
    if i + 1 < |p| {
      MergedEqual(p, i);
    }
  }

  /** How the code takes back what a stuck pass did to range i, before it looks at the neighbours. */
  ghost function Repaired(q: seq<Range>, i: nat, start: int, end: int, inc: int): seq<Range>
    requires i < |q|
  {
    var p := CutOff(q, i, end);
    if i < |p| && start > p[i].start then Bumped(SplitAt(p, i, start), i, inc) else p
  }

  lemma RepairUndoing(r: seq<Range>, q: seq<Range>, i: nat, start: int, end: int, inc: int)
    requires Halfway(r, q, i, start, end, inc) && q[i].start <= end && start <= end && start <= q[i].end && inc != 0
    ensures if start > q[i].start then Undoing(r, Repaired(q, i, start, end, inc), i + 1, start, start, inc)
            else Undoing(r, Repaired(q, i, start, end, inc), i, start, q[i].start, inc)
    ensures var p := CutOff(q, i, end); i < |p| && p[i].start == q[i].start && start <= p[i].end
  {
    hide CountAt;
    CutOffHalfway(r, q, i, start, end, inc);
    if start > q[i].start {
      UndoFront(r, q, i, start, end, inc);
    } else {
      UndoPlain(r, q, i, start, end, inc);
    }
  }

  // --- kernel flags ---

  ghost predicate FlagsMatch(r: seq<Range>, k: int -> bool)
    requires |r| > 0
  {
    forall a :: 0 <= a <= TOP ==> (k(a) <==> CountAt(r, a) > 0)
  }

  lemma SameFlags(r: seq<Range>, q: seq<Range>, k: int -> bool, k': int -> bool)
    requires |r| > 0 && FlagsMatch(r, k) && |q| > 0 && FlagsMatch(q, k')
    ensures r == q ==> forall a :: 0 <= a <= TOP ==> k'(a) == k(a)
  {
  }

  /** Halfway through a pass, the flags match the wanted counts below hi and the old ones from there on. */
  ghost predicate FlagsHalfway(r: seq<Range>, start: int, end: int, inc: int, hi: int, k: int -> bool)
    requires |r| > 0
  {
    forall a :: 0 <= a <= TOP ==>
      (k(a) <==> if a < hi then Wanted(r, start, end, inc, a) > 0 else CountAt(r, a) > 0)
  }

  /** Whether the kernel must be told about a range with count n. */
  predicate Crosses(n: int, inc: int) {
    (inc == -1 && n == 1) || (inc == 1 && n == 0)
  }

  /** Telling the kernel where the count crosses zero, from start on, keeps the flags right. */
  lemma FlagsStep(r: seq<Range>, q: seq<Range>, i: nat, start: int, end: int, inc: int, e: int, k: int -> bool, k': int -> bool)
    requires Halfway(r, q, i, start, end, inc) && (inc == 1 || inc == -1)
    requires q[i].start <= e <= q[i].end && e <= end && FlagsHalfway(r, start, end, inc, q[i].start, k)
    requires if !Crosses(q[i].refcnt, inc) then forall a :: k'(a) == k(a)
             else forall a :: k'(a) <==> if q[i].start <= a <= e && start <= a then inc == 1 else k(a)
    ensures FlagsHalfway(r, start, end, inc, e + 1, k')
  {
    hide CountAt;
    forall a | 0 <= a <= TOP && q[i].start <= a <= e
      ensures k'(a) <==> Wanted(r, start, end, inc, a) > 0
    {
      CountInRange(q, 0, i, a);
      assert CountAt(q, a) + inc == Wanted(r, start, end, inc, a);
      assert k(a) <==> CountAt(r, a) > 0;
    }
  }

  /** Beyond the pass old and wanted counts are the same, so its last range settles all flags. */
  lemma FlagsDone(r: seq<Range>, q: seq<Range>, i: nat, start: int, end: int, inc: int, k: int -> bool)
    requires Tiles(r) && Tiles(q) && i < |q| && FlagsHalfway(r, start, end, inc, q[i].end + 1, k)
    ensures i + 1 < |q| ==> FlagsHalfway(r, start, end, inc, q[i + 1].start, k)
    ensures q[i].end >= end ==> FlagsHalfway(r, start, end, inc, TOP + 1, k)
  {
    hide CountAt;
    assert Follows(q, i + 1);
  }

  lemma FlagsFinished(r: seq<Range>, q: seq<Range>, start: int, end: int, inc: int, k: int -> bool)
    requires Finished(r, q, start, end, inc) && FlagsHalfway(r, start, end, inc, TOP + 1, k)
    ensures FlagsMatch(q, k)
  {
    hide CountAt;
    forall a | 0 <= a <= TOP ensures k(a) <==> CountAt(q, a) > 0 {
      assert CountAt(q, a) == Wanted(r, start, end, inc, a);
    }
  }

  /** Where the kernel refuses, at range i, the flags match what the pass has counted so far. */
  lemma FlagsStuck(r: seq<Range>, q: seq<Range>, i: nat, start: int, end: int, inc: int, p: seq<Range>, k: int -> bool)
    requires Halfway(r, q, i, start, end, inc) && q[i].start <= end && FlagsHalfway(r, start, end, inc, q[i].start, k)
    requires Finished(r, p, start, (if start > q[i].start then start else q[i].start) - 1, inc)
    ensures FlagsMatch(p, k)
  {
    hide CountAt;
    forall a | 0 <= a <= TOP ensures k(a) <==> CountAt(p, a) > 0 {
      assert CountAt(p, a) == Wanted(r, start, (if start > q[i].start then start else q[i].start) - 1, inc, a);
    }
  }

  /** A pass over the whole address space, all of which has one count that is to cross zero: the length of the call
      would be 2^64, which is zero in 64 bits. */
  ghost predicate Untold(r: seq<Range>, start: int, end: int, inc: int)
    requires |r| > 0
  {
    start == 0 && end == TOP && forall a :: 0 <= a <= TOP ==> Crosses(CountAt(r, a), inc)
  }

  /** How far a pass has brought the flags: as far as the counts below hi, unless the kernel is told nothing. */
  ghost predicate Tracked(r: seq<Range>, start: int, end: int, inc: int, hi: int, k: int -> bool)
    requires |r| > 0
  {
    if Untold(r, start, end, inc) then FlagsMatch(r, k) else FlagsHalfway(r, start, end, inc, hi, k)
  }

  lemma RangeBounds(r: seq<Range>, i: nat)
    requires Tiles(r) && i < |r|
    ensures 0 <= r[i].start <= r[i].end <= TOP
  {
    if i > 0 {
      EndsBefore(r, 0, 0, i);
    }
    if i < |r| - 1 {
      EndsBefore(r, 0, i, |r| - 1);
    }
  }

  /** A pass that tells the kernel nothing has one range to visit. */
  lemma UntoldRange(r: seq<Range>, q: seq<Range>, i: nat, start: int, end: int, inc: int)
    requires Halfway(r, q, i, start, end, inc) && Untold(r, start, end, inc)
    ensures i == 0 && |q| == 1 && q[0].start == 0 && q[0].end == TOP && Crosses(q[0].refcnt, inc)
  {
    hide CountAt;
    forall j | 0 <= j < |q| ensures Crosses(q[j].refcnt - if j < i then inc else 0, inc) {
      RangeBounds(q, j);
      CountInRange(q, 0, j, q[j].start);
      if j < i {
        EndsBefore(q, 0, j, i);
      } else if i < j {
        EndsBefore(q, 0, i, j);
      }
      assert CountAt(q, q[j].start) + (if q[i].start <= q[j].start <= end then inc else 0) == Wanted(r, start, end, inc, q[j].start);
    }
    assert Differ(q, i + 1);
  }

  /** And a pass that visits the whole address space as one range tells the kernel nothing. */
  lemma WholeUntold(r: seq<Range>, q: seq<Range>, i: nat, start: int, end: int, inc: int)
    requires Halfway(r, q, i, start, end, inc) && start == 0 && end == TOP && q[i].start <= 0 && q[i].end == TOP
    requires Crosses(q[i].refcnt, inc)
    ensures Untold(r, start, end, inc)
  {
    hide CountAt;
    forall a | 0 <= a <= TOP ensures Crosses(CountAt(r, a), inc) {
      CountInRange(q, 0, i, a);
      assert CountAt(q, a) + (if q[i].start <= a <= end then inc else 0) == Wanted(r, start, end, inc, a);
    }
  }

  lemma TrackedStep(r: seq<Range>, q: seq<Range>, i: nat, start: int, end: int, inc: int, e: int, k: int -> bool, k': int -> bool)
    requires Halfway(r, q, i, start, end, inc) && (inc == 1 || inc == -1) && 0 <= start <= e && end <= TOP
    requires e == (if q[i].end > end then end else q[i].end) && q[i].start <= e && Tracked(r, start, end, inc, q[i].start, k)
    requires if !Crosses(q[i].refcnt, inc) || (start == 0 && q[i].start == 0 && e == TOP) then forall a :: k'(a) == k(a)
             else forall a :: k'(a) <==> if q[i].start <= a <= e && start <= a then inc == 1 else k(a)
    ensures Tracked(r, start, end, inc, e + 1, k')
  {
    hide CountAt, FlagsHalfway, Crosses;
    RangeBounds(q, i);
    if Untold(r, start, end, inc) {
      UntoldRange(r, q, i, start, end, inc);
    } else {
      if Crosses(q[i].refcnt, inc) && start == 0 && q[i].start == 0 && e == TOP {
        WholeUntold(r, q, i, start, end, inc);
      }
      FlagsStep(r, q, i, start, end, inc, e, k, k');
    }
  }

  lemma TrackedDone(r: seq<Range>, q: seq<Range>, i: nat, start: int, end: int, inc: int, k: int -> bool)
    requires Tiles(r) && Tiles(q) && i < |q| && Tracked(r, start, end, inc, q[i].end + 1, k)
    ensures i + 1 < |q| ==> Tracked(r, start, end, inc, q[i + 1].start, k)
    ensures q[i].end >= end ==> Tracked(r, start, end, inc, TOP + 1, k)
  {
    hide CountAt, FlagsHalfway, Untold;
    if !Untold(r, start, end, inc) {
      FlagsDone(r, q, i, start, end, inc, k);
    }
  }

  /** At the end of a pass the flags match the counts exactly if the kernel was told of them. */
  lemma TrackedFinished(r: seq<Range>, q: seq<Range>, start: int, end: int, inc: int, k: int -> bool)
    requires Finished(r, q, start, end, inc) && Tracked(r, start, end, inc, TOP + 1, k)
    ensures FlagsMatch(q, k) <==> !Untold(r, start, end, inc)
    ensures Untold(r, start, end, inc) ==> FlagsMatch(r, k)
  {
    hide CountAt;
    if Untold(r, start, end, inc) {
      assert CountAt(q, 0) == Wanted(r, start, end, inc, 0);
      assert k(0) <==> CountAt(r, 0) > 0;
    } else {
      FlagsFinished(r, q, start, end, inc, k);
    }
  }

  /** The addresses of a range at which a pass is stuck have its count. */
  lemma StuckAt(r: seq<Range>, q: seq<Range>, i: nat, start: int, end: int, inc: int, x: int)
    requires Halfway(r, q, i, start, end, inc) && q[i].start <= end <= TOP && 0 <= start <= end && start <= q[i].end
    requires start <= x <= end && q[i].start <= x <= q[i].end
    ensures 0 <= x <= TOP && |r| > 0 && CountAt(r, x) == q[i].refcnt
  {
    hide CountAt;
    CountInRange(q, 0, i, x);
    assert CountAt(q, x) + (if q[i].start <= x <= end then inc else 0) == Wanted(r, start, end, inc, x);
  }

  /** Counting range i of p brings the pass to the next range, or to its end. */
  ghost predicate Planned(r: seq<Range>, p: seq<Range>, i: nat, start: int, end: int, inc: int) {
    && i < |p|
    && (i + 1 < |p| && p[i + 1].start <= end ==> Halfway(r, Bumped(p, i, inc), i + 1, start, end, inc))
    && (i + 1 == |p| || p[i + 1].start > end ==> Passed(r, Bumped(p, i, inc), i + 1, start, end, inc))
  }

  lemma VisitPlan(r: seq<Range>, q: seq<Range>, i: nat, start: int, end: int, inc: int)
    requires Halfway(r, q, i, start, end, inc) && q[i].start <= end <= TOP && inc != 0
    ensures Tiles(r) && Planned(r, CutOff(q, i, end), i, start, end, inc)
    ensures CutOff(q, i, end)[i] == if q[i].end > end then q[i].(end := end) else q[i]
  {
    hide CountAt;
    if q[i].end > end {
      StepCut(r, q, i, start, end, inc);
    } else {
      Step(r, q, i, start, end, inc);
    }
  }

  // --- rolling back ---

  /** Counting start..n - 1 back leaves n..x - 1 of a pass over start..x - 1. */
  lemma CountedBack(r: seq<Range>, p: seq<Range>, q: seq<Range>, start: int, n: int, x: int, inc: int)
    requires Finished(r, p, start, x - 1, inc) && Finished(p, q, start, n - 1, -inc) && start <= n <= x
    ensures Finished(r, q, n, x - 1, inc)
  {
    hide CountAt;
    forall a | 0 <= a <= TOP ensures CountAt(q, a) == Wanted(r, n, x - 1, inc, a) {
      assert CountAt(q, a) == Wanted(p, start, n - 1, -inc, a);
      assert CountAt(p, a) == Wanted(r, start, x - 1, inc, a);
    }
  }

  /** The map is the old one exactly if nothing of the pass is left. */
  lemma Restored(r: seq<Range>, q: seq<Range>, n: int, x: int, inc: int)
    requires Canonical(r) && Finished(r, q, n, x - 1, inc) && 0 <= n <= x <= TOP && inc != 0
    ensures q == r <==> n == x
  {
    hide CountAt;
    if n == x {
      forall a | 0 <= a <= TOP ensures CountAt(q, a) == CountAt(r, a) {
        assert CountAt(q, a) == Wanted(r, n, x - 1, inc, a);
      }
      CanonicalUnique(q, r);
    } else {
      assert CountAt(q, n) == Wanted(r, n, x - 1, inc, n);
    }
  }

  /** Whether the count of the address before x, once the pass has counted it, is that of x:
      then the two are in one range, and rolling back overlooks the part before x. */
  ghost predicate Absorbed(r: seq<Range>, start: int, x: int, inc: int)
    requires |r| > 0
  {
    x > start && CountAt(r, x - 1) + inc == CountAt(r, x)
  }

  /** The addresses n..x - 1, from start on, are those right before x whose count becomes that of x. */
  ghost predicate Joined(r: seq<Range>, start: int, n: int, x: int, inc: int)
    requires |r| > 0
  {
    && start <= n <= x && (forall a :: n <= a < x ==> CountAt(r, a) + inc == CountAt(r, x))
    && (n > start ==> CountAt(r, n - 1) + inc != CountAt(r, x))
  }

  /** The map q counts r and what a pass from start has left counted right before x. */
  ghost predicate LeftOver(r: seq<Range>, q: seq<Range>, start: int, x: int, inc: int)
    requires |r| > 0
  {
    exists n :: Joined(r, start, n, x, inc) && Finished(r, q, n, x - 1, inc)
  }

  lemma JoinedRange(r: seq<Range>, p: seq<Range>, j: nat, start: int, n: int, x: int, inc: int)
    requires Finished(r, p, start, x - 1, inc) && j < |p| && p[j].start <= x <= p[j].end && 0 <= start <= x <= TOP
    requires n == if start > p[j].start then start else p[j].start
    ensures Joined(r, start, n, x, inc)
  {
    hide CountAt;
    CountInRange(p, 0, j, x);
    assert CountAt(p, x) == Wanted(r, start, x - 1, inc, x);
    forall a | n <= a < x ensures CountAt(r, a) + inc == CountAt(r, x) {
      CountInRange(p, 0, j, a);
      assert CountAt(p, a) == Wanted(r, start, x - 1, inc, a);
    }
    if n > start {
      assert Follows(p, j) && Differ(p, j);
      CountInRange(p, 0, j - 1, n - 1);
      assert CountAt(p, n - 1) == Wanted(r, start, x - 1, inc, n - 1);
    }
  }

  lemma AbsorbedRange(r: seq<Range>, p: seq<Range>, j: nat, start: int, x: int, inc: int)
    requires Finished(r, p, start, x - 1, inc) && j < |p| && p[j].start <= x <= p[j].end && 0 <= start <= x <= TOP
    ensures Absorbed(r, start, x, inc) <==> x > start && p[j].start < x
  {
    hide CountAt;
    CountInRange(p, 0, j, x);
    assert CountAt(p, x) == Wanted(r, start, x - 1, inc, x);
    if x > start {
      assert CountAt(p, x - 1) == Wanted(r, start, x - 1, inc, x - 1);
      if p[j].start < x {
        CountInRange(p, 0, j, x - 1);
      } else {
        assert Follows(p, j) && Differ(p, j);
        CountInRange(p, 0, j - 1, x - 1);
      }
    }
  }

  /** No count is negative: nothing was counted down that was not counted up before. */
  ghost predicate Matched(r: seq<Range>) {
    forall i :: 0 <= i < |r| ==> r[i].refcnt >= 0
  }

  lemma NeverAbsorbed(r: seq<Range>, start: int, x: int)
    requires Tiles(r) && Matched(r) && 0 <= start <= x <= TOP && CountAt(r, x) == 0
    ensures !Absorbed(r, start, x, 1)
  {
    if x > start {
      var i := RangeOf(r, 0, x - 1);
    }
  }
}
