/** How many scatterlist entries a request needs: the count that is kept while bios and requests
are merged bounds what mapping the request emits. */
module Segments {

  /** A piece of memory that a bio refers to; high if it may be bounced. */
  datatype Vec = Vec(addr: int, len: int, high: bool)

  /** What a queue allows: joining adjacent pieces at all, the largest segment, the largest numbers of
      segments and of sectors, the boundary that no segment may cross, and whether pieces that may be bounced
      have to stand alone. */
  datatype Limits = Limits(cluster: bool, maxSize: int, maxSegments: int, maxSectors: int, boundary: int, alone: bool) {
    ghost predicate Valid() { boundary > 0 }
    function Alone(): Limits { this.(alone := true) }
  }

  /** The part of memory between two boundaries in which an address lies. */
  function Window(q: Limits, address: int): int
    requires q.Valid()
  {
    address / q.boundary
  }

  /** Two pieces are adjacent in memory and no boundary lies between their ends. */
  predicate Joins(q: Limits, a: Vec, b: Vec)
    requires q.Valid()
  {
    && a.addr + a.len == b.addr && a.addr / q.boundary == (b.addr + b.len - 1) / q.boundary
    && (q.alone ==> !a.high && !b.high)
  }

  ghost function Size(seg: seq<Vec>): int {
    if seg == [] then 0 else Size(seg[..|seg| - 1]) + seg[|seg| - 1].len
  }

  lemma {:induction false} SizeAdds(a: seq<Vec>, b: seq<Vec>)
    ensures Size(a + b) == Size(a) + Size(b)
    decreases |b|
  {
    if b == [] {
      assert a + b == a;
    } else {
      SizeAdds(a, b[..|b| - 1]);
      assert (a + b)[..|a + b| - 1] == a + b[..|b| - 1];
    }
  }

  lemma {:induction false} SizeNotNegative(seg: seq<Vec>)
    requires forall v :: v in seg ==> v.len >= 0
    ensures Size(seg) >= 0
    decreases |seg|
  {
    if seg != [] {
      SizeNotNegative(seg[..|seg| - 1]);
    }
  }

  /** A segment that the hardware accepts: one piece, or several that join and are not too large. */
  ghost predicate Segment(q: Limits, seg: seq<Vec>)
    requires q.Valid()
  {
    && seg != [] && (|seg| > 1 ==> q.cluster && Size(seg) <= q.maxSize)
    && forall i :: 0 < i < |seg| ==> Joins(q, seg[i - 1], seg[i])
  }

  ghost function Flat(parts: seq<seq<Vec>>): seq<Vec> {
    if parts == [] then [] else Flat(parts[..|parts| - 1]) + parts[|parts| - 1]
  }

  lemma {:induction false} FlatAdds(a: seq<seq<Vec>>, b: seq<seq<Vec>>)
    ensures Flat(a + b) == Flat(a) + Flat(b)
    decreases |b|
  {
    if b == [] {
      assert a + b == a;
    } else {
      var front, last := b[..|b| - 1], b[|b| - 1];
      FlatAdds(a, front);
      assert (a + b)[..|a + b| - 1] == a + front;
      assert (Flat(a) + Flat(front)) + last == Flat(a) + (Flat(front) + last);
    }
  }

  /** The pieces, cut into segments. */
  ghost predicate Parts(q: Limits, vecs: seq<Vec>, parts: seq<seq<Vec>>)
    requires q.Valid()
  {
    Flat(parts) == vecs && forall i :: 0 <= i < |parts| ==> Segment(q, parts[i])
  }

  /** What the hardware accepts as one segment, address by address: one piece, or several that follow each other in
      memory, not too large together, and all in one window. */
  ghost predicate Accepted(q: Limits, seg: seq<Vec>)
    requires q.Valid()
  {
    && seg != []
    && (|seg| > 1 ==>
          && q.cluster && Size(seg) <= q.maxSize && (q.alone ==> forall v :: v in seg ==> !v.high)
          && (forall i :: 0 <= i < |seg| ==> seg[i].addr == seg[0].addr + Size(seg[..i]))
          && (forall x :: seg[0].addr <= x < seg[0].addr + Size(seg) ==> Window(q, x) == Window(q, seg[0].addr)))
  }

  ghost predicate NotEmpty(vecs: seq<Vec>) {
    forall v :: v in vecs ==> v.len > 0
  }

  lemma SizeOf(seg: seq<Vec>, i: nat)
    requires i < |seg|
    ensures Size(seg[..i + 1]) == Size(seg[..i]) + seg[i].len
  {
    assert seg[..i + 1][..i] == seg[..i];
  }

  lemma {:induction false} SizeGrows(seg: seq<Vec>, i: nat)
    requires NotEmpty(seg) && i < |seg|
    ensures 0 <= Size(seg[..i]) && Size(seg[..i]) + seg[i].len <= Size(seg)
    decreases |seg|
  {
    var n := |seg| - 1;
    SizeNotNegative(seg[..i]);
    if i < n {
      SizeGrows(seg[..n], i);
      assert seg[..n][..i] == seg[..i];
    }
  }

  lemma Quotients(a: int, b: int, y: int)
    requires y > 0 && a <= b
    ensures a / y <= b / y
  {
    var p, r := a / y, b / y;
    assert a == p * y + a % y && b == r * y + b % y;
    assert (p - r - 1) * y == p * y - r * y - y;
    if p > r {
      NotNegative(p - r - 1, y);
    }
  }

  lemma NotNegative(a: int, b: int)
    requires a >= 0 && b >= 0
    ensures a * b >= 0
  {
  }

  lemma WindowBetween(q: Limits, a: int, x: int, b: int)
    requires q.Valid() && a <= x <= b && Window(q, a) == Window(q, b)
    ensures Window(q, x) == Window(q, a)
  {
    Quotients(a, x, q.boundary);
    Quotients(x, b, q.boundary);
  }

  /** Pieces that join one after the other follow each other in one window. */
  lemma {:induction false} JoinedAddresses(q: Limits, seg: seq<Vec>, i: nat)
    requires q.Valid() && Segment(q, seg) && NotEmpty(seg) && i < |seg|
    ensures seg[i].addr == seg[0].addr + Size(seg[..i]) && (q.alone && |seg| > 1 ==> !seg[i].high)
    ensures i > 0 ==> Window(q, seg[i].addr + seg[i].len - 1) == Window(q, seg[0].addr)
  {
    if i > 0 {
      JoinedAddresses(q, seg, i - 1);
      SizeOf(seg, i - 1);
      assert Joins(q, seg[i - 1], seg[i]);
      if i > 1 {
        SizeGrows(seg[..i], i - 1);
        assert seg[..i][..i - 1] == seg[..i - 1];
        WindowBetween(q, seg[0].addr, seg[i - 1].addr, seg[i - 1].addr + seg[i - 1].len - 1);
      }
    } else if |seg| > 1 {
      assert Joins(q, seg[0], seg[1]);
    }
  }

  /** The tests on neighbouring pieces find exactly the segments that the hardware accepts. */
  lemma SegmentAccepted(q: Limits, seg: seq<Vec>)
    requires q.Valid() && NotEmpty(seg)
    ensures Segment(q, seg) <==> Accepted(q, seg)
  {
    hide Joins;
    var n := |seg| - 1;
    if Segment(q, seg) && n > 0 {
      forall i | 0 <= i < |seg| ensures seg[i].addr == seg[0].addr + Size(seg[..i]) && (q.alone ==> !seg[i].high) {
        JoinedAddresses(q, seg, i);
      }
      JoinedAddresses(q, seg, n);
      SizeOf(seg, n);
      assert seg[..n + 1] == seg;
      forall x | seg[0].addr <= x < seg[0].addr + Size(seg) ensures Window(q, x) == Window(q, seg[0].addr) {
        WindowBetween(q, seg[0].addr, x, seg[n].addr + seg[n].len - 1);
      }
    } else if Accepted(q, seg) && n > 0 {
      forall i | 0 < i < |seg| ensures Joins(q, seg[i - 1], seg[i]) {
        AcceptedJoins(q, seg, i);
      }
    }
  }

  lemma AcceptedJoins(q: Limits, seg: seq<Vec>, i: nat)
    requires q.Valid() && NotEmpty(seg) && Accepted(q, seg) && 0 < i < |seg|
    ensures Joins(q, seg[i - 1], seg[i])
  {
    SizeOf(seg, i - 1);
    SizeGrows(seg, i - 1);
    SizeGrows(seg, i);
    var a, b := seg[i - 1].addr, seg[i].addr + seg[i].len - 1;
    assert Window(q, a) == Window(q, seg[0].addr) == Window(q, b);
  }

  /** A cutting in which pieces that may be bounced stand alone is a cutting. */
  lemma AloneParts(q: Limits, vecs: seq<Vec>, parts: seq<seq<Vec>>)
    requires q.Valid() && !q.alone && Parts(q.Alone(), vecs, parts)
    ensures Parts(q, vecs, parts)
  {
    forall i | 0 <= i < |parts| ensures Segment(q, parts[i]) {
      assert Segment(q.Alone(), parts[i]);
      forall j | 0 < j < |parts[i]| ensures Joins(q, parts[i][j - 1], parts[i][j]) {
        assert Joins(q.Alone(), parts[i][j - 1], parts[i][j]);
      }
    }
  }

  // --- the mapper ---

  datatype Mapped = Mapped(count: nat, size: int)

  /** What blk_rq_map_sg has emitted after the pieces: the number of entries and the length of the last one. */
  ghost function Greedy(q: Limits, vecs: seq<Vec>): Mapped
    requires q.Valid()
  {
    if vecs == [] then Mapped(0, 0)
    else
      var n := |vecs| - 1;
      var m := Greedy(q, vecs[..n]);
      if n > 0 && q.cluster && m.size + vecs[n].len <= q.maxSize && Joins(q, vecs[n - 1], vecs[n])
      then Mapped(m.count, m.size + vecs[n].len)
      else Mapped(m.count + 1, vecs[n].len)
  }

  /** At most so many entries, and if as many, the last one at most so long. */
  ghost predicate Ahead(m: Mapped, count: int, size: int) {
    m.count < count || (m.count == count && m.size <= size)
  }

  /** Within a segment of any other cutting the mapper stays ahead. */
  lemma {:induction false} AheadInSegment(q: Limits, before: seq<Vec>, seg: seq<Vec>, count: int, size: int)
    requires q.Valid() && Segment(q, seg) && Ahead(Greedy(q, before), count, size)
    requires forall v :: v in seg ==> v.len >= 0
    ensures Ahead(Greedy(q, before + seg), count + 1, Size(seg))
    decreases |seg|
  {
    hide Joins;
    var n := |seg| - 1;
    var vecs := before + seg;
    assert vecs[..|vecs| - 1] == before + seg[..n];
    if n == 0 {
      assert before + seg[..n] == before;
      assert seg[..0] == [];
    } else {
      PrefixSegment(q, seg);
      AheadInSegment(q, before, seg[..n], count, size);
      SizeNotNegative(seg[..n]);
      assert vecs[|vecs| - 2] == seg[n - 1];
    }
  }

  lemma PrefixSegment(q: Limits, seg: seq<Vec>)
    requires q.Valid() && Segment(q, seg) && |seg| > 1 && forall v :: v in seg ==> v.len >= 0
    ensures Segment(q, seg[..|seg| - 1]) && Joins(q, seg[|seg| - 2], seg[|seg| - 1])
  {
    var s := seg[..|seg| - 1];
    forall i | 0 < i < |s| ensures Joins(q, s[i - 1], s[i]) {
      assert Joins(q, seg[i - 1], seg[i]);
    }
  }

  /** The mapper emits no more entries than any cutting of the same pieces has segments. */
  lemma {:induction false} GreedyLeast(q: Limits, vecs: seq<Vec>, parts: seq<seq<Vec>>)
    requires q.Valid() && Parts(q, vecs, parts) && forall v :: v in vecs ==> v.len >= 0
    ensures Ahead(Greedy(q, vecs), |parts|, if parts == [] then 0 else Size(parts[|parts| - 1]))
    decreases |parts|
  {
    if parts != [] {
      var front, last := parts[..|parts| - 1], parts[|parts| - 1];
      var before := Flat(front);
      assert vecs == before + last;
      GreedyLeast(q, before, front);
      AheadInSegment(q, before, last, |front|, if front == [] then 0 else Size(front[|front| - 1]));
    }
  }

  // --- the counter ---

  /** A cutting with a bound on its first and on its last segment. */
  ghost predicate Bounded(q: Limits, vecs: seq<Vec>, parts: seq<seq<Vec>>, front: int, back: int)
    requires q.Valid()
  {
    && Parts(q, vecs, parts) && parts != []
    && Size(parts[0]) <= front && Size(parts[|parts| - 1]) <= back
  }

  /** One piece more in the last segment, or in a segment of its own. */
  ghost function Grown(parts: seq<seq<Vec>>, v: Vec): seq<seq<Vec>>
    requires parts != []
  {
    parts[|parts| - 1 := parts[|parts| - 1] + [v]]
  }

  lemma GrownParts(q: Limits, vecs: seq<Vec>, parts: seq<seq<Vec>>, v: Vec)
    requires q.Valid() && q.cluster && Parts(q, vecs, parts) && parts != [] && vecs != []
    requires Size(parts[|parts| - 1]) + v.len <= q.maxSize && Joins(q, vecs[|vecs| - 1], v)
    ensures Parts(q, vecs + [v], Grown(parts, v)) && Size(Grown(parts, v)[|parts| - 1]) == Size(parts[|parts| - 1]) + v.len
  {
    var n := |parts| - 1;
    var last := parts[n];
    SizeAdds(last, [v]);
    assert [v][..0] == [];
    assert Flat(parts[..n]) + (last + [v]) == vecs + [v];
    assert Grown(parts, v)[..n] == parts[..n];
    assert last[|last| - 1] == vecs[|vecs| - 1];
    forall i | 0 < i < |last + [v]| ensures Joins(q, (last + [v])[i - 1], (last + [v])[i]) {
      assert i < |last| ==> Joins(q, last[i - 1], last[i]);
    }
  }

  lemma NewPart(q: Limits, vecs: seq<Vec>, parts: seq<seq<Vec>>, v: Vec)
    requires q.Valid() && Parts(q, vecs, parts)
    ensures Parts(q, vecs + [v], parts + [[v]]) && Size([v]) == v.len
  {
    assert (parts + [[v]])[..|parts|] == parts;
    assert [v][..0] == [];
  }

  /** Cuttings of two requests make one of both. */
  lemma Concatenated(q: Limits, a: seq<Vec>, p: seq<seq<Vec>>, front: int, back: int,
                     b: seq<Vec>, r: seq<seq<Vec>>, front': int, back': int)
    requires q.Valid() && Bounded(q, a, p, front, back) && Bounded(q, b, r, front', back')
    ensures Bounded(q, a + b, p + r, front, back')
  {
    hide Flat, Size, Segment;
    FlatAdds(p, r);
    assert forall i :: 0 <= i < |r| ==> (p + r)[|p| + i] == r[i];
  }

  /** The last segment of one and the first of the other become one. */
  ghost function Spliced(p: seq<seq<Vec>>, r: seq<seq<Vec>>): seq<seq<Vec>>
    requires p != [] && r != []
  {
    p[..|p| - 1] + [p[|p| - 1] + r[0]] + r[1..]
  }

  lemma SplicedFlat(p: seq<seq<Vec>>, r: seq<seq<Vec>>)
    requires p != [] && r != []
    ensures Flat(Spliced(p, r)) == Flat(p) + Flat(r)
  {
    hide Flat;
    var f, l := p[..|p| - 1], p[|p| - 1];
    FlatAdds(f + [l + r[0]], r[1..]);
    FlatAdds(f, [l + r[0]]);
    FlatOne(l + r[0]);
    assert p == f + [l] && r == [r[0]] + r[1..];
    FlatAdds(f, [l]);
    FlatOne(l);
    FlatAdds([r[0]], r[1..]);
    FlatOne(r[0]);
    assert Flat(f) + (l + r[0]) + Flat(r[1..]) == Flat(f) + l + (r[0] + Flat(r[1..]));
  }

  lemma FlatOne(s: seq<Vec>)
    ensures Flat([s]) == s
  {
    assert [s][..0] == [];
    assert Flat([s]) == Flat([]) + s;
  }

  lemma JoinedSegment(q: Limits, l: seq<Vec>, r: seq<Vec>)
    requires q.Valid() && q.cluster && Segment(q, l) && Segment(q, r) && Size(l) + Size(r) <= q.maxSize
    requires l != [] && r != [] && Joins(q, l[|l| - 1], r[0])
    ensures Segment(q, l + r)
  {
    hide Joins, Size;
    SizeAdds(l, r);
    var s := l + r;
    forall i | 0 < i < |s| ensures Joins(q, s[i - 1], s[i]) {
      if i < |l| {
        assert Joins(q, l[i - 1], l[i]);
      } else if i > |l| {
        assert Joins(q, r[i - |l| - 1], r[i - |l|]);
      }
    }
  }

  lemma SplicedParts(q: Limits, a: seq<Vec>, p: seq<seq<Vec>>, front: int, back: int,
                     b: seq<Vec>, r: seq<seq<Vec>>, front': int, back': int)
    requires q.Valid() && q.cluster && Bounded(q, a, p, front, back) && Bounded(q, b, r, front', back')
    requires a != [] && b != [] && Joins(q, a[|a| - 1], b[0]) && back + front' <= q.maxSize
    ensures Parts(q, a + b, Spliced(p, r)) && Size(p[|p| - 1] + r[0]) <= back + front' && |Spliced(p, r)| == |p| + |r| - 1
    ensures Bounded(q, a + b, Spliced(p, r), if |p| == 1 then back + front' else front, if |r| == 1 then back + front' else back')
  {
    hide Flat, Segment;
    SplicedFlat(p, r);
    LastPiece(q, a, p);
    FirstPiece(q, b, r);
    JoinedSegment(q, p[|p| - 1], r[0]);
    SizeAdds(p[|p| - 1], r[0]);
    var t := Spliced(p, r);
    forall i | 0 <= i < |t| ensures Segment(q, t[i]) {
      if i < |p| - 1 {
        assert t[i] == p[i];
      } else if i > |p| - 1 {
        assert t[i] == r[i - |p| + 1];
      }
    }
  }

  lemma LastPiece(q: Limits, a: seq<Vec>, p: seq<seq<Vec>>)
    requires q.Valid() && Parts(q, a, p) && p != [] && a != []
    ensures p[|p| - 1] != [] && p[|p| - 1][|p[|p| - 1]| - 1] == a[|a| - 1]
  {
    assert Segment(q, p[|p| - 1]);
    assert a == Flat(p[..|p| - 1]) + p[|p| - 1];
  }

  lemma FirstPiece(q: Limits, b: seq<Vec>, r: seq<seq<Vec>>)
    requires q.Valid() && Parts(q, b, r) && r != [] && b != []
    ensures r[0] != [] && r[0][0] == b[0]
  {
    assert Segment(q, r[0]);
    assert r == [r[0]] + r[1..];
    FlatAdds([r[0]], r[1..]);
    FlatOne(r[0]);
  }

  // --- bios and requests ---

  class Bio {
    const vecs: seq<Vec>
    var frontSize: int
    var backSize: int
    var segments: int
    var counted: bool
    ghost var parts: seq<seq<Vec>>

    /** A bio with data, not counted yet. */
    constructor (vecs: seq<Vec>)
      requires vecs != [] && forall v :: v in vecs ==> v.len >= 0
      ensures this.vecs == vecs && HasData() && !counted && frontSize == 0 && backSize == 0
    {
      this.vecs := vecs;
      frontSize, backSize, segments, counted := 0, 0, 0, false;
    }

    ghost predicate HasData() {
      vecs != [] && forall v :: v in vecs ==> v.len >= 0
    }

    /** The count of segments of this bio alone, if it has been taken. */
    ghost predicate Counted(q: Limits)
      requires q.Valid()
      reads this
    {
      && counted && segments == |parts| == Greedy(q.Alone(), vecs).count && Parts(q.Alone(), vecs, parts)
      && Bounded(q, vecs, parts, frontSize, backSize)
    }
  }

  ghost function Vecs(bios: seq<Bio>): seq<Vec> {
    if bios == [] then [] else Vecs(bios[..|bios| - 1]) + bios[|bios| - 1].vecs
  }

  lemma {:induction false} VecsAdd(a: seq<Bio>, b: seq<Bio>)
    ensures Vecs(a + b) == Vecs(a) + Vecs(b)
    decreases |b|
  {
    if b == [] {
      assert a + b == a;
    } else {
      VecsAdd(a, b[..|b| - 1]);
      assert (a + b)[..|a + b| - 1] == a + b[..|b| - 1];
      assert Vecs(a) + Vecs(b[..|b| - 1]) + b[|b| - 1].vecs == Vecs(a) + (Vecs(b[..|b| - 1]) + b[|b| - 1].vecs);
    }
  }

  function Max(a: int, b: int): int {
    if a > b then a else b
  }

  /** The counting loop over the pieces seen so far: the last segment is still open, and so is the first
      one while it is the only one. The recorded size of the first one was least before. */
  ghost predicate Counting(q: Limits, seen: seq<Vec>, parts: seq<seq<Vec>>, size: int, least: int, front: int)
    requires q.Valid()
  {
    && Parts(q, seen, parts) && (seen == [] <==> parts == [])
    && (parts != [] ==> size == Size(parts[|parts| - 1])) && front == if |parts| > 1 then Max(least, Size(parts[0])) else least
  }

  lemma CountJoined(q: Limits, seen: seq<Vec>, parts: seq<seq<Vec>>, size: int, least: int, front: int, v: Vec)
    requires q.Valid() && Counting(q, seen, parts, size, least, front) && seen != [] && q.cluster
    requires size + v.len <= q.maxSize && Joins(q, seen[|seen| - 1], v)
    ensures Counting(q, seen + [v], Grown(parts, v), size + v.len, least, front)
  {
    hide Joins, Segment;
    GrownParts(q, seen, parts, v);
  }

  lemma CountNew(q: Limits, seen: seq<Vec>, parts: seq<seq<Vec>>, size: int, least: int, front: int, v: Vec)
    requires q.Valid() && Counting(q, seen, parts, size, least, front)
    ensures Counting(q, seen + [v], parts + [[v]], v.len, least, if |parts| == 1 then Max(front, size) else front)
  {
    hide Joins, Segment;
    NewPart(q, seen, parts, v);
  }

  /** The variables of the counting loop after the pieces seen so far: they are those of the greedy cutting in which
      pieces that may be bounced stand alone. */
  ghost predicate Scan(q: Limits, seen: seq<Vec>, parts: seq<seq<Vec>>, nr: int, size: int, prev: Vec, highprv: bool, least: int, front: int)
    requires q.Valid()
  {
    && Counting(q.Alone(), seen, parts, size, least, front) && nr == |parts| && Greedy(q.Alone(), seen) == Mapped(nr, size)
    && (if seen == [] then highprv else prev == seen[|seen| - 1] && highprv == prev.high)
  }

  /** The test of the loop is that of the greedy cutting. */
  lemma AloneJoins(q: Limits, a: Vec, b: Vec)
    requires q.Valid() && !q.alone
    ensures Joins(q.Alone(), a, b) <==> !a.high && !b.high && Joins(q, a, b)
  {
  }

  /** The loop over the pieces of one bio, with the first bio of the chain. */
  method CountVecs(q: Limits, first: Bio, vecs: seq<Vec>, nr0: int, size0: int, prev0: Vec, highprv0: bool,
                   ghost before: seq<Vec>, ghost parts0: seq<seq<Vec>>, ghost least: int)
    returns (nr: int, size: int, prev: Vec, highprv: bool, ghost parts: seq<seq<Vec>>)
    requires q.Valid() && !q.alone && Scan(q, before, parts0, nr0, size0, prev0, highprv0, least, first.frontSize)
    modifies first`frontSize
    ensures Scan(q, before + vecs, parts, nr, size, prev, highprv, least, first.frontSize)
  {
    hide Joins, Segment, Parts, Flat, Size, Greedy;
    nr, size, prev, highprv, parts := nr0, size0, prev0, highprv0, parts0;
    var i := 0;
    assert before + vecs[..0] == before;
    while i < |vecs|
      invariant 0 <= i <= |vecs| && Scan(q, before + vecs[..i], parts, nr, size, prev, highprv, least, first.frontSize)
    {
      var v := vecs[i];
      ghost var seen := before + vecs[..i];
      assert before + vecs[..i + 1] == seen + [v];
      GreedyNext(q.Alone(), seen, v);
      AloneJoins(q, prev, v);
      if !v.high && !highprv && q.cluster && size + v.len <= q.maxSize && Joins(q, prev, v) {
        CountJoined(q.Alone(), seen, parts, size, least, first.frontSize, v);
        parts := Grown(parts, v);
        size := size + v.len;
      } else {
        CountNew(q.Alone(), seen, parts, size, least, first.frontSize, v);
        if nr == 1 && size > first.frontSize {
          first.frontSize := size;
        }
        parts := parts + [[v]];
        nr, size, highprv := nr + 1, v.len, v.high;
      }
      prev := v;
      i := i + 1;
    }
    assert vecs[..i] == vecs;
  }

  /** __blk_recalc_rq_segments: counts the segments of a chain of bios, and raises the recorded sizes of the
      first and the last one to what they are. No other cutting in which pieces that may be bounced stand alone has
      fewer segments. */
  method RecalcSegments(q: Limits, bios: seq<Bio>) returns (nr: int, ghost parts: seq<seq<Vec>>)
    requires q.Valid() && !q.alone && forall b :: b in bios ==> b.HasData()
    modifies if bios == [] then {} else {bios[0]}`frontSize, if bios == [] then {} else {bios[|bios| - 1]}`backSize
    ensures nr == |parts| == Greedy(q.Alone(), Vecs(bios)).count && Parts(q.Alone(), Vecs(bios), parts)
    ensures forall p :: Parts(q.Alone(), Vecs(bios), p) ==> nr <= |p|
    ensures bios != [] ==> parts != [] && bios[0].frontSize == Max(old(bios[0].frontSize), Size(parts[0]))
    ensures bios != [] ==> bios[|bios| - 1].backSize == Max(old(bios[|bios| - 1].backSize), Size(parts[nr - 1]))
  {
    hide Joins, Segment, Parts, Flat, Size, Greedy;
    nr, parts := 0, [];
    VecsData(bios);
    NoneCounted(q);
    if bios == [] {
      return;
    }
    var first, tail := bios[0], bios[|bios| - 1];
    var size, prev, highprv, n := 0, Vec(0, 0, true), true, 0;
    ghost var least := first.frontSize;
    while n < |bios|
      invariant 0 <= n <= |bios| && tail.backSize == old(tail.backSize)
      invariant Scan(q, Vecs(bios[..n]), parts, nr, size, prev, highprv, least, first.frontSize)
      invariant n > 0 ==> Vecs(bios[..n]) != []
    {
      ghost var before := Vecs(bios[..n]);
      nr, size, prev, highprv, parts := CountVecs(q, first, bios[n].vecs, nr, size, prev, highprv, before, parts, least);
      assert bios[..n + 1][..n] == bios[..n] && bios[n].HasData();
      assert Vecs(bios[..n + 1]) == before + bios[n].vecs;
      n := n + 1;
    }
    assert bios[..n] == bios;
    if nr == 1 && size > first.frontSize {
      first.frontSize := size;
    }
    if size > tail.backSize {
      tail.backSize := size;
    }
    forall p | Parts(q.Alone(), Vecs(bios), p) ensures nr <= |p| {
      GreedyLeast(q.Alone(), Vecs(bios), p);
    }
  }

  lemma NoneCounted(q: Limits)
    requires q.Valid()
    ensures Parts(q.Alone(), [], []) && Greedy(q.Alone(), []) == Mapped(0, 0) && forall front :: Counting(q.Alone(), [], [], 0, front, front)
  {
  }

  /** blk_recount_segments: the count of one bio alone. */
  method Recount(q: Limits, bio: Bio)
    requires q.Valid() && !q.alone && bio.HasData()
    modifies bio
    ensures bio.Counted(q) && |bio.parts| > 0
    ensures bio.frontSize == Max(old(bio.frontSize), Size(bio.parts[0]))
    ensures bio.backSize == Max(old(bio.backSize), Size(bio.parts[|bio.parts| - 1]))
  {
    hide Joins, Segment, Parts, Flat, Size, Greedy;
    var nr;
    ghost var parts;
    nr, parts := RecalcSegments(q, [bio]);
    VecsOne(bio);
    AloneParts(q, bio.vecs, parts);
    bio.segments, bio.counted, bio.parts := nr, true, parts;
  }

  class Request {
    var bios: seq<Bio>
    var nrSegments: int
    var bytes: int
    /** A cutting of the data into as many segments as are counted. */
    ghost var parts: seq<seq<Vec>>

    ghost predicate Shaped()
      reads this
    {
      bios != [] && forall b :: b in bios ==> b.HasData()
    }

    ghost predicate Valid(q: Limits)
      requires q.Valid()
      reads this, bios
    {
      && Shaped() && |parts| == nrSegments
      && Bounded(q, Vecs(bios), parts, bios[0].frontSize, bios[|bios| - 1].backSize)
    }

    /** A request made of one bio. */
    constructor (q: Limits, bio: Bio, size: int)
      requires q.Valid() && !q.alone && bio.HasData() && (bio.counted ==> bio.Counted(q))
      modifies bio
      ensures Valid(q) && bios == [bio] && bytes == size && nrSegments == Greedy(q.Alone(), bio.vecs).count
    {
      hide Joins, Segment, Parts, Flat, Size, Greedy, Vecs;
      bios, bytes := [bio], size;
      new;
      if !bio.counted {
        Recount(q, bio);
      }
      nrSegments, parts := bio.segments, bio.parts;
      VecsOne(bio);
    }

    /** ll_back_merge_fn and the appending of the bio. */
    method BackMerge(q: Limits, bio: Bio, size: int) returns (ok: bool)
      requires q.Valid() && !q.alone && Valid(q) && bio !in bios && bio.HasData() && (bio.counted ==> bio.Counted(q))
      modifies this, bio, bios[|bios| - 1]
      ensures Valid(q) && bios == if ok then old(bios) + [bio] else old(bios)
      ensures var n := Greedy(q.Alone(), bio.vecs).count;
              && (ok <==> old(bytes) / 512 + size / 512 <= q.maxSectors && old(nrSegments) + n <= q.maxSegments)
              && nrSegments == old(nrSegments) + if ok then n else 0
      ensures bytes == old(bytes) + if ok then size else 0
    {
      hide Joins, Segment, Parts, Flat, Size, Greedy;
      if bytes / 512 + size / 512 > q.maxSectors {
        return false;
      }
      var tail := bios[|bios| - 1];
      if !tail.counted {
        Recount(q, tail);
      }
      if !bio.counted {
        Recount(q, bio);
      }
      if nrSegments + bio.segments > q.maxSegments {
        return false;
      }
      Concatenated(q, Vecs(bios), parts, bios[0].frontSize, tail.backSize, bio.vecs, bio.parts, bio.frontSize, bio.backSize);
      assert (bios + [bio])[..|bios|] == bios;
      nrSegments, parts := nrSegments + bio.segments, parts + bio.parts;
      bios, bytes := bios + [bio], bytes + size;
      ok := true;
    }

    /** ll_front_merge_fn and the putting in front of the bio. */
    method FrontMerge(q: Limits, bio: Bio, size: int) returns (ok: bool)
      requires q.Valid() && !q.alone && Valid(q) && bio !in bios && bio.HasData() && (bio.counted ==> bio.Counted(q))
      modifies this, bio, bios[0]
      ensures Valid(q) && bios == if ok then [bio] + old(bios) else old(bios)
      ensures var n := Greedy(q.Alone(), bio.vecs).count;
              && (ok <==> old(bytes) / 512 + size / 512 <= q.maxSectors && old(nrSegments) + n <= q.maxSegments)
              && nrSegments == old(nrSegments) + if ok then n else 0
      ensures bytes == old(bytes) + if ok then size else 0
    {
      hide Joins, Segment, Parts, Flat, Size, Greedy;
      if bytes / 512 + size / 512 > q.maxSectors {
        return false;
      }
      if !bio.counted {
        Recount(q, bio);
      }
      if !bios[0].counted {
        Recount(q, bios[0]);
      }
      if nrSegments + bio.segments > q.maxSegments {
        return false;
      }
      var tail := bios[|bios| - 1];
      Concatenated(q, bio.vecs, bio.parts, bio.frontSize, bio.backSize, Vecs(bios), parts, bios[0].frontSize, tail.backSize);
      VecsOne(bio);
      VecsAdd([bio], bios);
      nrSegments, parts := nrSegments + bio.segments, bio.parts + parts;
      bios, bytes := [bio] + bios, bytes + size;
      ok := true;
    }

    /** blk_phys_contig_segment: whether the data of one bio and of the next make one segment where they meet. */
    static predicate Contig(q: Limits, bio: Bio, next: Bio)
      requires q.Valid() && bio.HasData() && next.HasData()
      reads bio`backSize, next`frontSize
    {
      q.cluster && bio.backSize + next.frontSize <= q.maxSize && Joins(q, bio.vecs[|bio.vecs| - 1], next.vecs[0])
    }

    /** Where one bio ends and the next begins: the last segment of one and the first of the other are not too large
        together, the next begins at the very address after the one, and no boundary lies between the start of the last
        piece of the one and the end of the first piece of the next. */
    static ghost predicate Meet(q: Limits, bio: Bio, next: Bio)
      requires q.Valid() && bio.HasData() && next.HasData()
      reads bio`backSize, next`frontSize
    {
      var a, b := bio.vecs[|bio.vecs| - 1], next.vecs[0];
      && q.cluster && bio.backSize + next.frontSize <= q.maxSize && a.addr + a.len == b.addr
      && Window(q, a.addr) == Window(q, b.addr + b.len - 1)
    }

    lemma ContigMeet(q: Limits, bio: Bio, next: Bio)
      requires q.Valid() && !q.alone && bio.HasData() && next.HasData()
      ensures Contig(q, bio, next) <==> Meet(q, bio, next)
    {
    }

    /** ll_merge_requests_fn and the appending of the bios of the next request. The recorded sizes may be
        changed although the merge is refused; both requests stay in order all the same. */
    method MergeRequest(q: Limits, next: Request) returns (ok: bool)
      requires q.Valid() && !q.alone && Valid(q) && next != this && next.Valid(q) && forall b :: b in bios ==> b !in next.bios
      modifies this, {bios[0]}`frontSize, {next.bios[|next.bios| - 1]}`backSize
      ensures Valid(q) && bios == if ok then old(bios) + next.bios else old(bios)
      ensures var contig := old(Meet(q, bios[|bios| - 1], next.bios[0]));
              var n := old(nrSegments) + next.nrSegments - (if contig then 1 else 0);
              && (ok <==> old(bytes) / 512 + next.bytes / 512 <= q.maxSectors && n <= q.maxSegments)
              && nrSegments == if ok then n else old(nrSegments)
      ensures bytes == old(bytes) + (if ok then next.bytes else 0) && (!ok ==> next.Valid(q))
      ensures var contig := old(bytes) / 512 + next.bytes / 512 <= q.maxSectors && old(Meet(q, bios[|bios| - 1], next.bios[0]));
              var size := old(bios[|bios| - 1].backSize) + old(next.bios[0].frontSize);
              && old(bios[0]).frontSize == (if contig && old(nrSegments) == 1 then size else old(bios[0].frontSize))
              && next.bios[|next.bios| - 1].backSize ==
                   if contig && next.nrSegments == 1 then size else old(next.bios[|next.bios| - 1].backSize)
    {
      hide Joins, Segment, Parts, Flat, Size, Vecs, Spliced, Bio.HasData, Request.Meet;
      var first, tail := bios[0], bios[|bios| - 1];
      var front, last := next.bios[0], next.bios[|next.bios| - 1];
      var segSize := tail.backSize + front.frontSize;
      if bytes / 512 + next.bytes / 512 > q.maxSectors {
        return false;
      }
      var total := nrSegments + next.nrSegments;
      ghost var merged := parts + next.parts;
      VecsAdd(bios, next.bios);
      VecsEnds(bios);
      VecsEnds(next.bios);
      Concatenated(q, Vecs(bios), parts, first.frontSize, tail.backSize, Vecs(next.bios), next.parts, front.frontSize, last.backSize);
      var contig := Contig(q, tail, front);
      ContigMeet(q, tail, front);
      if contig {
        SplicedParts(q, Vecs(bios), parts, first.frontSize, tail.backSize, Vecs(next.bios), next.parts, front.frontSize, last.backSize);
        NotNegativeFront(q, next);
        NotNegativeBack(q);
        merged := Spliced(parts, next.parts);
        if nrSegments == 1 {
          first.frontSize := segSize;
        }
        if next.nrSegments == 1 {
          last.backSize := segSize;
        }
        total := total - 1;
      }
      if total > q.maxSegments {
        return false;
      }
      nrSegments, parts := total, merged;
      bios, bytes := bios + next.bios, bytes + next.bytes;
      ok := true;
    }

    lemma NotNegativeFront(q: Limits, next: Request)
      requires q.Valid() && next.Valid(q)
      ensures next.bios[0].frontSize >= 0 && (next.nrSegments == 1 ==> Size(next.parts[0]) <= next.bios[0].frontSize)
    {
      PartSizes(q, Vecs(next.bios), next.parts, 0);
      VecsData(next.bios);
    }

    lemma NotNegativeBack(q: Limits)
      requires q.Valid() && Valid(q)
      ensures bios[|bios| - 1].backSize >= 0
    {
      PartSizes(q, Vecs(bios), parts, |parts| - 1);
      VecsData(bios);
    }
  }

  lemma VecsOne(bio: Bio)
    ensures Vecs([bio]) == bio.vecs
  {
    assert [bio][..0] == [];
    assert Vecs([bio]) == Vecs([]) + bio.vecs;
  }

  /** The data of a chain starts and ends where that of its first and last bio does. */
  lemma {:induction false} VecsEnds(bios: seq<Bio>)
    requires bios != [] && forall b :: b in bios ==> b.HasData()
    ensures var v := Vecs(bios);
            && bios[0].HasData() && bios[|bios| - 1].HasData() && v != [] && v[0] == bios[0].vecs[0]
            && v[|v| - 1] == bios[|bios| - 1].vecs[|bios[|bios| - 1].vecs| - 1]
    decreases |bios|
  {
    assert bios[|bios| - 1].HasData();
    if |bios| == 1 {
      VecsOne(bios[0]);
      assert bios == [bios[0]];
    } else {
      VecsEnds(bios[..|bios| - 1]);
    }
  }

  lemma {:induction false} VecsData(bios: seq<Bio>)
    requires forall b :: b in bios ==> b.HasData()
    ensures forall v :: v in Vecs(bios) ==> v.len >= 0
    decreases |bios|
  {
    if bios != [] {
      VecsData(bios[..|bios| - 1]);
      assert bios[|bios| - 1].HasData();
    }
  }

  lemma PartSizes(q: Limits, vecs: seq<Vec>, parts: seq<seq<Vec>>, i: nat)
    requires q.Valid() && Parts(q, vecs, parts) && i < |parts|
    ensures (forall v :: v in vecs ==> v.len >= 0) ==> Size(parts[i]) >= 0
  {
    hide Joins;
    assert parts == parts[..i] + [parts[i]] + parts[i + 1..];
    FlatAdds(parts[..i] + [parts[i]], parts[i + 1..]);
    FlatAdds(parts[..i], [parts[i]]);
    FlatOne(parts[i]);
    if forall v :: v in vecs ==> v.len >= 0 {
      assert forall v :: v in parts[i] ==> v in vecs;
      SizeNotNegative(parts[i]);
    }
  }

  /** A cutting of the pieces into segments that the hardware accepts. */
  ghost predicate Cutting(q: Limits, vecs: seq<Vec>, parts: seq<seq<Vec>>)
    requires q.Valid()
  {
    Flat(parts) == vecs && forall i :: 0 <= i < |parts| ==> Accepted(q, parts[i])
  }

  lemma CuttingParts(q: Limits, vecs: seq<Vec>, parts: seq<seq<Vec>>)
    requires q.Valid() && NotEmpty(vecs)
    ensures Parts(q, vecs, parts) <==> Cutting(q, vecs, parts)
  {
    hide Segment, Accepted, Flat;
    if Flat(parts) == vecs {
      forall i | 0 <= i < |parts| ensures Segment(q, parts[i]) <==> Accepted(q, parts[i]) {
        PartNotEmpty(vecs, parts, i);
        SegmentAccepted(q, parts[i]);
      }
    }
  }

  lemma PartNotEmpty(vecs: seq<Vec>, parts: seq<seq<Vec>>, i: nat)
    requires NotEmpty(vecs) && Flat(parts) == vecs && i < |parts|
    ensures NotEmpty(parts[i])
  {
    hide Flat;
    assert parts == parts[..i] + [parts[i]] + parts[i + 1..];
    FlatAdds(parts[..i] + [parts[i]], parts[i + 1..]);
    FlatAdds(parts[..i], [parts[i]]);
    FlatOne(parts[i]);
    assert forall v :: v in parts[i] ==> v in vecs;
  }

  /** A scatterlist entry. */
  datatype Entry = Entry(addr: int, len: int)

  /** The entries are those of the segments. */
  ghost predicate Maps(sg: seq<Entry>, cut: seq<seq<Vec>>) {
    |sg| == |cut| && forall i :: 0 <= i < |sg| ==> cut[i] != [] && sg[i] == Entry(cut[i][0].addr, Size(cut[i]))
  }

  /** blk_rq_map_sg: the scatterlist entries of a request. They are a cutting of its data into
      segments that the hardware accepts, with as few segments as any, and so with no more than are counted. */
  method MapSg(q: Limits, rq: Request) returns (sg: seq<Entry>, ghost cut: seq<seq<Vec>>)
    requires q.Valid() && !q.alone && rq.Valid(q)
    ensures |sg| <= rq.nrSegments && Parts(q, Vecs(rq.bios), cut) && Maps(sg, cut)
    ensures forall p :: Parts(q, Vecs(rq.bios), p) ==> |sg| <= |p|
    ensures NotEmpty(Vecs(rq.bios)) ==>
      Cutting(q, Vecs(rq.bios), cut) && forall p :: Cutting(q, Vecs(rq.bios), p) ==> |sg| <= |p|
  {
    hide Joins, Segment, Flat, Size, Parts, Cutting;
    VecsData(rq.bios);
    sg, cut := [], [];
    NothingEmitted(q);
    var prev, n := Vec(0, 0, false), 0;
    while n < |rq.bios|
      invariant 0 <= n <= |rq.bios| && Emitted(q, Vecs(rq.bios[..n]), sg, cut, prev)
    {
      sg, prev, cut := MapVecs(q, rq.bios[n].vecs, sg, prev, Vecs(rq.bios[..n]), cut);
      assert rq.bios[..n + 1][..n] == rq.bios[..n];
      n := n + 1;
    }
    assert rq.bios[..n] == rq.bios;
    forall p | Parts(q, Vecs(rq.bios), p) ensures |sg| <= |p| {
      GreedyLeast(q, Vecs(rq.bios), p);
    }
    if NotEmpty(Vecs(rq.bios)) {
      CuttingParts(q, Vecs(rq.bios), cut);
      forall p | Cutting(q, Vecs(rq.bios), p) ensures |sg| <= |p| {
        CuttingParts(q, Vecs(rq.bios), p);
      }
    }
  }

  /** What has been emitted for the pieces so far. */
  ghost predicate Emitted(q: Limits, seen: seq<Vec>, sg: seq<Entry>, cut: seq<seq<Vec>>, prev: Vec)
    requires q.Valid()
  {
    var m := Greedy(q, seen);
    && Parts(q, seen, cut) && |sg| == m.count && Maps(sg, cut)
    && (seen == [] <==> sg == []) && (seen != [] ==> prev == seen[|seen| - 1] && sg[|sg| - 1].len == m.size)
  }

  lemma NothingEmitted(q: Limits)
    requires q.Valid()
    ensures Emitted(q, [], [], [], Vec(0, 0, false))
  {
  }

  /** One more piece, in the last entry or in an entry of its own. */
  lemma EmittedNext(q: Limits, seen: seq<Vec>, sg: seq<Entry>, cut: seq<seq<Vec>>, prev: Vec, v: Vec)
    requires q.Valid() && Emitted(q, seen, sg, cut, prev)
    ensures |cut| == |sg|
    ensures if sg != [] && q.cluster && sg[|sg| - 1].len + v.len <= q.maxSize && Joins(q, prev, v)
            then Emitted(q, seen + [v], sg[|sg| - 1 := sg[|sg| - 1].(len := sg[|sg| - 1].len + v.len)], Grown(cut, v), v)
            else Emitted(q, seen + [v], sg + [Entry(v.addr, v.len)], cut + [[v]], v)
  {
    hide Joins, Greedy, Size, Parts;
    GreedyNext(q, seen, v);
    if sg != [] && q.cluster && sg[|sg| - 1].len + v.len <= q.maxSize && Joins(q, prev, v) {
      GrownParts(q, seen, cut, v);
    } else {
      NewPart(q, seen, cut, v);
    }
  }

  lemma GreedyNext(q: Limits, seen: seq<Vec>, v: Vec)
    requires q.Valid()
    ensures var m := Greedy(q, seen);
            Greedy(q, seen + [v]) == if seen != [] && q.cluster && m.size + v.len <= q.maxSize && Joins(q, seen[|seen| - 1], v)
                                     then Mapped(m.count, m.size + v.len) else Mapped(m.count + 1, v.len)
  {
    hide Joins;
    assert (seen + [v])[..|seen|] == seen;
  }

  method MapVecs(q: Limits, vecs: seq<Vec>, sg0: seq<Entry>, prev0: Vec, ghost before: seq<Vec>, ghost cut0: seq<seq<Vec>>)
    returns (sg: seq<Entry>, prev: Vec, ghost cut: seq<seq<Vec>>)
    requires q.Valid() && Emitted(q, before, sg0, cut0, prev0)
    ensures Emitted(q, before + vecs, sg, cut, prev)
  {
    hide Joins, Emitted;
    sg, prev, cut := sg0, prev0, cut0;
    var i := 0;
    assert before + vecs[..0] == before;
    while i < |vecs|
      invariant 0 <= i <= |vecs| && Emitted(q, before + vecs[..i], sg, cut, prev)
    {
      var v := vecs[i];
      assert before + vecs[..i + 1] == before + vecs[..i] + [v];
      EmittedNext(q, before + vecs[..i], sg, cut, prev, v);
      if sg != [] && q.cluster && sg[|sg| - 1].len + v.len <= q.maxSize && Joins(q, prev, v) {
        sg, cut := sg[|sg| - 1 := sg[|sg| - 1].(len := sg[|sg| - 1].len + v.len)], Grown(cut, v);
      } else {
        sg, cut := sg + [Entry(v.addr, v.len)], cut + [[v]];
      }
      prev := v;
      i := i + 1;
    }
    assert vecs[..i] == vecs;
  }
}
