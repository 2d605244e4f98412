/** Whole runs of the range map: every sequence of successful registrations and releases. */
module History {
  import opened Pages
  import opened Intervals
  import ForkMap
  import MemTree

  datatype Bytes = Bytes(first: int, last: int)

  /** A call that succeeded: whole pages, counted up (registered) or down (released). */
  datatype Call = Call(bytes: Bytes, up: bool)

  const EMPTY: seq<Range> := [Range(0, TOP, 0)]

  function Inc(call: Call): int {
    if call.up then 1 else -1
  }

  /** The map goes from the initial one through one state for each call. */
  ghost predicate Run(maps: seq<seq<Range>>, calls: seq<Call>) {
    && |maps| == |calls| + 1 && maps[0] == EMPTY
    && forall k :: 0 <= k < |calls| ==>
         Finished(maps[k], maps[k + 1], calls[k].bytes.first, calls[k].bytes.last, Inc(calls[k]))
  }

  function Covers(bytes: Bytes, a: int): int {
    if bytes.first <= a <= bytes.last then 1 else 0
  }

  /** Registrations less releases of an address. */
  ghost function Net(calls: seq<Call>, a: int): int {
    if calls == [] then 0
    else Net(calls[..|calls| - 1], a) + Inc(calls[|calls| - 1]) * Covers(calls[|calls| - 1].bytes, a)
  }

  lemma {:induction false} RunCounts(maps: seq<seq<Range>>, calls: seq<Call>, a: int)
    requires Run(maps, calls) && 0 <= a <= TOP
    ensures Canonical(maps[|calls|]) && CountAt(maps[|calls|], a) == Net(calls, a)
    decreases |calls|
  {
    if calls != [] {
      var k := |calls| - 1;
      RunCounts(maps[..k + 1], calls[..k], a);
      assert Finished(maps[k], maps[k + 1], calls[k].bytes.first, calls[k].bytes.last, Inc(calls[k]));
      assert CountAt(maps[k + 1], a) == Wanted(maps[k], calls[k].bytes.first, calls[k].bytes.last, Inc(calls[k]), a);
    }
  }

  /** The map depends only on how often each address is registered, not on the order of the calls. */
  lemma OrderIrrelevant(maps: seq<seq<Range>>, calls: seq<Call>, maps': seq<seq<Range>>, calls': seq<Call>)
    requires Run(maps, calls) && Run(maps', calls')
    requires forall a :: 0 <= a <= TOP ==> Net(calls, a) == Net(calls', a)
    ensures maps[|calls|] == maps'[|calls'|]
  {
    RunCounts(maps, calls, 0);
    RunCounts(maps', calls', 0);
    forall a | 0 <= a <= TOP ensures CountAt(maps[|calls|], a) == CountAt(maps'[|calls'|], a) {
      RunCounts(maps, calls, a);
      RunCounts(maps', calls', a);
    }
    CanonicalUnique(maps[|calls|], maps'[|calls'|]);
  }

  // --- matched histories ---

  /** The ranges registered (or released), in order. */
  ghost function Ranges(calls: seq<Call>, up: bool): seq<Bytes> {
    if calls == [] then []
    else Ranges(calls[..|calls| - 1], up) + if calls[|calls| - 1].up == up then [calls[|calls| - 1].bytes] else []
  }

  ghost function Total(s: seq<Bytes>, a: int): int {
    if s == [] then 0 else Total(s[..|s| - 1], a) + Covers(s[|s| - 1], a)
  }

  lemma {:induction false} NetIsDifference(calls: seq<Call>, a: int)
    ensures Net(calls, a) == Total(Ranges(calls, true), a) - Total(Ranges(calls, false), a)
    decreases |calls|
  {
    if calls != [] {
      var front, last := calls[..|calls| - 1], calls[|calls| - 1];
      NetIsDifference(front, a);
      var s := Ranges(front, last.up);
      assert (s + [last.bytes])[..|s|] == s;
      assert Ranges(front, !last.up) + [] == Ranges(front, !last.up);
    }
  }

  lemma {:induction false} TotalWithout(s: seq<Bytes>, i: nat, a: int)
    requires i < |s|
    ensures Total(s, a) == Total(s[..i] + s[i + 1..], a) + Covers(s[i], a)
    decreases |s|
  {
    var front := s[..|s| - 1];
    if i == |s| - 1 {
      assert s[..i] + s[i + 1..] == front;
    } else {
      TotalWithout(front, i, a);
      var t := s[..i] + s[i + 1..];
      assert t[..|t| - 1] == front[..i] + front[i + 1..];
    }
  }

  lemma Without(t: seq<Bytes>, i: nat)
    requires i < |t|
    ensures multiset(t[..i] + t[i + 1..]) == multiset(t) - multiset{t[i]}
  {
    assert t == t[..i] + [t[i]] + t[i + 1..];
  }

  lemma {:induction false} TotalPermuted(s: seq<Bytes>, t: seq<Bytes>, a: int)
    requires multiset(s) == multiset(t)
    ensures Total(s, a) == Total(t, a)
    decreases |s|
  {
    if s == [] {
      assert |multiset(t)| == 0;
    } else {
      var front, last := s[..|s| - 1], s[|s| - 1];
      assert s == front + [last];
      assert last in multiset(s);
      var i :| 0 <= i < |t| && t[i] == last;
      Without(t, i);
      assert multiset(front) == multiset(s) - multiset{last};
      TotalPermuted(front, t[..i] + t[i + 1..], a);
      TotalWithout(t, i, a);
    }
  }

  /** Every range that is registered is released as often, in whatever order: the map is back
      to the one node it started with. */
  lemma MatchedHistory(maps: seq<seq<Range>>, calls: seq<Call>)
    requires Run(maps, calls) && multiset(Ranges(calls, true)) == multiset(Ranges(calls, false))
    ensures maps[|calls|] == EMPTY
  {
    assert Run([EMPTY], []);
    forall a | 0 <= a <= TOP ensures Net(calls, a) == Net([], a) {
      NetIsDifference(calls, a);
      TotalPermuted(Ranges(calls, true), Ranges(calls, false), a);
    }
    OrderIrrelevant(maps, calls, [EMPTY], []);
  }

  /** No range has a negative count, which is the condition under which a refused registration is taken back
      completely, exactly if no address is released more often than registered. */
  lemma NeverNegative(maps: seq<seq<Range>>, calls: seq<Call>)
    requires Run(maps, calls)
    ensures Matched(maps[|calls|]) <==> forall a :: 0 <= a <= TOP ==> Net(calls, a) >= 0
  {
    hide CountAt, Net;
    var r := maps[|calls|];
    RunCounts(maps, calls, 0);
    if Matched(r) {
      forall a | 0 <= a <= TOP ensures Net(calls, a) >= 0 {
        var i := RangeOf(r, 0, a);
        CountInRange(r, 0, i, a);
        RunCounts(maps, calls, a);
      }
    } else {
      var i :| 0 <= i < |r| && r[i].refcnt < 0;
      RangeBounds(r, i);
      CountInRange(r, 0, i, r[i].start);
      RunCounts(maps, calls, r[i].start);
    }
  }

  // --- a release that is not rolled back ---

  /** The first page registered twice, the second once. */
  const TWO_ONE: seq<Range> := [Range(0, 4095, 2), Range(4096, 8191, 1), Range(8192, TOP, 0)]

  /** The map after registering the first page and then the first two pages. */
  lemma TwoOne(maps: seq<seq<Range>>, calls: seq<Call>)
    requires Run(maps, calls) && calls == [Call(Bytes(0, 4095), true), Call(Bytes(0, 8191), true)]
    ensures maps[2] == TWO_ONE && ForkMap.Drops(TWO_ONE, 4096)
  {
    RunCounts(maps, calls, 0);
    forall i ensures Follows(TWO_ONE, i) && Differ(TWO_ONE, i) {
    }
    forall a | 0 <= a <= TOP ensures CountAt(maps[2], a) == CountAt(TWO_ONE, a) {
      RunCounts(maps, calls, a);
      assert calls[..1][..0] == [] && Net(calls[..1], a) == Covers(calls[0].bytes, a);
      assert Net(calls, a) == Covers(calls[0].bytes, a) + Covers(calls[1].bytes, a);
      TwoOneCounts(a);
    }
    CanonicalUnique(maps[2], TWO_ONE);
    TwoOneCounts(4095);
    TwoOneCounts(4096);
  }

  lemma TwoOneCounts(a: int)
    requires 0 <= a <= TOP
    ensures CountAt(TWO_ONE, a) == if a <= 4095 then 2 else if a <= 8191 then 1 else 0
  {
    CountInRange(TWO_ONE, 0, if a <= 4095 then 0 else if a <= 8191 then 1 else 2, a);
  }

  lemma PageBytes()
    ensures FirstByte(0, 4096) == 0 && LastByte(0, 4096, 4096) == 4095 && LastByte(0, 8192, 4096) == 8191
  {
    hide PageOf;
    Rounds(0, 0, 4096);
    Rounds(8191, 1, 4096);
    Rounds(12287, 2, 4096);
  }

  /** A kernel that refuses only to take advice back does not refuse a registration. */
  method Register(m: ForkMap.ForkMap, size: int, ghost pages: int)
    requires m.InStep() && 0 < size <= TOP && LastByte(0, size, 4096) < TOP && pages * 4096 == TOP + 1 && m.kernel.RefusesOnly(4096, ForkMap.DoFork)
    modifies m.tree, m.tree.links.Keys, m.kernel
    ensures m.InStep() && fresh(m.tree.links.Keys - old(m.tree.links.Keys)) && m.kernel.refused == old(m.kernel.refused)
    ensures Finished(old(m.Ranges()), m.Ranges(), FirstByte(0, 4096), LastByte(0, size, 4096), 1)
  {
    hide CountAt, FirstByte, LastByte, MemTree.RangeTree.Valid, ForkMap.ForkMap.Valid, Finished, FlagsMatch, ForkMap.Within;
    var ret := m.DontforkRange(0, size, 4096, pages);
  }

  lemma TwoCalls(r: seq<Range>, q: seq<Range>)
    requires Finished(EMPTY, r, 0, 4095, 1) && Finished(r, q, 0, 8191, 1)
    ensures Run([EMPTY, r, q], [Call(Bytes(0, 4095), true), Call(Bytes(0, 8191), true)])
  {
    hide Finished;
  }

  /** Registers the first page, and then the first two. */
  method RegisterTwoOne(m: ForkMap.ForkMap, ghost pages: int) returns (ghost maps: seq<seq<Range>>)
    requires m.InStep() && m.Ranges() == EMPTY && pages * 4096 == TOP + 1 && m.kernel.RefusesOnly(4096, ForkMap.DoFork)
    modifies m.tree, m.tree.links.Keys, m.kernel
    ensures m.InStep() && fresh(m.tree.links.Keys - old(m.tree.links.Keys)) && m.kernel.refused == old(m.kernel.refused)
    ensures Run(maps, [Call(Bytes(0, 4095), true), Call(Bytes(0, 8191), true)]) && maps[2] == m.Ranges()
  {
    hide FirstByte, LastByte, Finished, ForkMap.ForkMap.InStep, ForkMap.Kernel.RefusesOnly, MemTree.RangesOf, Run;
    PageBytes();
    Register(m, 4096, pages);
    ghost var r := m.Ranges();
    Register(m, 8192, pages);
    TwoCalls(r, m.Ranges());
    maps := [EMPTY, r, m.Ranges()];
  }

  /** The pages before the refused one that had count two have lost one. */
  lemma OneLost(q: seq<Range>)
    requires LeftOver(TWO_ONE, q, 0, 4096, -1)
    ensures q == [Range(0, 8191, 1), Range(8192, TOP, 0)]
  {
    hide CountAt;
    var n :| Joined(TWO_ONE, 0, n, 4096, -1) && Finished(TWO_ONE, q, n, 4095, -1);
    TwoOneCounts(4096);
    if n > 0 {
      TwoOneCounts(n - 1);
    }
    var left := [Range(0, 8191, 1), Range(8192, TOP, 0)];
    forall i ensures Follows(left, i) && Differ(left, i) {
    }
    forall a | 0 <= a <= TOP ensures CountAt(q, a) == CountAt(left, a) {
      assert CountAt(q, a) == Wanted(TWO_ONE, n, 4095, -1, a);
      TwoOneCounts(a);
      CountInRange(left, 0, if a <= 8191 then 0 else 1, a);
    }
    CanonicalUnique(q, left);
  }

  /** Releasing both pages, with a kernel that refuses it for the second page: the release fails, and the first
      page has lost a count all the same. */
  method ReleaseLost() returns (m: ForkMap.ForkMap, ret: int, ghost maps: seq<seq<Range>>)
    ensures Run(maps, [Call(Bytes(0, 4095), true), Call(Bytes(0, 8191), true)]) && maps[2] == TWO_ONE
    ensures ret == -1 && |m.kernel.refused| == 1 && m.InStep() && m.Ranges() == [Range(0, 8191, 1), Range(8192, TOP, 0)]
  {
    hide CountAt, FirstByte, LastByte, MemTree.RangeTree.Valid, ForkMap.ForkMap.Valid, Finished, FlagsMatch, ForkMap.Within, Run;
    hide MemTree.RangesOf, LeftOver;
    PageBytes();
    var kernel := new ForkMap.Kernel((c: ForkMap.Syscall) => !(c.Covers(4096) && c.advice == ForkMap.DoFork));
    m := new ForkMap.ForkMap(kernel);
    ghost var pages := (TOP + 1) / 4096;
    maps := RegisterTwoOne(m, pages);
    TwoOne(maps, [Call(Bytes(0, 4095), true), Call(Bytes(0, 8191), true)]);
    ret := m.DoforkRange(0, 8192, 4096, pages);
    OneLost(m.Ranges());
  }

  // --- a registration that the kernel does not hear of ---

  lemma AllBytes()
    ensures FirstByte(0, 4096) == 0 && LastByte(0, TOP, 4096) == TOP
  {
    hide PageOf;
    Rounds(0, 0, 4096);
    Rounds(4094, 0, 4096);
  }

  lemma AllOnce(q: seq<Range>)
    requires Finished(EMPTY, q, 0, TOP, 1)
    ensures q == [Range(0, TOP, 1)]
  {
    var one := [Range(0, TOP, 1)];
    forall a | 0 <= a <= TOP ensures CountAt(q, a) == CountAt(one, a) {
      assert CountAt(q, a) == Wanted(EMPTY, 0, TOP, 1, a);
    }
    CanonicalUnique(q, one);
  }

  /** Registering all of the address space with a kernel that refuses nothing: the map counts it, and no address
      is flagged. */
  method RegisterAll() returns (m: ForkMap.ForkMap, ret: int)
    ensures ret == 0 && m.Ranges() == [Range(0, TOP, 1)] && !m.InStep()
    ensures forall a :: 0 <= a <= TOP ==> !m.kernel.dontFork(a)
  {
    hide FirstByte, LastByte, MemTree.RangeTree.Valid, ForkMap.ForkMap.Valid, ForkMap.ForkMap.InStep, Finished, ForkMap.Within;
    hide MemTree.RangesOf;
    AllBytes();
    var kernel := new ForkMap.Kernel((c: ForkMap.Syscall) => true);
    m := new ForkMap.ForkMap(kernel);
    assert Untold(EMPTY, 0, TOP, 1);
    ret := m.DontforkRange(0, TOP, 4096, (TOP + 1) / 4096);
    AllOnce(m.Ranges());
  }
}
