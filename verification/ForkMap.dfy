/** Which address ranges must not be copied on fork: the reference-counted range map
that libibverbs keeps in step with the kernel's per-page advice. */
module ForkMap {
  import opened MemLinks
  import opened MemBalance
  import opened MemTree
  import opened Intervals
  import opened Pages

  datatype Advice = DontFork | DoFork

  function Increment(advice: Advice): int {
    if advice == DontFork then 1 else -1
  }

  function Opposite(advice: Advice): Advice {
    if advice == DontFork then DoFork else DontFork
  }

  function Advised(flags: int -> bool, start: int, length: int, advice: Advice): int -> bool {
    a => if start <= a < start + length then advice == DontFork else flags(a)
  }

  /** One madvise call, with the number of calls before it. */
  datatype Syscall = Syscall(number: nat, start: int, length: int, advice: Advice) {
    predicate Covers(a: int) { start <= a < start + length }
  }

  /** The kernel's side: one flag for each address, which madvise calls it takes, and those it has refused. */
  class Kernel {
    const takes: Syscall -> bool
    var dontFork: int -> bool
    var calls: nat
    ghost var refused: seq<Syscall>

    constructor (takes: Syscall -> bool)
      ensures this.takes == takes && calls == 0 && refused == [] && forall a :: !dontFork(a)
    {
      this.takes, dontFork, calls, refused := takes, a => false, 0, [];
    }

    /** A refused call changes no flag, and one of length zero does nothing. */
    method Madvise(start: int, length: int, advice: Advice) returns (ret: int)
      modifies this
      ensures var c := Syscall(old(calls), start, length, advice);
              && calls == old(calls) + 1 && ret == (if length == 0 || takes(c) then 0 else -1)
              && dontFork == (if ret == 0 then Advised(old(dontFork), start, length, advice) else old(dontFork))
              && refused == old(refused) + if ret == 0 then [] else [c]
    {
      var c := Syscall(calls, start, length, advice);
      ret := if length == 0 || takes(c) then 0 else -1;
      calls := calls + 1;
      if ret == 0 {
        dontFork := Advised(dontFork, start, length, advice);
      } else {
        refused := refused + [c];
      }
    }

    /** The flags k' can have come from k: each that has changed was in reach of a call the kernel takes. */
    ghost predicate Reaches(k: int -> bool, k': int -> bool) {
      forall a :: k'(a) != k(a) ==> exists c: Syscall :: takes(c) && c.Covers(a) && c.advice == if k'(a) then DontFork else DoFork
    }

    /** What a failure means: one more call was refused, namely c. */
    ghost predicate Heard(was: seq<Syscall>, advice: Advice, ret: int, c: Syscall)
      reads this`refused
    {
      if ret == 0 then refused == was else refused == was + [c] && !takes(c) && c.advice == advice
    }

    /** The kernel refuses this advice for address a, and nothing else. */
    ghost predicate RefusesOnly(a: int, advice: Advice) {
      forall c: Syscall :: takes(c) <==> !(c.Covers(a) && c.advice == advice)
    }

    lemma ReachesSelf(k: int -> bool)
      ensures Reaches(k, k)
    {
    }

    lemma ReachesOn(k: int -> bool, k1: int -> bool, k2: int -> bool)
      requires Reaches(k, k1) && Reaches(k1, k2)
      ensures Reaches(k, k2)
    {
    }
  }

  /** A call about the part of lo..hi from start on. */
  ghost predicate Spans(c: Syscall, start: int, lo: int, hi: int) {
    c.start == (if start > lo then start else lo) && c.start + c.length - 1 == hi && c.length <= TOP
  }

  /** The length of lo..hi in 64-bit arithmetic. */
  function Length(lo: int, hi: int): (n: int)
    requires 0 <= lo <= hi <= TOP
    ensures n == if lo == 0 && hi == TOP then 0 else hi - lo + 1
  {
    (hi - lo + 1) % (TOP + 1)
  }

  /** A call about some addresses of start..end that have one and the same count, which is to cross zero. */
  ghost predicate Within(c: Syscall, r: seq<Range>, start: int, end: int, inc: int)
    requires |r| > 0
  {
    && c.length > 0 && start <= c.start && c.start + c.length - 1 <= end && Crosses(CountAt(r, c.start), inc)
    && forall a :: c.Covers(a) ==> CountAt(r, a) == CountAt(r, c.start)
  }

  lemma StuckWithin(r: seq<Range>, q: seq<Range>, i: nat, start: int, end: int, inc: int, c: Syscall)
    requires Halfway(r, q, i, start, end, inc) && q[i].start <= end <= TOP && 0 <= start <= end && start <= q[i].end
    requires Crosses(q[i].refcnt, inc) && Spans(c, start, q[i].start, if q[i].end > end then end else q[i].end)
    ensures |r| > 0 && Within(c, r, start, end, inc)
  {
    hide CountAt, Crosses;
    StuckAt(r, q, i, start, end, inc, c.start);
    forall a | c.Covers(a) ensures CountAt(r, a) == CountAt(r, c.start) {
      StuckAt(r, q, i, start, end, inc, a);
    }
  }

  /** A call that could be refused was not about all of the address space. */
  lemma StuckTold(r: seq<Range>, q: seq<Range>, i: nat, start: int, end: int, inc: int, c: Syscall, k: int -> bool)
    requires Halfway(r, q, i, start, end, inc) && Tracked(r, start, end, inc, q[i].start, k)
    requires Spans(c, start, q[i].start, if q[i].end > end then end else q[i].end)
    ensures !Untold(r, start, end, inc) && FlagsHalfway(r, start, end, inc, q[i].start, k)
  {
    hide CountAt, FlagsHalfway, Crosses;
    if Untold(r, start, end, inc) {
      UntoldRange(r, q, i, start, end, inc);
    }
  }

  lemma HalfwayBounds(r: seq<Range>, q: seq<Range>, i: nat, start: int, end: int, inc: int)
    requires Halfway(r, q, i, start, end, inc)
    ensures i < |q| && 0 <= q[i].start <= q[i].end <= TOP
  {
    hide CountAt;
    RangeBounds(q, i);
  }

  /** At address a, behind start, is a count that is to cross zero, and before it the one that becomes equal to it:
      two and one for a release, minus one and zero for a registration. */
  ghost predicate Joins(r: seq<Range>, start: int, a: int, inc: int)
    requires |r| > 0
  {
    a > start && Crosses(CountAt(r, a), inc) && CountAt(r, a - 1) == CountAt(r, a) - inc
  }

  /** The count drops from two to one at address a. */
  ghost predicate Drops(r: seq<Range>, a: int)
    requires |r| > 0
  {
    CountAt(r, a - 1) == 2 && CountAt(r, a) == 1
  }

  ghost predicate JoinsWithin(r: seq<Range>, start: int, end: int, inc: int)
    requires |r| > 0
  {
    exists a :: start < a <= end && Joins(r, start, a, inc)
  }

  lemma JoinsCrosses(r: seq<Range>, start: int, end: int, a: int, inc: int)
    requires |r| > 0 && Joins(r, start, a, inc) && 0 <= start && a <= end <= TOP
    ensures a > start && Crosses(CountAt(r, a), inc) && !Untold(r, start, end, inc)
  {
    hide CountAt;
    assert Untold(r, start, end, inc) ==> Crosses(CountAt(r, a - 1), inc);
  }

  /** Where nothing was released that was not registered before, a registration joins nothing. */
  lemma NeverJoins(r: seq<Range>, start: int, end: int)
    requires Tiles(r) && Matched(r) && 0 <= start && end <= TOP
    ensures !JoinsWithin(r, start, end, 1)
  {
    hide CountAt;
    forall a | start < a <= end && CountAt(r, a) == 0 ensures !Joins(r, start, a, 1) {
      NeverAbsorbed(r, start, a);
    }
  }

  lemma RefusedJoins(r: seq<Range>, start: int, end: int, inc: int, c: Syscall)
    requires |r| > 0 && Within(c, r, start, end, inc)
    ensures Absorbed(r, start, c.start, inc) <==> Joins(r, start, c.start, inc)
    ensures Joins(r, start, c.start, inc) ==> JoinsWithin(r, start, end, inc)
  {
    hide CountAt;
  }

  lemma OneRange()
    ensures var r := [Range(0, TOP, 0)]; Canonical(r) && forall a :: CountAt(r, a) == 0
  {
  }

  lemma SplitRanges(order: seq<MemNode>, i: nat, node: MemNode, r: seq<Range>, cut: int)
    requires i < |order| && |r| == |order| && RangesOf(order) == r[i := r[i].(end := cut - 1)]
    requires RangeOfNode(node) == r[i].(start := cut)
    ensures RangesOf(order[..i + 1] + [node] + order[i + 1..]) == SplitAt(r, i, cut)
  {
    var o := order[..i + 1] + [node] + order[i + 1..];
    var q := RangesOf(order);
    forall j | 0 <= j < |o| ensures RangesOf(o)[j] == SplitAt(r, i, cut)[j] {
      assert j <= i ==> o[j] == order[j] && RangesOf(o)[j] == q[j];
      assert j > i + 1 ==> o[j] == order[j - 1] && RangesOf(o)[j] == q[j - 1];
    }
  }

  lemma MergeRanges(order: seq<MemNode>, i: nat, r: seq<Range>)
    requires i + 1 < |order| && |r| == |order| && RangesOf(order) == r[i := r[i + 1].(start := r[i].start)]
    ensures RangesOf(order[..i + 1] + order[i + 2..]) == MergeAt(r, i)
  {
    var o := order[..i + 1] + order[i + 2..];
    var q := RangesOf(order);
    forall j | 0 <= j < |o| ensures RangesOf(o)[j] == MergeAt(r, i)[j] {
      assert j <= i ==> o[j] == order[j] && RangesOf(o)[j] == q[j];
      assert j > i ==> o[j] == order[j + 1] && RangesOf(o)[j] == q[j + 1];
    }
  }

  class ForkMap {
    const tree: RangeTree
    const kernel: Kernel

    /** The map before anything is registered: one range, with count zero. */
    constructor (kernel: Kernel)
      ensures Valid() && fresh(tree) && fresh(tree.links.Keys) && this.kernel == kernel
      ensures Ranges() == [Range(0, TOP, 0)] && ((forall a :: !kernel.dontFork(a)) ==> InStep())
    {
      hide RangeTree.Valid, CountAt;
      var root := new MemNode(0, TOP, 0);
      this.kernel := kernel;
      tree := new RangeTree(root);
      new;
      OneRange();
    }

    ghost function Ranges(): seq<Range>
      reads tree, tree.order`start, tree.order`end, tree.order`refcnt
    {
      RangesOf(tree.order)
    }

    ghost predicate Valid()
      reads tree, tree.links.Keys, tree.tints.Keys, tree.order
    {
      tree.Valid() && Tiles(Ranges())
    }

    /** The map is canonical, and the kernel does not copy exactly the addresses it counts. */
    ghost predicate InStep()
      reads tree, tree.links.Keys, tree.tints.Keys, tree.order, kernel
    {
      Valid() && Canonical(Ranges()) && FlagsMatch(Ranges(), kernel.dontFork)
    }

    /** Cuts range i in two; the new node is the upper part. */
    method SplitRange(node: MemNode, cut: int, ghost i: nat) returns (newNode: MemNode)
      requires Valid() && i < |tree.order| && tree.order[i] == node && node.start < cut <= node.end
      modifies tree, tree.links.Keys
      ensures Valid() && fresh(newNode) && tree.links.Keys == old(tree.links.Keys) + {newNode}
      ensures tree.order == old(tree.order)[..i + 1] + [newNode] + old(tree.order)[i + 1..]
      ensures Ranges() == SplitAt(old(Ranges()), i, cut)
    {
      hide RangeTree.Valid;
      tree.Member(i);
      newNode := PrepareSplit(node, cut, i);
      tree.AddAfter(newNode, i);
    }

    method PrepareSplit(node: MemNode, cut: int, ghost i: nat) returns (newNode: MemNode)
      requires Tiles(Ranges()) && Sorted(tree.order)
      requires i < |tree.order| && tree.order[i] == node && node.start < cut <= node.end
      modifies node`end
      ensures fresh(newNode) && node.start < newNode.start
      ensures i + 1 < |tree.order| ==> newNode.start < tree.order[i + 1].start
      ensures RangesOf(tree.order[..i + 1] + [newNode] + tree.order[i + 1..]) == SplitAt(old(Ranges()), i, cut)
      ensures Tiles(SplitAt(old(Ranges()), i, cut))
    {
      ghost var r := Ranges();
      assert Follows(r, i + 1);
      SplitTiles(r, i, cut);
      newNode := Halve(node, cut, i);
      SplitRanges(tree.order, i, newNode, r, cut);
    }

    /** The assignments of a split, before the upper part goes into the tree. */
    method Halve(node: MemNode, cut: int, ghost i: nat) returns (newNode: MemNode)
      requires i < |tree.order| && tree.order[i] == node && Sorted(tree.order)
      modifies node`end
      ensures fresh(newNode) && newNode.start == cut
      ensures RangeOfNode(newNode) == old(RangeOfNode(node)).(start := cut)
      ensures Ranges() == old(Ranges())[i := old(RangeOfNode(node)).(end := cut - 1)]
    {
      newNode := new MemNode(cut, node.end, node.refcnt);
      node.end := cut - 1;
    }

    /** Puts range i + 1 into range i, which takes its count. */
    method MergeRange(node: MemNode, prev: MemNode, ghost i: nat) returns (res: MemNode)
      requires Valid() && i + 1 < |tree.order| && tree.order[i] == prev && tree.order[i + 1] == node
      modifies tree, tree.links.Keys
      ensures Valid() && tree.links.Keys == old(tree.links.Keys) - {node}
      ensures tree.order == old(tree.order)[..i + 1] + old(tree.order)[i + 2..] && res == prev
      ensures Ranges() == MergeAt(old(Ranges()), i)
    {
      hide RangeTree.Valid, Tiles, Sorted, MergeAt;
      tree.Member(i);
      PrepareMerge(node, prev, i);
      tree.RemoveAt(node, i + 1);
      res := prev;
    }

    method PrepareMerge(node: MemNode, prev: MemNode, ghost i: nat)
      requires Tiles(Ranges()) && Sorted(tree.order)
      requires i + 1 < |tree.order| && tree.order[i] == prev && tree.order[i + 1] == node
      modifies prev`end, prev`refcnt
      ensures RangesOf(tree.order[..i + 1] + tree.order[i + 2..]) == MergeAt(old(Ranges()), i)
      ensures Tiles(MergeAt(old(Ranges()), i))
    {
      ghost var r := Ranges();
      MergeTiles(r, i);
      prev.end := node.end;
      prev.refcnt := node.refcnt;
      MergeRanges(tree.order, i, r);
    }

    // --- one pass of madvise over a range of pages ---

    /** The node whose range has the given address. */
    method FindStart(start: int) returns (node: MemNode, ghost i: nat)
      requires Valid() && 0 <= start <= TOP
      ensures i < |tree.order| && tree.order[i] == node && node.start <= start <= node.end
    {
      hide Colored, RangeTree.TintsSynced, Sorted;
      ghost var r := Ranges();
      i := RangeOf(r, 0, start);
      assert tree.order[i] in tree.links;
      var n: MemNode? := tree.root;
      assert Fits(tree.links, tree.root, tree.order, tree.root);
      while n != null && !(n.start <= start && n.end >= start)
        invariant n != null && n in tree.links && tree.links[n].lo <= i <= tree.links[n].hi
        decreases tree.links[n].hi - tree.links[n].lo
      {
        assert Fits(tree.links, tree.root, tree.order, n);
        ghost var k := tree.links[n].pos;
        assert r[k] == RangeOfNode(n);
        if k < i {
          EndsBefore(r, 0, k, i);
        } else if k > i {
          EndsBefore(r, 0, i, k);
        }
        if n.start < start {
          n := n.right;
        } else {
          n := n.left;
        }
        assert Fits(tree.links, tree.root, tree.order, n);
      }
      node := n;
      assert Fits(tree.links, tree.root, tree.order, node);
      ghost var k := tree.links[node].pos;
      assert r[k] == RangeOfNode(node);
      if k < i {
        EndsBefore(r, 0, k, i);
      } else if k > i {
        EndsBefore(r, 0, i, k);
      }
    }

    method StartBySplit(node: MemNode, start: int, end: int, inc: int, ghost i: nat) returns (res: MemNode)
      requires Valid() && Canonical(Ranges()) && start <= end <= TOP && inc != 0
      requires i < |tree.order| && tree.order[i] == node && node.start < start <= node.end
      modifies tree, tree.links.Keys
      ensures Valid() && fresh(tree.links.Keys - old(tree.links.Keys))
      ensures i + 1 < |tree.order| && tree.order[i + 1] == res && res.start == start <= res.end
      ensures Halfway(old(Ranges()), Ranges(), i + 1, start, end, inc)
    {
      hide RangeTree.Valid;
      hide Halfway;
      StartSplit(Ranges(), i, start, end, inc);
      res := SplitRange(node, start, i);
      assert Ranges()[i + 1] == RangeOfNode(res);
    }

    method StartByMerge(node: MemNode, prev: MemNode, end: int, inc: int, ghost i: nat) returns (res: MemNode)
      requires Valid() && Canonical(Ranges()) && node.start <= end <= TOP && prev.refcnt == node.refcnt + inc
      requires i + 1 < |tree.order| && tree.order[i] == prev && tree.order[i + 1] == node
      modifies tree, tree.links.Keys
      ensures Valid() && fresh(tree.links.Keys - old(tree.links.Keys))
      ensures i < |tree.order| && tree.order[i] == res && res.start < old(node.start) <= res.end
      ensures Halfway(old(Ranges()), Ranges(), i, old(node.start), end, inc)
    {
      hide RangeTree.Valid;
      hide Halfway;
      ghost var r := Ranges();
      assert Follows(r, i + 1);
      StartMerge(r, i, end, inc);
      res := MergeRange(node, prev, i);
      assert Ranges()[i] == RangeOfNode(res);
    }

    /** The pass starts where node does. */
    method StartHere(node: MemNode, end: int, inc: int, ghost i: nat) returns (res: MemNode, ghost k: nat)
      requires Valid() && Canonical(Ranges()) && node.start <= end <= TOP
      requires i < |tree.order| && tree.order[i] == node
      modifies tree, tree.links.Keys
      ensures Valid() && fresh(tree.links.Keys - old(tree.links.Keys))
      ensures k < |tree.order| && tree.order[k] == res && res.start <= old(node.start) <= res.end
      ensures Halfway(old(Ranges()), Ranges(), k, old(node.start), end, inc)
    {
      hide RangeTree.Valid;
      hide Halfway;
      res, k := node, i;
      assert Ranges()[i] == RangeOfNode(node);
      var tmp := tree.PrevOf(node, i);
      if tmp != null && tmp.refcnt == node.refcnt + inc {
        res := StartByMerge(node, tmp, end, inc, i - 1);
        k := i - 1;
      } else {
        assert tmp != null ==> Ranges()[i - 1] == RangeOfNode(tmp);
        StartPlain(Ranges(), i, end, inc);
      }
    }

    /** Makes a pass ready: finds its first node, cut at start or merged with an equal-to-be predecessor. */
    method GetStartNode(start: int, end: int, inc: int) returns (node: MemNode, ghost i: nat)
      requires Valid() && Canonical(Ranges()) && 0 <= start <= end <= TOP && inc != 0
      modifies tree, tree.links.Keys
      ensures Valid() && fresh(tree.links.Keys - old(tree.links.Keys))
      ensures i < |tree.order| && tree.order[i] == node && node.start <= start <= node.end
      ensures Halfway(old(Ranges()), Ranges(), i, start, end, inc)
    {
      hide RangeTree.Valid;
      hide Halfway, Canonical;
      node, i := FindStart(start);
      if node.start < start {
        node := StartBySplit(node, start, end, inc, i);
        i := i + 1;
      } else {
        node, i := StartHere(node, end, inc, i);
      }
    }

    /** Splits off what reaches beyond the end of the pass. */
    method CutAtEnd(node: MemNode, end: int, ghost i: nat)
      requires Valid() && i < |tree.order| && tree.order[i] == node && node.start <= end <= TOP
      modifies tree, tree.links.Keys
      ensures Valid() && fresh(tree.links.Keys - old(tree.links.Keys))
      ensures i < |tree.order| && tree.order[i] == node && Ranges() == CutOff(old(Ranges()), i, end)
      ensures node.start == old(node.start) && node.refcnt == old(node.refcnt)
      ensures node.end == if old(node.end) > end then end else old(node.end)
    {
      hide RangeTree.Valid;
      if node.end > end {
        ghost var r := Ranges();
        var _ := SplitRange(node, end + 1, i);
        assert Ranges() == CutOff(r, i, end);
        assert tree.order[i] == node;
        assert Ranges()[i] == RangeOfNode(node) && r[i] == old(RangeOfNode(node));
      }
    }

    /** Tells the kernel about a range whose count is about to cross zero, from start on. About all of the address
        space it tells nothing, since the length is then zero. */
    method Advise(node: MemNode, start: int, advice: Advice, inc: int) returns (ret: int, ghost c: Syscall)
      requires inc == Increment(advice) && 0 <= node.start <= node.end <= TOP && 0 <= start <= node.end
      modifies kernel
      ensures kernel.Heard(old(kernel.refused), advice, ret, c) && kernel.Reaches(old(kernel.dontFork), kernel.dontFork)
      ensures ret != 0 ==> Crosses(node.refcnt, inc) && kernel.dontFork == old(kernel.dontFork) && Spans(c, start, node.start, node.end)
      ensures ret == 0 ==>
        if !Crosses(node.refcnt, inc) || (start == 0 && node.start == 0 && node.end == TOP)
        then forall a :: kernel.dontFork(a) == old(kernel.dontFork)(a)
        else forall a :: kernel.dontFork(a) <==> if node.start <= a <= node.end && start <= a then inc == 1 else old(kernel.dontFork)(a)
    {
      ret := 0;
      c := Syscall(kernel.calls, if start > node.start then start else node.start, 0, advice);
      c := c.(length := Length(c.start, node.end));
      if (inc == -1 && node.refcnt == 1) || (inc == 1 && node.refcnt == 0) {
        if start > node.start {
          ret := kernel.Madvise(start, Length(start, node.end), advice);
        } else {
          ret := kernel.Madvise(node.start, Length(node.start, node.end), advice);
        }
      }
    }

    method Count(node: MemNode, inc: int, ghost i: nat)
      requires Valid() && i < |tree.order| && tree.order[i] == node
      modifies node`refcnt
      ensures Valid() && Ranges() == Bumped(old(Ranges()), i, inc)
    {
      hide RangeTree.Valid;
      tree.Member(i);
      BumpTiles(Ranges(), i, inc);
      SetCount(node, node.refcnt + inc, i);
    }

    method SetCount(node: MemNode, refcnt: int, ghost i: nat)
      requires i < |tree.order| && tree.order[i] == node && Sorted(tree.order)
      modifies node`refcnt
      ensures node.refcnt == refcnt && Ranges() == old(Ranges())[i := old(RangeOfNode(node)).(refcnt := refcnt)]
    {
      node.refcnt := refcnt;
    }

    /** Where a pass stands before it visits the node i, or after its last node. */
    ghost predicate Underway(r: seq<Range>, node: MemNode?, i: nat, start: int, end: int, inc: int)
      reads tree, tree.order, kernel, RangeTree.Some(node)
    {
      if node != null && node.start <= end
      then i < |tree.order| && tree.order[i] == node && start <= node.end && Halfway(r, Ranges(), i, start, end, inc)
           && Tracked(r, start, end, inc, node.start, kernel.dontFork)
      else i <= |tree.order| && node == (if i < |tree.order| then tree.order[i] else null)
           && Passed(r, Ranges(), i, start, end, inc) && Tracked(r, start, end, inc, TOP + 1, kernel.dontFork)
    }

    /** A visit that the kernel has agreed to: the count goes up, and the next node comes up. */
    method CountAndGoOn(node: MemNode, start: int, end: int, inc: int, ghost i: nat, ghost r: seq<Range>) returns (next: MemNode?)
      requires Valid() && i < |tree.order| && tree.order[i] == node && start <= end <= TOP
      requires Tiles(r) && start <= node.end <= end && Planned(r, Ranges(), i, start, end, inc)
      requires Tracked(r, start, end, inc, node.end + 1, kernel.dontFork)
      modifies node`refcnt
      ensures Valid() && Underway(r, next, i + 1, start, end, inc)
      ensures next != null ==> next.start > node.start
    {
      hide RangeTree.Valid;
      hide Halfway, Passed, Tracked;
      ghost var q := Ranges();
      assert Follows(q, i + 1);
      TrackedDone(r, q, i, start, end, inc, kernel.dontFork);
      Count(node, inc, i);
      next := tree.NextOf(node, i);
    }

    /** The node i, cut off at the end of the pass, is put to the kernel if need be, and counted. */
    method AdviseAndCount(node: MemNode, start: int, end: int, advice: Advice, inc: int, ghost i: nat, ghost r: seq<Range>, ghost q: seq<Range>)
      returns (next: MemNode?, ret: int, ghost c: Syscall)
      requires Valid() && i < |tree.order| && tree.order[i] == node && start <= node.end <= end <= TOP
      requires inc == Increment(advice)
      requires Tiles(r) && Halfway(r, q, i, start, end, inc) && Planned(r, Ranges(), i, start, end, inc)
      requires i < |q| && node.start == q[i].start <= node.end && node.refcnt == q[i].refcnt && 0 <= start
      requires node.end == if q[i].end > end then end else q[i].end
      requires Tracked(r, start, end, inc, node.start, kernel.dontFork)
      modifies node`refcnt, kernel
      ensures Valid() && tree.links.Keys == old(tree.links.Keys)
      ensures kernel.Heard(old(kernel.refused), advice, ret, c) && kernel.Reaches(old(kernel.dontFork), kernel.dontFork)
      ensures ret == 0 ==> Underway(r, next, i + 1, start, end, inc) && (next != null ==> next.start > old(node.start))
      ensures ret != 0 ==> Crosses(old(node.refcnt), inc) && kernel.dontFork == old(kernel.dontFork) && Ranges() == old(Ranges())
      ensures ret != 0 ==> Spans(c, start, old(node.start), old(node.end))
    {
      hide RangeTree.Valid, ForkMap.Valid, Planned, Passed, Halfway, Tracked, Underway, Kernel.Heard, Kernel.Reaches, Spans;
      ghost var k := kernel.dontFork;
      HalfwayBounds(r, q, i, start, end, inc);
      ret, c := Advise(node, start, advice, inc);
      next := null;
      if ret == 0 {
        TrackedStep(r, q, i, start, end, inc, node.end, k, kernel.dontFork);
        next := CountAndGoOn(node, start, end, inc, i, r);
      }
    }

    /** One turn of the loop over the nodes of a pass. */
    method Visit(node: MemNode, start: int, end: int, advice: Advice, inc: int, ghost i: nat, ghost r: seq<Range>)
      returns (next: MemNode?, ret: int, ghost c: Syscall)
      requires Valid() && i < |tree.order| && tree.order[i] == node && node.start <= end <= TOP && 0 <= start <= end && start <= node.end
      requires Halfway(r, Ranges(), i, start, end, inc) && Tracked(r, start, end, inc, node.start, kernel.dontFork)
      requires inc == Increment(advice)
      modifies tree, tree.links.Keys, kernel
      ensures Valid() && fresh(tree.links.Keys - old(tree.links.Keys))
      ensures kernel.Heard(old(kernel.refused), advice, ret, c) && kernel.Reaches(old(kernel.dontFork), kernel.dontFork)
      ensures ret == 0 ==> Underway(r, next, i + 1, start, end, inc) && (next != null ==> next.start > old(node.start))
      ensures ret != 0 ==>
        && Crosses(old(node.refcnt), inc) && kernel.dontFork == old(kernel.dontFork) && i < |tree.order|
        && tree.order[i] == node && i < |old(tree.order)| && Ranges() == CutOff(old(Ranges()), i, end)
        && Spans(c, start, old(node.start), if old(node.end) > end then end else old(node.end))
    {
      hide RangeTree.Valid, CutOff, Halfway, Passed, Planned, Tracked, Underway, Kernel.Heard, Kernel.Reaches, Spans;
      ghost var q := Ranges();
      assert q[i] == RangeOfNode(node);
      VisitPlan(r, q, i, start, end, inc);
      tree.Member(i);
      CutAtEnd(node, end, i);
      next, ret, c := AdviseAndCount(node, start, end, advice, inc, i, r, q);
    }

    /** The state in which a pass over r leaves the map when the kernel refuses range i with call c. */
    ghost predicate Stuck(r: seq<Range>, q: seq<Range>, node: MemNode?, i: nat, start: int, end: int, inc: int, c: Syscall)
      reads tree, tree.order, kernel
    {
      && i < |tree.order| && tree.order[i] == node && i < |q| && Ranges() == CutOff(q, i, end)
      && Halfway(r, q, i, start, end, inc) && q[i].start <= end && start <= q[i].end && Crosses(q[i].refcnt, inc)
      && Tracked(r, start, end, inc, q[i].start, kernel.dontFork)
      && Spans(c, start, q[i].start, if q[i].end > end then end else q[i].end)
    }

    /** The loop over the nodes from the first to the last of a pass. */
    method VisitAll(first: MemNode, start: int, end: int, advice: Advice, inc: int, ghost i0: nat, ghost r: seq<Range>)
      returns (node: MemNode?, ret: int, ghost i: nat, ghost q: seq<Range>, ghost c: Syscall)
      requires Valid() && Underway(r, first, i0, start, end, inc) && first.start <= end <= TOP && 0 <= start <= end
      requires inc == Increment(advice)
      modifies tree, tree.links.Keys, kernel
      ensures Valid() && fresh(tree.links.Keys - old(tree.links.Keys)) && kernel.Heard(old(kernel.refused), advice, ret, c)
      ensures kernel.Reaches(old(kernel.dontFork), kernel.dontFork)
      ensures ret == 0 ==> Underway(r, node, i, start, end, inc) && (node != null ==> node.start > end)
      ensures ret != 0 ==> Stuck(r, q, node, i, start, end, inc, c)
    {
      hide RangeTree.Valid, ForkMap.Valid, CutOff, Halfway, Passed, Tracked, Kernel.Reaches, Spans;
      node, ret, i, q := first, 0, i0, r;
      c := Syscall(0, 0, 0, advice);
      kernel.ReachesSelf(kernel.dontFork);
      while node != null && node.start <= end
        invariant Valid() && fresh(tree.links.Keys - old(tree.links.Keys)) && kernel.refused == old(kernel.refused)
        invariant kernel.Reaches(old(kernel.dontFork), kernel.dontFork)
        invariant Underway(r, node, i, start, end, inc)
        decreases if node == null then 0 else end + 1 - node.start
      {
        q := Ranges();
        assert q[i] == RangeOfNode(node);
        ghost var k := kernel.dontFork;
        var next;
        next, ret, c := Visit(node, start, end, advice, inc, i, r);
        kernel.ReachesOn(old(kernel.dontFork), k, kernel.dontFork);
        if ret != 0 {
          return;
        }
        node, i := next, i + 1;
      }
    }

    /** Merges a node with its predecessor if they have the same count. */
    method MergeBack(node: MemNode, ghost i: nat) returns (res: MemNode)
      requires Valid() && i < |tree.order| && tree.order[i] == node
      modifies tree, tree.links.Keys
      ensures Valid() && fresh(tree.links.Keys - old(tree.links.Keys)) && Ranges() == MergedBack(old(Ranges()), i)
      ensures var j := if |tree.order| == |old(tree.order)| then i else i - 1; 0 <= j < |tree.order| && tree.order[j] == res
    {
      hide RangeTree.Valid;
      ghost var r := Ranges();
      assert r[i] == RangeOfNode(node);
      res := node;
      var tmp := tree.PrevOf(node, i);
      if tmp != null && tmp.refcnt == node.refcnt {
        assert r[i - 1] == RangeOfNode(tmp);
        res := MergeRange(node, tmp, i - 1);
        assert Ranges() == MergedBack(r, i);
      } else {
        assert tmp != null ==> r[i - 1] == RangeOfNode(tmp);
      }
    }

    /** Merges a node with its successor if they have the same count. */
    method MergeForward(node: MemNode, ghost i: nat) returns (res: MemNode)
      requires Valid() && i < |tree.order| && tree.order[i] == node
      modifies tree, tree.links.Keys
      ensures Valid() && fresh(tree.links.Keys - old(tree.links.Keys))
      ensures Ranges() == if i + 1 < |old(tree.order)| then MergedIfEqual(old(Ranges()), i) else old(Ranges())
      ensures i < |tree.order| && tree.order[i] == res && res.start == old(node.start) && res.end >= old(node.end)
    {
      hide RangeTree.Valid;
      ghost var r := Ranges();
      assert r[i] == RangeOfNode(node);
      assert Follows(r, i + 1);
      res := node;
      var tmp := tree.NextOf(node, i);
      if tmp != null && tmp.refcnt == node.refcnt {
        assert r[i + 1] == RangeOfNode(tmp);
        res := MergeRange(tmp, node, i);
        assert Ranges() == MergedIfEqual(r, i);
        assert Ranges()[i] == RangeOfNode(res);
      } else {
        assert tmp != null ==> r[i + 1] == RangeOfNode(tmp);
      }
    }

    /** One pass: counts all of start..end and tells the kernel, or stops where the kernel refuses. */
    method Pass(start: int, end: int, advice: Advice)
      returns (ret: int, node: MemNode?, ghost i: nat, ghost q: seq<Range>, ghost c: Syscall)
      requires InStep() && 0 <= start <= end <= TOP
      modifies tree, tree.links.Keys, kernel
      ensures Valid() && fresh(tree.links.Keys - old(tree.links.Keys)) && kernel.Heard(old(kernel.refused), advice, ret, c)
      ensures kernel.Reaches(old(kernel.dontFork), kernel.dontFork)
      ensures ret == 0 ==> Finished(old(Ranges()), Ranges(), start, end, Increment(advice))
      ensures ret == 0 ==> (InStep() <==> !Untold(old(Ranges()), start, end, Increment(advice)))
      ensures ret == 0 && Untold(old(Ranges()), start, end, Increment(advice)) ==> FlagsMatch(old(Ranges()), kernel.dontFork)
      ensures ret != 0 ==> Stuck(old(Ranges()), q, node, i, start, end, Increment(advice), c)
    {
      hide RangeTree.Valid, ForkMap.Valid, Canonical, Halfway, Passed, Finished, Kernel.Heard, Kernel.Reaches, Stuck, Tracked, FlagsMatch, Underway, Untold;
      ghost var r := Ranges();
      var inc := Increment(advice);
      var first, i0 := GetStartNode(start, end, inc);
      Ready(r, first, i0, start, end, inc);
      node, ret, i, q, c := VisitAll(first, start, end, advice, inc, i0, r);
      if ret == 0 {
        Settle(node, start, end, inc, i, r);
      }
    }

    /** The state after GetStartNode is one a pass can go on from. */
    lemma Ready(r: seq<Range>, node: MemNode, i: nat, start: int, end: int, inc: int)
      requires i < |tree.order| && tree.order[i] == node && node.start <= start <= node.end && start <= end
      requires Halfway(r, Ranges(), i, start, end, inc) && FlagsMatch(r, kernel.dontFork)
      ensures Underway(r, node, i, start, end, inc)
    {
      hide CountAt;
    }

    /** The end of a pass: the ranges on either side of it may have to be merged. */
    method Settle(node: MemNode?, start: int, end: int, inc: int, ghost i: nat, ghost r: seq<Range>)
      requires Valid() && Underway(r, node, i, start, end, inc) && (node != null ==> node.start > end)
      modifies tree, tree.links.Keys
      ensures Valid() && fresh(tree.links.Keys - old(tree.links.Keys)) && Finished(r, Ranges(), start, end, inc)
      ensures (InStep() <==> !Untold(r, start, end, inc)) && (Untold(r, start, end, inc) ==> FlagsMatch(r, kernel.dontFork))
    {
      hide RangeTree.Valid, Halfway, CountAt, Passed, Tracked, FlagsMatch, Untold;
      ghost var q := Ranges();
      PassFinished(r, q, i, start, end, inc);
      if node != null {
        var _ := MergeBack(node, i);
      }
      TrackedFinished(r, Ranges(), start, end, inc, kernel.dontFork);
    }

    /** Splits off the part that belonged to the previous range before the pass started with a merge. */
    method UndoSplit(node: MemNode, start: int, inc: int, ghost i: nat) returns (res: MemNode)
      requires Valid() && i < |tree.order| && tree.order[i] == node && node.start < start <= node.end
      modifies tree, tree.links.Keys
      ensures Valid() && fresh(tree.links.Keys - old(tree.links.Keys))
      ensures i + 1 < |tree.order| && tree.order[i + 1] == res
      ensures Ranges() == Bumped(SplitAt(old(Ranges()), i, start), i, inc)
    {
      hide RangeTree.Valid;
      res := SplitRange(node, start, i);
      tree.Member(i);
      Count(node, inc, i);
    }

    /** What undo_node does first: the range is as the pass found it, up to merging. */
    method Repair(node: MemNode, start: int, end: int, inc: int, ghost i: nat, ghost q: seq<Range>) returns (res: MemNode, ghost j: nat)
      requires Valid() && i < |tree.order| && tree.order[i] == node && start <= node.end
      requires i < |q| && Ranges() == CutOff(q, i, end)
      modifies tree, tree.links.Keys
      ensures Valid() && fresh(tree.links.Keys - old(tree.links.Keys))
      ensures j < |tree.order| && tree.order[j] == res && j == if start > old(node.start) then i + 1 else i
      ensures Ranges() == Repaired(q, i, start, end, inc)
    {
      hide RangeTree.Valid, CutOff;
      assert Ranges()[i] == RangeOfNode(node);
      res, j := node, i;
      if start > node.start {
        res := UndoSplit(node, start, inc, i);
        j := i + 1;
      }
    }

    /** Merges the range where the pass is stuck with equal neighbours. */
    method Rejoin(node: MemNode, ghost i: nat, ghost r: seq<Range>, start: int, ghost x: int, inc: int) returns (res: MemNode, ghost j: nat)
      requires Valid() && i < |tree.order| && tree.order[i] == node && Undoing(r, Ranges(), i, start, x, inc)
      modifies tree, tree.links.Keys
      ensures Valid() && fresh(tree.links.Keys - old(tree.links.Keys))
      ensures j < |tree.order| && tree.order[j] == res && res.start <= x <= res.end
      ensures Finished(r, Ranges(), start, x - 1, inc)
    {
      hide RangeTree.Valid, ForkMap.Valid, Undoing, Finished, MergedBack, MergedIfEqual, Differ;
      UndoBack(r, Ranges(), i, start, x, inc);
      ghost var n := |tree.order|;
      res := MergeBack(node, i);
      j := if |tree.order| == n then i else i - 1;
      UndoingHere(res, j, r, start, x, inc);
      UndoMergeNext(r, Ranges(), j, start, x, inc);
      res := MergeForward(res, j);
    }

    lemma UndoingHere(node: MemNode, i: nat, r: seq<Range>, start: int, x: int, inc: int)
      requires Undoing(r, Ranges(), i, start, x, inc) && i < |tree.order| && tree.order[i] == node
      ensures node.start <= x <= node.end
    {
      hide CountAt;
      assert Ranges()[i] == RangeOfNode(node);
    }

    /** Undoes what the pass did to the node the kernel refused, and to its neighbours. */
    method UndoNode(node: MemNode, start: int, end: int, inc: int, ghost i: nat, ghost r: seq<Range>, ghost q: seq<Range>, ghost x: int)
      returns (res: MemNode, ghost j: nat)
      requires Valid() && i < |tree.order| && tree.order[i] == node && i < |q| && Ranges() == CutOff(q, i, end)
      requires start <= node.end && node.start == q[i].start && x == if start > q[i].start then start else q[i].start
      requires Undoing(r, Repaired(q, i, start, end, inc), if start > q[i].start then i + 1 else i, start, x, inc)
      modifies tree, tree.links.Keys
      ensures Valid() && fresh(tree.links.Keys - old(tree.links.Keys))
      ensures j < |tree.order| && tree.order[j] == res && res.start <= x <= res.end
      ensures Finished(r, Ranges(), start, x - 1, inc)
    {
      hide RangeTree.Valid, ForkMap.Valid, CutOff, Undoing, Finished, Repaired;
      res, j := Repair(node, start, end, inc, i, q);
      res, j := Rejoin(res, j, r, start, x, inc);
    }

    /** After a pass that is stuck, the map counts what the pass did before the refused call, and is canonical again. */
    method Unstick(node: MemNode, start: int, end: int, inc: int, ghost i: nat, ghost r: seq<Range>, ghost q: seq<Range>, ghost c: Syscall)
      returns (res: MemNode, ghost j: nat)
      requires Valid() && Stuck(r, q, node, i, start, end, inc, c) && 0 <= start <= end <= TOP && inc != 0
      modifies tree, tree.links.Keys
      ensures InStep() && fresh(tree.links.Keys - old(tree.links.Keys))
      ensures j < |tree.order| && tree.order[j] == res && res.start <= c.start <= res.end
      ensures Finished(r, Ranges(), start, c.start - 1, inc)
      ensures |r| > 0 && Within(c, r, start, end, inc) && !Untold(r, start, end, inc)
    {
      hide RangeTree.Valid, ForkMap.Valid, CountAt, Crosses, CutOff, FlagsHalfway, Halfway, Undoing, Tracked, FlagsMatch, Repaired, Within;
      ghost var k := kernel.dontFork;
      StuckWithin(r, q, i, start, end, inc, c);
      RepairUndoing(r, q, i, start, end, inc);
      assert Ranges()[i] == RangeOfNode(node);
      res, j := UndoNode(node, start, end, inc, i, r, q, c.start);
      StuckTold(r, q, i, start, end, inc, c, k);
      FlagsStuck(r, q, i, start, end, inc, Ranges(), k);
    }

    /** Counts start..end back after a pass that got stuck later on; a second refusal ends it. */
    method CountBack(start: int, end: int, advice: Advice) returns (ghost c: Syscall)
      requires InStep() && 0 <= start <= end < TOP
      modifies tree, tree.links.Keys, kernel
      ensures InStep() && fresh(tree.links.Keys - old(tree.links.Keys))
      ensures kernel.refused == old(kernel.refused) ==> Finished(old(Ranges()), Ranges(), start, end, Increment(advice))
      ensures kernel.refused != old(kernel.refused) ==>
        && kernel.Heard(old(kernel.refused), advice, -1, c) && start <= c.start <= end
        && Finished(old(Ranges()), Ranges(), start, c.start - 1, Increment(advice))
    {
      hide RangeTree.Valid, ForkMap.Valid, FlagsMatch, Stuck, CountAt;
      ghost var r := Ranges();
      var ret, node;
      ghost var i, q;
      ret, node, i, q, c := Pass(start, end, advice);
      if ret != 0 {
        StuckNode(r, q, node, i, start, end, Increment(advice), c);
        var _, _ := Unstick(node, start, end, Increment(advice), i, r, q, c);
      }
    }

    lemma StuckNode(r: seq<Range>, q: seq<Range>, node: MemNode?, i: nat, start: int, end: int, inc: int, c: Syscall)
      requires Stuck(r, q, node, i, start, end, inc, c)
      ensures node != null
    {
    }

    /** A node's range starts right after its predecessor's, or at zero. */
    lemma Before(node: MemNode, j: nat)
      requires Valid() && j < |tree.order| && tree.order[j] == node
      ensures tree.Valid() && Ranges()[j] == RangeOfNode(node)
      ensures node.start == if j > 0 then tree.order[j - 1].end + 1 else 0
    {
      hide RangeTree.Valid;
      var p := Ranges();
      assert p[j] == RangeOfNode(node) && Follows(p, j);
      assert j > 0 ==> p[j - 1] == RangeOfNode(tree.order[j - 1]);
    }

    /** Takes back what a stuck pass counted below x, as far as it finds it before the range of x. */
    method RollBack(node: MemNode, start: int, advice: Advice, ghost j: nat, ghost r: seq<Range>, ghost x: int) returns (ghost d: Syscall)
      requires InStep() && j < |tree.order| && tree.order[j] == node && node.start <= x <= node.end && 0 <= start <= x <= TOP
      requires Canonical(r) && Finished(r, Ranges(), start, x - 1, Increment(advice))
      modifies tree, tree.links.Keys, kernel
      ensures InStep() && fresh(tree.links.Keys - old(tree.links.Keys))
      ensures kernel.refused == old(kernel.refused) ==> (Ranges() == r <==> !Absorbed(r, start, x, Increment(advice)))
      ensures kernel.refused == old(kernel.refused) ==> LeftOver(r, Ranges(), start, x, Increment(advice))
      ensures kernel.refused != old(kernel.refused) ==>
        && kernel.Heard(old(kernel.refused), Opposite(advice), -1, d)
        && start <= d.start < x && Finished(r, Ranges(), d.start, x - 1, Increment(advice))
    {
      hide RangeTree.Valid, ForkMap.Valid, Canonical, Finished, FlagsMatch, CountAt, Absorbed, Joined;
      ghost var p := Ranges();
      ghost var inc := Increment(advice);
      Before(node, j);
      AbsorbedRange(r, p, j, start, x, inc);
      ghost var n := if start > node.start then start else node.start;
      JoinedRange(r, p, j, start, n, x, inc);
      d := Syscall(0, 0, 0, advice);
      var tmp := tree.PrevOf(node, j);
      if tmp != null && start <= tmp.end {
        d := CountBack(start, tmp.end, Opposite(advice));
        if kernel.refused == old(kernel.refused) {
          CountedBack(r, p, Ranges(), start, n, x, inc);
          Restored(r, Ranges(), n, x, inc);
        } else {
          CountedBack(r, p, Ranges(), start, d.start, x, inc);
        }
      } else {
        Restored(r, p, start, x, inc);
      }
    }

    /** What follows when the kernel refuses the node i. */
    method Recover(node: MemNode?, start: int, end: int, advice: Advice, ghost i: nat, ghost r: seq<Range>, ghost q: seq<Range>, ghost c: Syscall)
      returns (ghost d: Syscall)
      requires Valid() && Canonical(r) && Stuck(r, q, node, i, start, end, Increment(advice), c) && 0 <= start <= end <= TOP
      modifies tree, tree.links.Keys, kernel
      ensures InStep() && fresh(tree.links.Keys - old(tree.links.Keys))
      ensures |r| > 0 && Within(c, r, start, end, Increment(advice)) && !Untold(r, start, end, Increment(advice))
      ensures kernel.refused == old(kernel.refused) ==> (Ranges() == r <==> !Absorbed(r, start, c.start, Increment(advice)))
      ensures kernel.refused == old(kernel.refused) ==> LeftOver(r, Ranges(), start, c.start, Increment(advice))
      ensures kernel.refused != old(kernel.refused) ==>
        && kernel.Heard(old(kernel.refused), Opposite(advice), -1, d)
        && start <= d.start < c.start && Finished(r, Ranges(), d.start, c.start - 1, Increment(advice))
    {
      hide RangeTree.Valid, ForkMap.Valid, ForkMap.InStep, Canonical, Finished, FlagsMatch, CountAt, Absorbed, Crosses, Stuck, LeftOver, Untold;
      StuckNode(r, q, node, i, start, end, Increment(advice), c);
      var res;
      ghost var j;
      res, j := Unstick(node, start, end, Increment(advice), i, r, q, c);
      d := RollBack(res, start, advice, j, r, c.start);
    }

    /** What the kernel has refused in a call for start..end on the map r: at first one call of the pass,
        and at most one more, when that was rolled back. */
    ghost predicate Refusals(r: seq<Range>, start: int, end: int, advice: Advice, was: seq<Syscall>)
      requires |r| > 0
      reads kernel
    {
      && |was| < |kernel.refused| <= |was| + 2 && was == kernel.refused[..|was|]
      && var c := kernel.refused[|was|];
      && !kernel.takes(c) && c.advice == advice && Within(c, r, start, end, Increment(advice))
      && (|kernel.refused| == |was| + 2 ==> var d := kernel.refused[|was| + 1]; !kernel.takes(d) && d.advice == Opposite(advice))
    }

    /** A pass that succeeds has reached every address whose count crossed zero. */
    lemma NotRefused(r: seq<Range>, p: seq<Range>, start: int, end: int, advice: Advice, a: int, k: int -> bool)
      requires Finished(r, p, start, end, Increment(advice)) && FlagsMatch(r, k) && FlagsMatch(p, kernel.dontFork)
      requires kernel.Reaches(k, kernel.dontFork) && 0 <= start <= a <= end <= TOP && Crosses(CountAt(r, a), Increment(advice))
      ensures !kernel.RefusesOnly(a, advice)
    {
      hide CountAt;
      assert CountAt(p, a) == Wanted(r, start, end, Increment(advice), a);
      assert kernel.dontFork(a) != k(a);
    }

    /** If the kernel refuses only address a, where counts would join, then that is where the refused call starts. */
    lemma RefusedThere(r: seq<Range>, start: int, end: int, advice: Advice, a: int, was: seq<Syscall>)
      requires |r| > 0 && Refusals(r, start, end, advice, was) && kernel.RefusesOnly(a, advice) && Joins(r, start, a, Increment(advice))
      ensures |kernel.refused| == |was| + 1 && kernel.refused[|was|].start == a
    {
      hide CountAt;
      var c := kernel.refused[|was|];
      assert c.Covers(a);
      assert c.start < a ==> c.Covers(a - 1);
    }

    /** Registers or releases the pages start..end. It fails exactly if the kernel refuses a call, and then rolls back.
        The map and the flags stay in step in any case. Where the kernel refuses only one call, they are as before
        exactly if counts do not join where the refused call starts. */
    method AdviseAll(start: int, end: int, advice: Advice) returns (ret: int)
      requires InStep() && 0 <= start <= end <= TOP
      modifies tree, tree.links.Keys, kernel
      ensures Valid() && fresh(tree.links.Keys - old(tree.links.Keys)) && (ret == 0 || ret == -1)
      ensures InStep() <==> !Untold(old(Ranges()), start, end, Increment(advice))
      ensures Untold(old(Ranges()), start, end, Increment(advice)) ==> ret == 0 && FlagsMatch(old(Ranges()), kernel.dontFork)
      ensures ret == 0 ==> kernel.refused == old(kernel.refused) && kernel.Reaches(old(kernel.dontFork), kernel.dontFork)
      ensures ret == 0 ==> Finished(old(Ranges()), Ranges(), start, end, Increment(advice))
      ensures ret == -1 ==> Refusals(old(Ranges()), start, end, advice, old(kernel.refused))
      ensures ret == -1 && |kernel.refused| == |old(kernel.refused)| + 1 ==>
        var x := kernel.refused[|old(kernel.refused)|].start;
        && (Ranges() == old(Ranges()) <==> !Joins(old(Ranges()), start, x, Increment(advice)))
        && LeftOver(old(Ranges()), Ranges(), start, x, Increment(advice))
      ensures ret == -1 && |kernel.refused| == |old(kernel.refused)| + 2 ==>
        var x, y := kernel.refused[|old(kernel.refused)|].start, kernel.refused[|old(kernel.refused)| + 1].start;
        start <= y < x && Finished(old(Ranges()), Ranges(), y, x - 1, Increment(advice))
    {
      hide RangeTree.Valid, ForkMap.Valid, Canonical, Finished, FlagsMatch, CountAt, Absorbed, Crosses, Stuck, Kernel.Reaches, Within, Joins, LeftOver, Untold;
      ghost var r := Ranges();
      var node;
      ghost var i, q, c;
      ret, node, i, q, c := Pass(start, end, advice);
      if ret != 0 {
        ghost var _ := Recover(node, start, end, advice, i, r, q, c);
        RefusedJoins(r, start, end, Increment(advice), c);
        ret := -1;
      }
    }

    /** What a call for start..end leaves when the kernel refuses. One refused call leaves counted what is right before
        it, as far as counts join there, and a second one what is between the two. So one refusal leaves the old map if
        nowhere in the range counts would join; and where they would, another map if the kernel refuses just there. */
    twostate predicate Rolled(start: int, end: int, advice: Advice, ret: int)
      requires |old(Ranges())| > 0
      reads tree, tree.order`start, tree.order`end, tree.order`refcnt, kernel
    {
      var r, inc, k := old(Ranges()), Increment(advice), |old(kernel.refused)|;
      && (ret == -1 && |kernel.refused| == k + 1 ==> LeftOver(r, Ranges(), start, kernel.refused[k].start, inc))
      && (ret == -1 && |kernel.refused| == k + 2 ==> Finished(r, Ranges(), kernel.refused[k + 1].start, kernel.refused[k].start - 1, inc))
      && (ret == -1 && |kernel.refused| == k + 1 && !JoinsWithin(r, start, end, inc) ==>
            Ranges() == r && forall a :: 0 <= a <= TOP ==> kernel.dontFork(a) == old(kernel.dontFork)(a))
      && (forall a :: a <= end && kernel.RefusesOnly(a, advice) && Joins(r, start, a, inc) ==>
            ret == -1 && |kernel.refused| == k + 1 && kernel.refused[k].start == a && Ranges() != r)
    }

    /** Registers or releases the pages of a buffer. Map and flags stay in step unless the buffer is all of the address
        space, and none or all of that was registered once: then the map changes and the kernel is not told. */
    method MadviseRange(base: int, size: int, advice: Advice, pageSize: int, ghost pages: int) returns (ret: int)
      requires InStep() && 0 <= base && 0 <= size && base + size <= TOP + 1
      requires pageSize > 0 && pages * pageSize == TOP + 1
      modifies tree, tree.links.Keys, kernel
      ensures Valid() && fresh(tree.links.Keys - old(tree.links.Keys)) && (ret == 0 || ret == -1)
      ensures size == 0 ==> ret == 0 && Ranges() == old(Ranges()) && InStep()
      ensures ret == 0 ==> kernel.refused == old(kernel.refused)
      ensures size > 0 ==>
        var start, end := FirstByte(base, pageSize), LastByte(base, size, pageSize);
        && (ret == 0 ==> Finished(old(Ranges()), Ranges(), start, end, Increment(advice)))
        && (InStep() <==> !Untold(old(Ranges()), start, end, Increment(advice)))
        && (Untold(old(Ranges()), start, end, Increment(advice)) ==> ret == 0 && FlagsMatch(old(Ranges()), kernel.dontFork))
        && (ret == -1 ==> Refusals(old(Ranges()), start, end, advice, old(kernel.refused)))
        && Rolled(start, end, advice, ret)
    {
      hide RangeTree.Valid, ForkMap.Valid, Differ, Follows, Finished, FlagsMatch, CountAt, FirstByte, LastByte;
      hide Kernel.Reaches, Kernel.RefusesOnly, Within, Joins, Crosses, LeftOver, Untold;
      if size == 0 {
        return 0;
      }
      WholePages(base, size, pageSize, pages);
      var start, end := FirstByte(base, pageSize), LastByte(base, size, pageSize);
      ghost var r, k, was := Ranges(), kernel.dontFork, kernel.refused;
      ret := AdviseAll(start, end, advice);
      if ret == -1 {
        RefusedJoins(r, start, end, Increment(advice), kernel.refused[|was|]);
        SameFlags(r, Ranges(), k, kernel.dontFork);
        forall a | a <= end && kernel.RefusesOnly(a, advice) && Joins(r, start, a, Increment(advice))
          ensures |kernel.refused| == |was| + 1 && kernel.refused[|was|].start == a && Ranges() != r
        {
          RefusedThere(r, start, end, advice, a, was);
        }
      } else {
        forall a | a <= end && Joins(r, start, a, Increment(advice)) ensures !kernel.RefusesOnly(a, advice) {
          JoinsCrosses(r, start, end, a, Increment(advice));
          NotRefused(r, Ranges(), start, end, advice, a, k);
        }
      }
    }

    /** Registers a buffer. If the kernel refuses once, and nothing was released that was not registered before,
        map and flags are as if nothing had happened. */
    method DontforkRange(base: int, size: int, pageSize: int, ghost pages: int) returns (ret: int)
      requires InStep() && 0 <= base && 0 <= size && base + size <= TOP + 1
      requires pageSize > 0 && pages * pageSize == TOP + 1
      modifies tree, tree.links.Keys, kernel
      ensures Valid() && fresh(tree.links.Keys - old(tree.links.Keys)) && (ret == 0 || ret == -1)
      ensures size == 0 ==> ret == 0 && Ranges() == old(Ranges()) && InStep()
      ensures ret == 0 ==> kernel.refused == old(kernel.refused)
      ensures size > 0 ==>
        var start, end := FirstByte(base, pageSize), LastByte(base, size, pageSize);
        && (ret == 0 ==> Finished(old(Ranges()), Ranges(), start, end, 1))
        && (InStep() <==> !Untold(old(Ranges()), start, end, 1))
        && (Untold(old(Ranges()), start, end, 1) ==> ret == 0 && FlagsMatch(old(Ranges()), kernel.dontFork))
        && (ret == -1 ==> Refusals(old(Ranges()), start, end, DontFork, old(kernel.refused)))
      ensures ret == -1 && |kernel.refused| == |old(kernel.refused)| + 1 && Matched(old(Ranges())) ==>
        Ranges() == old(Ranges()) && forall a :: 0 <= a <= TOP ==> kernel.dontFork(a) == old(kernel.dontFork)(a)
    {
      hide RangeTree.Valid, CountAt, FirstByte, LastByte, Finished, Kernel.RefusesOnly;
      ghost var r := Ranges();
      ret := MadviseRange(base, size, DontFork, pageSize, pages);
      if size > 0 && Matched(r) {
        WholePages(base, size, pageSize, pages);
        NeverJoins(r, FirstByte(base, pageSize), LastByte(base, size, pageSize));
      }
    }

    /** Releases a buffer. If the kernel refuses once, the map counts one less right before the refused call, as far as
        the count is two there, and is otherwise as before. So map and flags are as before if nowhere in the buffer the count
        drops from two to one. Where it does, they are not as before if the kernel refuses just that address. */
    method DoforkRange(base: int, size: int, pageSize: int, ghost pages: int) returns (ret: int)
      requires InStep() && 0 <= base && 0 <= size && base + size <= TOP + 1
      requires pageSize > 0 && pages * pageSize == TOP + 1
      modifies tree, tree.links.Keys, kernel
      ensures Valid() && fresh(tree.links.Keys - old(tree.links.Keys)) && (ret == 0 || ret == -1)
      ensures size == 0 ==> ret == 0 && Ranges() == old(Ranges()) && InStep()
      ensures ret == 0 ==> kernel.refused == old(kernel.refused)
      ensures size > 0 ==>
        var start, end := FirstByte(base, pageSize), LastByte(base, size, pageSize);
        && (ret == 0 ==> Finished(old(Ranges()), Ranges(), start, end, -1))
        && (InStep() <==> !Untold(old(Ranges()), start, end, -1))
        && (Untold(old(Ranges()), start, end, -1) ==> ret == 0 && FlagsMatch(old(Ranges()), kernel.dontFork))
        && (ret == -1 ==> Refusals(old(Ranges()), start, end, DoFork, old(kernel.refused)))
        && (ret == -1 && |kernel.refused| == |old(kernel.refused)| + 1 && (forall a :: start < a <= end ==> !Drops(old(Ranges()), a)) ==>
              Ranges() == old(Ranges()) && forall a :: 0 <= a <= TOP ==> kernel.dontFork(a) == old(kernel.dontFork)(a))
        && (ret == -1 && |kernel.refused| == |old(kernel.refused)| + 1 ==>
              LeftOver(old(Ranges()), Ranges(), start, kernel.refused[|old(kernel.refused)|].start, -1))
        && (forall a :: start < a <= end && Drops(old(Ranges()), a) && kernel.RefusesOnly(a, DoFork) ==>
              && ret == -1 && |kernel.refused| == |old(kernel.refused)| + 1 && kernel.refused[|old(kernel.refused)|].start == a
              && Ranges() != old(Ranges()))
    {
      hide RangeTree.Valid, ForkMap.Valid, CountAt, FirstByte, LastByte, Finished, Kernel.RefusesOnly, LeftOver;
      ghost var r := Ranges();
      ret := MadviseRange(base, size, DoFork, pageSize, pages);
      assert forall a, start :: Joins(r, start, a, -1) <==> a > start && Drops(r, a);
    }
  }
}
