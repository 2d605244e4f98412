/** The circular buffers between the RXE user library and the kernel: a fixed array of a power of two
entries, of which one is never used, with an index for each side. */
module Ring {

  /** Taking the low bits of an index, for a buffer whose size is a power of two. */
  function Wrap(i: int, size: int): (r: int)
    requires size > 0
    ensures 0 <= r < size
  {
    i % size
  }

  /** Within one size on either side, wrapping adds or takes away one size. */
  lemma WrapIs(x: int, size: int)
    requires size > 0 && -size <= x < 2 * size
    ensures Wrap(x, size) == if x < 0 then x + size else if x < size then x else x - size
  {
    var q := x / size;
    assert x == q * size + x % size;
    if q <= -2 {
      Product(-2 - q, size);
    } else if q >= 2 {
      Product(q - 2, size);
    }
  }

  lemma Product(a: int, b: int)
    requires a >= 0 && b >= 0
    ensures a * b >= 0
  {
  }

  class Queue<T(0)> {
    const data: array<T>
    var producer: int
    var consumer: int
    /** All entries ever posted, and all ever consumed. */
    ghost var posted: seq<T>
    ghost var consumed: seq<T>

    constructor (size: nat)
      requires size > 1
      ensures Valid() && fresh(data) && data.Length == size && posted == [] && consumed == []
    {
      data := new T[size];
      producer, consumer, posted, consumed := 0, 0, [], [];
    }

    ghost predicate Indexed()
      reads this
    {
      data.Length > 1 && 0 <= producer < data.Length && 0 <= consumer < data.Length
    }

    /** How many entries are between the indices. */
    function Count(): (n: int)
      requires data.Length > 0
      reads this
      ensures 0 <= n < data.Length
    {
      Wrap(producer - consumer, data.Length)
    }

    /** The index that is i places behind the consumer. */
    function Slot(i: int): (k: int)
      requires data.Length > 0
      reads this`consumer
      ensures 0 <= k < data.Length
    {
      Wrap(consumer + i, data.Length)
    }

    /** The entries between the indices, in order. */
    ghost function Live(): (s: seq<T>)
      requires data.Length > 0
      reads this, data
      ensures |s| == Count() && forall i :: 0 <= i < |s| ==> s[i] == data[Slot(i)]
    {
      seq(Count(), i requires 0 <= i reads this, data => data[Slot(i)])
    }

    /** What was posted is what was consumed and then what is between the indices, in order. */
    ghost predicate Valid()
      reads this, data
    {
      Indexed() && posted == consumed + Live()
    }

    predicate Empty()
      requires data.Length > 0
      reads this
    {
      Wrap(producer - consumer, data.Length) == 0
    }

    predicate Full()
      requires data.Length > 0
      reads this
    {
      Wrap(producer + 1 - consumer, data.Length) == 0
    }

    /** The buffer holds at most one entry less than its size, and the tests tell when it is empty or full. */
    lemma EmptyFull()
      requires Indexed()
      ensures Count() == if producer >= consumer then producer - consumer else producer - consumer + data.Length
      ensures (Empty() <==> Live() == []) && (Full() <==> |Live()| == data.Length - 1)
    {
      hide Wrap;
      WrapIs(producer - consumer, data.Length);
      WrapIs(producer + 1 - consumer, data.Length);
    }

    lemma SlotIs(i: int)
      requires Indexed() && 0 <= i < data.Length
      ensures Slot(i) == if consumer + i < data.Length then consumer + i else consumer + i - data.Length
      ensures i < Count() ==> Slot(i) != producer
      ensures i == Count() ==> Slot(i) == producer
    {
      hide Wrap;
      WrapIs(consumer + i, data.Length);
      WrapIs(producer - consumer, data.Length);
    }

    /** Filling the entry at the producer index changes no entry that is in use, full or not. */
    method Write(x: T)
      requires Valid()
      modifies data
      ensures Valid() && Live() == old(Live()) && data[producer] == x
    {
      hide Wrap, Queue.Live;
      forall i | 0 <= i < Count() ensures Slot(i) != producer {
        SlotIs(i);
      }
      data[producer] := x;
      assert Live() == old(Live());
    }

    /** advance_producer: the entry filled last becomes the last one in use. */
    method AdvanceProducer()
      requires Valid() && !Full()
      modifies this`producer, this`posted
      ensures Valid() && posted == old(posted) + [old(data[producer])] && Live() == old(Live()) + [old(data[producer])]
    {
      hide Wrap, Queue.Live, Queue.Count, Queue.Slot;
      EmptyFull();
      ghost var x, n := data[producer], Count();
      SlotIs(n);
      WrapIs(producer + 1, data.Length);
      posted := posted + [x];
      producer := Wrap(producer + 1, data.Length);
      EmptyFull();
      assert Live() == old(Live()) + [x];
    }

    /** The first entry is copied out. */
    method Copy() returns (x: T)
      requires Valid() && !Empty()
      ensures Live() != [] && x == Live()[0]
    {
      hide Wrap, Queue.Live, Queue.Count, Queue.Slot;
      EmptyFull();
      SlotIs(0);
      x := data[consumer];
    }

    /** advance_consumer: the first entry is free. */
    method AdvanceConsumer()
      requires Valid() && !Empty()
      modifies this`consumer, this`consumed
      ensures Valid() && old(Live()) != [] && Live() == old(Live()[1..])
      ensures consumed == old(consumed) + [old(Live()[0])] && (old(!Full()) ==> !Full())
    {
      hide Wrap, Queue.Live, Queue.Count, Queue.Slot;
      EmptyFull();
      ghost var live := Live();
      WrapIs(consumer + 1, data.Length);
      forall i | 0 <= i < |live| ensures old(Slot(i)) == if consumer + i < data.Length then consumer + i else consumer + i - data.Length {
        SlotIs(i);
      }
      consumed := consumed + [live[0]];
      consumer := Wrap(consumer + 1, data.Length);
      EmptyFull();
      forall i | 0 <= i < Count() ensures Live()[i] == live[i + 1] {
        SlotIs(i);
        assert live[i + 1] == data[old(Slot(i + 1))];
      }
      assert Live() == live[1..];
    }

    /** What the consuming side may do meanwhile: take up to n entries. */
    method Drain(n: nat)
      requires Valid()
      modifies this`consumer, this`consumed
      ensures Valid() && old(consumed) <= consumed && (old(!Full()) ==> !Full())
    {
      hide Wrap, Queue.Live, Queue.Count, Queue.Slot;
      var k := 0;
      while k < n && !Empty()
        invariant Valid() && old(consumed) <= consumed && (old(!Full()) ==> !Full())
      {
        AdvanceConsumer();
        k := k + 1;
      }
    }

    /** What the posting side may do meanwhile: post entries for as long as there is room. */
    method Arrive(xs: seq<T>)
      requires Valid()
      modifies this`producer, this`posted, data
      ensures Valid() && old(posted) <= posted && old(Live()) <= Live() && (old(!Empty()) ==> !Empty())
    {
      hide Wrap, Queue.Live, Queue.Count, Queue.Slot;
      EmptyFull();
      var k := 0;
      while k < |xs| && !Full()
        invariant Valid() && old(posted) <= posted && old(Live()) <= Live()
      {
        Write(xs[k]);
        AdvanceProducer();
        k := k + 1;
      }
      EmptyFull();
    }

    /** The loop of rxe_poll_cq: up to n entries are consumed, in order, as long as there are any, whatever the other
        side posts before an entry is copied, before it is freed and after that. */
    method Poll(n: nat, arrivals: nat -> seq<T>) returns (out: seq<T>)
      requires Valid()
      modifies this, data
      ensures Valid() && |out| <= n && consumed == old(consumed) + out && consumed <= posted && old(posted) <= posted
      ensures |out| < n ==> Empty() && consumed == posted
    {
      hide Wrap, Queue.Live, Queue.Count, Queue.Slot;
      EmptyFull();
      out := [];
      while |out| < n && !Empty()
        invariant Valid() && |out| <= n && consumed == old(consumed) + out && old(posted) <= posted
      {
        Arrive(arrivals(3 * |out|));
        var x := Copy();
        Arrive(arrivals(3 * |out| + 1));
        AdvanceConsumer();
        Arrive(arrivals(3 * |out| + 2));
        out := out + [x];
      }
      EmptyFull();
    }
  }

  // --- posting ---

  const EINVAL: int := 22
  const ENOMEM: int := 12

  /** A work request: its identity, number and total length of its pieces, and what else is checked. */
  datatype Wr = Wr(id: int, numSge: int, length: int, atomic: bool, address: int, inline: bool)

  /** An entry of a send queue. */
  datatype Wqe = Wqe(wr: Wr, ssn: int)

  ghost function Entries(wrs: seq<Wr>, ssn: int): (r: seq<Wqe>)
    ensures |r| == |wrs| && forall i :: 0 <= i < |r| ==> r[i] == Wqe(wrs[i], ssn + i)
  {
    seq(|wrs|, i requires 0 <= i < |wrs| => Wqe(wrs[i], ssn + i))
  }

  class SendQueue {
    const queue: Queue<Wqe>
    const maxSge: int
    const maxInline: int
    var ssn: int

    constructor (size: nat, maxSge: int, maxInline: int, ssn: int)
      requires size > 1
      ensures queue.Valid() && fresh(queue) && fresh(queue.data) && queue.posted == [] && this.ssn == ssn
    {
      queue := new Queue<Wqe>(size);
      this.maxSge, this.maxInline, this.ssn := maxSge, maxInline, ssn;
    }

    /** validate_send_wr. */
    predicate Accepts(wr: Wr) {
      wr.numSge <= maxSge && !(wr.atomic && (wr.length < 8 || wr.address % 8 != 0)) && !(wr.inline && wr.length > maxInline)
    }

    /** post_one_send: the entry is filled before the test for a full queue. The other side may consume entries
        before each step. A failure posts nothing, but may use up a sequence number. */
    method PostOne(wr: Wr, ns: nat -> nat) returns (rc: int)
      requires queue.Valid()
      modifies this, queue, queue.data
      ensures queue.Valid() && (rc == 0 || rc == -EINVAL || rc == -ENOMEM)
      ensures rc == -EINVAL <==>
        wr.numSge > maxSge || (wr.atomic && (wr.length < 8 || wr.address % 8 != 0)) || (wr.inline && wr.length > maxInline)
      ensures queue.posted == old(queue.posted) + if rc == 0 then [Wqe(wr, old(ssn))] else []
      ensures old(queue.consumed) <= queue.consumed <= queue.posted
      ensures ssn == old(ssn) + if rc == -EINVAL then 0 else 1
      ensures rc == -ENOMEM ==> queue.Full()
    {
      hide Queue.Live, Queue.Count, Queue.Slot, Wrap;
      if !Accepts(wr) {
        return -EINVAL;
      }
      queue.Drain(ns(0));
      queue.Write(Wqe(wr, ssn));
      ssn := ssn + 1;
      queue.Drain(ns(1));
      if queue.Full() {
        return -ENOMEM;
      }
      queue.Drain(ns(2));
      queue.AdvanceProducer();
      rc := 0;
    }

    /** rxe_post_send: posts a list until one request fails; ns(k) says how much the other side consumes during post k,
        and doorbell is what ringing the doorbell returns. bad is the index of the failing request, or -1. */
    method PostList(wrs: seq<Wr>, ns: nat -> nat -> nat, doorbell: int) returns (ret: int, bad: int)
      requires queue.Valid()
      modifies this, queue, queue.data
      ensures queue.Valid() && -1 <= bad < |wrs| && (wrs == [] ==> ret == EINVAL)
      ensures wrs != [] && doorbell != 0 ==> ret == doorbell
      ensures wrs != [] && doorbell == 0 ==>
        if bad == -1 then ret == 0 else if Accepts(wrs[bad]) then ret == -ENOMEM else ret == -EINVAL
      ensures forall i :: 0 <= i < (if bad == -1 then |wrs| else bad) ==> Accepts(wrs[i])
      ensures queue.posted == old(queue.posted) + Entries(if bad == -1 then wrs else wrs[..bad], old(ssn))
      ensures old(queue.consumed) <= queue.consumed <= queue.posted
    {
      hide Queue.Live, Queue.Count, Queue.Slot, Wrap, Entries;
      bad := -1;
      if wrs == [] {
        return EINVAL, -1;
      }
      var rc, k := 0, 0;
      assert wrs[..0] == [];
      while k < |wrs|
        invariant 0 <= k <= |wrs| && queue.Valid() && ssn == old(ssn) + k && rc == 0 && bad == -1
        invariant queue.posted == old(queue.posted) + Entries(wrs[..k], old(ssn)) && old(queue.consumed) <= queue.consumed
        invariant forall i :: 0 <= i < k ==> Accepts(wrs[i])
      {
        rc := PostOne(wrs[k], ns(k));
        if rc != 0 {
          bad := k;
          break;
        }
        assert Entries(wrs[..k + 1], old(ssn)) == Entries(wrs[..k], old(ssn)) + [Wqe(wrs[k], old(ssn) + k)];
        k := k + 1;
      }
      assert bad == -1 ==> wrs[..k] == wrs;
      ret := if doorbell != 0 then doorbell else rc;
    }
  }

  class RecvQueue {
    const queue: Queue<Wr>
    const maxSge: int

    constructor (size: nat, maxSge: int)
      requires size > 1
      ensures queue.Valid() && fresh(queue) && fresh(queue.data) && queue.posted == []
    {
      queue := new Queue<Wr>(size);
      this.maxSge := maxSge;
    }

    /** rxe_post_one_recv: the tests come first here. The other side may consume entries before each further step. */
    method PostOne(wr: Wr, ns: nat -> nat) returns (rc: int)
      requires queue.Valid()
      modifies queue, queue.data
      ensures queue.Valid() && old(queue.consumed) <= queue.consumed <= queue.posted
      ensures rc == if old(queue.Full()) then -ENOMEM else if wr.numSge > maxSge then -EINVAL else 0
      ensures queue.posted == old(queue.posted) + if rc == 0 then [wr] else []
    {
      hide Queue.Live, Queue.Count, Queue.Slot, Wrap;
      if queue.Full() {
        return -ENOMEM;
      }
      if wr.numSge > maxSge {
        return -EINVAL;
      }
      queue.Drain(ns(0));
      queue.Write(wr);
      queue.Drain(ns(1));
      queue.AdvanceProducer();
      queue.Drain(ns(2));
      rc := 0;
    }

    /** rxe_post_recv; ns(k) says how much the other side consumes during post k. */
    method PostList(wrs: seq<Wr>, ns: nat -> nat -> nat) returns (ret: int, bad: int)
      requires queue.Valid()
      modifies queue, queue.data
      ensures queue.Valid() && -1 <= bad < |wrs| && (wrs == [] ==> ret == EINVAL)
      ensures wrs != [] ==> if bad == -1 then ret == 0 else ret == -ENOMEM || (ret == -EINVAL && wrs[bad].numSge > maxSge)
      ensures forall i :: 0 <= i < (if bad == -1 then |wrs| else bad) ==> wrs[i].numSge <= maxSge
      ensures queue.posted == old(queue.posted) + if bad == -1 then wrs else wrs[..bad]
      ensures old(queue.consumed) <= queue.consumed <= queue.posted
    {
      hide Queue.Live, Queue.Count, Queue.Slot, Wrap;
      bad := -1;
      if wrs == [] {
        return EINVAL, -1;
      }
      var k := 0;
      ret := 0;
      while k < |wrs|
        invariant 0 <= k <= |wrs| && queue.Valid() && ret == 0 && bad == -1 && queue.posted == old(queue.posted) + wrs[..k]
        invariant old(queue.consumed) <= queue.consumed && forall i :: 0 <= i < k ==> wrs[i].numSge <= maxSge
      {
        ret := PostOne(wrs[k], ns(k));
        if ret != 0 {
          bad := k;
          break;
        }
        assert wrs[..k + 1] == wrs[..k] + [wrs[k]];
        k := k + 1;
      }
      assert bad == -1 ==> wrs[..k] == wrs;
    }
  }

  // --- every interleaving of the two sides ---

  /** Where the posting side stands. A send is filled and then tested, a receive is tested and then filled. */
  datatype Poster<T> = Idle | Filled(x: T) | Tested | Ready(x: T)

  /** Where the consuming side stands: it has seen an entry, and then copied it. */
  datatype Taker<T> = Waiting | Found | Copied(x: T)

  /** The buffer, where both sides stand, what was posted, and what the consuming side has copied and freed. */
  datatype Sides<T> = Sides(data: seq<T>, producer: int, consumer: int, poster: Poster<T>, taker: Taker<T>, posted: seq<T>, consumed: seq<T>)

  /** The steps that each side does at once: filling the next entry (or part of it), the test for a full buffer and the
      move of the producer index; the test for an empty buffer, the copy and the move of the consumer index. */
  datatype Step<T> = Fill(x: T) | TestFull | Post | TestEmpty | Copy | Free

  ghost predicate InRange<T(!new)>(s: Sides<T>) {
    0 <= s.producer < |s.data| && 0 <= s.consumer < |s.data|
  }

  ghost predicate Steps<T(!new)>(s: Sides<T>, e: Step<T>, s': Sides<T>)
    requires InRange(s)
  {
    var size := |s.data|;
    match e
    case Fill(x) => s' == s.(data := s.data[s.producer := x], poster := if s.poster.Idle? || s.poster.Filled? then Filled(x) else Ready(x))
    case TestFull =>
      && (s.poster.Idle? || s.poster.Filled?)
      && s' == s.(poster := if Wrap(s.producer + 1 - s.consumer, size) == 0 then Idle else if s.poster.Idle? then Tested else Ready(s.poster.x))
    case Post =>
      s.poster.Ready? && s' == s.(producer := Wrap(s.producer + 1, size), poster := Idle, posted := s.posted + [s.poster.x])
    case TestEmpty => s.taker.Waiting? && s' == s.(taker := if Wrap(s.producer - s.consumer, size) == 0 then Waiting else Found)
    case Copy => s.taker.Found? && s' == s.(taker := Copied(s.data[s.consumer]))
    case Free =>
      s.taker.Copied? && s' == s.(consumer := Wrap(s.consumer + 1, size), taker := Waiting, consumed := s.consumed + [s.taker.x])
  }

  /** The indices follow the numbers of entries, what is not consumed is in its place, and both sides know what they
      have seen: there is still room for what was tested, and what was copied is the oldest entry. */
  ghost predicate Consistent<T(!new)>(s: Sides<T>) {
    var p, c, size := |s.posted|, |s.consumed|, |s.data|;
    && size > 1 && c <= p < c + size && s.consumed == s.posted[..c]
    && s.producer == Wrap(p, size) && s.consumer == Wrap(c, size)
    && (forall j :: c <= j < p ==> s.data[Wrap(j, size)] == s.posted[j])
    && (s.poster.Filled? || s.poster.Ready? ==> s.data[s.producer] == s.poster.x)
    && (s.poster.Tested? || s.poster.Ready? ==> p + 1 < c + size)
    && (!s.taker.Waiting? ==> c < p) && (s.taker.Copied? ==> s.taker.x == s.posted[c])
  }

  /** Indices less than one size apart are different places, and their difference tells how far they are apart. */
  lemma Apart(i: int, j: int, size: int)
    requires size > 0 && 0 <= i <= j <= i + size
    ensures Wrap(Wrap(j, size) - Wrap(i, size), size) == if j == i + size then 0 else j - i
    ensures i < j < i + size ==> Wrap(i, size) != Wrap(j, size)
  {
    hide Wrap;
    Whole(i, j, size);
    WrapIs(Wrap(j, size) - Wrap(i, size), size);
  }

  lemma Whole(i: int, j: int, size: int)
    requires size > 0 && 0 <= i <= j <= i + size
    ensures Wrap(j, size) - Wrap(i, size) == j - i || Wrap(j, size) - Wrap(i, size) == j - i - size
  {
    hide Wrap;
    Divided(i, size);
    Divided(j, size);
    var q, r := i / size, j / size;
    assert (r - q) * size == r * size - q * size;
    NoneOrOne(r - q, size);
  }

  lemma Divided(i: int, size: int)
    requires size > 0
    ensures i == i / size * size + Wrap(i, size)
  {
  }

  lemma NoneOrOne(d: int, size: int)
    requires size > 0 && -size < d * size < 2 * size
    ensures d == 0 || d == 1
  {
    if d >= 2 {
      Product(d - 2, size);
    } else if d <= -1 {
      Product(-1 - d, size);
    }
  }

  lemma WrapNext(i: int, size: int)
    requires size > 1 && 0 <= i
    ensures Wrap(Wrap(i, size) + 1, size) == Wrap(i + 1, size)
  {
    hide Wrap;
    Apart(i, i + 1, size);
    WrapIs(Wrap(i + 1, size) - Wrap(i, size), size);
    WrapIs(Wrap(i, size) + 1, size);
  }

  /** Every step of either side keeps the two consistent. */
  lemma StepConsistent<T(!new)>(s: Sides<T>, e: Step<T>, s': Sides<T>)
    requires Consistent(s) && Steps(s, e, s')
    ensures Consistent(s')
  {
    hide Wrap;
    var p, c, size := |s.posted|, |s.consumed|, |s.data|;
    Apart(c, p, size);
    Apart(c, p + 1, size);
    WrapNext(p, size);
    WrapNext(c, size);
    match e
    case Fill(x) =>
      forall j | c <= j < p ensures s'.data[Wrap(j, size)] == s.posted[j] {
        Apart(j, p, size);
      }
    case TestFull => FullTest(s);
    case Post =>
    case TestEmpty =>
    case Copy =>
    case Free =>
  }

  lemma FullTest<T(!new)>(s: Sides<T>)
    requires Consistent(s)
    ensures Wrap(s.producer + 1 - s.consumer, |s.data|) == 0 <==> |s.posted| + 1 == |s.consumed| + |s.data|
  {
    hide Wrap;
    var p, c, size := |s.posted|, |s.consumed|, |s.data|;
    Apart(c, p, size);
    WrapIs(s.producer - s.consumer, size);
    WrapIs(s.producer + 1 - s.consumer, size);
  }

  /** Any sequence of steps of the two sides, in any order, from an empty buffer. */
  ghost predicate Run<T(!new)>(states: seq<Sides<T>>, steps: seq<Step<T>>) {
    && |states| == |steps| + 1 && |states[0].data| > 1 && states[0] == Sides(states[0].data, 0, 0, Idle, Waiting, [], [])
    && forall k :: 0 <= k < |steps| && InRange(states[k]) ==> Steps(states[k], steps[k], states[k + 1])
  }

  /** In every state of every run: what was consumed is the first part of what was posted, in order; at most one less
      than the size of the buffer is in use; and what the consuming side has copied is the oldest entry not freed. */
  lemma {:induction false} RunSafe<T(!new)>(states: seq<Sides<T>>, steps: seq<Step<T>>)
    requires Run(states, steps)
    ensures var s := states[|steps|];
            && Consistent(s) && s.consumed <= s.posted && |s.posted| - |s.consumed| <= |s.data| - 1
            && |s.data| == |states[0].data|
            && (s.taker.Copied? ==> |s.consumed| < |s.posted| && s.taker.x == s.posted[|s.consumed|])
    decreases |steps|
  {
    hide Steps, Wrap;
    if steps == [] {
      WrapIs(0, |states[0].data|);
    } else {
      var k := |steps| - 1;
      RunSafe(states[..k + 1], steps[..k]);
      StepConsistent(states[k], steps[k], states[k + 1]);
      StepSize(states[k], steps[k], states[k + 1]);
    }
  }

  lemma StepSize<T(!new)>(s: Sides<T>, e: Step<T>, s': Sides<T>)
    requires InRange(s) && Steps(s, e, s')
    ensures |s'.data| == |s.data|
  {
  }
}
