/** Throttled groups of a request queue: bios that wait for their group's budget, the service tree
of waiting groups ordered by the time of their next dispatch, and the dispatch rounds. */
module Throttle {
  import opened Ordered
  import opened Slices

  datatype Bio = Bio(id: int, size: nat)

  /** The direction of a bio, as an index. */
  type Rw = d: int | 0 <= d < 2

  const READ: Rw := 0
  const WRITE: Rw := 1

  /** Most bios from one group in a round, three quarters of them reads; most bios in all before a round ends. */
  const GROUP_READS: nat := 6
  const GROUP_WRITES: nat := 2
  const QUANTUM: nat := 32

  class Group {
    const limits: seq<Limits>
    var slices: seq<Slice>
    var queues: seq<seq<Bio>>
    var nrQueued: seq<int>
    var disptime: int
    var onTree: bool
    ghost var pasts: seq<Past>

    /** A group without bios. */
    constructor (limits: seq<Limits>)
      requires |limits| == 2 && limits[0].Valid() && limits[1].Valid()
      ensures this.limits == limits && Valid(0) && !onTree && queues == [[], []]
    {
      this.limits := limits;
      slices, queues, nrQueued, onTree := [Slice(0, 0, 0, 0), Slice(0, 0, 0, 0)], [[], []], [0, 0], false;
      pasts := [Past(0, 0, 0, 0), Past(0, 0, 0, 0)];
    }

    ghost predicate Shaped()
      reads this`slices, this`queues, this`nrQueued, this`pasts
    {
      |limits| == 2 && |slices| == 2 && |queues| == 2 && |nrQueued| == 2 && |pasts| == 2
    }

    /** One direction is in account at the given time. */
    ghost predicate Lane(d: Rw, now: int)
      requires Shaped()
      reads this`slices, this`queues, this`nrQueued, this`pasts
    {
      Ready(limits[d], State(slices[d], pasts[d]), now) && nrQueued[d] == |queues[d]|
    }

    ghost predicate Valid(now: int)
      reads this`slices, this`queues, this`nrQueued, this`pasts
    {
      Shaped() && Lane(READ, now) && Lane(WRITE, now)
    }

    /** Whether the first bio in a direction could go out. */
    ghost predicate CanGo(d: Rw, now: int)
      reads this`slices, this`queues, this`nrQueued, this`pasts
    {
      Valid(now) && queues[d] != [] && MayDispatch(limits[d], slices[d], now, queues[d][0].size).ok
    }

    /** The wait quoted for the first bio in a direction, or -1 if there is none. */
    ghost function Quoted(d: Rw, now: int): int
      reads this`slices, this`queues, this`nrQueued, this`pasts
    {
      if Valid(now) && queues[d] != [] then MayDispatch(limits[d], slices[d], now, queues[d][0].size).wait else -1
    }

    /** The smaller of the quoted waits. */
    ghost function Soonest(now: int): int
      reads this`slices, this`queues, this`nrQueued, this`pasts
    {
      var r, w := Quoted(READ, now), Quoted(WRITE, now);
      if r == -1 || (w != -1 && w < r) then w else r
    }

    lemma QuotedWait(d: Rw, now: int)
      requires Valid(now) && queues[d] != []
      ensures Quoted(d, now) == MayDispatch(limits[d], slices[d], now, queues[d][0].size).wait >= 0
    {
      hide MayDispatch, Accounted, WithinBps, WithinIops;
      AccountedSigns(limits[d], slices[d], pasts[d]);
      AskedAccounted(limits[d], slices[d], pasts[d], now, queues[d][0].size);
    }

    /** The smaller of the quoted waits is that of one of the directions, and no larger than any. */
    lemma SoonestIs(d: Rw, now: int)
      requires Valid(now) && queues[d] != []
      ensures var wait := Quoted(d, now);
              if queues[1 - d] == [] then Soonest(now) == wait
              else Soonest(now) <= wait && Soonest(now) <= Quoted(1 - d, now) && (Soonest(now) == wait || Soonest(now) == Quoted(1 - d, now))
    {
      hide MayDispatch, Accounted;
      QuotedWait(d, now);
      if queues[1 - d] != [] {
        QuotedWait(1 - d, now);
      }
    }

    /** What has gone out of a group in account is within its limits since its first dispatch. */
    lemma WithinLimits(d: Rw, now: int)
      requires Valid(now)
      ensures var lim, past := limits[d], pasts[d];
              && past.bytes * lim.hz <= lim.bps * (now - past.origin + lim.Window())
              && past.ios * lim.hz <= lim.iops * (now - past.origin + lim.Window())
    {
      hide Accounted;
      ReadyBound(limits[d], State(slices[d], pasts[d]), now);
    }

    /** A first bio that was told to wait, at time before, can go after that wait, if nothing went in between and the
        slice lasts and has room for the operation. */
    lemma ComesBack(d: Rw, s: Slice, before: int, now: int)
      requires Valid(now) && queues[d] != [] && s.ios >= 0
      requires var v := MayDispatch(limits[d], s, before, queues[d][0].size);
               !v.ok && slices[d] == v.slice && before + v.wait < now <= v.slice.end
      ensures CanGo(d, now) <==> WithinIops(limits[d], slices[d], now)
    {
      hide MayDispatch, Accounted, WithinIops;
      AccountedSigns(limits[d], slices[d], pasts[d]);
      AskedLater(limits[d], s, before, queues[d][0].size, now);
    }

    /** tg_may_dispatch: asks for a bio that is the first in its direction, or would be. */
    method Ask(d: Rw, bio: Bio, now: int) returns (ok: bool, wait: int)
      requires Valid(now) && (queues[d] == [] || bio == queues[d][0])
      modifies this`slices, this`pasts
      ensures Valid(now) && (ok <==> wait == 0) && wait >= 0 && wait == old(MayDispatch(limits[d], slices[d], now, bio.size).wait)
      ensures ok == old(MayDispatch(limits[d], slices[d], now, bio.size).ok) == MayDispatch(limits[d], slices[d], now, bio.size).ok
      ensures wait == MayDispatch(limits[d], slices[d], now, bio.size).wait
      ensures slices == old(slices[d := MayDispatch(limits[d], slices[d], now, bio.size).slice])
      ensures pasts == old(pasts)[d := Renewal(slices[d], old(pasts)[d])]
      ensures slices[d].start <= now && slices[d].end >= now + limits[d].Window()
      ensures ok ==> WithinBps(limits[d], slices[d], now, bio.size) && WithinIops(limits[d], slices[d], now)
    {
      hide MayDispatch, Accounted, WithinBps, WithinIops;
      AccountedSigns(limits[d], slices[d], pasts[d]);
      AskedAccounted(limits[d], slices[d], pasts[d], now, bio.size);
      AskedAgain(limits[d], slices[d], pasts[d], now, bio.size);
      var v := MayDispatch(limits[d], slices[d], now, bio.size);
      slices := slices[d := v.slice];
      pasts := pasts[d := Renewal(v.slice, pasts[d])];
      ok, wait := v.ok, v.wait;
    }

    /** The first bio of a direction, which may go, leaves: the group's part of tg_dispatch_one_bio. */
    method Pop(d: Rw, now: int) returns (bio: Bio)
      requires Valid(now) && queues[d] != [] && slices[d].start <= now && slices[d].end >= now + limits[d].Window()
      requires WithinBps(limits[d], slices[d], now, queues[d][0].size) && WithinIops(limits[d], slices[d], now)
      modifies this`slices, this`pasts, this`queues, this`nrQueued
      ensures Valid(now) && bio == old(queues[d][0]) && queues == old(queues[d := queues[d][1..]])
      ensures slices == old(slices[d := Dispatched(limits[d], slices[d], now, queues[d][0].size)])
      ensures pasts == old(pasts[d := Sent(pasts[d], now, queues[d][0].size)])
    {
      hide Accounted, WithinBps, WithinIops, Dispatched;
      bio := queues[d][0];
      DispatchedNow(d, bio, now);
      queues := queues[d := queues[d][1..]];
      nrQueued := nrQueued[d := nrQueued[d] - 1];
      slices := slices[d := Dispatched(limits[d], slices[d], now, bio.size)];
      pasts := pasts[d := Sent(pasts[d], now, bio.size)];
    }

    lemma DispatchedNow(d: Rw, bio: Bio, now: int)
      requires Valid(now) && slices[d].start <= now && slices[d].end >= now + limits[d].Window()
      requires WithinBps(limits[d], slices[d], now, bio.size) && WithinIops(limits[d], slices[d], now)
      ensures limits[d].Window() > 0
      ensures Ready(limits[d], State(Dispatched(limits[d], slices[d], now, bio.size), Sent(pasts[d], now, bio.size)), now)
    {
      hide AtMost;
      DispatchedAccounted(limits[d], slices[d], pasts[d], now, bio.size);
    }

    /** A bio that may go at once is charged without being queued. */
    method Charge(d: Rw, bio: Bio, now: int)
      requires Valid(now) && slices[d].start <= now && slices[d].end >= now + limits[d].Window()
      requires WithinBps(limits[d], slices[d], now, bio.size) && WithinIops(limits[d], slices[d], now)
      modifies this`slices, this`pasts
      ensures Valid(now) && slices == old(slices[d := Dispatched(limits[d], slices[d], now, bio.size)])
      ensures pasts == old(pasts[d := Sent(pasts[d], now, bio.size)])
    {
      hide Accounted, WithinBps, WithinIops, Dispatched;
      DispatchedNow(d, bio, now);
      slices := slices[d := Dispatched(limits[d], slices[d], now, bio.size)];
      pasts := pasts[d := Sent(pasts[d], now, bio.size)];
    }

    method Push(d: Rw, bio: Bio, ghost now: int)
      requires Valid(now)
      modifies this`queues, this`nrQueued
      ensures Valid(now) && queues == old(queues[d := queues[d] + [bio]])
    {
      queues := queues[d := queues[d] + [bio]];
      nrQueued := nrQueued[d := nrQueued[d] + 1];
    }

    /** The time of the next dispatch: after the smaller of the quoted waits, so now if some first bio can go, later
        if none can. */
    method NextDispatch(now: int) returns (time: int)
      requires Valid(now) && (queues[READ] != [] || queues[WRITE] != [])
      modifies this`slices, this`pasts
      ensures Valid(now) && time == now + old(Soonest(now)) == now + Soonest(now) && time >= now && (time == now <==> old(CanGo(READ, now)) || old(CanGo(WRITE, now)))
      ensures forall d: Rw :: CanGo(d, now) == old(CanGo(d, now)) && Quoted(d, now) == old(Quoted(d, now))
    {
      hide MayDispatch, Accounted, WithinBps, WithinIops;
      var wait := -1;
      if queues[READ] != [] {
        var ok;
        ok, wait := Ask(READ, queues[READ][0], now);
      }
      if queues[WRITE] != [] {
        var ok, w := Ask(WRITE, queues[WRITE][0], now);
        if wait == -1 || w < wait {
          wait := w;
        }
      }
      time := now + wait;
    }
  }

  // --- the service tree ---

  ghost function Keys(order: seq<Group>): (keys: seq<int>)
    reads order`disptime
    ensures |keys| == |order| && forall i :: 0 <= i < |order| ==> keys[i] == order[i].disptime
  {
    if order == [] then [] else Keys(order[..|order| - 1]) + [order[|order| - 1].disptime]
  }

  /** How many keys are due. */
  ghost function Due(keys: seq<int>, now: int): nat {
    if keys == [] then 0 else Due(keys[..|keys| - 1], now) + if keys[|keys| - 1] <= now then 1 else 0
  }

  lemma {:induction false} DueAdds(a: seq<int>, b: seq<int>, now: int)
    ensures Due(a + b, now) == Due(a, now) + Due(b, now)
    decreases |b|
  {
    if b == [] {
      assert a + b == a;
    } else {
      DueAdds(a, b[..|b| - 1], now);
      assert (a + b)[..|a + b| - 1] == a + b[..|b| - 1];
    }
  }

  /** Taking out or putting in one key changes the number of due keys by that key. */
  lemma DueWith(a: seq<int>, k: nat, key: int, now: int)
    requires k <= |a|
    ensures Due(a[..k] + [key] + a[k..], now) == Due(a, now) + if key <= now then 1 else 0
  {
    assert a == a[..k] + a[k..];
    DueAdds(a[..k], a[k..], now);
    DueAdds(a[..k] + [key], a[k..], now);
    DueAdds(a[..k], [key], now);
    assert [key][..0] == [];
  }

  class ServiceTree {
    var order: seq<Group>
    var left: Group?
    var count: int

    constructor ()
      ensures Valid() && order == []
    {
      order, left, count := [], null, 0;
    }

    /** Members stand in the order of their times; the cached leftmost one, if any, is the first. */
    ghost predicate Valid()
      reads this, order`disptime
    {
      && Distinct(order) && Ascending(Keys(order)) && count == |order|
      && (left != null ==> order != [] && left == order[0])
    }

    method First() returns (g: Group?)
      requires Valid()
      modifies this`left
      ensures Valid() && g == if order == [] then null else order[0]
    {
      if count == 0 {
        return null;
      }
      if left == null {
        left := order[0];
      }
      g := left;
    }

    /** The first group is the one to be served next. */
    lemma FirstIsLeast()
      requires Valid()
      ensures forall g :: g in order ==> order[0].disptime <= g.disptime
    {
      forall g | g in order ensures order[0].disptime <= g.disptime {
        var i :| 0 <= i < |order| && order[i] == g;
        assert Keys(order)[0] <= Keys(order)[i];
      }
    }

    method Erase(g: Group, ghost k: nat)
      requires Valid() && k < |order| && order[k] == g
      modifies this
      ensures Valid() && order == old(order)[..k] + old(order)[k + 1..]
      ensures Keys(order) == old(Keys(order))[..k] + old(Keys(order))[k + 1..]
    {
      hide Keys, Ascending;
      AscendingWithout(Keys(order), k);
      KeysWithout(order, k);
      DistinctWithout(order, k);
      if left == g {
        assert k == 0;
        left := null;
      }
      order := Without(order, g, k);
      count := count - 1;
    }

    /** A group goes behind all that are not later than it. */
    method Add(g: Group) returns (ghost k: nat)
      requires Valid() && g !in order
      modifies this
      ensures Valid() && k <= |old(order)| && order == old(order)[..k] + [g] + old(order)[k..]
      ensures Keys(order) == old(Keys(order))[..k] + [g.disptime] + old(Keys(order))[k..]
      ensures forall i :: 0 <= i < |old(order)| ==> (i < k <==> old(Keys(order))[i] <= g.disptime)
    {
      hide Keys, Ascending, Distinct;
      var at, leftmost := 0, true;
      while at < |order| && !(g.disptime < order[at].disptime)
        invariant at <= |order| && (leftmost <==> at == 0)
        invariant forall i :: 0 <= i < at ==> order[i].disptime <= g.disptime
      {
        at, leftmost := at + 1, false;
      }
      k := at;
      Place(g, k);
      if leftmost {
        left := g;
      }
      order := order[..at] + [g] + order[at..];
      count := count + 1;
    }

    /** Why a group can be put in at position k. */
    lemma Place(g: Group, k: nat)
      requires Valid() && g !in order && k <= |order|
      requires forall i :: 0 <= i < k ==> order[i].disptime <= g.disptime
      requires k < |order| ==> g.disptime < order[k].disptime
      ensures var o := order[..k] + [g] + order[k..];
              && Distinct(o) && Ascending(Keys(o)) && o[0] == (if k == 0 then g else order[0])
              && Keys(o) == Keys(order)[..k] + [g.disptime] + Keys(order)[k..]
      ensures forall i :: 0 <= i < |order| ==> (i < k <==> Keys(order)[i] <= g.disptime)
    {
      hide Keys, Distinct;
      KeysWith(order, g, k);
      DistinctWith(order, g, k);
      AscendingWith(Keys(order), k, g.disptime);
    }
  }

  lemma KeysWith(order: seq<Group>, g: Group, k: nat)
    requires k <= |order|
    ensures Keys(order[..k] + [g] + order[k..]) == Keys(order)[..k] + [g.disptime] + Keys(order)[k..]
  {
    hide Keys;
    var o := order[..k] + [g] + order[k..];
    var keys := Keys(order);
    var r := keys[..k] + [g.disptime] + keys[k..];
    forall i | 0 <= i < |o| ensures Keys(o)[i] == r[i] {
      PutAt(order, g, k, i);
      PutAt(keys, g.disptime, k, i);
    }
  }

  lemma KeysWithout(order: seq<Group>, k: nat)
    requires k < |order|
    ensures Keys(order[..k] + order[k + 1..]) == Keys(order)[..k] + Keys(order)[k + 1..]
  {
    hide Keys;
    var o := order[..k] + order[k + 1..];
    forall i | 0 <= i < |o| ensures Keys(o)[i] == (Keys(order)[..k] + Keys(order)[k + 1..])[i] {
      assert o[i] == if i < k then order[i] else order[i + 1];
    }
  }

  // --- the request queue ---

  /** The bios that wait in each group and direction. */
  ghost function Waiting(groups: seq<Group>): (w: seq<seq<seq<Bio>>>)
    reads groups`queues
    ensures |w| == |groups| && forall i :: 0 <= i < |groups| ==> w[i] == groups[i].queues
  {
    if groups == [] then [] else Waiting(groups[..|groups| - 1]) + [groups[|groups| - 1].queues]
  }

  ghost function Total(w: seq<seq<seq<Bio>>>, d: Rw): nat {
    if w == [] then 0
    else Total(w[..|w| - 1], d) + if d < |w[|w| - 1]| then |w[|w| - 1][d]| else 0
  }

  /** Changing the lists of one group changes the total by as much. */
  lemma {:induction false} TotalWith(w: seq<seq<seq<Bio>>>, i: nat, q: seq<seq<Bio>>, d: Rw)
    requires i < |w| && d < |w[i]| && d < |q|
    ensures Total(w[i := q], d) == Total(w, d) - |w[i][d]| + |q[d]| && Total(w, d) >= |w[i][d]|
    decreases |w|
  {
    var front := w[..|w| - 1];
    if i == |w| - 1 {
      assert w[i := q][..|w| - 1] == front;
    } else {
      TotalWith(front, i, q, d);
      assert w[i := q][..|w| - 1] == front[i := q];
    }
  }

  lemma {:induction false} NoneWaiting(groups: seq<Group>, d: Rw)
    requires forall g :: g in groups ==> g.queues == [[], []]
    ensures Total(Waiting(groups), d) == 0
    decreases |groups|
  {
    if groups != [] {
      NoneWaiting(groups[..|groups| - 1], d);
      assert Waiting(groups)[..|groups| - 1] == Waiting(groups[..|groups| - 1]);
    }
  }

  datatype Departure = Departure(group: Group, d: Rw, bio: Bio)

  ghost function Taken(out: seq<Departure>, g: Group, d: Rw): seq<Bio> {
    if out == [] then []
    else
      var last := out[|out| - 1];
      Taken(out[..|out| - 1], g, d) + if last.group == g && last.d == d then [last.bio] else []
  }

  lemma {:induction false} TakenAdds(a: seq<Departure>, b: seq<Departure>, g: Group, d: Rw)
    ensures Taken(a + b, g, d) == Taken(a, g, d) + Taken(b, g, d)
    decreases |b|
  {
    if b == [] {
      assert a + b == a;
    } else {
      TakenAdds(a, b[..|b| - 1], g, d);
      assert (a + b)[..|a + b| - 1] == a + b[..|b| - 1];
    }
  }

  class Throttler {
    const tree: ServiceTree
    var nrQueued: seq<int>
    ghost const groups: seq<Group>

    /** No group has bios waiting. */
    constructor (ghost groups: seq<Group>)
      requires Distinct(groups) && forall g :: g in groups ==> g.Valid(0) && !g.onTree && g.queues == [[], []]
      ensures Valid(0) && this.groups == groups && forall g :: g in groups ==> Settled(g)
    {
      hide Waiting, Total, Ready, Keys;
      this.groups := groups;
      tree := new ServiceTree();
      nrQueued := [0, 0];
      new;
      NoneWaiting(groups, READ);
      NoneWaiting(groups, WRITE);
    }

    ghost predicate Listed()
      reads tree`order, groups`onTree
    {
      && Distinct(groups)
      && (forall g :: g in groups ==> (g.onTree <==> g in tree.order))
      && (forall g :: g in tree.order ==> g in groups)
    }

    ghost predicate Counted()
      reads this, groups`queues
    {
      |nrQueued| == 2 && forall d: Rw :: nrQueued[d] == Total(Waiting(groups), d)
    }

    ghost predicate InAccount(now: int)
      reads groups`slices, groups`queues, groups`nrQueued, groups`pasts
    {
      forall g :: g in groups ==> g.Valid(now)
    }

    ghost predicate Valid(now: int)
      reads this, tree, tree.order`disptime, groups
    {
      tree.Valid() && Listed() && Counted() && InAccount(now)
    }

    /** A group is on the tree exactly if bios wait in it. */
    ghost predicate Settled(g: Group)
      requires |g.queues| == 2
      reads g
    {
      g.onTree <==> g.queues[READ] != [] || g.queues[WRITE] != []
    }

    /** The loop of throtl_dispatch_tg for one direction: at most max bios, in order, while they may go. */
    method SendFrom(g: Group, d: Rw, max: nat, now: int) returns (out: seq<Bio>)
      requires g.Valid(now) && |nrQueued| == 2 && nrQueued[d] >= |g.queues[d]| && max > 0
      modifies g`slices, g`pasts, g`queues, g`nrQueued, this`nrQueued
      ensures g.Valid(now) && |out| <= max && out + g.queues[d] == old(g.queues[d])
      ensures g.queues[1 - d] == old(g.queues[1 - d]) && g.CanGo(1 - d, now) == old(g.CanGo(1 - d, now))
      ensures (|out| < max ==> !g.CanGo(d, now)) && (old(g.CanGo(d, now)) ==> out != [])
      ensures nrQueued == old(nrQueued)[d := old(nrQueued)[d] - |out|]
    {
      hide MayDispatch, Accounted, WithinBps, WithinIops, Dispatched, AtMost;
      out := [];
      while g.queues[d] != []
        invariant g.Valid(now) && |out| < max && out + g.queues[d] == old(g.queues[d])
        invariant g.queues[1 - d] == old(g.queues[1 - d]) && g.slices[1 - d] == old(g.slices[1 - d])
        invariant |nrQueued| == 2 && nrQueued == old(nrQueued)[d := old(nrQueued)[d] - |out|]
        invariant out == [] ==> g.queues == old(g.queues) && g.slices == old(g.slices)
        decreases |g.queues[d]|
      {
        var ok, _ := g.Ask(d, g.queues[d][0], now);
        if !ok {
          break;
        }
        var bio := g.Pop(d, now);
        assert nrQueued[d] > 0;
        nrQueued := nrQueued[d := nrQueued[d] - 1];
        out := out + [bio];
        if |out| >= max {
          break;
        }
      }
    }

    /** throtl_dispatch_tg: three reads to one write. */
    method DispatchGroup(g: Group, now: int) returns (rs: seq<Bio>, ws: seq<Bio>)
      requires g.Valid(now) && |nrQueued| == 2 && nrQueued[READ] >= |g.queues[READ]| && nrQueued[WRITE] >= |g.queues[WRITE]|
      modifies g`slices, g`pasts, g`queues, g`nrQueued, this`nrQueued
      ensures g.Valid(now) && |rs| <= GROUP_READS && |ws| <= GROUP_WRITES
      ensures rs + g.queues[READ] == old(g.queues[READ]) && ws + g.queues[WRITE] == old(g.queues[WRITE])
      ensures (|rs| < GROUP_READS ==> !g.CanGo(READ, now)) && (|ws| < GROUP_WRITES ==> !g.CanGo(WRITE, now))
      ensures (old(g.CanGo(READ, now)) ==> rs != []) && (old(g.CanGo(WRITE, now)) ==> ws != [])
      ensures nrQueued == [old(nrQueued)[READ] - |rs|, old(nrQueued)[WRITE] - |ws|]
    {
      hide Group.Valid, Group.CanGo;
      rs := SendFrom(g, READ, GROUP_READS, now);
      ws := SendFrom(g, WRITE, GROUP_WRITES, now);
    }

    method Dequeue(g: Group, ghost k: nat)
      requires tree.Valid() && Listed() && k < |tree.order| && tree.order[k] == g
      modifies tree, g`onTree
      ensures tree.Valid() && Listed() && !g.onTree && g !in tree.order
      ensures tree.order == old(tree.order)[..k] + old(tree.order)[k + 1..]
      ensures Keys(tree.order) == old(Keys(tree.order))[..k] + old(Keys(tree.order))[k + 1..]
    {
      hide Keys, Ascending;
      assert g in groups;
      tree.Erase(g, k);
      g.onTree := false;
    }

    method Enqueue(g: Group)
      requires tree.Valid() && Listed() && g in groups && !g.onTree
      modifies tree, g`onTree
      ensures tree.Valid() && Listed() && g.onTree
      ensures exists k :: 0 <= k <= |old(tree.order)| && tree.order == old(tree.order)[..k] + [g] + old(tree.order)[k..]
                          && Keys(tree.order) == old(Keys(tree.order))[..k] + [g.disptime] + old(Keys(tree.order))[k..]
    {
      hide Keys, Ascending;
      ghost var k := tree.Add(g);
      g.onTree := true;
    }

    /** Sends from a group that is off the tree; only its own lists and the totals change. */
    method Send(g: Group, now: int) returns (rs: seq<Bio>, ws: seq<Bio>)
      requires Distinct(groups) && Counted() && InAccount(now) && g in groups
      modifies g`slices, g`pasts, g`queues, g`nrQueued, this`nrQueued
      ensures Counted() && InAccount(now) && |rs| <= GROUP_READS && |ws| <= GROUP_WRITES
      ensures rs + g.queues[READ] == old(g.queues[READ]) && ws + g.queues[WRITE] == old(g.queues[WRITE])
      ensures rs == [] && ws == [] ==> !g.CanGo(READ, now) && !g.CanGo(WRITE, now)
      ensures (old(g.CanGo(READ, now)) ==> rs != []) && (old(g.CanGo(WRITE, now)) ==> ws != [])
    {
      hide Group.Lane, Group.CanGo, Total, Waiting;
      ghost var w := Waiting(groups);
      ghost var i :| 0 <= i < |groups| && groups[i] == g;
      TotalWith(w, i, g.queues, READ);
      TotalWith(w, i, g.queues, WRITE);
      rs, ws := DispatchGroup(g, now);
      assert Waiting(groups) == w[i := g.queues];
      TotalWith(w, i, g.queues, READ);
      TotalWith(w, i, g.queues, WRITE);
    }

    /** tg_update_disptime for a group that is off the tree and has bios waiting. */
    method Reschedule(g: Group, now: int)
      requires Valid(now) && g in groups && !g.onTree && (g.queues[READ] != [] || g.queues[WRITE] != [])
      modifies tree, g`slices, g`pasts, g`disptime, g`onTree
      ensures Valid(now) && g.onTree && g.disptime == now + old(g.Soonest(now)) == now + g.Soonest(now)
      ensures (g.disptime <= now ==> old(g.CanGo(READ, now)) || old(g.CanGo(WRITE, now)))
      ensures Due(Keys(tree.order), now) == old(Due(Keys(tree.order), now)) + if g.disptime <= now then 1 else 0
    {
      hide Keys, Distinct, Group.CanGo, Group.Lane, Group.Soonest, Group.Quoted, Due, Throttler.Counted, ServiceTree.Valid;
      var time := g.NextDispatch(now);
      ghost var keys := Keys(tree.order);
      g.disptime := time;
      assert Keys(tree.order) == keys;
      Enqueue(g);
      ghost var k :| 0 <= k <= |keys| && Keys(tree.order) == keys[..k] + [g.disptime] + keys[k..];
      DueWith(keys, k, g.disptime, now);
    }

    ghost predicate AllSettled()
      reads groups
    {
      forall g :: g in groups ==> |g.queues| == 2 && Settled(g)
    }

    /** A group that has been served goes back on the tree if bios still wait in it. */
    method PutBack(g: Group, now: int)
      requires Valid(now) && g in groups && !g.onTree
      modifies tree, g`slices, g`pasts, g`disptime, g`onTree
      ensures Valid(now) && Settled(g)
      ensures Due(Keys(tree.order), now) == old(Due(Keys(tree.order), now)) + (if g.onTree && g.disptime <= now then 1 else 0)
      ensures g.onTree && g.disptime <= now ==> old(g.CanGo(READ, now)) || old(g.CanGo(WRITE, now))
      ensures g.onTree ==> g.disptime == now + g.Soonest(now)
    {
      hide Keys, Due, Ready, Group.CanGo, Group.Soonest, Throttler.Counted, ServiceTree.Valid, Distinct;
      if g.nrQueued[READ] != 0 || g.nrQueued[WRITE] != 0 {
        Reschedule(g, now);
      }
    }

    /** One turn of the selection loop, for the group that is first and due. The first bio of a direction goes out if
        it can; if nothing goes out, the group is not due any more. */
    method Serve(g: Group, now: int) returns (rs: seq<Bio>, ws: seq<Bio>)
      requires Valid(now) && AllSettled() && tree.order != [] && tree.order[0] == g && g.disptime <= now
      modifies tree, g, this`nrQueued
      ensures Valid(now) && AllSettled() && |rs| <= GROUP_READS && |ws| <= GROUP_WRITES
      ensures rs + g.queues[READ] == old(g.queues[READ]) && ws + g.queues[WRITE] == old(g.queues[WRITE])
      ensures rs == [] && ws == [] ==> Due(Keys(tree.order), now) < old(Due(Keys(tree.order), now))
      ensures (old(g.CanGo(READ, now)) ==> rs != []) && (old(g.CanGo(WRITE, now)) ==> ws != [])
      ensures g.onTree ==> g.disptime == now + g.Soonest(now)
    {
      hide Keys, Due, Ascending, Distinct, Ready, Group.CanGo, Throttler.Counted, ServiceTree.Valid, Group.Lane, Group.Soonest;
      ghost var keys := Keys(tree.order);
      FirstDue(keys, now);
      Dequeue(g, 0);
      assert Keys(tree.order) == keys[1..];
      rs, ws := Send(g, now);
      PutBack(g, now);
    }

    /** What has gone out of every group and direction, and what still waits there, make up what waited before, in order. */
    ghost predicate Conserved(out: seq<Departure>, before: seq<seq<seq<Bio>>>)
      requires |before| == |groups| && forall i :: 0 <= i < |before| ==> |before[i]| == 2
      reads groups`queues
    {
      forall i :: 0 <= i < |groups| ==> Flow(out, groups[i], before[i])
    }

    static ghost predicate Flow(out: seq<Departure>, g: Group, before: seq<seq<Bio>>)
      requires |before| == 2
      reads g`queues
    {
      && |g.queues| == 2 && Taken(out, g, READ) + g.queues[READ] == before[READ]
      && Taken(out, g, WRITE) + g.queues[WRITE] == before[WRITE]
    }

    static lemma FlowOn(out: seq<Departure>, g: Group, rs: seq<Bio>, ws: seq<Bio>, h: Group, queues: seq<seq<Bio>>, before: seq<seq<Bio>>)
      requires |before| == 2 && |queues| == 2 && |h.queues| == 2
      requires Taken(out, h, READ) + queues[READ] == before[READ] && Taken(out, h, WRITE) + queues[WRITE] == before[WRITE]
      requires if h == g then rs + h.queues[READ] == queues[READ] && ws + h.queues[WRITE] == queues[WRITE] else h.queues == queues
      ensures Flow(out + Departures(g, READ, rs) + Departures(g, WRITE, ws), h, before)
    {
      hide Taken;
      TakenRound(out, g, rs, ws, h, READ);
      TakenRound(out, g, rs, ws, h, WRITE);
      var a, b := Taken(out, h, READ), Taken(out, h, WRITE);
      if h == g {
        assert (a + rs) + h.queues[READ] == a + (rs + h.queues[READ]);
        assert (b + ws) + h.queues[WRITE] == b + (ws + h.queues[WRITE]);
      }
    }

    /** What one round takes from a group and direction. */
    static lemma TakenRound(out: seq<Departure>, g: Group, rs: seq<Bio>, ws: seq<Bio>, h: Group, d: Rw)
      ensures Taken(out + Departures(g, READ, rs) + Departures(g, WRITE, ws), h, d)
              == if h != g then Taken(out, h, d) else Taken(out, h, d) + if d == READ then rs else ws
    {
      hide Taken;
      var r, w := Departures(g, READ, rs), Departures(g, WRITE, ws);
      TakenAdds(out + r, w, h, d);
      TakenAdds(out, r, h, d);
      TakenOf(g, READ, rs, h, d);
      TakenOf(g, WRITE, ws, h, d);
    }

    method FirstDueGroup(now: int) returns (g: Group?)
      requires Valid(now)
      modifies tree`left
      ensures Valid(now) && (g == null ==> tree.order == [] || tree.order[0].disptime > now)
      ensures g != null ==> g in groups && tree.order != [] && tree.order[0] == g && g.disptime <= now
    {
      hide Keys, Ascending, Distinct, Ready, Throttler.Counted;
      g := tree.First();
      if g != null && now < g.disptime {
        g := null;
      }
    }

    /** throtl_select_dispatch: serves the first group while it is due, until the quantum is reached. */
    method SelectDispatch(now: int) returns (out: seq<Departure>)
      requires Valid(now) && AllSettled()
      modifies tree, groups, this`nrQueued
      ensures Valid(now) && AllSettled() && |out| < QUANTUM + GROUP_READS + GROUP_WRITES
      ensures forall g :: g in groups ==> |old(g.queues)| == 2 && Flow(out, g, old(g.queues))
      ensures |out| >= QUANTUM || tree.order == [] || tree.order[0].disptime > now
    {
      hide Keys, Due, Distinct, Ready, Throttler.Counted, Throttler.Listed, ServiceTree.Valid, Waiting, Throttler.Settled;
      ghost var before := Waiting(groups);
      out := [];
      while true
        invariant Valid(now) && AllSettled() && |out| < QUANTUM && Conserved(out, before)
        decreases QUANTUM - |out|, Due(Keys(tree.order), now)
      {
        var g := FirstDueGroup(now);
        if g == null {
          break;
        }
        ghost var w := Waiting(groups);
        var rs, ws := Serve(g, now);
        forall i | 0 <= i < |groups|
          ensures Flow(out + Departures(g, READ, rs) + Departures(g, WRITE, ws), groups[i], before[i])
        {
          FlowOn(out, g, rs, ws, groups[i], w[i], before[i]);
        }
        out := out + Departures(g, READ, rs) + Departures(g, WRITE, ws);
        if |out| >= QUANTUM {
          break;
        }
      }
    }

    /** Nothing but time has passed. */
    lemma LaterValid(now: int, later: int)
      requires Valid(now) && now <= later
      ensures Valid(later)
    {
      hide Accounted, Keys, Total, Distinct;
    }

    /** The bio waits, and is counted. */
    method QueueBio(g: Group, d: Rw, bio: Bio, ghost now: int)
      requires Distinct(groups) && Counted() && InAccount(now) && g in groups
      modifies g`queues, g`nrQueued, this`nrQueued
      ensures Counted() && InAccount(now) && g.queues == old(g.queues[d := g.queues[d] + [bio]])
    {
      hide Ready, Group.Lane, Total, Waiting;
      ghost var w := Waiting(groups);
      ghost var i :| 0 <= i < |groups| && groups[i] == g;
      g.Push(d, bio, now);
      assert Waiting(groups) == w[i := g.queues];
      TotalWith(w, i, g.queues, READ);
      TotalWith(w, i, g.queues, WRITE);
      nrQueued := nrQueued[d := nrQueued[d] + 1];
    }

    /** throtl_add_bio_tg: the bio waits, and its group is on the tree. */
    method AddBio(g: Group, d: Rw, bio: Bio, ghost now: int)
      requires Valid(now) && g in groups
      modifies tree, g`queues, g`nrQueued, g`onTree, this`nrQueued
      ensures Valid(now) && g.queues == old(g.queues[d := g.queues[d] + [bio]]) && g.onTree
      ensures old(g.onTree) ==> tree.order == old(tree.order)
    {
      hide Keys, Ready, Group.Lane, Distinct, Throttler.Counted, ServiceTree.Valid;
      QueueBio(g, d, bio, now);
      if !g.onTree {
        Enqueue(g);
      }
    }

    /** tg_update_disptime for a group on the tree. */
    method UpdateDisptime(g: Group, now: int)
      requires Valid(now) && g in groups && g.onTree && (g.queues[READ] != [] || g.queues[WRITE] != [])
      modifies tree, g`slices, g`pasts, g`disptime, g`onTree
      ensures Valid(now) && g.onTree && g.disptime == now + old(g.Soonest(now))
    {
      hide Keys, Ascending, Ready, Throttler.Counted, Distinct;
      ghost var k :| 0 <= k < |tree.order| && tree.order[k] == g;
      Dequeue(g, k);
      Reschedule(g, now);
    }

    /** The first bio of its direction has to wait. */
    method AddFirst(g: Group, d: Rw, bio: Bio, now: int)
      requires Valid(now) && g in groups && g.queues[d] == []
      modifies tree, g, this`nrQueued
      ensures Valid(now) && g.queues == old(g.queues[d := g.queues[d] + [bio]]) && g.onTree
      ensures var wait := old(MayDispatch(g.limits[d], g.slices[d], now, bio.size).wait);
              if old(g.queues[1 - d]) == [] then g.disptime == now + wait
              else var other := old(MayDispatch(g.limits[1 - d], g.slices[1 - d], now, g.queues[1 - d][0].size).wait);
                   g.disptime <= now + wait && g.disptime <= now + other && (g.disptime == now + wait || g.disptime == now + other)
    {
      hide Keys, Ascending, Distinct, Accounted, MayDispatch, Throttler.Counted, ServiceTree.Valid, Group.Soonest;
      AddBio(g, d, bio, now);
      assert g.queues[d] == [bio];
      g.SoonestIs(d, now);
      UpdateDisptime(g, now);
    }

    /** The locked part of blk_throtl_bio: a bio goes at once if none waits before it and it is within
        the limits; otherwise it waits behind the others. A first bio of its direction that has to wait makes the group
        due after the smaller of the waits quoted for it and for the first bio of the other direction. */
    method ThrottleBio(g: Group, d: Rw, bio: Bio, now: int) returns (throttled: bool)
      requires Valid(now) && AllSettled() && g in groups
      modifies tree, g, this`nrQueued
      ensures Valid(now) && AllSettled()
      ensures throttled <==> old(g.queues[d]) != [] || !old(MayDispatch(g.limits[d], g.slices[d], now, bio.size).ok)
      ensures throttled ==> g.queues == old(g.queues[d := g.queues[d] + [bio]])
      ensures !throttled ==> g.queues == old(g.queues) && g.pasts[d].bytes == old(g.pasts[d].bytes) + bio.size
                             && g.pasts[d].ios == old(g.pasts[d].ios) + 1
      ensures !throttled || old(g.queues[d]) != [] ==> g.disptime == old(g.disptime) && tree.order == old(tree.order)
      ensures throttled && old(g.queues[d]) == [] ==>
        var wait := old(MayDispatch(g.limits[d], g.slices[d], now, bio.size).wait);
        if old(g.queues[1 - d]) == [] then g.disptime == now + wait
        else var other := old(MayDispatch(g.limits[1 - d], g.slices[1 - d], now, g.queues[1 - d][0].size).wait);
             g.disptime <= now + wait && g.disptime <= now + other && (g.disptime == now + wait || g.disptime == now + other)
    {
      hide Keys, Ascending, Distinct, Accounted, MayDispatch, Dispatched, Throttler.Counted, ServiceTree.Valid, WithinBps, WithinIops;
      throttled := true;
      if g.nrQueued[d] != 0 {
        AddBio(g, d, bio, now);
      } else {
        var ok, _ := g.Ask(d, bio, now);
        if ok {
          g.Charge(d, bio, now);
          throttled := false;
        } else {
          AddFirst(g, d, bio, now);
        }
      }
    }

    /** throtl_schedule_next_dispatch: nothing to do if nothing waits; otherwise the delay until the first
        group is due. */
    method ScheduleNextDispatch(now: int) returns (waiting: bool, delay: int)
      requires Valid(now) && AllSettled()
      modifies tree`left
      ensures Valid(now) && (waiting <==> exists g :: g in groups && (g.queues[READ] != [] || g.queues[WRITE] != []))
      ensures waiting ==> tree.order != [] && delay == (if tree.order[0].disptime <= now then 0 else tree.order[0].disptime - now)
      ensures forall g :: g in tree.order ==> tree.order[0].disptime <= g.disptime
    {
      hide Keys, Ascending, Distinct, Ready, Throttler.Counted, Throttler.Listed, Throttler.Settled;
      NoneOrSome();
      tree.FirstIsLeast();
      waiting, delay := nrQueued[READ] + nrQueued[WRITE] != 0, 0;
      if waiting {
        var g := tree.First();
        assert g != null;
        if now < g.disptime {
          delay := g.disptime - now;
        }
      }
    }

    /** The totals are zero exactly if no bio waits, and then the tree is empty. */
    lemma NoneOrSome()
      requires Listed() && Counted() && AllSettled()
      ensures |nrQueued| == 2
      ensures nrQueued[READ] + nrQueued[WRITE] != 0 <==> exists g :: g in groups && (g.queues[READ] != [] || g.queues[WRITE] != [])
      ensures nrQueued[READ] + nrQueued[WRITE] != 0 ==> tree.order != []
    {
      hide Total, Waiting;
      var w := Waiting(groups);
      if Total(w, READ) > 0 {
        SomeWaiting(w, READ);
        var i :| 0 <= i < |w| && READ < |w[i]| && w[i][READ] != [];
        assert groups[i] in groups && Settled(groups[i]);
      }
      if Total(w, WRITE) > 0 {
        SomeWaiting(w, WRITE);
        var i :| 0 <= i < |w| && WRITE < |w[i]| && w[i][WRITE] != [];
        assert groups[i] in groups && Settled(groups[i]);
      }
      if d: Rw, i :| 0 <= i < |groups| && groups[i].queues[d] != [] {
        TotalWith(Waiting(groups), i, groups[i].queues, d);
      }
    }
  }

  lemma {:induction false} SomeWaiting(w: seq<seq<seq<Bio>>>, d: Rw)
    requires Total(w, d) > 0
    ensures exists i :: 0 <= i < |w| && d < |w[i]| && w[i][d] != []
    decreases |w|
  {
    var front := w[..|w| - 1];
    if Total(front, d) > 0 {
      SomeWaiting(front, d);
      var i :| 0 <= i < |front| && d < |front[i]| && front[i][d] != [];
      assert w[i] == front[i];
    }
  }

  lemma FirstDue(keys: seq<int>, now: int)
    requires keys != [] && keys[0] <= now
    ensures Due(keys, now) == Due(keys[1..], now) + 1
  {
    DueWith(keys[1..], 0, keys[0], now);
    assert keys == keys[1..][..0] + [keys[0]] + keys[1..][0..];
  }

  function Departures(g: Group, d: Rw, bios: seq<Bio>): (r: seq<Departure>)
    ensures |r| == |bios|
  {
    seq(|bios|, i requires 0 <= i < |bios| => Departure(g, d, bios[i]))
  }

  lemma {:induction false} TakenOf(g: Group, d: Rw, bios: seq<Bio>, h: Group, e: Rw)
    ensures Taken(Departures(g, d, bios), h, e) == if h == g && e == d then bios else []
    decreases |bios|
  {
    if bios != [] {
      TakenOf(g, d, bios[..|bios| - 1], h, e);
      var r := Departures(g, d, bios);
      assert r[..|r| - 1] == Departures(g, d, bios[..|bios| - 1]);
    }
  }
}
