/** The deadline scheduler: requests of each direction stand in a list sorted by sector and in a
list sorted by deadline; they are dispatched in batches along the first, started from the second. */
module Deadline {
  import opened Ordered

  type Id = nat

  /** A number for each request: its first sector, or its deadline. */
  type Keys = map<Id, int>

  /** The requests of one direction, and the one that continues the batch; NONE if there is none. */
  datatype Lane = Lane(sort: seq<Id>, fifo: seq<Id>, next: int)

  const NONE: int := -1

  type Rw = d: int | 0 <= d < 2

  const READ: Rw := 0
  const WRITE: Rw := 1

  ghost predicate Has(keys: Keys, s: seq<Id>) {
    forall x :: x in s ==> x in keys
  }

  ghost function KeysOf(keys: Keys, s: seq<Id>): (r: seq<int>)
    requires Has(keys, s)
    ensures |r| == |s| && forall i :: 0 <= i < |s| ==> r[i] == keys[s[i]]
  {
    seq(|s|, i requires 0 <= i < |s| => keys[s[i]])
  }

  /** A list without repetition, in the order of its keys. */
  ghost predicate Listed(keys: Keys, s: seq<Id>) {
    Distinct(s) && Has(keys, s) && Ascending(KeysOf(keys, s))
  }

  ghost predicate NotAfter(keys: Keys, s: seq<Id>, latest: int) {
    forall x :: x in s ==> x in keys && keys[x] <= latest
  }

  /** Both lists hold the same requests, each in its order, and the next one is among them. */
  ghost predicate LaneOk(pos: Keys, time: Keys, lane: Lane, latest: int) {
    && Listed(pos, lane.sort) && Listed(time, lane.fifo) && (forall x :: x in lane.sort <==> x in lane.fifo)
    && NotAfter(time, lane.fifo, latest) && (lane.next != NONE ==> lane.next in lane.sort)
  }

  // --- lists ---

  function IndexOf(s: seq<Id>, id: Id): (i: nat)
    requires id in s
    ensures i < |s| && s[i] == id
  {
    if s[0] == id then 0 else 1 + IndexOf(s[1..], id)
  }

  function Gone(s: seq<Id>, id: Id): seq<Id>
    requires id in s
  {
    var i := IndexOf(s, id);
    s[..i] + s[i + 1..]
  }

  /** The request after the given one. */
  function Latter(s: seq<Id>, id: Id): (n: int)
    requires id in s
    ensures n != NONE ==> n in s
  {
    var i := IndexOf(s, id);
    if i + 1 < |s| then s[i + 1] else NONE
  }

  lemma GoneHas(s: seq<Id>, id: Id, x: Id)
    requires id in s && Distinct(s)
    ensures x in Gone(s, id) <==> x in s && x != id
  {
    var i := IndexOf(s, id);
    assert s == s[..i] + [id] + s[i + 1..];
    if x in Gone(s, id) {
      var j :| 0 <= j < |s| - 1 && Gone(s, id)[j] == x;
      assert x == s[if j < i then j else j + 1];
    }
  }

  lemma LatterOther(s: seq<Id>, id: Id)
    requires Distinct(s) && id in s
    ensures Latter(s, id) != id
  {
  }

  /** Taking one request out keeps the order, whatever becomes of its key. */
  lemma GoneListed(keys: Keys, s: seq<Id>, id: Id, key: int)
    requires Listed(keys, s) && id in s
    ensures Listed(keys[id := key], Gone(s, id)) && Listed(keys, Gone(s, id)) && Latter(s, id) != id
  {
    hide Distinct, Ascending, Latter;
    var i, g := IndexOf(s, id), Gone(s, id);
    LatterOther(s, id);
    DistinctWithout(s, i);
    forall x | x in g ensures x in s && x != id {
      GoneHas(s, id, x);
    }
    var k := KeysOf(keys, s);
    AscendingWithout(k, i);
    forall j | 0 <= j < |g| ensures keys[g[j]] == (k[..i] + k[i + 1..])[j] && g[j] != id {
      assert g[j] in g;
      assert g[j] == s[if j < i then j else j + 1];
    }
    assert KeysOf(keys, g) == k[..i] + k[i + 1..] == KeysOf(keys[id := key], g);
  }

  /** Where elv_rb_add puts a request: behind all that do not start later. */
  function Slot(keys: Keys, s: seq<Id>, key: int): (k: nat)
    requires Has(keys, s)
    ensures k <= |s| && (forall i :: 0 <= i < k ==> keys[s[i]] <= key) && (k < |s| ==> key < keys[s[k]])
  {
    if s == [] || key < keys[s[0]] then 0 else 1 + Slot(keys, s[1..], key)
  }

  function PutIn(s: seq<Id>, id: Id, k: nat): seq<Id>
    requires k <= |s|
  {
    s[..k] + [id] + s[k..]
  }

  lemma PutInListed(keys: Keys, s: seq<Id>, id: Id, k: nat)
    requires Listed(keys, s) && id !in s && id in keys && k <= |s|
    requires (forall i :: 0 <= i < k ==> keys[s[i]] <= keys[id]) && (k < |s| ==> keys[id] <= keys[s[k]])
    ensures Listed(keys, PutIn(s, id, k)) && forall x :: x in PutIn(s, id, k) <==> x in s || x == id
  {
    hide Distinct, Ascending;
    var o, ks := PutIn(s, id, k), KeysOf(keys, s);
    DistinctWith(s, id, k);
    assert s == s[..k] + s[k..];
    AscendingWith(ks, k, keys[id]);
    var r := ks[..k] + [keys[id]] + ks[k..];
    forall i | 0 <= i < |o| ensures keys[o[i]] == r[i] {
      assert i < k ==> o[i] == s[i] && r[i] == ks[i];
      assert i > k ==> o[i] == s[i - 1] && r[i] == ks[i - 1];
    }
    assert KeysOf(keys, o) == r;
  }

  function Sorted(keys: Keys, s: seq<Id>, id: Id): seq<Id>
    requires Has(keys, s) && id in keys
  {
    PutIn(s, id, Slot(keys, s, keys[id]))
  }

  lemma SortedListed(keys: Keys, s: seq<Id>, id: Id)
    requires Listed(keys, s) && id !in s && id in keys
    ensures Listed(keys, Sorted(keys, s, id)) && forall x :: x in Sorted(keys, s, id) <==> x in s || x == id
  {
    PutInListed(keys, s, id, Slot(keys, s, keys[id]));
  }

  lemma SameListed(keys: Keys, keys': Keys, s: seq<Id>)
    requires Listed(keys, s) && forall x :: x in s ==> x in keys' && keys'[x] == keys[x]
    ensures Listed(keys', s)
  {
    assert KeysOf(keys', s) == KeysOf(keys, s) by {
      forall i | 0 <= i < |s| ensures keys'[s[i]] == keys[s[i]] {
        assert s[i] in s;
      }
    }
  }

  // --- one direction ---

  /** deadline_add_request: in its place by sector, and last by deadline. */
  ghost function AddedLane(pos: Keys, lane: Lane, id: Id): Lane
    requires Has(pos, lane.sort) && id in pos
  {
    Lane(Sorted(pos, lane.sort, id), lane.fifo + [id], lane.next)
  }

  lemma AddedOk(pos: Keys, time: Keys, lane: Lane, id: Id, latest: int)
    requires LaneOk(pos, time, lane, latest) && id in pos && id in time && id !in lane.sort && time[id] == latest
    ensures LaneOk(pos, time, AddedLane(pos, lane, id), latest)
  {
    hide Listed;
    ListedHas(pos, lane.sort);
    SortedListed(pos, lane.sort, id);
    var n := |lane.fifo|;
    forall i | 0 <= i < n ensures time[lane.fifo[i]] <= latest {
      assert lane.fifo[i] in lane.fifo;
    }
    PutInListed(time, lane.fifo, id, n);
    assert PutIn(lane.fifo, id, n) == lane.fifo + [id];
  }

  lemma ListedHas(keys: Keys, s: seq<Id>)
    requires Listed(keys, s)
    ensures Has(keys, s)
  {
  }

  /** deadline_remove_request: off both lists; if the batch was to go on with it, it goes on with the one after. */
  ghost function RemovedLane(lane: Lane, id: Id): Lane
    requires id in lane.sort && id in lane.fifo
  {
    Lane(Gone(lane.sort, id), Gone(lane.fifo, id), if lane.next == id then Latter(lane.sort, id) else lane.next)
  }

  lemma RemovedOk(pos: Keys, time: Keys, lane: Lane, id: Id, latest: int)
    requires LaneOk(pos, time, lane, latest) && id in lane.sort
    ensures LaneOk(pos, time, RemovedLane(lane, id), latest)
  {
    hide Gone;
    GoneListed(pos, lane.sort, id, 0);
    GoneListed(time, lane.fifo, id, 0);
    forall x ensures (x in Gone(lane.sort, id) <==> x in lane.sort && x != id) && (x in Gone(lane.fifo, id) <==> x in lane.fifo && x != id) {
      GoneHas(lane.sort, id, x);
      GoneHas(lane.fifo, id, x);
    }
  }

  /** deadline_merged_request after a front merge: the request starts elsewhere, and moves in the sorted list. */
  ghost function MovedLane(pos: Keys, lane: Lane, id: Id): Lane
    requires id in lane.sort && id in pos && Has(pos, Gone(lane.sort, id))
  {
    lane.(sort := Sorted(pos, Gone(lane.sort, id), id))
  }

  lemma MovedOk(pos: Keys, time: Keys, lane: Lane, id: Id, latest: int, start: int)
    requires LaneOk(pos, time, lane, latest) && id in lane.sort
    ensures var pos' := pos[id := start];
            Has(pos', Gone(lane.sort, id)) && LaneOk(pos', time, MovedLane(pos', lane, id), latest)
  {
    hide Gone, Sorted;
    var pos' := pos[id := start];
    GoneListed(pos, lane.sort, id, start);
    forall x ensures x in Gone(lane.sort, id) <==> x in lane.sort && x != id {
      GoneHas(lane.sort, id, x);
    }
    SortedListed(pos', Gone(lane.sort, id), id);
  }

  /** deadline_merged_requests: if the other request is due earlier, the merged one goes behind it; the other is
      then removed. */
  ghost function BehindLane(lane: Lane, id: Id, other: Id): Lane
    requires id in lane.fifo && other in Gone(lane.fifo, id)
  {
    var fifo := Gone(lane.fifo, id);
    lane.(fifo := PutIn(fifo, id, IndexOf(fifo, other) + 1))
  }

  lemma BehindListed(time: Keys, fifo: seq<Id>, id: Id, other: Id)
    requires Listed(time, fifo) && id !in fifo && other in fifo && id in time && time[id] == time[other]
    ensures var s := PutIn(fifo, id, IndexOf(fifo, other) + 1); Listed(time, s) && forall x :: x in s <==> x in fifo || x == id
  {
    hide Distinct, PutIn;
    var k, ks := IndexOf(fifo, other), KeysOf(time, fifo);
    forall i | 0 <= i < k + 1 ensures time[fifo[i]] <= time[id] {
      assert i < k ==> ks[i] <= ks[k];
    }
    assert k + 1 < |fifo| ==> ks[k] <= ks[k + 1];
    PutInListed(time, fifo, id, k + 1);
  }

  lemma BehindOk(pos: Keys, time: Keys, lane: Lane, id: Id, other: Id, latest: int)
    requires LaneOk(pos, time, lane, latest) && id in lane.sort && other in lane.sort && id != other
    ensures other in time && other in Gone(lane.fifo, id)
    ensures LaneOk(pos, time[id := time[other]], BehindLane(lane, id, other), latest)
  {
    hide Gone, Listed, PutIn, IndexOf;
    ListedHas(time, lane.fifo);
    GoneListed(time, lane.fifo, id, time[other]);
    ListedDistinct(time, lane.fifo);
    forall x ensures x in Gone(lane.fifo, id) <==> x in lane.fifo && x != id {
      GoneHas(lane.fifo, id, x);
    }
    BehindListed(time[id := time[other]], Gone(lane.fifo, id), id, other);
  }

  lemma ListedDistinct(keys: Keys, s: seq<Id>)
    requires Listed(keys, s)
    ensures Distinct(s)
  {
  }

  // --- the scheduler ---

  /** How long reads and writes may wait, how many requests make a batch, and how often reads may go before
      waiting writes. */
  datatype Settings = Settings(readExpire: int, writeExpire: int, batch: int, starve: int) {
    ghost predicate Valid() { batch >= 0 && starve >= 0 }
    function Batch(): int { if batch > 1 then batch else 1 }
  }

  datatype Dd = Dd(pos: Keys, time: Keys, read: Lane, write: Lane, batching: int, starved: int) {
    function LaneOf(d: Rw): Lane { if d == READ then read else write }
    function With(d: Rw, lane: Lane): Dd { if d == READ then this.(read := lane) else this.(write := lane) }
    function Next(): int { if write.next != NONE then write.next else read.next }
  }

  /** At most one direction has a batch to continue, and then the batch has begun. */
  ghost predicate Valid(s: Dd, cfg: Settings, clock: int) {
    && LaneOk(s.pos, s.time, s.read, clock + cfg.readExpire) && LaneOk(s.pos, s.time, s.write, clock + cfg.writeExpire)
    && (forall x :: x in s.read.sort ==> x !in s.write.sort)
    && (s.read.next == NONE || s.write.next == NONE) && s.batching >= 0 && s.starved >= 0
    && (s.Next() != NONE ==> s.batching >= 1)
  }

  /** What is dispatched: a request of a direction, as the start of a batch or not, and the new count of
      starved turns. */
  datatype Choice = Nothing | Pick(d: Rw, id: Id, start: bool, starved: int)

  /** The request that starts a batch: the first by deadline if that has passed or if there is nothing to go on with. */
  function StartOf(s: Dd, d: Rw, now: int): Id
    requires s.LaneOf(d).fifo != [] && s.LaneOf(d).fifo[0] in s.time && (s.LaneOf(d).next != NONE ==> s.LaneOf(d).next >= 0)
  {
    var lane := s.LaneOf(d);
    if now > s.time[lane.fifo[0]] || lane.next == NONE then lane.fifo[0] else lane.next
  }

  ghost predicate Usable(s: Dd) {
    && (s.read.fifo != [] ==> s.read.fifo[0] in s.time) && (s.write.fifo != [] ==> s.write.fifo[0] in s.time)
    && s.read.next >= NONE && s.write.next >= NONE
  }

  /** The decision of deadline_dispatch_requests. */
  function Choose(s: Dd, cfg: Settings, now: int): Choice
    requires Usable(s)
  {
    if s.Next() != NONE && s.batching < cfg.batch then Pick(if s.write.next != NONE then WRITE else READ, s.Next(), false, s.starved)
    else if s.read.fifo != [] then
      if s.write.fifo != [] && s.starved >= cfg.starve then Pick(WRITE, StartOf(s, WRITE, now), true, 0)
      else Pick(READ, StartOf(s, READ, now), true, s.starved + if s.write.fifo != [] then 1 else 0)
    else if s.write.fifo != [] then Pick(WRITE, StartOf(s, WRITE, now), true, 0)
    else Nothing
  }

  lemma ValidUsable(s: Dd, cfg: Settings, clock: int)
    requires Valid(s, cfg, clock)
    ensures Usable(s)
  {
    hide Listed;
  }

  lemma ChosenQueued(s: Dd, cfg: Settings, clock: int, now: int)
    requires Valid(s, cfg, clock)
    ensures Usable(s) && (Choose(s, cfg, now).Pick? ==>
              var c := Choose(s, cfg, now); c.id in s.LaneOf(c.d).sort && c.id in s.LaneOf(c.d).fifo)
    ensures Choose(s, cfg, now) == Nothing <==> s.read.fifo == [] && s.write.fifo == []
  {
    hide Listed;
    ValidUsable(s, cfg, clock);
    assert s.read.fifo != [] ==> s.read.fifo[0] in s.read.fifo;
    assert s.write.fifo != [] ==> s.write.fifo[0] in s.write.fifo;
  }

  /** deadline_move_request: the batch will go on with the request after this one, in this direction only. */
  ghost function Dispatched(s: Dd, c: Choice): Dd
    requires c.Pick? && c.id in s.LaneOf(c.d).sort && c.id in s.LaneOf(c.d).fifo
  {
    var s1 := s.(read := s.read.(next := NONE), write := s.write.(next := NONE));
    var lane := s1.LaneOf(c.d).(next := Latter(s.LaneOf(c.d).sort, c.id));
    s1.With(c.d, RemovedLane(lane, c.id)).(batching := (if c.start then 0 else s.batching) + 1, starved := c.starved)
  }

  lemma DispatchedValid(s: Dd, cfg: Settings, clock: int, c: Choice)
    requires Valid(s, cfg, clock) && c.Pick? && c.id in s.LaneOf(c.d).sort && c.id in s.LaneOf(c.d).fifo && c.starved >= 0
    ensures Valid(Dispatched(s, c), cfg, clock)
    ensures var l := Latter(s.LaneOf(c.d).sort, c.id); Dispatched(s, c).LaneOf(c.d).next == l
  {
    hide Listed, NotAfter, Gone;
    var lane := s.LaneOf(c.d);
    var l := lane.(next := Latter(lane.sort, c.id));
    var latest := clock + if c.d == READ then cfg.readExpire else cfg.writeExpire;
    assert LaneOk(s.pos, s.time, l, latest);
    RemovedOk(s.pos, s.time, l, c.id, latest);
    GoneListed(s.pos, lane.sort, c.id, 0);
    ListedDistinct(s.pos, lane.sort);
    forall x ensures x in Gone(lane.sort, c.id) <==> x in lane.sort && x != c.id {
      GoneHas(lane.sort, c.id, x);
    }
  }

  /** A batch goes up: the request it will go on with starts no earlier than the one dispatched. */
  lemma BatchAscends(s: Dd, cfg: Settings, clock: int, c: Choice)
    requires Valid(s, cfg, clock) && c.Pick? && c.id in s.LaneOf(c.d).sort && c.id in s.LaneOf(c.d).fifo && c.starved >= 0
    ensures var n := Dispatched(s, c).Next();
            n != NONE ==> n >= 0 && n in s.pos && c.id in s.pos && s.pos[n] >= s.pos[c.id] && n in s.LaneOf(c.d).sort
  {
    DispatchedValid(s, cfg, clock, c);
    var sort := s.LaneOf(c.d).sort;
    var i, k := IndexOf(sort, c.id), KeysOf(s.pos, sort);
    if i + 1 < |sort| {
      assert k[i] <= k[i + 1] && sort[i + 1] in sort;
    }
  }

  /** The same lane under other keys, which agree on its requests, and at a later time. */
  lemma SameLane(pos: Keys, time: Keys, pos': Keys, time': Keys, lane: Lane, latest: int, latest': int)
    requires LaneOk(pos, time, lane, latest) && latest <= latest'
    requires forall x :: x in lane.sort ==> x in pos' && x in pos && pos'[x] == pos[x] && x in time' && x in time && time'[x] == time[x]
    ensures LaneOk(pos', time', lane, latest')
  {
    hide Listed;
    SameListed(pos, pos', lane.sort);
    SameListed(time, time', lane.fifo);
  }

  ghost function Expire(cfg: Settings, d: Rw): int {
    if d == READ then cfg.readExpire else cfg.writeExpire
  }

  ghost function Added(s: Dd, cfg: Settings, d: Rw, id: Id, start: int, now: int): Dd
    requires Has(s.pos, s.LaneOf(d).sort)
  {
    var pos := s.pos[id := start];
    s.(pos := pos, time := s.time[id := now + Expire(cfg, d)]).With(d, AddedLane(pos, s.LaneOf(d), id))
  }

  lemma AddedValid(s: Dd, cfg: Settings, clock: int, d: Rw, id: Id, start: int, now: int)
    requires Valid(s, cfg, clock) && clock <= now && id !in s.read.sort && id !in s.write.sort
    ensures Has(s.pos, s.LaneOf(d).sort) && Valid(Added(s, cfg, d, id, start, now), cfg, now)
  {
    hide Listed, NotAfter, Sorted;
    LaneHas(s.pos, s.time, s.read, clock + cfg.readExpire);
    LaneHas(s.pos, s.time, s.write, clock + cfg.writeExpire);
    var pos, time := s.pos[id := start], s.time[id := now + Expire(cfg, d)];
    SameLane(s.pos, s.time, pos, time, s.read, clock + cfg.readExpire, now + cfg.readExpire);
    SameLane(s.pos, s.time, pos, time, s.write, clock + cfg.writeExpire, now + cfg.writeExpire);
    AddedOk(pos, time, s.LaneOf(d), id, now + Expire(cfg, d));
    SortedHas(pos, s.LaneOf(d).sort, id);
  }

  lemma LaneHas(pos: Keys, time: Keys, lane: Lane, latest: int)
    requires LaneOk(pos, time, lane, latest)
    ensures Has(pos, lane.sort) && Has(time, lane.sort) && Has(time, lane.fifo)
  {
  }

  lemma SortedHas(pos: Keys, s: seq<Id>, id: Id)
    requires Has(pos, s) && id in pos
    ensures forall x :: x in Sorted(pos, s, id) <==> x in s || x == id
  {
    var k := Slot(pos, s, pos[id]);
    assert s == s[..k] + s[k..];
  }

  /** deadline_merged_request for a front merge. */
  ghost function FrontMerged(s: Dd, d: Rw, id: Id, start: int): Dd
    requires id in s.LaneOf(d).sort && Has(s.pos[id := start], Gone(s.LaneOf(d).sort, id))
  {
    var pos := s.pos[id := start];
    s.(pos := pos).With(d, MovedLane(pos, s.LaneOf(d), id))
  }

  lemma FrontMergedValid(s: Dd, cfg: Settings, clock: int, d: Rw, id: Id, start: int)
    requires Valid(s, cfg, clock) && id in s.LaneOf(d).sort
    ensures Has(s.pos[id := start], Gone(s.LaneOf(d).sort, id)) && Valid(FrontMerged(s, d, id, start), cfg, clock)
  {
    hide Listed, NotAfter, Sorted, Gone;
    var pos := s.pos[id := start];
    var lane := s.LaneOf(d);
    MovedOk(s.pos, s.time, lane, id, clock + Expire(cfg, d), start);
    LaneHas(s.pos, s.time, s.read, clock + cfg.readExpire);
    LaneHas(s.pos, s.time, s.write, clock + cfg.writeExpire);
    if d == READ {
      SameLane(s.pos, s.time, pos, s.time, s.write, clock + cfg.writeExpire, clock + cfg.writeExpire);
    } else {
      SameLane(s.pos, s.time, pos, s.time, s.read, clock + cfg.readExpire, clock + cfg.readExpire);
    }
    SortedHas(pos, Gone(lane.sort, id), id);
    ListedDistinct(s.pos, lane.sort);
    forall x ensures x in Gone(lane.sort, id) <==> x in lane.sort && x != id {
      GoneHas(lane.sort, id, x);
    }
  }

  /** deadline_merged_requests. */
  ghost function RqsMerged(s: Dd, d: Rw, id: Id, other: Id): Dd
    requires id in s.LaneOf(d).fifo && id in s.time && other in s.time && other in s.LaneOf(d).sort && other in s.LaneOf(d).fifo
    requires other in Gone(s.LaneOf(d).fifo, id) && other in BehindLane(s.LaneOf(d), id, other).fifo
  {
    var lane := s.LaneOf(d);
    if s.time[other] < s.time[id]
    then s.(time := s.time[id := s.time[other]]).With(d, RemovedLane(BehindLane(lane, id, other), other))
    else s.With(d, RemovedLane(lane, other))
  }

  lemma RqsMergedValid(s: Dd, cfg: Settings, clock: int, d: Rw, id: Id, other: Id)
    requires Valid(s, cfg, clock) && id in s.LaneOf(d).sort && other in s.LaneOf(d).sort && id != other
    ensures id in s.time && other in s.time && id in s.LaneOf(d).fifo && other in s.LaneOf(d).fifo
    ensures other in Gone(s.LaneOf(d).fifo, id) && other in BehindLane(s.LaneOf(d), id, other).fifo
    ensures Valid(RqsMerged(s, d, id, other), cfg, clock)
  {
    hide Listed, NotAfter, Gone;
    var lane := s.LaneOf(d);
    var latest := clock + Expire(cfg, d);
    LaneHas(s.pos, s.time, s.read, clock + cfg.readExpire);
    LaneHas(s.pos, s.time, s.write, clock + cfg.writeExpire);
    BehindOk(s.pos, s.time, lane, id, other, latest);
    RemovedOk(s.pos, s.time, lane, other, latest);
    ListedDistinct(s.pos, lane.sort);
    forall x ensures x in Gone(lane.sort, other) <==> x in lane.sort && x != other {
      GoneHas(lane.sort, other, x);
    }
    if s.time[other] < s.time[id] {
      var time := s.time[id := s.time[other]];
      RemovedOk(s.pos, time, BehindLane(lane, id, other), other, latest);
      if d == READ {
        SameLane(s.pos, s.time, s.pos, time, s.write, clock + cfg.writeExpire, clock + cfg.writeExpire);
      } else {
        SameLane(s.pos, s.time, s.pos, time, s.read, clock + cfg.readExpire, clock + cfg.readExpire);
      }
    }
  }

  // --- how long a direction waits ---

  /** How many requests the present batch may still dispatch. */
  ghost function Left(s: Dd, cfg: Settings): int {
    if s.Next() != NONE && s.batching < cfg.batch then cfg.batch - s.batching else 0
  }

  /** By when, counted in dispatches, a write goes out. */
  ghost function WriteWait(s: Dd, cfg: Settings): int {
    (if s.write.next != NONE then 0 else Left(s, cfg)) + cfg.Batch() * (if s.starved < cfg.starve then cfg.starve - s.starved else 0) + 1
  }

  lemma LeftBound(s: Dd, cfg: Settings, clock: int)
    requires Valid(s, cfg, clock) && cfg.Valid()
    ensures 0 <= Left(s, cfg) <= cfg.Batch() - 1
  {
  }

  lemma Times(f: int, a: int, b: int)
    requires f >= 0 && a <= b
    ensures f * a <= f * b
  {
    assert f * (b - a) >= 0;
  }

  lemma WriteWaitBound(s: Dd, cfg: Settings, clock: int)
    requires Valid(s, cfg, clock) && cfg.Valid()
    ensures 1 <= WriteWait(s, cfg) <= cfg.Batch() * (cfg.starve + 1)
  {
    hide LaneOk;
    LeftBound(s, cfg, clock);
    var n := if s.starved < cfg.starve then cfg.starve - s.starved else 0;
    Times(cfg.Batch(), n, cfg.starve);
    Times(cfg.Batch(), 0, n);
    assert cfg.Batch() * (cfg.starve + 1) == cfg.Batch() * cfg.starve + cfg.Batch();
  }

  /** A dispatch of a read while a write waits brings the write nearer. */
  lemma WriteNearer(s: Dd, cfg: Settings, clock: int, now: int)
    requires Valid(s, cfg, clock) && cfg.Valid() && Usable(s) && s.write.fifo != []
    requires var c := Choose(s, cfg, now); c.Pick? && c.d == READ && c.id in s.read.sort && c.id in s.read.fifo
    ensures var s' := Dispatched(s, Choose(s, cfg, now)); WriteWait(s', cfg) < WriteWait(s, cfg) && s'.write.fifo == s.write.fifo
  {
    hide LaneOk;
    var c := Choose(s, cfg, now);
    var f := cfg.Batch();
    if c.start {
      assert s.starved < cfg.starve && c.starved == s.starved + 1;
      assert f * (cfg.starve - s.starved) == f * (cfg.starve - s.starved - 1) + f;
      assert Left(Dispatched(s, c), cfg) <= f - 1;
    }
  }

  /** By when, counted in dispatches, a read whose deadline has passed goes out. */
  ghost function ReadWait(s: Dd, cfg: Settings): int {
    Left(s, cfg) + (if s.starved >= cfg.starve then cfg.Batch() else 0) + 1
  }

  lemma ReadWaitBound(s: Dd, cfg: Settings, clock: int)
    requires Valid(s, cfg, clock) && cfg.Valid()
    ensures 1 <= ReadWait(s, cfg) <= 2 * cfg.Batch()
  {
    LeftBound(s, cfg, clock);
  }

  /** A dispatch of another request while the deadline of the first read has passed brings that read nearer. */
  lemma ReadNearer(s: Dd, cfg: Settings, clock: int, now: int)
    requires Valid(s, cfg, clock) && cfg.Valid() && cfg.starve >= 1 && Usable(s) && s.read.fifo != [] && s.time[s.read.fifo[0]] < now
    requires var c := Choose(s, cfg, now);
             c.Pick? && c.id in s.LaneOf(c.d).sort && c.id in s.LaneOf(c.d).fifo && c.id != s.read.fifo[0]
    ensures var s' := Dispatched(s, Choose(s, cfg, now));
            ReadWait(s', cfg) < ReadWait(s, cfg) && s'.read.fifo != [] && s'.read.fifo[0] == s.read.fifo[0]
  {
    hide LaneOk;
    var c := Choose(s, cfg, now);
    if c.d == READ {
      GoneKeepsFirst(s.read.fifo, c.id);
    }
  }

  lemma GoneKeepsFirst(s: seq<Id>, id: Id)
    requires id in s && s[0] != id
    ensures Gone(s, id) != [] && Gone(s, id)[0] == s[0]
  {
  }

  // --- runs ---

  datatype Event =
    | Add(d: Rw, id: Id, start: int, now: int)
    | Front(d: Rw, id: Id, start: int, now: int)
    | Merge(d: Rw, id: Id, other: Id, now: int)
    | Dispatch(now: int)

  /** Two requests of a direction, as deadline_merged_requests finds them. */
  ghost predicate Mergeable(s: Dd, d: Rw, id: Id, other: Id) {
    var lane := s.LaneOf(d);
    && id != other && id in lane.sort && id in lane.fifo && other in lane.sort && other in lane.fifo && id in s.time && other in s.time
    && other in Gone(lane.fifo, id) && other in BehindLane(lane, id, other).fifo
  }

  /** A new request is not queued yet, and requests to merge are. */
  ghost predicate Enabled(s: Dd, e: Event) {
    match e
    case Add(_, id, _, _) => id !in s.read.sort && id !in s.write.sort
    case Front(d, id, _, _) => id in s.LaneOf(d).sort
    case Merge(d, id, other, _) => id != other && id in s.LaneOf(d).sort && other in s.LaneOf(d).sort
    case Dispatch(_) => true
  }

  /** The lists are good enough for the call to be defined. */
  ghost predicate Defined(s: Dd, cfg: Settings, e: Event)
    requires Enabled(s, e)
  {
    match e
    case Add(d, _, _, _) => Has(s.pos, s.LaneOf(d).sort)
    case Front(d, id, start, _) => Has(s.pos[id := start], Gone(s.LaneOf(d).sort, id))
    case Merge(d, id, other, _) => Mergeable(s, d, id, other)
    case Dispatch(now) => Usable(s) && var c := Choose(s, cfg, now); c.Pick? ==> c.id in s.LaneOf(c.d).sort && c.id in s.LaneOf(c.d).fifo
  }

  ghost function Next(s: Dd, cfg: Settings, e: Event): Dd
    requires Enabled(s, e) && Defined(s, cfg, e)
  {
    match e
    case Add(d, id, start, now) => Added(s, cfg, d, id, start, now)
    case Front(d, id, start, _) => FrontMerged(s, d, id, start)
    case Merge(d, id, other, _) => RqsMerged(s, d, id, other)
    case Dispatch(now) => var c := Choose(s, cfg, now); if c.Pick? then Dispatched(s, c) else s
  }

  /** One call, at a time not before the last: a new request, a front merge, a merge of two requests, or a dispatch. */
  ghost predicate Step(s: Dd, cfg: Settings, clock: int, e: Event, s': Dd) {
    clock <= e.now && Enabled(s, e) && (Defined(s, cfg, e) ==> s' == Next(s, cfg, e))
  }

  /** The time of the last call before call k. */
  function ClockAt(events: seq<Event>, clock: int, k: nat): int
    requires k <= |events|
  {
    if k == 0 then clock else events[k - 1].now
  }

  ghost predicate Run(states: seq<Dd>, cfg: Settings, events: seq<Event>, clock: int) {
    && |states| == |events| + 1 && cfg.Valid() && Valid(states[0], cfg, clock)
    && forall k :: 0 <= k < |events| ==> Step(states[k], cfg, ClockAt(events, clock, k), events[k], states[k + 1])
  }

  ghost function Dispatches(events: seq<Event>): nat {
    if events == [] then 0 else Dispatches(events[..|events| - 1]) + if events[|events| - 1].Dispatch? then 1 else 0
  }

  lemma LaterValid(s: Dd, cfg: Settings, clock: int, now: int)
    requires Valid(s, cfg, clock) && clock <= now
    ensures Valid(s, cfg, now)
  {
    hide Listed;
  }

  /** In a valid state every call is defined. */
  lemma ValidDefined(s: Dd, cfg: Settings, clock: int, e: Event)
    requires Valid(s, cfg, clock) && Enabled(s, e)
    ensures Defined(s, cfg, e)
  {
    hide Distinct, Ascending, NotAfter, Gone, BehindLane;
    match e
    case Add(_, _, _, _) =>
    case Front(d, id, start, _) => FrontMergedValid(s, cfg, clock, d, id, start);
    case Merge(d, id, other, _) => RqsMergedValid(s, cfg, clock, d, id, other);
    case Dispatch(now) => ChosenQueued(s, cfg, clock, now);
  }

  /** Every call keeps the state valid. */
  lemma StepValid(s: Dd, cfg: Settings, clock: int, e: Event, s': Dd)
    requires Valid(s, cfg, clock) && Step(s, cfg, clock, e, s')
    ensures Valid(s', cfg, e.now)
  {
    hide LaneOk, Gone, BehindLane;
    ValidDefined(s, cfg, clock, e);
    match e
    case Add(d, id, start, now) => AddedValid(s, cfg, clock, d, id, start, now);
    case Front(d, id, start, now) =>
      FrontMergedValid(s, cfg, clock, d, id, start);
      LaterValid(s', cfg, clock, now);
    case Merge(d, id, other, now) =>
      RqsMergedValid(s, cfg, clock, d, id, other);
      LaterValid(s', cfg, clock, now);
    case Dispatch(now) =>
      LaterValid(s, cfg, clock, now);
      var c := Choose(s, cfg, now);
      if c.Pick? {
        DispatchedValid(s, cfg, now, c);
      }
  }

  /** Every state of every run is valid, and every call of it is defined. */
  lemma {:induction false} RunValid(states: seq<Dd>, cfg: Settings, events: seq<Event>, clock: int, k: nat)
    requires Run(states, cfg, events, clock) && k <= |events|
    ensures Valid(states[k], cfg, ClockAt(events, clock, k))
    ensures k < |events| ==>
      Enabled(states[k], events[k]) && Defined(states[k], cfg, events[k]) && states[k + 1] == Next(states[k], cfg, events[k])
  {
    hide Valid, Enabled, Defined, Next;
    if k > 0 {
      RunValid(states, cfg, events, clock, k - 1);
      assert Step(states[k - 1], cfg, ClockAt(events, clock, k - 1), events[k - 1], states[k - 1 + 1]);
      StepValid(states[k - 1], cfg, ClockAt(events, clock, k - 1), events[k - 1], states[k]);
    }
    if k < |events| {
      assert Step(states[k], cfg, ClockAt(events, clock, k), events[k], states[k + 1]);
      ValidDefined(states[k], cfg, ClockAt(events, clock, k), events[k]);
    }
  }

  /** The choice of a dispatch. */
  ghost function ChoiceOf(s: Dd, cfg: Settings, e: Event): Choice {
    if e.Dispatch? && Usable(s) then Choose(s, cfg, e.now) else Nothing
  }

  /** A merge keeps the merged request, gives it the earlier deadline, and starts no batch. */
  lemma MergeKeeps(s: Dd, cfg: Settings, clock: int, d: Rw, id: Id, other: Id)
    requires Valid(s, cfg, clock) && Mergeable(s, d, id, other)
    ensures var s' := RqsMerged(s, d, id, other);
            && id in s'.LaneOf(d).fifo && id in s'.time && s'.time[id] <= s.time[id] && s'.time[id] <= s.time[other]
            && (forall x :: x in s.LaneOf(d).fifo && x != other ==> x in s'.LaneOf(d).fifo)
            && (forall x :: x in s.time && x != id ==> x in s'.time && s'.time[x] == s.time[x])
            && s'.batching == s.batching && s'.starved == s.starved && s'.LaneOf(1 - d) == s.LaneOf(1 - d)
            && (s.LaneOf(d).next == NONE ==> s'.LaneOf(d).next == NONE)
  {
    hide Listed, NotAfter, Gone, PutIn, IndexOf;
    RqsMergedValid(s, cfg, clock, d, id, other);
    MergedMembers(s, cfg, clock, d, id, other);
  }

  /** A dispatch of a read. */
  ghost predicate OnlyReads(s: Dd, cfg: Settings, e: Event) {
    e.Dispatch? && ChoiceOf(s, cfg, e) != Nothing ==> ChoiceOf(s, cfg, e).d == READ
  }

  /** While a write waits and only reads are dispatched, the write comes nearer with every dispatch. */
  lemma {:induction false} WriteServed(states: seq<Dd>, cfg: Settings, events: seq<Event>, clock: int)
    requires Run(states, cfg, events, clock) && states[0].write.fifo != []
    requires forall k :: 0 <= k < |events| ==> OnlyReads(states[k], cfg, events[k])
    ensures WriteWait(states[|events|], cfg) + Dispatches(events) <= WriteWait(states[0], cfg)
    ensures states[|events|].write.fifo != [] && Dispatches(events) < cfg.Batch() * (cfg.starve + 1)
    decreases |events|
  {
    hide Valid, Step, OnlyReads, WriteWait;
    WriteWaitBound(states[0], cfg, clock);
    if events != [] {
      var k := |events| - 1;
      var t := ClockAt(events, clock, k);
      RunValid(states, cfg, events, clock, k);
      WriteServed(states[..k + 1], cfg, events[..k], clock);
      assert Step(states[k], cfg, t, events[k], states[k + 1]);
      StepValid(states[k], cfg, t, events[k], states[k + 1]);
      WriteWaitBound(states[k + 1], cfg, events[k].now);
      WriteStep(states[k], cfg, t, events[k], states[k + 1]);
    }
  }

  lemma WriteStep(s: Dd, cfg: Settings, clock: int, e: Event, s': Dd)
    requires Valid(s, cfg, clock) && Step(s, cfg, clock, e, s') && cfg.Valid() && s.write.fifo != []
    requires OnlyReads(s, cfg, e)
    ensures WriteWait(s', cfg) + (if e.Dispatch? then 1 else 0) <= WriteWait(s, cfg) && s'.write.fifo != []
  {
    hide LaneOk, RqsMerged, Gone, BehindLane;
    ValidDefined(s, cfg, clock, e);
    match e
    case Add(_, _, _, _) =>
    case Front(_, _, _, _) =>
    case Merge(d, id, other, _) => MergeKeeps(s, cfg, clock, d, id, other);
    case Dispatch(now) =>
      ChosenQueued(s, cfg, clock, now);
      WriteNearer(s, cfg, clock, now);
  }

  /** The deadline of the first read has passed. */
  ghost predicate Expired(s: Dd, now: int) {
    s.read.fifo != [] && s.read.fifo[0] in s.time && s.time[s.read.fifo[0]] < now
  }

  /** A dispatch that is not of the first read. */
  ghost predicate PassesOver(s: Dd, cfg: Settings, e: Event) {
    e.Dispatch? && s.read.fifo != [] && ChoiceOf(s, cfg, e) != Nothing ==> ChoiceOf(s, cfg, e).id != s.read.fifo[0]
  }

  /** While the deadline of the first read has passed and the first read is not dispatched, it comes nearer with every
      dispatch. */
  lemma {:induction false} ReadServed(states: seq<Dd>, cfg: Settings, events: seq<Event>, clock: int)
    requires Run(states, cfg, events, clock) && cfg.starve >= 1 && Expired(states[0], clock)
    requires forall k :: 0 <= k < |events| ==> PassesOver(states[k], cfg, events[k])
    ensures ReadWait(states[|events|], cfg) + Dispatches(events) <= ReadWait(states[0], cfg)
    ensures Expired(states[|events|], ClockAt(events, clock, |events|))
    ensures Dispatches(events) < 2 * cfg.Batch()
    decreases |events|
  {
    hide Valid, Step, PassesOver, Expired, ReadWait;
    ReadWaitBound(states[0], cfg, clock);
    if events != [] {
      var k := |events| - 1;
      var t := ClockAt(events, clock, k);
      RunValid(states, cfg, events, clock, k);
      ReadServed(states[..k + 1], cfg, events[..k], clock);
      assert Step(states[k], cfg, t, events[k], states[k + 1]);
      StepValid(states[k], cfg, t, events[k], states[k + 1]);
      ReadWaitBound(states[k + 1], cfg, events[k].now);
      ReadStep(states[k], cfg, t, events[k], states[k + 1]);
    }
  }

  lemma ReadStep(s: Dd, cfg: Settings, clock: int, e: Event, s': Dd)
    requires Valid(s, cfg, clock) && Step(s, cfg, clock, e, s') && cfg.Valid() && cfg.starve >= 1 && Expired(s, clock)
    requires PassesOver(s, cfg, e)
    ensures ReadWait(s', cfg) + (if e.Dispatch? then 1 else 0) <= ReadWait(s, cfg) && Expired(s', e.now)
  {
    hide LaneOk, RqsMerged, Gone, BehindLane;
    ValidDefined(s, cfg, clock, e);
    FirstListed(s, cfg, clock);
    match e
    case Add(_, _, _, _) =>
    case Front(_, _, _, _) =>
    case Merge(d, id, other, now) =>
      MergeKeeps(s, cfg, clock, d, id, other);
      StepValid(s, cfg, clock, e, s');
      MergeExpired(s, cfg, clock, d, id, other, now);
    case Dispatch(now) =>
      ChosenQueued(s, cfg, clock, now);
      ReadNearer(s, cfg, clock, now);
  }

  lemma FirstListed(s: Dd, cfg: Settings, clock: int)
    requires Valid(s, cfg, clock) && s.read.fifo != []
    ensures s.read.fifo[0] in s.read.sort
  {
    assert s.read.fifo[0] in s.read.fifo;
  }

  /** No request is due before the first of the list. */
  lemma FirstDue(s: Dd, cfg: Settings, clock: int, x: Id)
    requires Valid(s, cfg, clock) && x in s.read.fifo
    ensures s.read.fifo[0] in s.time && x in s.time && s.time[s.read.fifo[0]] <= s.time[x]
  {
    var k := KeysOf(s.time, s.read.fifo);
    var i :| 0 <= i < |s.read.fifo| && s.read.fifo[i] == x;
    assert i > 0 ==> k[0] <= k[i];
    assert s.read.fifo[0] in s.read.fifo;
  }

  /** After a merge the deadline of the first read, which may be another one, has still passed. */
  lemma MergeExpired(s: Dd, cfg: Settings, clock: int, d: Rw, id: Id, other: Id, now: int)
    requires Valid(s, cfg, clock) && Mergeable(s, d, id, other) && Expired(s, clock) && clock <= now
    requires Valid(RqsMerged(s, d, id, other), cfg, now)
    ensures Expired(RqsMerged(s, d, id, other), now)
  {
    hide Valid, RqsMerged, Gone, BehindLane;
    MergeKeeps(s, cfg, clock, d, id, other);
    var s' := RqsMerged(s, d, id, other);
    var h := s.read.fifo[0];
    if d == READ {
      FirstDue(s', cfg, now, if h == other then id else h);
    } else {
      FirstDue(s', cfg, now, h);
      OtherLane(s, cfg, clock, h, id);
    }
  }

  lemma OtherLane(s: Dd, cfg: Settings, clock: int, h: Id, id: Id)
    requires Valid(s, cfg, clock) && h in s.read.fifo && id in s.write.sort
    ensures h != id
  {
  }

  // --- what a call does to the lists ---

  /** One list is the other without the request. */
  ghost predicate LeavesOut(a: seq<Id>, id: Id, b: seq<Id>) {
    exists i :: 0 <= i < |a| && a[i] == id && b == a[..i] + a[i + 1..]
  }

  /** One list is the other with the request behind all whose key is not larger than the given one. */
  ghost predicate PutsIn(keys: Keys, a: seq<Id>, id: Id, key: int, b: seq<Id>) {
    exists k :: 0 <= k <= |a| && b == a[..k] + [id] + a[k..]
                && forall i :: 0 <= i < |a| ==> a[i] in keys && (i < k <==> keys[a[i]] <= key)
  }

  /** The request n, or none, stands directly behind the other in the list. */
  ghost predicate Behind(a: seq<Id>, id: Id, n: int) {
    exists i :: BehindAt(a, i, id, n)
  }

  ghost predicate BehindAt(a: seq<Id>, i: int, id: Id, n: int) {
    0 <= i < |a| && a[i] == id && n == if i + 1 < |a| then a[i + 1] else NONE
  }

  lemma GoneLeavesOut(a: seq<Id>, id: Id)
    requires id in a
    ensures LeavesOut(a, id, Gone(a, id)) && Behind(a, id, Latter(a, id))
  {
    var i := IndexOf(a, id);
    assert BehindAt(a, i, id, Latter(a, id));
  }

  lemma SortedPutsIn(keys: Keys, a: seq<Id>, id: Id)
    requires Listed(keys, a) && id in keys
    ensures PutsIn(keys, a, id, keys[id], Sorted(keys, a, id))
  {
    hide Distinct, Ascending;
    var k, ks := Slot(keys, a, keys[id]), KeysOf(keys, a);
    if k < |a| {
      AscendingFrom(ks, k);
    }
    forall i | 0 <= i < |a| ensures a[i] in keys && (i < k <==> keys[a[i]] <= keys[id]) {
      assert ks[i] == keys[a[i]];
      assert k < |a| ==> ks[k] == keys[a[k]];
    }
  }

  /** The rules by which deadline_dispatch_requests chooses, on the lists before: a batch goes on with the next request
      while it is not used up; otherwise writes have their turn if there are no reads, or if they have been passed over
      often enough, and in that direction the next request starts a batch unless there is none or the deadline of the
      first one has passed. */
  ghost predicate Rules(s: Dd, cfg: Settings, now: int, d: Rw, id: Id, opens: bool) {
    var lane := s.LaneOf(d);
    && (opens <==> (s.read.next == NONE && s.write.next == NONE) || s.batching >= cfg.batch)
    && (!opens ==> id == lane.next)
    && (opens ==> lane.fifo != [] && lane.fifo[0] in s.time && (d == WRITE <==> s.write.fifo != [] && (s.read.fifo == [] || s.starved >= cfg.starve)))
    && (opens && lane.next != NONE && now <= s.time[lane.fifo[0]] ==> id == lane.next)
    && (opens && (lane.next == NONE || now > s.time[lane.fifo[0]]) ==> id == lane.fifo[0])
  }

  /** What a dispatch does to the lists: the request leaves them, the batch will go on with the one directly behind it
      by sector, in its direction only, and batch and passed-over writes are counted. */
  ghost predicate Outcome(s: Dd, d: Rw, id: Id, opens: bool, s': Dd) {
    && LeavesOut(s.LaneOf(d).sort, id, s'.LaneOf(d).sort) && LeavesOut(s.LaneOf(d).fifo, id, s'.LaneOf(d).fifo)
    && Behind(s.LaneOf(d).sort, id, s'.LaneOf(d).next)
    && s'.LaneOf(1 - d) == s.LaneOf(1 - d).(next := NONE) && s'.pos == s.pos && s'.time == s.time
    && s'.batching == (if opens then 1 else s.batching + 1)
    && s'.starved == if !opens then s.starved else if d == WRITE then 0 else s.starved + if s.write.fifo != [] then 1 else 0
  }

  /** The choice is by the rules, and its outcome is as stated. */
  lemma ChoiceRules(s: Dd, cfg: Settings, clock: int, now: int)
    requires Valid(s, cfg, clock) && (s.read.fifo != [] || s.write.fifo != [])
    ensures Usable(s) && var c := Choose(s, cfg, now);
            && c.Pick? && Rules(s, cfg, now, c.d, c.id, c.start)
            && c.id in s.LaneOf(c.d).sort && c.id in s.LaneOf(c.d).fifo && Outcome(s, c.d, c.id, c.start, Dispatched(s, c))
  {
    hide LaneOk, Gone, Latter, LeavesOut, Behind;
    ChosenQueued(s, cfg, clock, now);
    LanesDistinct(s, cfg, clock);
    var c := Choose(s, cfg, now);
    var lane := s.LaneOf(c.d);
    GoneLeavesOut(lane.sort, c.id);
    GoneLeavesOut(lane.fifo, c.id);
    LatterOther(lane.sort, c.id);
  }

  // --- the scheduler in place ---

  class DeadlineData {
    const cfg: Settings
    var pos: Keys
    var time: Keys
    var read: Lane
    var write: Lane
    var batching: int
    var starved: int
    /** The dispatch queue. */
    var queue: seq<Id>

    constructor (cfg: Settings, ghost clock: int)
      requires cfg.Valid()
      ensures this.cfg == cfg && Valid(Now(), cfg, clock) && queue == []
    {
      this.cfg := cfg;
      pos, time, read, write, batching, starved, queue := map[], map[], Lane([], [], NONE), Lane([], [], NONE), 0, 0, [];
    }

    ghost function Now(): Dd
      reads this
    {
      Dd(pos, time, read, write, batching, starved)
    }

    method SetLane(d: Rw, lane: Lane)
      modifies this`read, this`write
      ensures Now() == old(Now()).With(d, lane)
    {
      if d == READ {
        read := lane;
      } else {
        write := lane;
      }
    }

    method AddRequest(d: Rw, id: Id, start: int, now: int, ghost clock: int)
      requires Valid(Now(), cfg, clock) && clock <= now && id !in read.sort && id !in write.sort
      modifies this
      ensures Has(old(pos), old(Now()).LaneOf(d).sort) && Now() == Added(old(Now()), cfg, d, id, start, now)
      ensures Valid(Now(), cfg, now) && queue == old(queue)
      ensures var lane, lane' := old(Now()).LaneOf(d), Now().LaneOf(d);
              && PutsIn(pos, lane.sort, id, start, lane'.sort) && lane'.fifo == lane.fifo + [id] && lane'.next == lane.next
              && pos == old(pos)[id := start] && time == old(time)[id := now + if d == READ then cfg.readExpire else cfg.writeExpire]
              && Now().LaneOf(1 - d) == old(Now()).LaneOf(1 - d) && batching == old(batching) && starved == old(starved)
    {
      hide LaneOk, Sorted, PutsIn;
      AddedValid(Now(), cfg, clock, d, id, start, now);
      AddedPutsIn(Now(), cfg, clock, d, id, start);
      var lane := if d == READ then read else write;
      pos := pos[id := start];
      var sort := Sorted(pos, lane.sort, id);
      time := time[id := now + if d == READ then cfg.readExpire else cfg.writeExpire];
      SetLane(d, Lane(sort, lane.fifo + [id], lane.next));
    }

    /** deadline_remove_request. */
    method RemoveRequest(d: Rw, id: Id)
      requires id in Now().LaneOf(d).sort && id in Now().LaneOf(d).fifo
      modifies this`read, this`write
      ensures Now() == old(Now()).With(d, RemovedLane(old(Now()).LaneOf(d), id))
      ensures var lane, lane' := old(Now()).LaneOf(d), Now().LaneOf(d);
              && LeavesOut(lane.sort, id, lane'.sort) && LeavesOut(lane.fifo, id, lane'.fifo)
              && (if lane.next == id then Behind(lane.sort, id, lane'.next) else lane'.next == lane.next)
    {
      hide LeavesOut, Behind, Gone, Latter;
      GoneLeavesOut(Now().LaneOf(d).sort, id);
      GoneLeavesOut(Now().LaneOf(d).fifo, id);
      var lane := if d == READ then read else write;
      var next := lane.next;
      if next == id {
        next := Latter(lane.sort, id);
      }
      SetLane(d, Lane(Gone(lane.sort, id), Gone(lane.fifo, id), next));
    }

    /** deadline_merged_request for a request that now starts elsewhere. */
    method MergedRequest(d: Rw, id: Id, start: int, ghost clock: int)
      requires Valid(Now(), cfg, clock) && id in Now().LaneOf(d).sort
      modifies this
      ensures Valid(Now(), cfg, clock) && Has(pos, Gone(old(Now()).LaneOf(d).sort, id))
      ensures Now() == FrontMerged(old(Now()), d, id, start) && queue == old(queue)
      ensures var lane, lane' := old(Now()).LaneOf(d), Now().LaneOf(d);
              && LeavesOut(lane.sort, id, Gone(lane.sort, id)) && PutsIn(pos, Gone(lane.sort, id), id, start, lane'.sort)
              && lane'.fifo == lane.fifo && lane'.next == lane.next && pos == old(pos)[id := start] && time == old(time)
              && Now().LaneOf(1 - d) == old(Now()).LaneOf(1 - d) && batching == old(batching) && starved == old(starved)
    {
      hide LaneOk, Listed, Distinct, Sorted, LeavesOut, PutsIn, Gone;
      FrontMergedValid(Now(), cfg, clock, d, id, start);
      MovedPutsIn(Now(), cfg, clock, d, id, start);
      var lane := if d == READ then read else write;
      pos := pos[id := start];
      var sort := Gone(lane.sort, id);
      SetLane(d, lane.(sort := Sorted(pos, sort, id)));
    }

    /** deadline_merged_requests: the second request goes away into the first. */
    method MergedRequests(d: Rw, id: Id, other: Id, ghost clock: int)
      requires Valid(Now(), cfg, clock) && id in Now().LaneOf(d).sort && other in Now().LaneOf(d).sort && id != other
      modifies this
      ensures Valid(Now(), cfg, clock) && queue == old(queue)
      ensures old(Mergeable(Now(), d, id, other)) && Now() == RqsMerged(old(Now()), d, id, other)
      ensures forall x :: x in Now().LaneOf(d).sort <==> x in old(Now()).LaneOf(d).sort && x != other
      ensures id in time && time == old(time)[id := if old(time)[other] < old(time)[id] then old(time)[other] else old(time)[id]]
      ensures var lane, lane' := old(Now()).LaneOf(d), Now().LaneOf(d);
              && LeavesOut(lane.sort, other, lane'.sort) && TakesOver(lane.fifo, id, other, old(time)[other] < old(time)[id], lane'.fifo)
              && (if lane.next == other then Behind(lane.sort, other, lane'.next) else lane'.next == lane.next)
              && Now().LaneOf(1 - d) == old(Now()).LaneOf(1 - d) && pos == old(pos) && batching == old(batching) && starved == old(starved)
    {
      hide LaneOk, Gone, PutIn, IndexOf, Latter, BehindLane, LeavesOut, Behind, TakesOver;
      ghost var s := Now();
      BehindSort(s.LaneOf(d), id, other);
      RqsMergedValid(s, cfg, clock, d, id, other);
      MergedMembers(s, cfg, clock, d, id, other);
      var lane := if d == READ then read else write;
      if time[other] < time[id] {
        MoveBehind(d, id, other);
      }
      RemoveRequest(d, other);
      MergedTakesOver(s, cfg, clock, d, id, other);
      assert Now() == RqsMerged(s, d, id, other);
    }

    /** The merged request takes over the deadline of the other, and goes behind it. */
    method MoveBehind(d: Rw, id: Id, other: Id)
      requires id in time && other in time && id in Now().LaneOf(d).fifo && other in Gone(Now().LaneOf(d).fifo, id)
      modifies this`read, this`write, this`time
      ensures Now() == old(Now()).(time := old(time)[id := old(time)[other]]).With(d, BehindLane(old(Now()).LaneOf(d), id, other))
    {
      hide Gone, PutIn, IndexOf;
      var lane := if d == READ then read else write;
      var fifo := Gone(lane.fifo, id);
      time := time[id := time[other]];
      SetLane(d, lane.(fifo := PutIn(fifo, id, IndexOf(fifo, other) + 1)));
    }

    /** deadline_move_request. */
    method MoveRequest(d: Rw, id: Id)
      requires id in Now().LaneOf(d).sort && id in Now().LaneOf(d).fifo && Distinct(Now().LaneOf(d).sort)
      modifies this`read, this`write, this`queue
      ensures queue == old(queue) + [id]
      ensures var s := old(Now()).(read := old(read).(next := NONE), write := old(write).(next := NONE));
              Now() == s.With(d, RemovedLane(s.LaneOf(d).(next := Latter(s.LaneOf(d).sort, id)), id))
      ensures Behind(old(Now()).LaneOf(d).sort, id, Now().LaneOf(d).next) && Now().LaneOf(1 - d).next == NONE
    {
      hide LeavesOut, Behind;
      LatterOther(Now().LaneOf(d).sort, id);
      GoneLeavesOut(Now().LaneOf(d).sort, id);
      read, write := read.(next := NONE), write.(next := NONE);
      var lane := if d == READ then read else write;
      SetLane(d, lane.(next := Latter(lane.sort, id)));
      RemoveRequest(d, id);
      queue := queue + [id];
    }

    /** The first half of deadline_dispatch_requests: the request to dispatch, if one waits, and the counts that go with
        the decision. */
    method Decide(now: int) returns (found: bool, d: Rw, id: Id)
      requires Usable(Now())
      modifies this`batching, this`starved
      ensures var c := old(Choose(Now(), cfg, now));
              && (found <==> c.Pick?) && (!found ==> Now() == old(Now()))
              && (found ==> d == c.d && id == c.id && starved == c.starved && batching == (if c.start then 0 else old(batching)) + 1)
    {
      found, d, id := true, READ, 0;
      var next := if write.next != NONE then write.next else read.next;
      if next != NONE && batching < cfg.batch {
        d, id := if write.next != NONE then WRITE else READ, next;
      } else {
        if read.fifo != [] {
          var before := starved;
          if write.fifo != [] {
            starved := starved + 1;
          }
          if write.fifo != [] && before >= cfg.starve {
            d, starved := WRITE, 0;
          }
        } else if write.fifo != [] {
          d, starved := WRITE, 0;
        } else {
          found := false;
          return;
        }
        var lane := if d == READ then read else write;
        id := if now > time[lane.fifo[0]] || lane.next == NONE then lane.fifo[0] else lane.next;
        batching := 0;
      }
      batching := batching + 1;
    }

    /** deadline_dispatch_requests: a request is chosen by the rules and leaves the lists, or none waits. */
    method DispatchRequests(now: int, ghost clock: int) returns (dispatched: bool, ghost dir: Rw, ghost out: Id, ghost opens: bool)
      requires Valid(Now(), cfg, clock) && clock <= now
      modifies this
      ensures Valid(Now(), cfg, now) && old(Defined(Now(), cfg, Dispatch(now))) && Now() == old(Next(Now(), cfg, Dispatch(now)))
      ensures old(Usable(Now())) && var c := old(Choose(Now(), cfg, now));
              dispatched == c.Pick? && queue == old(queue) + if c.Pick? then [c.id] else []
      ensures dispatched <==> old(read.fifo) != [] || old(write.fifo) != []
      ensures dispatched ==>
        && queue == old(queue) + [out] && Rules(old(Now()), cfg, now, dir, out, opens) && Outcome(old(Now()), dir, out, opens, Now())
      ensures !dispatched ==> Now() == old(Now()) && queue == old(queue)
    {
      hide Valid, Choose, RemovedLane, Rules, Outcome, Behind, Usable, Distinct;
      dir, out, opens := READ, 0, false;
      ghost var s := Now();
      ChosenQueued(s, cfg, clock, now);
      LanesDistinct(s, cfg, clock);
      var d: Rw, id: Id;
      dispatched, d, id := Decide(now);
      if !dispatched {
        LaterValid(s, cfg, clock, now);
        return;
      }
      MoveRequest(d, id);
      assert Now() == Dispatched(s, Choose(s, cfg, now));
      StepValid(s, cfg, clock, Dispatch(now), Now());
      ChoiceRules(s, cfg, clock, now);
      dir, out, opens := d, id, Choose(s, cfg, now).start;
    }
  }

  lemma AddedPutsIn(s: Dd, cfg: Settings, clock: int, d: Rw, id: Id, start: int)
    requires Valid(s, cfg, clock) && id !in s.LaneOf(d).sort
    ensures var pos := s.pos[id := start];
            Has(pos, s.LaneOf(d).sort) && PutsIn(pos, s.LaneOf(d).sort, id, start, Sorted(pos, s.LaneOf(d).sort, id))
  {
    hide Sorted, PutsIn, Distinct, Ascending, NotAfter;
    SameListed(s.pos, s.pos[id := start], s.LaneOf(d).sort);
    SortedPutsIn(s.pos[id := start], s.LaneOf(d).sort, id);
  }

  lemma MovedPutsIn(s: Dd, cfg: Settings, clock: int, d: Rw, id: Id, start: int)
    requires Valid(s, cfg, clock) && id in s.LaneOf(d).sort
    ensures var pos, rest := s.pos[id := start], Gone(s.LaneOf(d).sort, id);
            Has(pos, rest) && PutsIn(pos, rest, id, start, Sorted(pos, rest, id)) && LeavesOut(s.LaneOf(d).sort, id, rest)
  {
    hide Sorted, PutsIn, Distinct, Ascending, NotAfter, Gone, LeavesOut;
    GoneListed(s.pos, s.LaneOf(d).sort, id, start);
    GoneLeavesOut(s.LaneOf(d).sort, id);
    SortedPutsIn(s.pos[id := start], Gone(s.LaneOf(d).sort, id), id);
  }

  /** One request leaves a list, and another one takes its place there, or keeps its own. */
  ghost predicate TakesOver(a: seq<Id>, id: Id, other: Id, over: bool, b: seq<Id>) {
    if over then exists i, u :: LeavesOut(a, id, u) && 0 <= i < |u| && u[i] == other && b == u[i := id] else LeavesOut(a, other, b)
  }

  lemma BehindTakesOver(a: seq<Id>, id: Id, other: Id)
    requires id in a && other in Gone(a, id)
    ensures var u := Gone(a, id);
            var b := PutIn(u, id, IndexOf(u, other) + 1);
            other in b && TakesOver(a, id, other, true, Gone(b, other))
  {
    hide Gone, Distinct, PutIn, IndexOf, LeavesOut;
    GoneLeavesOut(a, id);
    InPlace(Gone(a, id), id, other);
  }

  /** Put in behind another one that then leaves, a request is in its place. */
  lemma InPlace(u: seq<Id>, id: Id, other: Id)
    requires other in u
    ensures var i := IndexOf(u, other);
            var b := PutIn(u, id, i + 1);
            other in b && Gone(b, other) == u[i := id]
  {
    var i := IndexOf(u, other);
    var b := PutIn(u, id, i + 1);
    assert b[i] == other && b[..i] == u[..i];
    IndexIsFirst(u, other);
    FirstIndex(b, other, i);
  }

  lemma {:induction false} IndexIsFirst(s: seq<Id>, x: Id)
    requires x in s
    ensures x !in s[..IndexOf(s, x)]
    decreases |s|
  {
    if s[0] != x {
      IndexIsFirst(s[1..], x);
      var i := IndexOf(s[1..], x);
      assert s[..i + 1] == [s[0]] + s[1..][..i];
    }
  }

  lemma {:induction false} FirstIndex(b: seq<Id>, x: Id, i: nat)
    requires i < |b| && b[i] == x && x !in b[..i]
    ensures IndexOf(b, x) == i
  {
    if i > 0 {
      assert b[0] in b[..i];
      assert forall y :: y in b[1..][..i - 1] ==> y in b[..i];
      FirstIndex(b[1..], x, i - 1);
    }
  }

  lemma MergedTakesOver(s: Dd, cfg: Settings, clock: int, d: Rw, id: Id, other: Id)
    requires Valid(s, cfg, clock) && Mergeable(s, d, id, other)
    ensures TakesOver(s.LaneOf(d).fifo, id, other, s.time[other] < s.time[id], RqsMerged(s, d, id, other).LaneOf(d).fifo)
  {
    hide Distinct, Ascending, NotAfter, Gone, PutIn, IndexOf, Latter, TakesOver;
    BehindTakesOver(s.LaneOf(d).fifo, id, other);
    LeavesOther(s.LaneOf(d).fifo, id, other);
  }

  lemma LeavesOther(a: seq<Id>, id: Id, other: Id)
    requires other in a
    ensures TakesOver(a, id, other, false, Gone(a, other))
  {
    GoneLeavesOut(a, other);
  }

  lemma BehindSort(lane: Lane, id: Id, other: Id)
    ensures id in lane.fifo && other in Gone(lane.fifo, id) ==>
      BehindLane(lane, id, other).sort == lane.sort && BehindLane(lane, id, other).next == lane.next
  {
  }

  lemma LanesDistinct(s: Dd, cfg: Settings, clock: int)
    requires Valid(s, cfg, clock)
    ensures Distinct(s.read.sort) && Distinct(s.write.sort)
  {
  }

  /** What is left after a merge, and the deadline it has. */
  lemma MergedMembers(s: Dd, cfg: Settings, clock: int, d: Rw, id: Id, other: Id)
    requires Valid(s, cfg, clock) && id in s.LaneOf(d).sort && other in s.LaneOf(d).sort && id != other
    ensures forall x :: x in Gone(s.LaneOf(d).sort, other) <==> x in s.LaneOf(d).sort && x != other
  {
    LanesDistinct(s, cfg, clock);
    forall x ensures x in Gone(s.LaneOf(d).sort, other) <==> x in s.LaneOf(d).sort && x != other {
      GoneHas(s.LaneOf(d).sort, other, x);
    }
  }
}
