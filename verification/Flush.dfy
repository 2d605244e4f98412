/** The sequencing of FLUSH and FUA requests: two lists of requests that wait for a cache flush, of
which one is filled while a flush for the other is in flight, and the data writes in between. */
module Flush {

  import opened Ordered

  type Id = nat

  /** The steps of a sequence, in the order of their bits. */
  datatype Step = Pre | Data | Post

  /** A mask of steps. */
  datatype Bits = Bits(pre: bool, data: bool, post: bool) {
    function Not(): Bits { Bits(!pre, !data, !post) }
    function Or(b: Bits): Bits { Bits(pre || b.pre, data || b.data, post || b.post) }
    predicate Meets(b: Bits) { (pre && b.pre) || (data && b.data) || (post && b.post) }
  }

  function Bit(step: Step): Bits {
    Bits(step == Pre, step == Data, step == Post)
  }

  /** The steps whose bits are not set, in order; the first one is what blk_flush_cur_seq finds. */
  function Remaining(done: Bits): seq<Step> {
    (if done.pre then [] else [Pre]) + (if done.data then [] else [Data]) + (if done.post then [] else [Post])
  }

  /** A request as it is handed in: its sectors and flags, and what the device can do. */
  datatype Ask = Ask(sectors: nat, flush: bool, fua: bool, canFlush: bool, canFua: bool)

  /** What a request needs, given what the device can do. */
  function Policy(ask: Ask): Bits {
    Bits(ask.canFlush && ask.flush, ask.sectors > 0, ask.canFlush && !ask.canFua && ask.fua)
  }

  /** A request: what it needs, what is done, whether it is in a flush sequence, whether its bio is
      attached, how often the bio has been ended, and whether it is over, or has failed. */
  datatype Rq = Rq(policy: Bits, done: Bits, flushSeq: bool, bio: bool, ended: nat, over: bool, failed: bool)

  /** Completing all bytes of a request: its bio is detached, but ended only outside a flush sequence. */
  function Completed(rq: Rq): Rq {
    if !rq.bio then rq else rq.(bio := false, ended := if rq.flushSeq then rq.ended else rq.ended + 1)
  }

  function Restored(rq: Rq): Rq {
    rq.(bio := true, flushSeq := false)
  }

  /** What is in the dispatch queue: the flush request, or one of the requests. */
  datatype Item = FlushRq | Of(id: Id)

  /** What has happened: a request has joined a list or the dispatch queue for a step, the flush request has been
      issued or has come back, a step of a request is done. */
  datatype Event = Joined(id: Id, step: Step) | Issued | Flushed(ok: bool) | Finished(id: Id, step: Step, ok: bool)

  function Dropped<T(==, !new)>(s: seq<T>, x: T): (r: seq<T>)
    ensures forall y :: y in r <==> y in s && y != x
    ensures Distinct(s) ==> Distinct(r)
  {
    if s == [] then []
    else
      var r := Dropped(s[..|s| - 1], x);
      var last := s[|s| - 1];
      assert s == s[..|s| - 1] + [last];
      assert Distinct(s) ==> last !in s[..|s| - 1];
      DistinctEnd(r, last);
      if last == x then r else r + [last]
  }

  lemma DistinctEnd<T>(s: seq<T>, x: T)
    ensures Distinct(s) && x !in s ==> Distinct(s + [x])
  {
  }

  // --- durability ---

  /** The flush issued at index i is the one that came back at index f. */
  ghost predicate OneFlush(log: seq<Event>, i: nat, f: nat, ok: bool) {
    && i < f < |log| && log[i] == Issued && log[f] == Flushed(ok)
    && forall k :: i < k < f ==> log[k] != Issued && !log[k].Flushed?
  }

  /** The step done at index k was done by a flush that was issued after the request had joined, at index
      j, and for the last step after the data of the request was written. */
  ghost predicate Covered(log: seq<Event>, k: nat, j: nat, i: nat, f: nat) {
    && k < |log| && log[k].Finished? && f < k && j < i
    && OneFlush(log, i, f, log[k].ok) && log[j] == Joined(log[k].id, log[k].step)
    && (log[k].step == Post ==> Written(log, log[k].id, j))
  }

  /** The data of a request was written before index j. */
  ghost predicate Written(log: seq<Event>, id: Id, j: nat) {
    exists d :: 0 <= d < j && d < |log| && log[d] == Finished(id, Data, true)
  }

  /** Every flush step ever done was covered by a flush of its own. */
  ghost predicate Durable(log: seq<Event>) {
    forall k :: 0 <= k < |log| && log[k].Finished? && log[k].step != Data ==> exists j, i, f :: Covered(log, k, j, i, f)
  }

  /** A step of a request has been done without an error. */
  ghost predicate Done(log: seq<Event>, id: Id, step: Step) {
    exists k :: 0 <= k < |log| && log[k] == Finished(id, step, true)
  }

  ghost predicate Logs(log: seq<Event>, id: Id, steps: seq<Step>) {
    forall step :: step in steps ==> Done(log, id, step)
  }

  lemma LogsLater(log: seq<Event>, e: Event, id: Id, steps: seq<Step>)
    ensures Logs(log, id, steps) ==> Logs(log + [e], id, steps)
  {
    if Logs(log, id, steps) {
      forall step | step in steps ensures Done(log + [e], id, step) {
        assert Done(log, id, step);
        var k :| 0 <= k < |log| && log[k] == Finished(id, step, true);
        assert (log + [e])[k] == log[k];
      }
    }
  }

  lemma LogsNone(log: seq<Event>, id: Id)
    ensures Logs(log, id, [])
  {
  }

  lemma LogsStep(log: seq<Event>, id: Id, steps: seq<Step>, step: Step, ok: bool)
    requires Logs(log, id, steps)
    ensures Logs(log + [Finished(id, step, ok)], id, if ok then steps + [step] else steps)
  {
    var log' := log + [Finished(id, step, ok)];
    LogsLater(log, Finished(id, step, ok), id, steps);
    assert log'[|log|] == Finished(id, step, ok);
    if ok {
      assert Done(log', id, step);
    }
  }

  /** The log only grows. */
  lemma CoveredLater(log: seq<Event>, e: Event, k: nat, j: nat, i: nat, f: nat)
    requires Covered(log, k, j, i, f)
    ensures Covered(log + [e], k, j, i, f)
  {
    WrittenLater(log, e, log[k].id, j);
  }

  lemma WrittenLater(log: seq<Event>, e: Event, id: Id, j: nat)
    ensures Written(log, id, j) ==> Written(log + [e], id, j)
  {
    if d :| 0 <= d < j && d < |log| && log[d] == Finished(id, Data, true) {
      assert (log + [e])[d] == log[d];
    }
  }

  lemma DurableLater(log: seq<Event>, e: Event)
    requires Durable(log)
    requires e.Finished? && e.step != Data ==> exists j, i, f :: Covered(log + [e], |log|, j, i, f)
    ensures Durable(log + [e])
  {
    var log' := log + [e];
    forall k | 0 <= k < |log'| && log'[k].Finished? && log'[k].step != Data ensures exists j, i, f :: Covered(log', k, j, i, f) {
      if k < |log| {
        var j, i, f :| Covered(log, k, j, i, f);
        CoveredLater(log, e, k, j, i, f);
      }
    }
  }

  /** The state of a queue: its requests, flush_queue[2] with the index of the list being filled and of the
      list being flushed, the requests whose data is in flight, the dispatch queue, what the driver has taken
      from it, and since when requests have been pending. The last four fields are a record of the run:
      the steps done for each request, what has happened, when each request joined its list, and when the
      flush in flight was issued. */
  datatype Queue = Queue(rqs: map<Id, Rq>, lists: seq<seq<Id>>, pending: int, running: int, dataInFlight: seq<Id>,
                         queueHead: seq<Item>, taken: set<Item>, since: int,
                         trace: map<Id, seq<Step>>, log: seq<Event>, joinedAt: map<Id, nat>, issuedAt: nat)

  ghost predicate Live(s: Queue, id: Id) {
    id in s.rqs && !s.rqs[id].over && Remaining(s.rqs[id].done) != []
  }

  ghost function Next(s: Queue, id: Id): Step
    requires Live(s, id)
  {
    Remaining(s.rqs[id].done)[0]
  }

  ghost predicate Shaped(s: Queue) {
    && |s.lists| == 2 && 0 <= s.pending < 2 && 0 <= s.running < 2
    && Distinct(s.lists[0]) && Distinct(s.lists[1]) && Distinct(s.dataInFlight) && Distinct(s.queueHead)
    && !(FlushRq in s.queueHead && FlushRq in s.taken)
  }

  ghost predicate Listed(s: Queue, id: Id)
    requires |s.lists| == 2
  {
    id in s.lists[0] || id in s.lists[1]
  }

  /** A request is exactly where its next step wants it. */
  ghost predicate Placed(s: Queue, id: Id)
    requires |s.lists| == 2
  {
    && (Listed(s, id) <==> Live(s, id) && s.rqs[id].flushSeq && Next(s, id) != Data)
    && !(id in s.lists[0] && id in s.lists[1])
    && (id in s.dataInFlight <==> Live(s, id) && s.rqs[id].flushSeq && Next(s, id) == Data)
    && (Of(id) in s.queueHead || Of(id) in s.taken <==> Live(s, id) && Next(s, id) == Data)
    && !(Of(id) in s.queueHead && Of(id) in s.taken)
  }

  /** The bio is ended once, when the request is over and not before; the steps done are those of the
      policy, in order, or the first of them if one failed, and each of them is in the log. */
  ghost predicate Proper(s: Queue, id: Id) {
    id in s.rqs ==>
      var rq := s.rqs[id];
      && id in s.trace && (rq.policy.post ==> rq.policy.data) && Logs(s.log, id, s.trace[id])
      && if rq.over
         then rq.ended == 1 && !rq.bio && !rq.flushSeq
              && if rq.failed then s.trace[id] <= Remaining(rq.policy.Not()) else s.trace[id] == Remaining(rq.policy.Not())
         else rq.ended == 0 && !rq.failed && Live(s, id) && (!rq.flushSeq ==> rq.bio && rq.policy == Bit(Data))
              && s.trace[id] + Remaining(rq.done) == Remaining(rq.policy.Not())
  }

  /** A request on a list joined it for its next step; if that is the last one, its data was written before. */
  ghost predicate HasJoined(s: Queue, id: Id)
    requires |s.lists| == 2
  {
    Listed(s, id) && Live(s, id) ==>
      && id in s.joinedAt && s.joinedAt[id] < |s.log| && s.log[s.joinedAt[id]] == Joined(id, Next(s, id))
      && (Next(s, id) == Post ==> Written(s.log, id, s.joinedAt[id]))
  }

  ghost predicate InFlight(s: Queue) {
    FlushRq in s.queueHead || FlushRq in s.taken
  }

  /** The flush in flight is for the running list, all of which joined before it was issued. */
  ghost predicate Flushing(s: Queue)
    requires |s.lists| == 2 && 0 <= s.running < 2
  {
    s.pending != s.running ==>
      && s.lists[s.running] != [] && s.issuedAt < |s.log| && s.log[s.issuedAt] == Issued
      && (forall k :: s.issuedAt < k < |s.log| ==> s.log[k] != Issued && !s.log[k].Flushed?)
      && forall id :: id in s.lists[s.running] ==> id in s.joinedAt && s.joinedAt[id] < s.issuedAt
  }

  /** All requests but perhaps one are in order, and so is all else. */
  ghost predicate Orderly(s: Queue, but: set<Id>) {
    && Shaped(s) && (InFlight(s) <==> s.pending != s.running) && Durable(s.log) && Flushing(s)
    && (forall id {:trigger Placed(s, id)} :: id !in but ==> Placed(s, id))
    && (forall id {:trigger Proper(s, id)} :: id !in but ==> Proper(s, id))
    && (forall id {:trigger HasJoined(s, id)} :: id !in but ==> HasJoined(s, id))
  }

  /** Between entry points: all requests are in order, without a flush in flight only the pending list is in
      use, and requests that wait are not forgotten. */
  ghost predicate Settled(s: Queue) {
    && Orderly(s, {}) && (s.pending == s.running ==> s.lists[1 - s.pending] == [])
    && (s.lists[s.pending] != [] ==> InFlight(s) || s.dataInFlight != [])
  }

  // --- moving one request on ---

  /** The request is in the sequence, with the given steps left, on no list that is being flushed and not in
      the dispatch queue. */
  ghost predicate Loose(s: Queue, id: Id, rest: seq<Step>) {
    && Orderly(s, {id}) && (s.pending != s.running ==> id !in s.lists[s.running])
    && Of(id) !in s.queueHead && Of(id) !in s.taken
    && id in s.rqs && id in s.trace && !s.rqs[id].over && !s.rqs[id].failed && s.rqs[id].flushSeq && s.rqs[id].ended == 0
    && (s.rqs[id].policy.post ==> s.rqs[id].policy.data) && Logs(s.log, id, s.trace[id])
    && Remaining(s.rqs[id].done) == rest
  }

  ghost predicate Off(s: Queue, id: Id)
    requires |s.lists| == 2
  {
    !Listed(s, id) && id !in s.dataInFlight
  }

  /** list_move_tail and list_del_init first take a request off the list it is on. */
  ghost function Unlisted(s: Queue, id: Id): Queue
    requires |s.lists| == 2
  {
    s.(lists := [Dropped(s.lists[0], id), Dropped(s.lists[1], id)], dataInFlight := Dropped(s.dataInFlight, id))
  }

  lemma UnlistedLoose(s: Queue, id: Id, rest: seq<Step>)
    requires Loose(s, id, rest)
    ensures Loose(Unlisted(s, id), id, rest) && Off(Unlisted(s, id), id)
  {
    hide Durable, Remaining, Logs;
    var s' := Unlisted(s, id);
    forall x | x != id ensures Placed(s', x) && Proper(s', x) && HasJoined(s', x) {
      assert Placed(s, x) && Proper(s, x) && HasJoined(s, x);
    }
  }

  /** A flush step: the request waits at the tail of the pending list. */
  ghost function Waiting(s: Queue, id: Id, step: Step, now: int): Queue
    requires |s.lists| == 2 && 0 <= s.pending < 2
  {
    s.(since := if s.lists[s.pending] == [] then now else s.since,
       lists := s.lists[s.pending := s.lists[s.pending] + [id]],
       joinedAt := s.joinedAt[id := |s.log|],
       log := s.log + [Joined(id, step)])
  }

  lemma WaitingOrderly(s: Queue, id: Id, step: Step, rest: seq<Step>, now: int)
    requires Loose(s, id, [step] + rest) && Off(s, id) && s.trace[id] + [step] + rest == Remaining(s.rqs[id].policy.Not())
    requires step == Pre || (step == Post && Written(s.log, id, |s.log|))
    ensures Orderly(Waiting(s, id, step, now), {})
  {
    hide Durable, Remaining, Written, Logs;
    var s' := Waiting(s, id, step, now);
    DurableLater(s.log, Joined(id, step));
    DistinctEnd(s.lists[s.pending], id);
    assert s.trace[id] + ([step] + rest) == s.trace[id] + [step] + rest;
    forall x ensures Placed(s', x) && Proper(s', x) && HasJoined(s', x) {
      assert x != id ==> Placed(s, x) && Proper(s, x) && HasJoined(s, x);
      WrittenLater(s.log, Joined(id, step), x, if x in s'.joinedAt then s'.joinedAt[x] else 0);
      LogsLater(s.log, Joined(id, step), x, if x in s.trace then s.trace[x] else []);
    }
  }

  /** The data step: the request goes to the head of the dispatch queue. */
  ghost function Writing(s: Queue, id: Id): Queue {
    s.(dataInFlight := s.dataInFlight + [id], queueHead := [Of(id)] + s.queueHead, log := s.log + [Joined(id, Data)])
  }

  lemma WritingOrderly(s: Queue, id: Id, rest: seq<Step>)
    requires Loose(s, id, [Data] + rest) && Off(s, id) && s.trace[id] + [Data] + rest == Remaining(s.rqs[id].policy.Not())
    ensures Orderly(Writing(s, id), {})
  {
    hide Durable, Remaining, Written, Logs;
    var s' := Writing(s, id);
    DurableLater(s.log, Joined(id, Data));
    DistinctEnd(s.dataInFlight, id);
    assert s.trace[id] + ([Data] + rest) == s.trace[id] + [Data] + rest;
    forall x ensures Placed(s', x) && Proper(s', x) && HasJoined(s', x) {
      assert x != id ==> Placed(s, x) && Proper(s, x) && HasJoined(s, x);
      WrittenLater(s.log, Joined(id, Data), x, if x in s.joinedAt then s.joinedAt[x] else 0);
      LogsLater(s.log, Joined(id, Data), x, if x in s.trace then s.trace[x] else []);
    }
  }

  /** The end of the sequence: the request is made a normal one again and completed. */
  ghost function Over(s: Queue, id: Id, failed: bool): Queue
    requires id in s.rqs
  {
    s.(rqs := s.rqs[id := Completed(Restored(s.rqs[id])).(over := true, failed := failed)])
  }

  lemma OverOrderly(s: Queue, id: Id, rest: seq<Step>, failed: bool)
    requires Loose(s, id, rest) && Off(s, id)
    requires if failed then s.trace[id] <= Remaining(s.rqs[id].policy.Not()) else rest == [] && s.trace[id] == Remaining(s.rqs[id].policy.Not())
    ensures Orderly(Over(s, id, failed), {})
  {
    hide Durable, Remaining, Written, Logs;
    var s' := Over(s, id, failed);
    forall x ensures Placed(s', x) && Proper(s', x) && HasJoined(s', x) {
      assert x != id ==> Placed(s, x) && Proper(s, x) && HasJoined(s, x);
    }
  }

  /** The switch of blk_flush_complete_seq. */
  ghost function Moved(s: Queue, id: Id, failed: bool, now: int): Queue
    requires |s.lists| == 2 && 0 <= s.pending < 2 && id in s.rqs
  {
    var u, rest := Unlisted(s, id), Remaining(s.rqs[id].done);
    if failed || rest == [] then Over(u, id, failed)
    else if rest[0] == Data then Writing(u, id)
    else Waiting(u, id, rest[0], now)
  }

  lemma MovedOrderly(s: Queue, id: Id, now: int)
    requires id in s.rqs && Loose(s, id, Remaining(s.rqs[id].done))
    requires s.trace[id] + Remaining(s.rqs[id].done) == Remaining(s.rqs[id].policy.Not())
    requires Remaining(s.rqs[id].done) == [Post] ==> Written(s.log, id, |s.log|)
    requires Remaining(s.rqs[id].done) != [Pre, Post]
    ensures Orderly(Moved(s, id, false, now), {})
  {
    hide Orderly, Written, Off, Loose, Remaining;
    LooseShape(s, id, Remaining(s.rqs[id].done));
    var u, rest := Unlisted(s, id), Remaining(s.rqs[id].done);
    UnlistedLoose(s, id, rest);
    if rest == [] {
      OverOrderly(u, id, rest, false);
    } else {
      RemainingOrder(s.rqs[id].done);
      assert rest == [rest[0]] + rest[1..];
      assert s.trace[id] + [rest[0]] + rest[1..] == s.trace[id] + rest;
      if rest[0] == Data {
        WritingOrderly(u, id, rest[1..]);
      } else {
        WaitingOrderly(u, id, rest[0], rest[1..], now);
      }
    }
  }

  lemma LooseShape(s: Queue, id: Id, rest: seq<Step>)
    requires Loose(s, id, rest)
    ensures |s.lists| == 2 && 0 <= s.pending < 2 && id in s.trace
  {
  }

  lemma RemainingOrder(done: Bits)
    ensures Remaining(done) != [] && Remaining(done)[0] == Post ==> Remaining(done) == [Post]
  {
  }

  /** blk_kick_flush: issues the flush unless one is in flight, or none waits, or data is in flight and the
      requests have not waited long. */
  ghost function Kicked(s: Queue, now: int, timeout: int): Queue
    requires |s.lists| == 2 && 0 <= s.pending < 2
  {
    if s.pending != s.running || s.lists[s.pending] == [] || (s.dataInFlight != [] && now < s.since + timeout) then s
    else s.(pending := 1 - s.pending, queueHead := s.queueHead + [FlushRq], log := s.log + [Issued], issuedAt := |s.log|)
  }

  /** No request waits for a flush that nothing will issue. */
  ghost predicate NoStall(s: Queue)
    requires |s.lists| == 2 && 0 <= s.pending < 2
  {
    s.lists[s.pending] != [] ==> InFlight(s) || s.dataInFlight != []
  }

  lemma KickedOrderly(s: Queue, now: int, timeout: int)
    requires Orderly(s, {})
    ensures var s' := Kicked(s, now, timeout); Orderly(s', {}) && NoStall(s') && s'.lists == s.lists && s'.running == s.running
  {
    hide Durable, Remaining, Written, Logs;
    var s' := Kicked(s, now, timeout);
    DurableLater(s.log, Issued);
    DistinctEnd(s.queueHead, FlushRq);
    forall x ensures Placed(s', x) && Proper(s', x) && HasJoined(s', x) {
      assert Placed(s, x) && Proper(s, x) && HasJoined(s, x);
      WrittenLater(s.log, Issued, x, if x in s'.joinedAt then s'.joinedAt[x] else 0);
      LogsLater(s.log, Issued, x, if x in s.trace then s.trace[x] else []);
    }
    forall x | x in s.lists[s.pending] && s.pending == s.running ensures x in s.joinedAt && s.joinedAt[x] < |s.log| {
      assert HasJoined(s, x) && Placed(s, x);
    }
  }

  // --- completing a step ---

  /** A step of the request is done. */
  ghost function Stepped(s: Queue, id: Id, step: Step, ok: bool): Queue
    requires id in s.rqs && id in s.trace
  {
    s.(rqs := s.rqs[id := s.rqs[id].(done := s.rqs[id].done.Or(Bit(step)))],
       trace := s.trace[id := if ok then s.trace[id] + [step] else s.trace[id]],
       log := s.log + [Finished(id, step, ok)])
  }

  lemma RemainingLess(done: Bits)
    requires Remaining(done) != []
    ensures var step := Remaining(done)[0]; Remaining(done.Or(Bit(step))) == Remaining(done)[1..] && !done.Meets(Bit(step))
  {
  }

  /** A request whose policy has data for every last flush never needs two flushes in a row. */
  lemma NeverTwice(policy: Bits, trace: seq<Step>, rest: seq<Step>)
    requires policy.post ==> policy.data
    requires trace + rest == Remaining(policy.Not())
    ensures rest != [Pre, Post]
  {
    var plan := Remaining(policy.Not());
    assert plan[|trace|..] == rest;
    if |rest| == 2 {
      assert rest[0] == plan[|trace|] && rest[1] == plan[|trace| + 1];
    }
  }

  lemma SteppedLoose(s: Queue, id: Id, step: Step, ok: bool, j: nat, i: nat, f: nat)
    requires id in s.rqs && Loose(s, id, Remaining(s.rqs[id].done)) && Remaining(s.rqs[id].done) != [] && step == Remaining(s.rqs[id].done)[0]
    requires s.trace[id] + Remaining(s.rqs[id].done) == Remaining(s.rqs[id].policy.Not())
    requires step != Data ==> Covered(s.log + [Finished(id, step, ok)], |s.log|, j, i, f)
    ensures var s' := Stepped(s, id, step, ok);
            && Loose(s', id, Remaining(s'.rqs[id].done)) && Remaining(s'.rqs[id].done) == Remaining(s.rqs[id].done)[1..]
            && (if ok then s'.trace[id] + Remaining(s'.rqs[id].done) == Remaining(s'.rqs[id].policy.Not())
                else s'.trace[id] <= Remaining(s'.rqs[id].policy.Not()))
            && (step == Data && ok ==> Written(s'.log, id, |s'.log|))
  {
    hide Durable, Remaining, Covered, Logs;
    var s' := Stepped(s, id, step, ok);
    RemainingLess(s.rqs[id].done);
    DurableLater(s.log, Finished(id, step, ok));
    var rest := Remaining(s.rqs[id].done);
    assert s.trace[id] + [step] + rest[1..] == s.trace[id] + rest;
    assert s'.log[|s.log|] == Finished(id, step, ok);
    LogsStep(s.log, id, s.trace[id], step, ok);
    forall x | x != id ensures Placed(s', x) && Proper(s', x) && HasJoined(s', x) {
      assert Placed(s, x) && Proper(s, x) && HasJoined(s, x);
      WrittenLater(s.log, Finished(id, step, ok), x, if x in s.joinedAt then s.joinedAt[x] else 0);
      LogsLater(s.log, Finished(id, step, ok), x, if x in s.trace then s.trace[x] else []);
    }
  }

  /** blk_flush_complete_seq for a step that is done. */
  ghost function CompleteSeq(s: Queue, id: Id, step: Step, failed: bool, now: int, timeout: int): Queue
    requires |s.lists| == 2 && 0 <= s.pending < 2 && id in s.rqs && id in s.trace
  {
    Kicked(Moved(Stepped(s, id, step, !failed), id, failed, now), now, timeout)
  }

  lemma CompleteSeqOrderly(s: Queue, id: Id, failed: bool, now: int, timeout: int, j: nat, i: nat, f: nat)
    requires id in s.rqs && Loose(s, id, Remaining(s.rqs[id].done)) && Remaining(s.rqs[id].done) != []
    requires s.trace[id] + Remaining(s.rqs[id].done) == Remaining(s.rqs[id].policy.Not())
    requires var step := Remaining(s.rqs[id].done)[0];
             step != Data ==> Covered(s.log + [Finished(id, step, !failed)], |s.log|, j, i, f)
    ensures |s.lists| == 2 && 0 <= s.pending < 2
    ensures var s' := CompleteSeq(s, id, Remaining(s.rqs[id].done)[0], failed, now, timeout);
            Orderly(s', {}) && NoStall(s') && s'.running == s.running
  {
    hide Orderly, Durable, Covered, Moved, Kicked, NoStall;
    var step := Remaining(s.rqs[id].done)[0];
    LooseShape(s, id, Remaining(s.rqs[id].done));
    SteppedLoose(s, id, step, !failed, j, i, f);
    var s1 := Stepped(s, id, step, !failed);
    LooseShape(s1, id, Remaining(s1.rqs[id].done));
    NeverTwice(s.rqs[id].policy, s.trace[id], Remaining(s.rqs[id].done));
    if failed {
      MovedFailed(s1, id, now);
    } else {
      NeverTwice(s1.rqs[id].policy, s1.trace[id], Remaining(s1.rqs[id].done));
      MovedOrderly(s1, id, now);
    }
    MovedRunning(s1, id, failed, now);
    KickedOrderly(Moved(s1, id, failed, now), now, timeout);
  }

  lemma MovedFailed(s: Queue, id: Id, now: int)
    requires id in s.rqs && Loose(s, id, Remaining(s.rqs[id].done))
    requires s.trace[id] <= Remaining(s.rqs[id].policy.Not())
    ensures Orderly(Moved(s, id, true, now), {})
  {
    hide Orderly, Off, Remaining;
    var rest := Remaining(s.rqs[id].done);
    LooseShape(s, id, rest);
    UnlistedLoose(s, id, rest);
    OverOrderly(Unlisted(s, id), id, rest, true);
  }

  /** What joining for the next step adds to the log. */
  ghost function JoinedNext(done: Bits, id: Id, failed: bool): seq<Event> {
    var rest := Remaining(done);
    if failed || rest == [] then [] else [Joined(id, rest[0])]
  }

  /** Moving a request on does not change which list is being flushed; the list that is not, loses it, and
      it waits again only for its next flush. */
  lemma MovedRunning(s: Queue, id: Id, failed: bool, now: int)
    requires |s.lists| == 2 && 0 <= s.pending < 2 && id in s.rqs
    ensures var s' := Moved(s, id, failed, now);
            && s'.running == s.running && s'.pending == s.pending && s'.joinedAt.Keys >= s.joinedAt.Keys
            && (failed || Remaining(s.rqs[id].done) == [] || Remaining(s.rqs[id].done)[0] == Data ==>
                  s'.lists == [Dropped(s.lists[0], id), Dropped(s.lists[1], id)] && s'.joinedAt == s.joinedAt)
            && s'.log == s.log + JoinedNext(s.rqs[id].done, id, failed)
  {
  }

  // --- entry points ---

  /** The driver takes the first item of the dispatch queue. */
  ghost function Taken(s: Queue): Queue
    requires s.queueHead != []
  {
    s.(queueHead := s.queueHead[1..], taken := s.taken + {s.queueHead[0]})
  }

  lemma TakenSettled(s: Queue)
    requires Settled(s) && s.queueHead != []
    ensures Settled(Taken(s))
  {
    hide Durable, Remaining, Written, Logs;
    var s' := Taken(s);
    assert s.queueHead == [s.queueHead[0]] + s.queueHead[1..];
    forall x ensures Placed(s', x) && Proper(s', x) && HasJoined(s', x) {
      assert Placed(s, x) && Proper(s, x) && HasJoined(s, x);
    }
  }

  /** The driver has written the data of a request: all its bytes are completed, and end_io is called. */
  ghost function DataReturned(s: Queue, id: Id): Queue
    requires id in s.rqs
  {
    s.(taken := s.taken - {Of(id)}, rqs := s.rqs[id := Completed(s.rqs[id])])
  }

  ghost function DataEnd(s: Queue, id: Id, failed: bool, now: int, timeout: int): Queue
    requires |s.lists| == 2 && 0 <= s.pending < 2 && id in s.rqs && id in s.trace
  {
    var s1 := DataReturned(s, id);
    if s.rqs[id].flushSeq then CompleteSeq(s1, id, Data, failed, now, timeout) else PlainEnd(s1, id, failed)
  }

  ghost function PlainEnd(s: Queue, id: Id, failed: bool): Queue
    requires id in s.rqs
  {
    s.(rqs := s.rqs[id := s.rqs[id].(over := true, failed := failed)], trace := s.trace[id := if failed then [] else [Data]],
       log := s.log + [Finished(id, Data, !failed)])
  }

  lemma DataReturnedLoose(s: Queue, id: Id)
    requires Settled(s) && Of(id) in s.taken && Placed(s, id) && id in s.rqs && s.rqs[id].flushSeq
    ensures var s' := DataReturned(s, id);
            && Loose(s', id, Remaining(s'.rqs[id].done)) && Remaining(s'.rqs[id].done) != [] && Remaining(s'.rqs[id].done)[0] == Data
            && s'.trace[id] + Remaining(s'.rqs[id].done) == Remaining(s'.rqs[id].policy.Not())
            && s'.lists == s.lists && !Listed(s, id)
  {
    hide Durable, Remaining, Written, Logs;
    var s' := DataReturned(s, id);
    assert Proper(s, id);
    forall x | x != id ensures Placed(s', x) && Proper(s', x) && HasJoined(s', x) {
      assert Placed(s, x) && Proper(s, x) && HasJoined(s, x);
    }
  }

  /** A request that needs no flush: its data is written like any other. */
  lemma PlainEndSettled(s: Queue, id: Id, failed: bool)
    requires Settled(s) && Of(id) in s.taken && Placed(s, id) && id in s.rqs && !s.rqs[id].flushSeq && id in s.trace
    ensures Settled(PlainEnd(DataReturned(s, id), id, failed))
  {
    hide Durable, Written, Distinct, Logs, Remaining, Proper;
    var s' := PlainEnd(DataReturned(s, id), id, failed);
    DurableLater(s.log, Finished(id, Data, !failed));
    PlainEnded(s, id, failed);
    forall x | x != id ensures Placed(s', x) && Proper(s', x) && HasJoined(s', x) {
      assert Placed(s, x) && Proper(s, x) && HasJoined(s, x);
      WrittenLater(s.log, Finished(id, Data, !failed), x, if x in s.joinedAt then s.joinedAt[x] else 0);
      ProperLater(s, s', x, Finished(id, Data, !failed));
    }
  }

  lemma PlainEnded(s: Queue, id: Id, failed: bool)
    requires |s.lists| == 2 && Of(id) in s.taken && Placed(s, id) && Proper(s, id) && id in s.rqs && !s.rqs[id].flushSeq && id in s.trace
    ensures var s' := PlainEnd(DataReturned(s, id), id, failed); Placed(s', id) && Proper(s', id) && HasJoined(s', id)
  {
    hide Logs, Remaining;
    PlainSteps();
    LogsNone(s.log, id);
    LogsStep(s.log, id, [], Data, !failed);
    assert [] + [Data] == [Data];
  }

  /** What is recorded of a request stays in order while the log grows. */
  lemma ProperLater(s: Queue, s': Queue, x: Id, e: Event)
    requires Proper(s, x) && s'.log == s.log + [e]
    requires if x in s.rqs then x in s'.rqs && s'.rqs[x] == s.rqs[x] && (x in s.trace ==> x in s'.trace && s'.trace[x] == s.trace[x]) else x !in s'.rqs
    ensures Proper(s', x)
  {
    hide Logs, Remaining;
    LogsLater(s.log, e, x, if x in s.trace then s.trace[x] else []);
  }

  lemma PlainSteps()
    ensures Remaining(Bit(Data).Not()) == [Data]
  {
  }

  /** Data that comes back moves its request on, or ends it. */
  lemma DataEndSettled(s: Queue, id: Id, failed: bool, now: int, timeout: int)
    requires Settled(s) && Of(id) in s.taken
    ensures id in s.rqs && id in s.trace && Settled(DataEnd(s, id, failed, now, timeout))
  {
    hide Durable, Remaining, Written, CompleteSeq;
    assert Placed(s, id) && Proper(s, id);
    if s.rqs[id].flushSeq {
      DataReturnedLoose(s, id);
      var s1 := DataReturned(s, id);
      CompleteSeqOrderly(s1, id, failed, now, timeout, 0, 0, 0);
      CompletedLists(s1, id, failed, now, timeout);
    } else {
      PlainEndSettled(s, id, failed);
    }
  }

  /** What completing a step does to the lists: the request leaves them, and may join the pending one; and
      if that is done while nothing is in flight and the other list is empty, it stays empty. */
  lemma CompletedLists(s: Queue, id: Id, failed: bool, now: int, timeout: int)
    requires id in s.rqs && id in s.trace && Remaining(s.rqs[id].done) != [] && |s.lists| == 2 && 0 <= s.pending < 2 && 0 <= s.running < 2
    ensures var s' := CompleteSeq(s, id, Remaining(s.rqs[id].done)[0], failed, now, timeout);
            && s'.running == s.running && (s.pending != s.running ==> s'.pending == s.pending)
            && (s'.pending == s'.running && s.lists[1 - s.running] == [] ==> s'.lists[1 - s'.running] == [])
  {
    hide Remaining;
    var step := Remaining(s.rqs[id].done)[0];
    var s1 := Stepped(s, id, step, !failed);
    MovedRunning(s1, id, failed, now);
    assert s.lists[1 - s.running] == [] ==> Dropped(s.lists[1 - s.running], id) == [];
  }

  // --- a flush that comes back ---

  /** flush_end_io first accounts for the flush: the lists change roles again. */
  ghost function FlushReturned(s: Queue, failed: bool): Queue {
    s.(taken := s.taken - {FlushRq}, running := 1 - s.running, log := s.log + [Flushed(!failed)])
  }

  /** While the requests of the flush issued at i, which came back at f, are pushed on: those left are on the
      list that is not being flushed any more, in order, and all joined it before the flush was issued. */
  ghost predicate Pushing(s: Queue, rest: seq<Id>, i: nat, f: nat, failed: bool) {
    && Orderly(s, {}) && s.lists[1 - s.running] == rest && OneFlush(s.log, i, f, !failed)
    && forall id :: id in rest ==> id in s.joinedAt && s.joinedAt[id] < i
  }

  lemma FlushReturnedPushing(s: Queue, failed: bool)
    requires Settled(s) && FlushRq in s.taken
    ensures var s' := FlushReturned(s, failed);
            Pushing(s', s.lists[s.running], s.issuedAt, |s.log|, failed) && s.lists[s.running] != []
  {
    hide Durable, Remaining, Written, Logs;
    var s' := FlushReturned(s, failed);
    DurableLater(s.log, Flushed(!failed));
    forall x ensures Placed(s', x) && Proper(s', x) && HasJoined(s', x) {
      assert Placed(s, x) && Proper(s, x) && HasJoined(s, x);
      WrittenLater(s.log, Flushed(!failed), x, if x in s.joinedAt then s.joinedAt[x] else 0);
      LogsLater(s.log, Flushed(!failed), x, if x in s.trace then s.trace[x] else []);
    }
    assert s'.log[|s.log|] == Flushed(!failed);
  }

  /** The first request that is left is in its sequence before a flush step, and that flush covers it. */
  lemma PushReady(s: Queue, rest: seq<Id>, i: nat, f: nat, failed: bool)
    requires Pushing(s, rest, i, f, failed) && rest != []
    ensures var id := rest[0];
            && id in s.rqs && Loose(s, id, Remaining(s.rqs[id].done)) && Remaining(s.rqs[id].done) != []
            && s.trace[id] + Remaining(s.rqs[id].done) == Remaining(s.rqs[id].policy.Not())
            && Remaining(s.rqs[id].done)[0] != Data && id in s.joinedAt
            && Covered(s.log + [Finished(id, Remaining(s.rqs[id].done)[0], !failed)], |s.log|, s.joinedAt[id], i, f)
  {
    hide Durable, Remaining, Written, Logs;
    var id := rest[0];
    assert id in s.lists[1 - s.running];
    assert Placed(s, id) && Proper(s, id) && HasJoined(s, id);
    var e := Finished(id, Remaining(s.rqs[id].done)[0], !failed);
    WrittenLater(s.log, e, id, s.joinedAt[id]);
    assert (s.log + [e])[|s.log|] == e;
  }

  lemma OneFlushLater(log: seq<Event>, e: seq<Event>, i: nat, f: nat, ok: bool)
    requires OneFlush(log, i, f, ok)
    ensures OneFlush(log + e, i, f, ok)
  {
  }

  lemma DroppedFirst<T(!new)>(s: seq<T>)
    requires s != [] && Distinct(s)
    ensures Dropped(s, s[0]) == s[1..]
    decreases |s|
  {
    if |s| > 1 {
      var front, last := s[..|s| - 1], s[|s| - 1];
      DroppedFirst(front);
      assert front[0] == s[0] && last != s[0];
      assert Dropped(s, s[0]) == Dropped(front, s[0]) + [last];
      assert s[1..] == front[1..] + [last];
    }
  }

  /** What the pushing on of one request changes, when it does not have to wait for another flush. */
  lemma PushedParts(s: Queue, id: Id, failed: bool, now: int, timeout: int)
    requires id in s.rqs && id in s.trace && |s.lists| == 2 && 0 <= s.pending < 2 && Remaining(s.rqs[id].done) != []
    requires |Remaining(s.rqs[id].done)| > 1 ==> Remaining(s.rqs[id].done)[1] == Data
    ensures var s' := CompleteSeq(s, id, Remaining(s.rqs[id].done)[0], failed, now, timeout);
            && s'.lists == [Dropped(s.lists[0], id), Dropped(s.lists[1], id)] && s'.joinedAt == s.joinedAt && s'.running == s.running
            && exists e :: s'.log == s.log + e
  {
    hide Remaining, Dropped, Completed, Restored;
    var step := Remaining(s.rqs[id].done)[0];
    RemainingLess(s.rqs[id].done);
    var s1 := Stepped(s, id, step, !failed);
    MovedRunning(s1, id, failed, now);
    var s2 := Moved(s1, id, failed, now);
    var s3 := Kicked(s2, now, timeout);
    var e := [Finished(id, step, !failed)] + JoinedNext(s1.rqs[id].done, id, failed);
    assert s2.log == s.log + e;
    assert s3.log == s.log + e || s3.log == s.log + (e + [Issued]);
  }

  /** Pushing on the first request leaves the others, although a new flush may be issued on the way. */
  lemma PushedOn(s: Queue, rest: seq<Id>, i: nat, f: nat, failed: bool, now: int, timeout: int)
    requires Pushing(s, rest, i, f, failed) && rest != []
    ensures var id := rest[0];
            && id in s.rqs && id in s.trace && Remaining(s.rqs[id].done) != [] && Remaining(s.rqs[id].done)[0] != Data
            && (var s' := CompleteSeq(s, id, Remaining(s.rqs[id].done)[0], failed, now, timeout);
                Pushing(s', rest[1..], i, f, failed) && NoStall(s'))
  {
    hide Durable, Remaining, Written, CompleteSeq, Covered;
    PushReady(s, rest, i, f, failed);
    var id := rest[0];
    NeverTwice(s.rqs[id].policy, s.trace[id], Remaining(s.rqs[id].done));
    RemainingSecond(s.rqs[id].done);
    CompleteSeqOrderly(s, id, failed, now, timeout, s.joinedAt[id], i, f);
    PushedParts(s, id, failed, now, timeout);
    var s' := CompleteSeq(s, id, Remaining(s.rqs[id].done)[0], failed, now, timeout);
    var e :| s'.log == s.log + e;
    OneFlushLater(s.log, e, i, f, !failed);
    DroppedFirst(rest);
  }

  lemma RemainingSecond(done: Bits)
    ensures |Remaining(done)| > 1 && Remaining(done) != [Pre, Post] && Remaining(done)[0] != Data ==> Remaining(done)[1] == Data
  {
  }

  /** The loop of flush_end_io. */
  ghost function PushAll(s: Queue, rest: seq<Id>, i: nat, f: nat, failed: bool, now: int, timeout: int): (r: Queue)
    requires Pushing(s, rest, i, f, failed)
    ensures Pushing(r, [], i, f, failed) && (rest != [] || NoStall(s) ==> NoStall(r))
    decreases |rest|
  {
    if rest == [] then s
    else
      PushedOn(s, rest, i, f, failed, now, timeout);
      PushAll(CompleteSeq(s, rest[0], Remaining(s.rqs[rest[0]].done)[0], failed, now, timeout), rest[1..], i, f, failed, now, timeout)
  }

  ghost function FlushEnd(s: Queue, failed: bool, now: int, timeout: int): Queue
    requires Settled(s) && FlushRq in s.taken
  {
    FlushReturnedPushing(s, failed);
    PushAll(FlushReturned(s, failed), s.lists[s.running], s.issuedAt, |s.log|, failed, now, timeout)
  }

  lemma FlushEndSettled(s: Queue, failed: bool, now: int, timeout: int)
    requires Settled(s) && FlushRq in s.taken
    ensures Settled(FlushEnd(s, failed, now, timeout))
  {
    hide PushAll, OneFlush, Durable, Flushing;
    FlushReturnedPushing(s, failed);
  }

  /** What completing a step changes, but for the lists. */
  lemma CompleteSeqParts(s: Queue, id: Id, step: Step, failed: bool, now: int, timeout: int)
    requires |s.lists| == 2 && 0 <= s.pending < 2 && id in s.rqs && id in s.trace
    ensures var s', rq := CompleteSeq(s, id, step, failed, now, timeout), s.rqs[id].(done := s.rqs[id].done.Or(Bit(step)));
            var log := s.log + [Finished(id, step, !failed)] + JoinedNext(rq.done, id, failed);
            && s'.rqs == s.rqs[id := if failed || Remaining(rq.done) == [] then Completed(Restored(rq)).(over := true, failed := failed) else rq]
            && s'.trace == s.trace[id := if failed then s.trace[id] else s.trace[id] + [step]]
            && (s'.log == log || s'.log == log + [Issued]) && s'.taken == s.taken && |s'.queueHead| <= |s.queueHead| + 2
  {
    hide Remaining, Dropped, Completed, Restored;
    var s1 := Stepped(s, id, step, !failed);
    MovedRunning(s1, id, failed, now);
  }

  /** What the return of a flush, or of data, does to requests: those it was for fail with it, and no other changes. */
  ghost predicate Returned(s: Queue, ids: seq<Id>, failed: bool, s': Queue) {
    && s'.rqs.Keys == s.rqs.Keys
    && forall x :: x in s.rqs ==>
         && s'.rqs[x].policy == s.rqs[x].policy && (x !in ids ==> s'.rqs[x] == s.rqs[x])
         && if x in ids && failed then s'.rqs[x].over && s'.rqs[x].failed else s'.rqs[x].failed == s.rqs[x].failed
  }

  lemma CompleteSeqReturned(s: Queue, id: Id, step: Step, failed: bool, now: int, timeout: int)
    requires |s.lists| == 2 && 0 <= s.pending < 2 && id in s.rqs && id in s.trace && !s.rqs[id].failed
    ensures Returned(s, [id], failed, CompleteSeq(s, id, step, failed, now, timeout))
  {
    hide Remaining, CompleteSeq;
    CompleteSeqParts(s, id, step, failed, now, timeout);
  }

  lemma {:induction false} PushAllReturned(s: Queue, rest: seq<Id>, i: nat, f: nat, failed: bool, now: int, timeout: int)
    requires Pushing(s, rest, i, f, failed) && forall x :: x in rest && x in s.rqs ==> !s.rqs[x].failed
    ensures Returned(s, rest, failed, PushAll(s, rest, i, f, failed, now, timeout))
    decreases |rest|
  {
    hide CompleteSeq, Pushing, Remaining;
    if rest != [] {
      PushedOn(s, rest, i, f, failed, now, timeout);
      PushingDistinct(s, rest, i, f, failed);
      var step := Remaining(s.rqs[rest[0]].done)[0];
      CompleteSeqReturned(s, rest[0], step, failed, now, timeout);
      var s1 := CompleteSeq(s, rest[0], step, failed, now, timeout);
      PushAllReturned(s1, rest[1..], i, f, failed, now, timeout);
      assert rest == [rest[0]] + rest[1..];
    }
  }

  lemma PushingDistinct(s: Queue, rest: seq<Id>, i: nat, f: nat, failed: bool)
    requires Pushing(s, rest, i, f, failed) && rest != []
    ensures |s.lists| == 2 && 0 <= s.pending < 2 && rest[0] !in rest[1..]
  {
    hide Durable, OneFlush, Flushing, Placed, Proper, HasJoined;
    assert forall j :: 0 < j < |rest| ==> rest[0] != rest[j];
  }

  lemma DataEndReturned(s: Queue, id: Id, failed: bool, now: int, timeout: int)
    requires Settled(s) && Of(id) in s.taken && id in s.rqs && id in s.trace
    ensures |s.lists| == 2 && 0 <= s.pending < 2
    ensures Returned(s, [id], failed, DataEnd(s, id, failed, now, timeout)) && Of(id) !in DataEnd(s, id, failed, now, timeout).taken
  {
    hide Settled, Remaining, CompleteSeq;
    NotFailed(s, id);
    var s1 := DataReturned(s, id);
    if s.rqs[id].flushSeq {
      CompleteSeqReturned(s1, id, Data, failed, now, timeout);
      CompleteSeqParts(s1, id, Data, failed, now, timeout);
    }
  }

  lemma NotFailed(s: Queue, id: Id)
    requires Settled(s) && Of(id) in s.taken && id in s.rqs
    ensures |s.lists| == 2 && 0 <= s.pending < 2 && !s.rqs[id].failed
  {
    hide Durable, Flushing, HasJoined, Logs, Remaining;
    assert Placed(s, id) && Proper(s, id);
  }

  // --- inserting a request ---

  function NewRq(policy: Bits, flushSeq: bool): Rq {
    Rq(policy, policy.Not(), flushSeq, true, 0, false, false)
  }

  ghost function Added(s: Queue, id: Id, rq: Rq): Queue {
    s.(rqs := s.rqs[id := rq], trace := s.trace[id := []])
  }

  /** blk_insert_flush: a request that needs nothing is completed at once; one that needs no flush goes to the
      dispatch queue; any other enters its sequence. */
  ghost function Inserted(s: Queue, id: Id, policy: Bits, now: int, timeout: int): Queue
    requires |s.lists| == 2 && 0 <= s.pending < 2
  {
    if policy == Bits(false, false, false) then Added(s, id, Completed(NewRq(policy, false)).(over := true))
    else if policy == Bit(Data)
      then Added(s, id, NewRq(policy, false)).(queueHead := s.queueHead + [Of(id)], log := s.log + [Joined(id, Data)])
    else Kicked(Moved(Added(s, id, NewRq(policy, true)), id, false, now), now, timeout)
  }

  /** The ways of a new request, by its flags: into a flush sequence if a flush is needed, to the end of the dispatch
      queue if it only has data, and otherwise it is over at once. */
  ghost predicate Way(s: Queue, id: Id, ask: Ask, s': Queue) {
    var flushes := ask.canFlush && (ask.flush || (ask.fua && !ask.canFua));
    && id in s'.rqs && (s'.rqs[id].over <==> !flushes && ask.sectors == 0) && (s'.rqs[id].flushSeq <==> flushes)
    && (!flushes ==> s'.queueHead == s.queueHead + (if ask.sectors > 0 then [Of(id)] else []) && s'.lists == s.lists)
  }

  lemma InsertedWay(s: Queue, id: Id, ask: Ask, now: int, timeout: int)
    requires |s.lists| == 2 && 0 <= s.pending < 2
    ensures Way(s, id, ask, Inserted(s, id, Policy(ask), now, timeout))
  {
    var policy := Policy(ask);
    if policy.pre || policy.post {
      SequencedWay(s, id, policy, now, timeout);
    } else {
      assert policy == Bits(false, false, false) || policy == Bit(Data);
      assert s.queueHead + [] == s.queueHead;
    }
  }

  lemma SequencedWay(s: Queue, id: Id, policy: Bits, now: int, timeout: int)
    requires |s.lists| == 2 && 0 <= s.pending < 2 && (policy.pre || policy.post)
    ensures var s' := Inserted(s, id, policy, now, timeout); id in s'.rqs && !s'.rqs[id].over && s'.rqs[id].flushSeq
  {
    hide Dropped;
    assert Remaining(policy.Not()) != [];
  }

  lemma DirectSettled(s: Queue, id: Id, policy: Bits, now: int, timeout: int)
    requires Settled(s) && id !in s.rqs && (policy == Bits(false, false, false) || policy == Bit(Data))
    ensures Settled(Inserted(s, id, policy, now, timeout))
  {
    hide Durable, Written, Logs;
    var s' := Inserted(s, id, policy, now, timeout);
    assert Placed(s, id);
    DistinctEnd(s.queueHead, Of(id));
    DurableLater(s.log, Joined(id, Data));
    LogsNone(s'.log, id);
    forall x ensures Placed(s', x) && Proper(s', x) && HasJoined(s', x) {
      assert Placed(s, x) && Proper(s, x) && HasJoined(s, x);
      WrittenLater(s.log, Joined(id, Data), x, if x in s.joinedAt then s.joinedAt[x] else 0);
      LogsLater(s.log, Joined(id, Data), x, if x in s.trace then s.trace[x] else []);
    }
  }

  lemma AddedLoose(s: Queue, id: Id, policy: Bits)
    requires Settled(s) && id !in s.rqs && (policy.post ==> policy.data)
    ensures var s' := Added(s, id, NewRq(policy, true)); Loose(s', id, Remaining(policy.Not()))
  {
    hide Durable, Written, Remaining, Logs;
    var s' := Added(s, id, NewRq(policy, true));
    assert Placed(s, id);
    LogsNone(s.log, id);
    forall x | x != id ensures Placed(s', x) && Proper(s', x) && HasJoined(s', x) {
      assert Placed(s, x) && Proper(s, x) && HasJoined(s, x);
    }
  }

  lemma SequencedLists(s: Queue, id: Id, now: int, timeout: int)
    requires id in s.rqs && |s.lists| == 2 && 0 <= s.pending < 2 && 0 <= s.running < 2
    ensures var s' := Kicked(Moved(s, id, false, now), now, timeout);
            && s'.running == s.running && (s.pending != s.running ==> s'.pending == s.pending)
            && (s'.pending == s'.running && s.lists[1 - s.running] == [] ==> s'.lists[1 - s'.running] == [])
  {
    hide Remaining;
    assert s.lists[1 - s.running] == [] ==> Dropped(s.lists[1 - s.running], id) == [];
  }

  lemma InsertedSettled(s: Queue, id: Id, policy: Bits, now: int, timeout: int)
    requires Settled(s) && id !in s.rqs && (policy.post ==> policy.data)
    ensures Settled(Inserted(s, id, policy, now, timeout))
  {
    hide Durable, Written, Kicked, Moved, Orderly, Placed, Proper, HasJoined;
    if policy == Bits(false, false, false) || policy == Bit(Data) {
      DirectSettled(s, id, policy, now, timeout);
    } else {
      OrderlyShape(s);
      AddedLoose(s, id, policy);
      var s1 := Added(s, id, NewRq(policy, true));
      assert s1.trace[id] + Remaining(policy.Not()) == Remaining(policy.Not());
      FirstStep(policy);
      MovedOrderly(s1, id, now);
      MovedRunning(s1, id, false, now);
      KickedOrderly(Moved(s1, id, false, now), now, timeout);
      SequencedLists(s1, id, now, timeout);
      OrderlyShape(Inserted(s, id, policy, now, timeout));
    }
  }

  lemma FirstStep(policy: Bits)
    requires policy.post ==> policy.data
    ensures Remaining(policy.Not()) != [Post] && Remaining(policy.Not()) != [Pre, Post]
  {
    var r := Remaining(policy.Not());
    if policy.data {
      assert r[if policy.pre then 1 else 0] == Data;
    } else {
      assert r == if policy.pre then [Pre] else [];
    }
  }

  lemma OrderlyShape(s: Queue)
    requires Orderly(s, {})
    ensures |s.lists| == 2 && 0 <= s.pending < 2 && 0 <= s.running < 2 && (InFlight(s) <==> s.pending != s.running)
  {
  }

  // --- whole runs ---

  datatype Act = Insert(id: Id, ask: Ask) | Take | EndData(id: Id, failed: bool) | EndFlush(failed: bool)

  ghost function Empty(): Queue {
    Queue(map[], [[], []], 0, 0, [], [], {}, 0, map[], [], map[], 0)
  }

  /** An entry point can be called: a new request that has data if it has FUA, an item in the dispatch queue, or
      something that the driver has. */
  ghost predicate Enabled(s: Queue, a: Act) {
    match a
    case Insert(id, ask) => id !in s.rqs && (ask.fua ==> ask.sectors > 0)
    case Take => s.queueHead != []
    case EndData(id, _) => Of(id) in s.taken
    case EndFlush(_) => FlushRq in s.taken
  }

  /** A call leads from s to s', wherever the call is defined. */
  ghost predicate Acts(s: Queue, a: Act, now: int, timeout: int, s': Queue) {
    && Enabled(s, a)
    && match a
       case Insert(id, ask) => |s.lists| == 2 && 0 <= s.pending < 2 ==> s' == Inserted(s, id, Policy(ask), now, timeout)
       case Take => s' == Taken(s)
       case EndData(id, failed) =>
         |s.lists| == 2 && 0 <= s.pending < 2 && id in s.rqs && id in s.trace ==> s' == DataEnd(s, id, failed, now, timeout)
       case EndFlush(failed) => Settled(s) ==> s' == FlushEnd(s, failed, now, timeout)
  }

  /** A sequence of states in which each follows from the one before by a call at some time. */
  ghost predicate Run(states: seq<Queue>, acts: seq<Act>, times: seq<int>, timeout: int) {
    && |states| == |acts| + 1 && |times| == |acts| && states[0] == Empty()
    && forall k :: 0 <= k < |acts| ==> Acts(states[k], acts[k], times[k], timeout, states[k + 1])
  }

  lemma ActSettled(s: Queue, a: Act, now: int, timeout: int, s': Queue)
    requires Settled(s) && Acts(s, a, now, timeout, s')
    ensures Settled(s')
  {
    hide Settled;
    SettledShape(s);
    match a
    case Insert(id, ask) => InsertedSettled(s, id, Policy(ask), now, timeout);
    case Take => TakenSettled(s);
    case EndData(id, failed) => DataEndSettled(s, id, failed, now, timeout);
    case EndFlush(failed) => FlushEndSettled(s, failed, now, timeout);
  }

  lemma {:induction false} RunSettled(states: seq<Queue>, acts: seq<Act>, times: seq<int>, timeout: int)
    requires Run(states, acts, times, timeout)
    ensures Settled(states[|acts|])
    decreases |acts|
  {
    hide Settled, Acts, Empty;
    if acts == [] {
      EmptySettled();
    } else {
      var k := |acts| - 1;
      RunSettled(states[..k + 1], acts[..k], times[..k], timeout);
      ActSettled(states[k], acts[k], times[k], timeout, states[k + 1]);
    }
  }

  /** In every state of every run: every flush step that was done was covered by a flush issued after the
      request had joined (and, for the last one, after its data was written); a request that is over has done
      the steps of its policy in order, or the first ones if one failed, and its bio was ended once, and not
      before; a flush is in flight exactly if the two indices differ; and no request waits for nothing. */
  lemma RunSafe(states: seq<Queue>, acts: seq<Act>, times: seq<int>, timeout: int)
    requires Run(states, acts, times, timeout)
    ensures var s := states[|acts|];
            && Settled(s) && Durable(s.log) && (InFlight(s) <==> s.pending != s.running) && NoStall(s)
            && forall id :: id in s.rqs ==>
                 && s.rqs[id].ended == (if s.rqs[id].over then 1 else 0) && id in s.trace
                 && (s.rqs[id].over && !s.rqs[id].failed ==> s.trace[id] == Remaining(s.rqs[id].policy.Not()))
                 && (s.rqs[id].over && s.rqs[id].failed ==> s.trace[id] <= Remaining(s.rqs[id].policy.Not()))
  {
    hide Remaining, Durable, Flushing;
    RunSettled(states, acts, times, timeout);
    var s := states[|acts|];
    forall id | id in s.rqs
      ensures && s.rqs[id].ended == (if s.rqs[id].over then 1 else 0) && id in s.trace
              && (s.rqs[id].over && !s.rqs[id].failed ==> s.trace[id] == Remaining(s.rqs[id].policy.Not()))
              && (s.rqs[id].over && s.rqs[id].failed ==> s.trace[id] <= Remaining(s.rqs[id].policy.Not()))
    {
      assert Proper(s, id);
    }
  }

  /** A request that is over without an error and needed its last flush: its data was written, then it joined a
      list, then a flush was issued, and that flush came back without an error. */
  lemma DataDurable(s: Queue, id: Id)
    requires Settled(s) && id in s.rqs && s.rqs[id].over && !s.rqs[id].failed && s.rqs[id].policy.post
    ensures exists k: nat, j: nat, i: nat, f: nat :: Covered(s.log, k, j, i, f) && s.log[k] == Finished(id, Post, true) && Written(s.log, id, j)
  {
    hide Flushing, Shaped, Placed, HasJoined;
    assert Proper(s, id);
    var plan := Remaining(s.rqs[id].policy.Not());
    assert plan[|plan| - 1] == Post && Post in s.trace[id];
    assert Done(s.log, id, Post);
    var k: nat :| k < |s.log| && s.log[k] == Finished(id, Post, true);
    var j: nat, i: nat, f: nat :| Covered(s.log, k, j, i, f);
  }

  lemma EmptySettled()
    ensures Settled(Empty())
  {
    forall x ensures Placed(Empty(), x) && Proper(Empty(), x) && HasJoined(Empty(), x) {
    }
  }

  // --- every run comes to an end ---

  /** The steps that a request still has to do. */
  ghost function Open(rq: Rq): set<Step> {
    if rq.over then {} else set step | step in Remaining(rq.done)
  }

  ghost function Outstanding(rqs: map<Id, Rq>): set<(Id, Step)> {
    set id, step | id in rqs && step in Open(rqs[id]) :: (id, step)
  }

  /** What is left to do: three for each step, which may put a request and a flush into the dispatch queue when it is
      done, and one for each item there. */
  ghost function Work(s: Queue): nat {
    3 * |Outstanding(s.rqs)| + |s.queueHead|
  }

  lemma {:induction false} SmallerSet<T>(a: set<T>, b: set<T>)
    requires a <= b
    ensures |a| <= |b|
  {
    if x :| x in a {
      SmallerSet(a - {x}, b - {x});
    }
  }

  /** A step of one request is done, and nothing is added. */
  lemma FewerOutstanding(rqs: map<Id, Rq>, rqs': map<Id, Rq>, id: Id, step: Step)
    requires rqs'.Keys == rqs.Keys && id in rqs && (forall x :: x in rqs && x != id ==> rqs'[x] == rqs[x])
    requires step in Open(rqs[id]) && Open(rqs'[id]) <= Open(rqs[id]) - {step}
    ensures |Outstanding(rqs')| < |Outstanding(rqs)|
  {
    hide Open;
    var a, b := Outstanding(rqs'), Outstanding(rqs);
    assert (id, step) in b;
    SmallerSet(a, b - {(id, step)});
  }

  lemma SameOutstanding(rqs: map<Id, Rq>, id: Id, rq: Rq)
    requires id in rqs && Open(rq) == Open(rqs[id])
    ensures Outstanding(rqs[id := rq]) == Outstanding(rqs)
  {
    hide Open;
  }

  /** The request that goes on has one step less, and at most two items are added to the dispatch queue. */
  lemma CompleteSeqWork(s: Queue, id: Id, failed: bool, now: int, timeout: int)
    requires |s.lists| == 2 && 0 <= s.pending < 2 && id in s.rqs && id in s.trace && Live(s, id)
    ensures Work(CompleteSeq(s, id, Next(s, id), failed, now, timeout)) < Work(s)
  {
    hide Remaining, Outstanding, CompleteSeq;
    CompleteSeqParts(s, id, Next(s, id), failed, now, timeout);
    var s' := CompleteSeq(s, id, Next(s, id), failed, now, timeout);
    RemainingLess(s.rqs[id].done);
    StepGone(s.rqs[id].done);
    FewerOutstanding(s.rqs, s'.rqs, id, Next(s, id));
  }

  lemma StepGone(done: Bits)
    requires Remaining(done) != []
    ensures var rest := Remaining(done); rest[0] !in rest[1..] && forall x :: x in rest[1..] ==> x in rest
  {
  }

  lemma {:induction false} PushAllWork(s: Queue, rest: seq<Id>, i: nat, f: nat, failed: bool, now: int, timeout: int)
    requires Pushing(s, rest, i, f, failed)
    ensures Work(PushAll(s, rest, i, f, failed, now, timeout)) + |rest| <= Work(s)
    decreases |rest|
  {
    hide Work, CompleteSeq, Pushing, Remaining;
    if rest != [] {
      PushedOn(s, rest, i, f, failed, now, timeout);
      PushingLive(s, rest, i, f, failed);
      CompleteSeqWork(s, rest[0], failed, now, timeout);
      PushAllWork(CompleteSeq(s, rest[0], Next(s, rest[0]), failed, now, timeout), rest[1..], i, f, failed, now, timeout);
    }
  }

  lemma PushingLive(s: Queue, rest: seq<Id>, i: nat, f: nat, failed: bool)
    requires Pushing(s, rest, i, f, failed) && rest != []
    ensures |s.lists| == 2 && 0 <= s.pending < 2 && Live(s, rest[0])
  {
    hide Durable, Remaining, OneFlush, Flushing, HasJoined, Proper;
    assert rest[0] in s.lists[1 - s.running];
    assert Placed(s, rest[0]);
  }

  lemma DataEndWork(s: Queue, id: Id, failed: bool, now: int, timeout: int)
    requires Settled(s) && Of(id) in s.taken && id in s.rqs && id in s.trace
    ensures |s.lists| == 2 && 0 <= s.pending < 2 && Work(DataEnd(s, id, failed, now, timeout)) < Work(s)
  {
    hide Durable, Remaining, OneFlush, Flushing, HasJoined, Outstanding, CompleteSeq, Logs;
    assert Placed(s, id);
    assert Live(s, id) && Next(s, id) == Data;
    var s1 := DataReturned(s, id);
    SameOutstanding(s.rqs, id, s1.rqs[id]);
    if s.rqs[id].flushSeq {
      CompleteSeqWork(s1, id, failed, now, timeout);
    } else {
      FewerOutstanding(s.rqs, PlainEnd(s1, id, failed).rqs, id, Data);
    }
  }

  /** Every call of the driver leaves less to do. */
  lemma ActWork(s: Queue, a: Act, now: int, timeout: int, s': Queue)
    requires Settled(s) && Acts(s, a, now, timeout, s') && !a.Insert?
    ensures Work(s') < Work(s)
  {
    hide Settled, Outstanding, PushAll, DataEnd;
    match a
    case Take =>
    case EndData(id, failed) =>
      DataEndSettled(s, id, failed, now, timeout);
      DataEndWork(s, id, failed, now, timeout);
    case EndFlush(failed) =>
      FlushReturnedPushing(s, failed);
      SettledShape(s);
      PushAllWork(FlushReturned(s, failed), s.lists[s.running], s.issuedAt, |s.log|, failed, now, timeout);
  }

  /** While a request is not over, the driver has something to take or to return. */
  lemma NeverStuck(s: Queue, id: Id)
    requires Settled(s) && id in s.rqs && !s.rqs[id].over
    ensures s.queueHead != [] || s.taken != {}
  {
    hide Durable, OneFlush, Flushing, HasJoined, Logs;
    assert Placed(s, id) && Proper(s, id);
    if !s.rqs[id].flushSeq {
      assert Remaining(Bit(Data).Not()) == [Data];
      assert |Remaining(s.rqs[id].done)| == 1;
      assert (s.trace[id] + Remaining(s.rqs[id].done))[0] == Data;
    } else if Next(s, id) != Data && !InFlight(s) {
      assert s.dataInFlight != [] && s.dataInFlight[0] in s.dataInFlight;
      assert Placed(s, s.dataInFlight[0]);
    }
  }

  /** From any state of a run on, without new requests the calls are at most as many as there is work left; and where
      the driver has nothing left to take or to return, every request is over. */
  lemma {:induction false} RunEnds(states: seq<Queue>, acts: seq<Act>, times: seq<int>, timeout: int, k: nat)
    requires Run(states, acts, times, timeout) && k <= |acts| && forall j :: k <= j < |acts| ==> !acts[j].Insert?
    ensures |acts| - k + Work(states[|acts|]) <= Work(states[k])
    ensures var s := states[|acts|]; s.queueHead == [] && s.taken == {} ==> forall id :: id in s.rqs ==> s.rqs[id].over
    decreases |acts|
  {
    hide Settled, Acts, Work, Empty;
    RunSettled(states, acts, times, timeout);
    var s := states[|acts|];
    forall id | id in s.rqs && !s.rqs[id].over ensures s.queueHead != [] || s.taken != {} {
      NeverStuck(s, id);
    }
    if k < |acts| {
      var n := |acts| - 1;
      RunEnds(states[..n + 1], acts[..n], times[..n], timeout, k);
      RunSettled(states[..n + 1], acts[..n], times[..n], timeout);
      ActWork(states[n], acts[n], times[n], timeout, states[n + 1]);
    }
  }

  // --- the queue in place ---

  class FlushQueue {
    var rqs: map<Id, Rq>
    var lists: seq<seq<Id>>
    var pending: int
    var running: int
    var dataInFlight: seq<Id>
    var queueHead: seq<Item>
    var taken: set<Item>
    var since: int
    const timeout: int

    ghost var trace: map<Id, seq<Step>>
    ghost var log: seq<Event>
    ghost var joinedAt: map<Id, nat>
    ghost var issuedAt: nat

    constructor (timeout: int)
      ensures Now() == Empty() && Settled(Now())
    {
      this.timeout := timeout;
      rqs, lists, pending, running, dataInFlight, queueHead, taken, since := map[], [[], []], 0, 0, [], [], {}, 0;
      trace, log, joinedAt, issuedAt := map[], [], map[], 0;
      new;
      EmptySettled();
    }

    ghost function Now(): Queue
      reads this
    {
      Queue(rqs, lists, pending, running, dataInFlight, queueHead, taken, since, trace, log, joinedAt, issuedAt)
    }

    method KickFlush(now: int) returns (issued: bool)
      requires |lists| == 2 && 0 <= pending < 2
      modifies this
      ensures Now() == Kicked(old(Now()), now, timeout)
      ensures issued <==> old(pending) == old(running) && old(lists[pending]) != [] && (old(dataInFlight) == [] || now >= old(since) + timeout)
      ensures issued ==> pending == 1 - old(pending) && queueHead == old(queueHead) + [FlushRq] && log == old(log) + [Issued]
      ensures !issued ==> Now() == old(Now())
    {
      if pending != running || lists[pending] == [] {
        return false;
      }
      if dataInFlight != [] && now < since + timeout {
        return false;
      }
      issuedAt, log := |log|, log + [Issued];
      pending := 1 - pending;
      queueHead := queueHead + [FlushRq];
      issued := true;
    }

    method Unlist(id: Id)
      requires |lists| == 2
      modifies this`lists, this`dataInFlight
      ensures Now() == Unlisted(old(Now()), id)
    {
      lists := [Dropped(lists[0], id), Dropped(lists[1], id)];
      dataInFlight := Dropped(dataInFlight, id);
    }

    /** The switch of blk_flush_complete_seq: the request is over, goes to the head of the dispatch queue, or waits last
        on the pending list, since now if it is the first one there; true if it was added to the dispatch queue. */
    method MoveOn(id: Id, failed: bool, now: int) returns (queued: bool)
      requires |lists| == 2 && 0 <= pending < 2 && id in rqs
      modifies this
      ensures Now() == Moved(old(Now()), id, failed, now) && pending == old(pending)
      ensures var rest := Remaining(old(rqs)[id].done);
              if failed || rest == [] then id in rqs && rqs[id].over && rqs[id].failed == failed && queueHead == old(queueHead) && !queued
              else if rest[0] == Data then
                queueHead == [Of(id)] + old(queueHead) && dataInFlight == Dropped(old(dataInFlight), id) + [id] && queued
              else
                var list := Dropped(old(lists[pending]), id);
                lists[pending] == list + [id] && since == (if list == [] then now else old(since)) && queueHead == old(queueHead) && !queued
    {
      hide Remaining, Dropped, Completed, Restored;
      var rest := Remaining(rqs[id].done);
      queued := false;
      Unlist(id);
      if failed || rest == [] {
        rqs := rqs[id := Completed(Restored(rqs[id])).(over := true, failed := failed)];
      } else if rest[0] == Data {
        dataInFlight := dataInFlight + [id];
        queueHead := [Of(id)] + queueHead;
        log := log + [Joined(id, Data)];
        queued := true;
      } else {
        if lists[pending] == [] {
          since := now;
        }
        lists := lists[pending := lists[pending] + [id]];
        joinedAt, log := joinedAt[id := |log|], log + [Joined(id, rest[0])];
      }
    }

    /** Records steps as done and moves the request on; true if something was added to the dispatch queue. */
    method CompleteSteps(id: Id, mask: Bits, failed: bool, now: int) returns (queued: bool)
      requires |lists| == 2 && 0 <= pending < 2 && id in rqs && !rqs[id].done.Meets(mask)
      modifies this
      ensures var s := old(Now()).(rqs := old(rqs)[id := old(rqs)[id].(done := old(rqs)[id].done.Or(mask))]);
              Now() == Kicked(Moved(s, id, failed, now), now, timeout)
      ensures queued <==> |queueHead| > |old(queueHead)|
    {
      hide Remaining, Kicked, Moved, Dropped;
      rqs := rqs[id := rqs[id].(done := rqs[id].done.Or(mask))];
      queued := MoveOn(id, failed, now);
      MovedShape(old(Now()).(rqs := old(rqs)[id := old(rqs)[id].(done := old(rqs)[id].done.Or(mask))]), id, failed, now);
      var issued := KickFlush(now);
      queued := queued || issued;
    }

    /** The driver takes the next item. */
    method Fetch() returns (item: Item)
      requires Settled(Now()) && queueHead != []
      modifies this
      ensures Settled(Now()) && Now() == Taken(old(Now())) && item == old(queueHead[0])
    {
      TakenSettled(Now());
      item := queueHead[0];
      queueHead, taken := queueHead[1..], taken + {item};
    }

    /** A step of a request is done. */
    method CompleteStep(id: Id, step: Step, failed: bool, now: int) returns (queued: bool)
      requires |lists| == 2 && 0 <= pending < 2 && id in rqs && id in trace && !rqs[id].done.Meets(Bit(step))
      modifies this
      ensures Now() == CompleteSeq(old(Now()), id, step, failed, now, timeout)
    {
      hide Kicked, Moved;
      trace, log := trace[id := if failed then trace[id] else trace[id] + [step]], log + [Finished(id, step, !failed)];
      queued := CompleteSteps(id, Bit(step), failed, now);
    }

    /** blk_insert_flush, for a request that has data if it has FUA. */
    method InsertFlush(id: Id, ask: Ask, now: int)
      requires Settled(Now()) && id !in rqs && (ask.fua ==> ask.sectors > 0)
      modifies this
      ensures Settled(Now()) && Now() == Inserted(old(Now()), id, Policy(ask), now, timeout)
      ensures Way(old(Now()), id, ask, Now())
    {
      hide Settled, Kicked, Moved, Way;
      var policy := Policy(ask);
      SettledShape(Now());
      InsertedWay(Now(), id, ask, now, timeout);
      InsertedSettled(Now(), id, policy, now, timeout);
      trace := trace[id := []];
      if policy == Bits(false, false, false) {
        rqs := rqs[id := Completed(NewRq(policy, false)).(over := true)];
      } else if policy == Bit(Data) {
        rqs := rqs[id := NewRq(policy, false)];
        queueHead := queueHead + [Of(id)];
        log := log + [Joined(id, Data)];
      } else {
        rqs := rqs[id := NewRq(policy, true).(done := Bits(false, false, false))];
        ghost var s := Now();
        var _ := CompleteSteps(id, policy.Not(), false, now);
        assert s.rqs[id].done.Or(policy.Not()) == policy.Not();
        assert s.rqs[id := s.rqs[id].(done := policy.Not())] == old(rqs)[id := NewRq(policy, true)];
      }
    }

    /** The driver completes the data of a request; in a flush sequence end_io is flush_data_end_io. */
    method CompleteData(id: Id, failed: bool, now: int)
      requires Settled(Now()) && Of(id) in taken
      modifies this
      ensures Settled(Now()) && id in old(rqs) && id in old(trace) && Now() == DataEnd(old(Now()), id, failed, now, timeout)
      ensures Of(id) !in taken && Returned(old(Now()), [id], failed, Now())
    {
      hide Settled, CompleteSeq, Remaining, Returned;
      DataEndSettled(Now(), id, failed, now, timeout);
      DataEndReturned(Now(), id, failed, now, timeout);
      DataNotDone(Now(), id);
      SettledShape(Now());
      taken := taken - {Of(id)};
      rqs := rqs[id := Completed(rqs[id])];
      if rqs[id].flushSeq {
        var _ := CompleteStep(id, Data, failed, now);
      } else {
        rqs := rqs[id := rqs[id].(over := true, failed := failed)];
        trace, log := trace[id := if failed then [] else [Data]], log + [Finished(id, Data, !failed)];
      }
    }

    /** flush_end_io: the flush has come back, and the requests it was for are pushed on. */
    method CompleteFlush(failed: bool, now: int)
      requires Settled(Now()) && FlushRq in taken
      modifies this
      ensures Settled(Now()) && Now() == FlushEnd(old(Now()), failed, now, timeout)
      ensures |old(lists)| == 2 && 0 <= old(running) < 2 && Returned(old(Now()), old(lists[running]), failed, Now())
    {
      hide Settled, Pushing, CompleteSeq, Remaining, NoStall;
      FlushEndSettled(Now(), failed, now, timeout);
      FlushReturnedPushing(Now(), failed);
      SettledShape(Now());
      assert pending != running by {
        SettledIndices(Now());
      }
      var rest := lists[running];
      ghost var i, f := issuedAt, |log|;
      taken, running, log := taken - {FlushRq}, 1 - running, log + [Flushed(!failed)];
      ghost var end := PushAll(Now(), rest, i, f, failed, now, timeout);
      ghost var s0 := Now();
      PushedFailed(s0, rest, i, f, failed);
      PushAllReturned(s0, rest, i, f, failed, now, timeout);
      while rest != []
        invariant Pushing(Now(), rest, i, f, failed) && PushAll(Now(), rest, i, f, failed, now, timeout) == end
      {
        ghost var s := Now();
        PushedOn(s, rest, i, f, failed, now, timeout);
        PushingShape(s, rest, i, f, failed);
        var id := rest[0];
        var step := Remaining(rqs[id].done)[0];
        RemainingLess(rqs[id].done);
        var _ := CompleteStep(id, step, failed, now);
        rest := rest[1..];
      }
    }
  }

  lemma MovedShape(s: Queue, id: Id, failed: bool, now: int)
    requires |s.lists| == 2 && 0 <= s.pending < 2 && id in s.rqs
    ensures var s' := Moved(s, id, failed, now); |s'.lists| == 2 && s'.pending == s.pending
  {
  }

  lemma SettledShape(s: Queue)
    requires Settled(s)
    ensures |s.lists| == 2 && 0 <= s.pending < 2 && 0 <= s.running < 2
  {
  }

  /** No request that is still pushed on has failed before. */
  lemma PushedFailed(s: Queue, rest: seq<Id>, i: nat, f: nat, failed: bool)
    requires Pushing(s, rest, i, f, failed)
    ensures forall x :: x in rest && x in s.rqs ==> !s.rqs[x].failed
  {
    hide Durable, OneFlush, Flushing, HasJoined, Remaining, Logs;
    forall x | x in rest && x in s.rqs ensures !s.rqs[x].failed {
      assert x in s.lists[1 - s.running];
      assert Placed(s, x) && Proper(s, x);
    }
  }

  lemma SettledIndices(s: Queue)
    requires Settled(s) && FlushRq in s.taken
    ensures s.pending != s.running
  {
  }

  lemma PushingShape(s: Queue, rest: seq<Id>, i: nat, f: nat, failed: bool)
    requires Pushing(s, rest, i, f, failed)
    ensures |s.lists| == 2 && 0 <= s.pending < 2 && 0 <= s.running < 2
  {
  }

  /** The driver has the data of a request only while that step is not done. */
  lemma DataNotDone(s: Queue, id: Id)
    requires Settled(s) && Of(id) in s.taken
    ensures id in s.rqs && id in s.trace && !s.rqs[id].done.data
  {
    assert Placed(s, id) && Proper(s, id);
  }
}
