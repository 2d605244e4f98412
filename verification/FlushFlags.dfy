/** What the flags of a request promise: in every run a request gets the flushes that it asks for and the device needs,
each at its place before or after the data, and no others. */
module FlushFlags {
  import opened Flush

  // --- what the log tells of one request ---

  ghost predicate Mine(e: Event, id: Id) {
    (e.Joined? || e.Finished?) && e.id == id
  }

  /** The events of a request, in order. */
  ghost function Told(log: seq<Event>, id: Id): seq<Event> {
    if log == [] then []
    else
      var n := |log| - 1;
      Told(log[..n], id) + if Mine(log[n], id) then [log[n]] else []
  }

  lemma ToldNext(log: seq<Event>, e: Event, id: Id)
    ensures Told(log + [e], id) == Told(log, id) + if Mine(e, id) then [e] else []
  {
    assert (log + [e])[..|log|] == log;
  }

  /** What was told up to an event is the first part of all that is told. */
  lemma {:induction false} ToldPrefix(log: seq<Event>, id: Id, k: nat)
    requires k < |log| && Mine(log[k], id)
    ensures Told(log[..k], id) + [log[k]] <= Told(log, id)
    decreases |log|
  {
    var n := |log| - 1;
    if k < n {
      ToldPrefix(log[..n], id, k);
      assert log[..n][..k] == log[..k];
    }
  }

  lemma {:induction false} ToldLogged(log: seq<Event>, id: Id, e: Event)
    requires e in Told(log, id)
    ensures Mine(e, id) && exists k :: 0 <= k < |log| && log[k] == e
    decreases |log|
  {
    var n := |log| - 1;
    if e in Told(log[..n], id) {
      ToldLogged(log[..n], id, e);
      var k :| 0 <= k < n && log[..n][k] == e;
      assert log[k] == e;
    } else {
      assert log[n] == e;
    }
  }

  /** The events of a request that did the steps. */
  ghost function Story(id: Id, steps: seq<Step>): seq<Event> {
    if steps == [] then []
    else
      var n := |steps| - 1;
      Story(id, steps[..n]) + [Joined(id, steps[n]), Finished(id, steps[n], true)]
  }

  lemma {:induction false} StoryAt(id: Id, steps: seq<Step>, i: nat)
    requires i < |steps|
    ensures |Story(id, steps)| == 2 * |steps|
    ensures Story(id, steps)[2 * i] == Joined(id, steps[i]) && Story(id, steps)[2 * i + 1] == Finished(id, steps[i], true)
    decreases |steps|
  {
    var n := |steps| - 1;
    StorySize(id, steps[..n]);
    if i < n {
      StoryAt(id, steps[..n], i);
    }
  }

  lemma {:induction false} StorySize(id: Id, steps: seq<Step>)
    ensures |Story(id, steps)| == 2 * |steps|
    decreases |steps|
  {
    if steps != [] {
      StorySize(id, steps[..|steps| - 1]);
    }
  }

  lemma StoryNext(id: Id, steps: seq<Step>, step: Step)
    ensures Story(id, steps + [step]) == Story(id, steps) + [Joined(id, step), Finished(id, step, true)]
  {
    assert (steps + [step])[..|steps|] == steps;
  }

  /** The steps of its policy, in order. */
  ghost function Plan(s: Queue, id: Id): seq<Step>
    requires id in s.rqs
  {
    Remaining(s.rqs[id].policy.Not())
  }

  /** What the log tells of a request is the story of the steps it has done, and then that it has joined for the next
      one, or that one failed, or nothing if it is over. */
  ghost predicate Storied(s: Queue, id: Id) {
    if id !in s.rqs then Told(s.log, id) == []
    else
      var t, rq := Told(s.log, id), s.rqs[id];
      && id in s.trace
      && if !rq.over then Live(s, id) && t == Story(id, s.trace[id]) + [Joined(id, Next(s, id))] && s.trace[id] + [Next(s, id)] <= Plan(s, id)
         else if !rq.failed then t == Story(id, s.trace[id]) && s.trace[id] == Plan(s, id)
         else exists step :: t == Story(id, s.trace[id]) + [Joined(id, step), Finished(id, step, false)] && s.trace[id] + [step] <= Plan(s, id)
  }

  ghost predicate AllStoried(s: Queue) {
    forall id :: Storied(s, id)
  }

  /** Nothing has happened to a request. */
  lemma SameStory(s: Queue, s': Queue, e: seq<Event>, id: Id)
    requires Storied(s, id) && s'.log == s.log + e && forall k :: 0 <= k < |e| ==> !Mine(e[k], id)
    requires (id in s.rqs <==> id in s'.rqs) && (id in s.rqs && id in s.trace ==> s'.rqs[id] == s.rqs[id] && id in s'.trace && s'.trace[id] == s.trace[id])
    ensures Storied(s', id)
  {
    hide Remaining, Story;
    ToldNone(s.log, e, id);
  }

  lemma {:induction false} ToldNone(log: seq<Event>, e: seq<Event>, id: Id)
    requires forall k :: 0 <= k < |e| ==> !Mine(e[k], id)
    ensures Told(log + e, id) == Told(log, id)
    decreases |e|
  {
    if e == [] {
      assert log + e == log;
    } else {
      var n := |e| - 1;
      ToldNone(log, e[..n], id);
      ToldNext(log + e[..n], e[n], id);
      assert log + e == log + e[..n] + [e[n]];
    }
  }

  /** A step of a request is done: its story goes on. */
  lemma CompleteSeqStory(s: Queue, id: Id, failed: bool, now: int, timeout: int)
    requires |s.lists| == 2 && 0 <= s.pending < 2 && AllStoried(s) && id in s.rqs && id in s.trace && Live(s, id)
    requires s.trace[id] + Remaining(s.rqs[id].done) == Plan(s, id)
    ensures AllStoried(CompleteSeq(s, id, Next(s, id), failed, now, timeout))
  {
    hide Remaining, CompleteSeq, Story, Storied;
    var step := Next(s, id);
    var s' := CompleteSeq(s, id, step, failed, now, timeout);
    CompleteSeqParts(s, id, step, failed, now, timeout);
    CompleteSeqOwn(s, id, failed, now, timeout);
    var done := s.rqs[id].done.Or(Bit(step));
    var e := [Finished(id, step, !failed)] + JoinedNext(done, id, failed);
    assert s'.log == s.log + e || s'.log == s.log + (e + [Issued]);
    forall x ensures Storied(s', x) {
      if x != id {
        assert Storied(s, x);
        SameStory(s, s', if s'.log == s.log + e then e else e + [Issued], x);
      }
    }
  }

  lemma CompleteSeqOwn(s: Queue, id: Id, failed: bool, now: int, timeout: int)
    requires |s.lists| == 2 && 0 <= s.pending < 2 && Storied(s, id) && id in s.rqs && id in s.trace && Live(s, id)
    requires s.trace[id] + Remaining(s.rqs[id].done) == Plan(s, id)
    ensures Storied(CompleteSeq(s, id, Next(s, id), failed, now, timeout), id)
  {
    hide CompleteSeq, Story, Remaining, Completed, Restored;
    var step := Next(s, id);
    var s' := CompleteSeq(s, id, step, failed, now, timeout);
    CompleteSeqParts(s, id, step, failed, now, timeout);
    RemainingLess(s.rqs[id].done);
    OwnStory(s.log, s'.log, id, s.trace[id], step, failed, s.rqs[id].done.Or(Bit(step)));
    CompletedKeeps(s.rqs[id].(done := s.rqs[id].done.Or(Bit(step))), failed);
    var rest := Remaining(s.rqs[id].done);
    assert s.trace[id] + rest == s.trace[id] + [step] + rest[1..];
    if !failed && rest[1..] != [] {
      assert s.trace[id] + [step] + rest[1..] == s.trace[id] + [step] + [rest[1..][0]] + rest[1..][1..];
    }
  }

  lemma CompletedKeeps(rq: Rq, failed: bool)
    ensures var r := Completed(Restored(rq)).(over := true, failed := failed); r.policy == rq.policy && r.over && r.failed == failed
  {
  }

  lemma OwnStory(log: seq<Event>, log': seq<Event>, id: Id, trace: seq<Step>, step: Step, failed: bool, done: Bits)
    requires Told(log, id) == Story(id, trace) + [Joined(id, step)]
    requires var l := log + [Finished(id, step, !failed)] + JoinedNext(done, id, failed); log' == l || log' == l + [Issued]
    ensures failed ==> Told(log', id) == Story(id, trace) + [Joined(id, step), Finished(id, step, false)]
    ensures !failed ==> Told(log', id) == Story(id, trace + [step]) + JoinedNext(done, id, failed)
  {
    hide Told, Story, Remaining;
    var a := log + [Finished(id, step, !failed)];
    ToldNext(log, Finished(id, step, !failed), id);
    var j := JoinedNext(done, id, failed);
    if j == [] {
      assert a + j == a;
    } else {
      assert a + j == a + [j[0]];
      ToldNext(a, j[0], id);
    }
    ToldNext(a + j, Issued, id);
    StoryNext(id, trace, step);
  }

  lemma {:induction false} PushAllStory(s: Queue, rest: seq<Id>, i: nat, f: nat, failed: bool, now: int, timeout: int)
    requires Pushing(s, rest, i, f, failed) && AllStoried(s)
    ensures AllStoried(PushAll(s, rest, i, f, failed, now, timeout))
    decreases |rest|
  {
    hide CompleteSeq, Pushing, Remaining, AllStoried, Loose, Covered;
    if rest != [] {
      PushedOn(s, rest, i, f, failed, now, timeout);
      PushReady(s, rest, i, f, failed);
      PushingLive(s, rest, i, f, failed);
      CompleteSeqStory(s, rest[0], failed, now, timeout);
      PushAllStory(CompleteSeq(s, rest[0], Next(s, rest[0]), failed, now, timeout), rest[1..], i, f, failed, now, timeout);
    }
  }

  lemma DataReturnedStory(s: Queue, id: Id)
    requires AllStoried(s) && id in s.rqs
    ensures AllStoried(DataReturned(s, id))
  {
    hide Remaining, Story, Told;
    var s' := DataReturned(s, id);
    forall x ensures Storied(s', x) {
      assert Storied(s, x);
    }
  }

  lemma DataEndStory(s: Queue, id: Id, failed: bool, now: int, timeout: int)
    requires Settled(s) && AllStoried(s) && Of(id) in s.taken && id in s.rqs && id in s.trace
    ensures |s.lists| == 2 && 0 <= s.pending < 2 && AllStoried(DataEnd(s, id, failed, now, timeout))
  {
    hide Settled, Remaining, CompleteSeq, AllStoried, Loose;
    DataTaken(s, id);
    var s1 := DataReturned(s, id);
    DataReturnedStory(s, id);
    if s.rqs[id].flushSeq {
      CompleteSeqStory(s1, id, failed, now, timeout);
    } else {
      PlainEndStory(s1, id, failed);
    }
  }

  /** The driver has the data of a request that is before that step. */
  lemma DataTaken(s: Queue, id: Id)
    requires Settled(s) && Of(id) in s.taken && id in s.rqs && id in s.trace
    ensures |s.lists| == 2 && 0 <= s.pending < 2 && Live(s, id) && Next(s, id) == Data
    ensures s.trace[id] + Remaining(s.rqs[id].done) == Plan(s, id) && (!s.rqs[id].flushSeq ==> s.rqs[id].policy == Bit(Data))
  {
    hide Durable, Flushing, HasJoined, Logs, Remaining;
    assert Placed(s, id) && Proper(s, id);
  }

  lemma PlainEndStory(s: Queue, id: Id, failed: bool)
    requires AllStoried(s) && id in s.rqs && id in s.trace && Live(s, id) && Next(s, id) == Data && s.rqs[id].policy == Bit(Data)
    requires s.trace[id] + Remaining(s.rqs[id].done) == Plan(s, id)
    ensures AllStoried(PlainEnd(s, id, failed))
  {
    hide Story;
    PlainSteps();
    var s' := PlainEnd(s, id, failed);
    assert s.trace[id] == [] by {
      assert |s.trace[id]| + |Remaining(s.rqs[id].done)| == 1;
    }
    forall x ensures Storied(s', x) {
      assert Storied(s, x);
      if x == id {
        PlainOwn(s, id, failed);
      } else {
        SameStory(s, s', [Finished(id, Data, !failed)], x);
      }
    }
  }

  lemma PlainOwn(s: Queue, id: Id, failed: bool)
    requires Storied(s, id) && id in s.rqs && id in s.trace && Live(s, id) && Next(s, id) == Data && s.trace[id] == [] && Plan(s, id) == [Data]
    ensures Storied(PlainEnd(s, id, failed), id)
  {
    hide Remaining, Told;
    ToldNext(s.log, Finished(id, Data, !failed), id);
    StoryNext(id, [], Data);
    assert [] + [Data] == [Data];
    assert Story(id, []) == [];
    var s' := PlainEnd(s, id, failed);
    assert Told(s'.log, id) == [Joined(id, Data), Finished(id, Data, !failed)];
    assert failed ==> Told(s'.log, id) == Story(id, s'.trace[id]) + [Joined(id, Data), Finished(id, Data, false)] && s'.trace[id] + [Data] <= Plan(s', id);
  }

  lemma InsertedStory(s: Queue, id: Id, policy: Bits, now: int, timeout: int)
    requires Settled(s) && AllStoried(s) && id !in s.rqs
    ensures |s.lists| == 2 && 0 <= s.pending < 2 && AllStoried(Inserted(s, id, policy, now, timeout))
    ensures id in Inserted(s, id, policy, now, timeout).rqs && Inserted(s, id, policy, now, timeout).rqs[id].policy == policy
    ensures forall x :: x in s.rqs ==> x in Inserted(s, id, policy, now, timeout).rqs && Inserted(s, id, policy, now, timeout).rqs[x] == s.rqs[x]
  {
    hide Settled, Remaining, Story, Told, Storied;
    SettledShape(s);
    var s' := Inserted(s, id, policy, now, timeout);
    InsertedBegun(s, id, policy, now, timeout);
    var j := JoinedNext(policy.Not(), id, false);
    var e := if s'.log == s.log + j then j else j + [Issued];
    assert s'.log == s.log + e;
    assert Storied(s, id);
    BegunTold(s, id, policy, s');
    InsertedOwn(s', id, policy);
    forall x ensures Storied(s', x) {
      if x != id {
        assert Storied(s, x);
        SameStory(s, s', e, x);
      }
    }
  }

  /** What a new request adds to the log. */
  ghost predicate Begun(s: Queue, id: Id, policy: Bits, s': Queue) {
    && s'.trace == s.trace[id := []] && id in s'.rqs && s'.rqs == s.rqs[id := s'.rqs[id]]
    && s'.rqs[id].policy == policy && s'.rqs[id].done == policy.Not() && !s'.rqs[id].failed
    && (s'.rqs[id].over <==> Remaining(policy.Not()) == [])
    && var log := s.log + JoinedNext(policy.Not(), id, false); s'.log == log || s'.log == log + [Issued]
  }

  lemma InsertedBegun(s: Queue, id: Id, policy: Bits, now: int, timeout: int)
    requires |s.lists| == 2 && 0 <= s.pending < 2
    ensures Begun(s, id, policy, Inserted(s, id, policy, now, timeout))
  {
    if policy == Bits(false, false, false) || policy == Bit(Data) {
      assert s.log + [] == s.log;
    } else {
      SequencedBegun(s, id, policy, now, timeout);
    }
  }

  lemma SequencedBegun(s: Queue, id: Id, policy: Bits, now: int, timeout: int)
    requires |s.lists| == 2 && 0 <= s.pending < 2 && policy != Bits(false, false, false)
    ensures Begun(s, id, policy, Kicked(Moved(Added(s, id, NewRq(policy, true)), id, false, now), now, timeout))
  {
    hide Remaining, Dropped;
    var s1 := Added(s, id, NewRq(policy, true));
    MovedRunning(s1, id, false, now);
    SomeStep(policy);
  }

  lemma SomeStep(policy: Bits)
    requires policy != Bits(false, false, false)
    ensures Remaining(policy.Not()) != []
  {
  }

  lemma BegunTold(s: Queue, id: Id, policy: Bits, s': Queue)
    requires Begun(s, id, policy, s') && id !in s.rqs && Storied(s, id)
    ensures Told(s'.log, id) == JoinedNext(policy.Not(), id, false)
  {
    hide Told, Remaining;
    var j := JoinedNext(policy.Not(), id, false);
    if j == [] {
      assert s.log + j == s.log;
    } else {
      assert j == [j[0]];
      ToldNext(s.log, j[0], id);
    }
    ToldNext(s.log + j, Issued, id);
  }

  lemma InsertedOwn(s: Queue, id: Id, policy: Bits)
    requires id in s.rqs && id in s.trace && s.trace[id] == [] && s.rqs[id].policy == policy && s.rqs[id].done == policy.Not()
    requires !s.rqs[id].failed && (s.rqs[id].over <==> Remaining(policy.Not()) == []) && Told(s.log, id) == JoinedNext(policy.Not(), id, false)
    ensures Storied(s, id)
  {
    hide Remaining, Told;
    assert Story(id, []) == [];
    var plan := Remaining(policy.Not());
    assert plan != [] ==> [] + [plan[0]] == [plan[0]] <= plan;
  }

  // --- whole runs ---

  /** Every call goes on with the stories, and keeps what each request needs. */
  lemma ActStory(s: Queue, a: Act, now: int, timeout: int, s': Queue)
    requires Settled(s) && AllStoried(s) && Acts(s, a, now, timeout, s')
    ensures AllStoried(s')
    ensures forall x :: x in s.rqs ==> x in s'.rqs && s'.rqs[x].policy == s.rqs[x].policy
    ensures a.Insert? ==> a.id in s'.rqs && s'.rqs[a.id].policy == Policy(a.ask)
  {
    hide Settled, AllStoried, PushAll, DataEnd, Inserted, Remaining;
    SettledShape(s);
    match a
    case Insert(id, ask) => InsertedStory(s, id, Policy(ask), now, timeout);
    case Take => TakenStory(s);
    case EndData(id, failed) =>
      DataEndSettled(s, id, failed, now, timeout);
      DataEndStory(s, id, failed, now, timeout);
      DataEndReturned(s, id, failed, now, timeout);
    case EndFlush(failed) =>
      FlushReturnedPushing(s, failed);
      FlushReturnedStory(s, failed);
      var s1, rest := FlushReturned(s, failed), s.lists[s.running];
      PushAllStory(s1, rest, s.issuedAt, |s.log|, failed, now, timeout);
      PushedFailed(s1, rest, s.issuedAt, |s.log|, failed);
      PushAllReturned(s1, rest, s.issuedAt, |s.log|, failed, now, timeout);
  }

  lemma TakenStory(s: Queue)
    requires AllStoried(s) && s.queueHead != []
    ensures AllStoried(Taken(s))
  {
    hide Told, Story, Remaining;
    forall x ensures Storied(Taken(s), x) {
      assert Storied(s, x);
    }
  }

  lemma FlushReturnedStory(s: Queue, failed: bool)
    requires AllStoried(s)
    ensures AllStoried(FlushReturned(s, failed))
  {
    hide Storied;
    forall x ensures Storied(FlushReturned(s, failed), x) {
      assert Storied(s, x);
      SameStory(s, FlushReturned(s, failed), [Flushed(!failed)], x);
    }
  }

  lemma {:induction false} RunStory(states: seq<Queue>, acts: seq<Act>, times: seq<int>, timeout: int)
    requires Run(states, acts, times, timeout)
    ensures Settled(states[|acts|]) && AllStoried(states[|acts|])
    ensures forall k :: 0 <= k < |acts| && acts[k].Insert? ==>
      acts[k].id in states[|acts|].rqs && states[|acts|].rqs[acts[k].id].policy == Policy(acts[k].ask)
    decreases |acts|
  {
    hide Settled, Acts, AllStoried;
    RunSettled(states, acts, times, timeout);
    if acts == [] {
      EmptyStory();
    } else {
      var k := |acts| - 1;
      RunStory(states[..k + 1], acts[..k], times[..k], timeout);
      ActStory(states[k], acts[k], times[k], timeout, states[k + 1]);
      forall j | 0 <= j < |acts| && acts[j].Insert?
        ensures acts[j].id in states[|acts|].rqs && states[|acts|].rqs[acts[j].id].policy == Policy(acts[j].ask)
      {
        assert j < k ==> acts[..k][j] == acts[j];
      }
    }
  }

  lemma EmptyStory()
    ensures AllStoried(Empty())
  {
  }

  // --- the promises ---

  /** All that is ever told of a request is of the steps of its plan. */
  lemma StepsOfPlan(s: Queue, id: Id, k: nat)
    requires Storied(s, id) && id in s.rqs && k < |s.log| && Mine(s.log[k], id)
    ensures s.log[k].step in Plan(s, id)
  {
    hide Remaining, Told;
    ToldPrefix(s.log, id, k);
    var t, e := Told(s.log, id), s.log[k];
    assert e in t by {
      assert t[|Told(s.log[..k], id)|] == e;
    }
    var trace := s.trace[id];
    if e in Story(id, trace) {
      StorySteps(id, trace, e);
      assert e.step in Plan(s, id) by {
        var i :| 0 <= i < |trace| && trace[i] == e.step;
        assert Plan(s, id)[i] == trace[i];
      }
    } else if !s.rqs[id].over {
      assert (trace + [Next(s, id)])[|trace|] == e.step;
    } else if s.rqs[id].failed {
      var step :| t == Story(id, trace) + [Joined(id, step), Finished(id, step, false)] && trace + [step] <= Plan(s, id);
      assert (trace + [step])[|trace|] == e.step;
    }
  }

  lemma {:induction false} StorySteps(id: Id, steps: seq<Step>, e: Event)
    requires e in Story(id, steps)
    ensures Mine(e, id) && e.step in steps
    decreases |steps|
  {
    var n := |steps| - 1;
    if e in Story(id, steps[..n]) {
      StorySteps(id, steps[..n], e);
    }
  }

  /** A request that needs a first flush: its data goes out only after such a flush, issued after the request joined,
      has come back without an error. */
  lemma FirstFlush(s: Queue, id: Id, d: nat)
    requires Settled(s) && Storied(s, id) && id in s.rqs && s.rqs[id].policy.pre && d < |s.log| && Mine(s.log[d], id) && s.log[d].step == Data
    ensures exists k: nat, j: nat, i: nat, f: nat :: k < d && Covered(s.log, k, j, i, f) && s.log[k] == Finished(id, Pre, true)
  {
    hide Settled, Told, Covered;
    ToldPrefix(s.log, id, d);
    ToldStart(s, id);
    var before := Told(s.log[..d], id);
    var t := Told(s.log, id);
    assert t[|before|] == (before + [s.log[d]])[|before|] == s.log[d];
    assert |before| != 0 && |before| != 1;
    assert before[1] == (before + [s.log[d]])[1] == t[1];
    assert before[1] in before;
    ToldLogged(s.log[..d], id, before[1]);
    var k :| 0 <= k < d && s.log[..d][k] == Finished(id, Pre, true);
    StepCovered(s, k);
    var j: nat, i: nat, f: nat :| Covered(s.log, k, j, i, f);
  }

  lemma StepCovered(s: Queue, k: nat)
    requires Settled(s) && k < |s.log| && s.log[k].Finished? && s.log[k].step != Data
    ensures exists j: nat, i: nat, f: nat :: Covered(s.log, k, j, i, f)
  {
    hide Flushing, Shaped, Placed, HasJoined, Proper;
    var j: nat, i: nat, f: nat :| Covered(s.log, k, j, i, f);
  }

  /** The story of a request with a first flush starts with it. */
  lemma ToldStart(s: Queue, id: Id)
    requires Storied(s, id) && id in s.rqs && s.rqs[id].policy.pre
    ensures var t := Told(s.log, id);
            && (|t| > 0 ==> t[0] == Joined(id, Pre)) && (|t| > 1 ==> t[1] == Finished(id, Pre, true) || (|t| == 2 && t[1] == Finished(id, Pre, false)))
  {
    hide Told;
    var trace, plan := s.trace[id], Plan(s, id);
    assert plan[0] == Pre;
    if trace != [] {
      StoryAt(id, trace, 0);
      assert trace[0] == plan[0] by {
        assert !s.rqs[id].over ==> (trace + [Next(s, id)])[0] == plan[0];
      }
    } else {
      assert Story(id, trace) == [];
      assert !s.rqs[id].over ==> (trace + [Next(s, id)])[0] == plan[0];
    }
  }

  /** In every run, a request that was handed in with its flags: it never has a flush or data it did not ask for or
      does not need; its data goes out only after the flush it asks for; and if it is over without an error, its data
      was written exactly if it has any, the flush before was done, and if FUA has to be emulated, a flush was issued
      after the data was written, and came back without an error. */
  lemma FlagsHonoured(states: seq<Queue>, acts: seq<Act>, times: seq<int>, timeout: int, n: nat)
    requires Run(states, acts, times, timeout) && n < |acts| && acts[n].Insert?
    ensures var s, id, ask := states[|acts|], acts[n].id, acts[n].ask;
            && id in s.rqs
            && (forall k :: 0 <= k < |s.log| && Mine(s.log[k], id) ==>
                  match s.log[k].step
                  case Pre => ask.canFlush && ask.flush
                  case Data => ask.sectors > 0
                  case Post => ask.canFlush && ask.fua && !ask.canFua)
            && (ask.canFlush && ask.flush ==>
                  forall d: nat :: d < |s.log| && Mine(s.log[d], id) && s.log[d].step == Data ==>
                    exists k: nat, j: nat, i: nat, f: nat :: k < d && Covered(s.log, k, j, i, f) && s.log[k] == Finished(id, Pre, true))
            && (s.rqs[id].over && !s.rqs[id].failed ==>
                  && (ask.sectors > 0 <==> Done(s.log, id, Data))
                  && (ask.canFlush && ask.flush ==> exists k: nat, j: nat, i: nat, f: nat :: Covered(s.log, k, j, i, f) && s.log[k] == Finished(id, Pre, true))
                  && (ask.canFlush && ask.fua && !ask.canFua ==>
                        exists k: nat, j: nat, i: nat, f: nat ::
                          Covered(s.log, k, j, i, f) && s.log[k] == Finished(id, Post, true) && Written(s.log, id, j)))
  {
    hide Settled, Storied, Covered, Done, Written, Acts;
    RunStory(states, acts, times, timeout);
    var s, id, ask := states[|acts|], acts[n].id, acts[n].ask;
    assert Storied(s, id);
    forall k | 0 <= k < |s.log| && Mine(s.log[k], id)
      ensures match s.log[k].step
              case Pre => ask.canFlush && ask.flush
              case Data => ask.sectors > 0
              case Post => ask.canFlush && ask.fua && !ask.canFua
    {
      StepsOfPlan(s, id, k);
    }
    if ask.canFlush && ask.flush {
      forall d: nat | d < |s.log| && Mine(s.log[d], id) && s.log[d].step == Data
        ensures exists k: nat, j: nat, i: nat, f: nat :: k < d && Covered(s.log, k, j, i, f) && s.log[k] == Finished(id, Pre, true)
      {
        FirstFlush(s, id, d);
      }
    }
    if s.rqs[id].over && !s.rqs[id].failed {
      StepsDone(s, id);
      if ask.canFlush && ask.fua && !ask.canFua {
        DataDurable(s, id);
      }
    }
  }

  /** A request that is over without an error has done exactly the steps of its policy. */
  lemma StepsDone(s: Queue, id: Id)
    requires Settled(s) && Storied(s, id) && id in s.rqs && s.rqs[id].over && !s.rqs[id].failed
    ensures s.rqs[id].policy.data <==> Done(s.log, id, Data)
    ensures s.rqs[id].policy.pre ==> exists k: nat, j: nat, i: nat, f: nat :: Covered(s.log, k, j, i, f) && s.log[k] == Finished(id, Pre, true)
  {
    hide Settled, Covered, Told;
    var plan := Plan(s, id);
    if s.rqs[id].policy.data {
      var i :| 0 <= i < |plan| && plan[i] == Data;
      StoryAt(id, plan, i);
      ToldLogged(s.log, id, Finished(id, Data, true));
    }
    if k :| 0 <= k < |s.log| && s.log[k] == Finished(id, Data, true) {
      StepsOfPlan(s, id, k);
    }
    if s.rqs[id].policy.pre {
      assert plan[0] == Pre;
      StoryAt(id, plan, 0);
      ToldLogged(s.log, id, Finished(id, Pre, true));
      var k: nat :| k < |s.log| && s.log[k] == Finished(id, Pre, true);
      StepCovered(s, k);
      var j: nat, i: nat, f: nat :| Covered(s.log, k, j, i, f);
    }
  }
}
