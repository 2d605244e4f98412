/** Cooperating queues of the CFQ scheduler: queues that are scheduled to merge are linked to
one another, and a reference count says how many processes and requests still need each. */
module CfqMerge {

  type Proc = nat

  class Cfqq {
    var ref: int
    var newCfqq: Cfqq?
    var readsHeld: int
    var writesHeld: int

    /** A new queue has the reference of the process that asked for it. */
    constructor ()
      ensures ref == 1 && newCfqq == null && readsHeld == 0 && writesHeld == 0
    {
      ref, newCfqq, readsHeld, writesHeld := 1, null, 0, 0;
    }
  }

  ghost function Elements(s: seq<Cfqq>): set<Cfqq> {
    set q | q in s
  }

  /** The queue that each queue is to be merged with. */
  type Links = map<Cfqq, Cfqq?>

  /** For each queue, the queues met by following the links from it. */
  type Chains = map<Cfqq, seq<Cfqq>>

  ghost predicate Follows(links: Links, chain: Chains, q: Cfqq) {
    && q in links && q in chain && chain[q] != [] && chain[q][0] == q
    && if links[q] == null then chain[q] == [q]
       else links[q] in links && links[q] in chain && chain[q] == [q] + chain[links[q]]
  }

  /** Every chain ends: the links are a forest. */
  ghost predicate Forest(links: Links, chain: Chains) {
    links.Keys == chain.Keys && forall q {:trigger Follows(links, chain, q)} :: q in links ==> Follows(links, chain, q)
  }

  /** From any queue on a chain the rest of the chain is its own. */
  lemma {:induction false} Suffix(links: Links, chain: Chains, q: Cfqq, i: nat)
    requires Forest(links, chain) && q in links && i < |chain[q]|
    ensures chain[q][i] in links && chain[q][i..] == chain[chain[q][i]]
    decreases i
  {
    assert Follows(links, chain, q);
    if i > 0 {
      var n := links[q];
      assert chain[q][1..] == chain[n];
      Suffix(links, chain, n, i - 1);
      assert chain[q][i] == chain[n][i - 1] && chain[q][i..] == chain[n][i - 1..];
    }
  }

  /** No queue is met twice: following the links never goes round in a circle. */
  lemma Acyclic(links: Links, chain: Chains, q: Cfqq, i: nat, j: nat)
    requires Forest(links, chain) && q in links && i < j < |chain[q]|
    ensures chain[q][i] != chain[q][j]
  {
    Suffix(links, chain, q, i);
    Suffix(links, chain, q, j);
  }

  ghost function Last(s: seq<Cfqq>): Cfqq
    requires s != []
  {
    s[|s| - 1]
  }

  /** A queue without a link is the last of every chain that it is on. */
  lemma RootLast(links: Links, chain: Chains, q: Cfqq, r: Cfqq)
    requires Forest(links, chain) && q in links && r in chain[q] && r in links && links[r] == null
    ensures Last(chain[q]) == r
  {
    var i :| 0 <= i < |chain[q]| && chain[q][i] == r;
    Suffix(links, chain, q, i);
    assert Follows(links, chain, r);
    assert chain[q][i..] == [r];
  }

  lemma LastRoot(links: Links, chain: Chains, q: Cfqq)
    requires Forest(links, chain) && q in links
    ensures q in chain && chain[q] != [] && Last(chain[q]) in links && links[Last(chain[q])] == null
  {
    assert Follows(links, chain, q);
    Suffix(links, chain, q, |chain[q]| - 1);
    var r := Last(chain[q]);
    assert Follows(links, chain, r);
    assert |chain[r]| == 1;
    assert links[r] != null ==> Follows(links, chain, links[r]);
  }

  /** Linking one root to another appends the other to every chain that ended at the first. */
  ghost function Linked(links: Links, chain: Chains, a: Cfqq, b: Cfqq): Chains
    requires forall q :: q in chain ==> chain[q] != []
  {
    map q | q in chain :: if Last(chain[q]) == a then chain[q] + [b] else chain[q]
  }

  lemma LinkedForest(links: Links, chain: Chains, a: Cfqq, b: Cfqq)
    requires Forest(links, chain) && a in links && b in links && a != b && links[a] == null && links[b] == null
    ensures (forall q :: q in chain ==> chain[q] != []) && Forest(links[a := b], Linked(links, chain, a, b))
  {
    forall q | q in chain ensures chain[q] != [] {
      assert Follows(links, chain, q);
    }
    var links', chain' := links[a := b], Linked(links, chain, a, b);
    forall q | q in links' ensures Follows(links', chain', q) {
      assert Follows(links, chain, q) && Follows(links, chain, a) && Follows(links, chain, b);
      if q != a && links[q] != null {
        assert Follows(links, chain, links[q]);
        assert Last(chain[q]) == Last(chain[links[q]]);
      }
    }
  }

  // --- processes ---

  /** The processes whose chain passes through a queue. */
  ghost function Through(cics: map<Proc, Cfqq>, chain: Chains, q: Cfqq): set<Proc> {
    set p | p in cics && cics[p] in chain && q in chain[cics[p]]
  }

  lemma LinkedKeys(links: Links, chain: Chains, a: Cfqq, b: Cfqq)
    requires forall q :: q in chain ==> chain[q] != []
    ensures Linked(links, chain, a, b).Keys == chain.Keys
  {
  }

  lemma LinkedPasses(links: Links, chain: Chains, a: Cfqq, b: Cfqq, c: Cfqq, q: Cfqq)
    requires Forest(links, chain) && a in links && b in links && a != b && links[a] == null && links[b] == null
    requires (forall q :: q in chain ==> chain[q] != []) && c in chain
    ensures c in Linked(links, chain, a, b)
    ensures q in Linked(links, chain, a, b)[c] <==> q in chain[c] || (q == b && a in chain[c])
    ensures !(b in chain[c] && a in chain[c])
  {
    if a in chain[c] {
      RootLast(links, chain, c, a);
    }
    if b in chain[c] {
      RootLast(links, chain, c, b);
    }
  }

  /** Linking a to b sends the processes of a through b as well, and changes nothing for other queues. */
  lemma LinkedThrough(cics: map<Proc, Cfqq>, links: Links, chain: Chains, a: Cfqq, b: Cfqq, q: Cfqq)
    requires Forest(links, chain) && a in links && b in links && a != b && links[a] == null && links[b] == null
    requires forall q :: q in chain ==> chain[q] != []
    ensures var n := |Through(cics, Linked(links, chain, a, b), q)|;
            n == |Through(cics, chain, q)| + if q == b then |Through(cics, chain, a)| else 0
  {
    hide Forest, Linked;
    LinkedKeys(links, chain, a, b);
    var chain' := Linked(links, chain, a, b);
    var t, t', s := Through(cics, chain, q), Through(cics, chain', q), Through(cics, chain, a);
    forall p | p in cics && cics[p] in chain
      ensures q in chain'[cics[p]] <==> q in chain[cics[p]] || (q == b && a in chain[cics[p]])
      ensures !(b in chain[cics[p]] && a in chain[cics[p]])
    {
      LinkedPasses(links, chain, a, b, cics[p], q);
    }
    if q == b {
      assert t' == t + s;
      assert t !! s;
    } else {
      assert t' == t;
    }
  }

  // --- the scheduler's data ---

  class CfqData {
    /** The sync queue of each process that has one. */
    var cics: map<Proc, Cfqq>
    ghost var links: Links
    ghost var chain: Chains

    constructor ()
      ensures Valid() && cics == map[] && links == map[]
    {
      cics, links, chain := map[], map[], map[];
    }

    ghost predicate Synced()
      reads this`links, links.Keys`newCfqq
    {
      forall q :: q in links ==> q.newCfqq == links[q]
    }

    /** References to a queue: one for each request it has allocated, and one for each process whose chain passes
        through it; and one more while a process that has left has not given it back. */
    ghost predicate Counted(q: Cfqq, extra: set<Cfqq>)
      reads this`cics, this`chain, q
    {
      && q.readsHeld >= 0 && q.writesHeld >= 0
      && q.ref == q.readsHeld + q.writesHeld + |Through(cics, chain, q)| + if q in extra then 1 else 0
    }

    ghost predicate Core(extra: set<Cfqq>)
      reads this, links.Keys
    {
      && Synced() && Forest(links, chain) && (forall p :: p in cics ==> cics[p] in links)
      && forall q {:trigger Counted(q, extra)} :: q in links ==> Counted(q, extra)
    }

    ghost predicate Valid()
      reads this, links.Keys
    {
      Core({})
    }

    ghost function ProcessRefs(q: Cfqq): int
      reads this
    {
      |Through(cics, chain, q)|
    }

    /** cfqq_process_refs: the references that are not held by requests. */
    method CountProcessRefs(q: Cfqq) returns (n: int)
      requires Valid() && q in links
      ensures n == ProcessRefs(q)
    {
      hide Forest, Through;
      assert Counted(q, {});
      var ioRefs := q.readsHeld + q.writesHeld;
      n := q.ref - ioRefs;
      assert n >= 0;
    }

    /** A queue on the chain of a process is in use: the count of references is not zero. */
    lemma InUse(p: Proc, q: Cfqq)
      requires Valid() && p in cics && q in chain[cics[p]]
      ensures q in links && q.ref > 0
    {
      var c := cics[p];
      var i :| 0 <= i < |chain[c]| && chain[c][i] == q;
      Suffix(links, chain, c, i);
      assert Counted(q, {});
      assert p in Through(cics, chain, q);
    }

    /** cfq_put_queue: a queue whose last reference goes has no requests left, and is freed. */
    method Put(q: Cfqq)
      requires q.ref > 0 && (q.ref == 1 ==> q.readsHeld + q.writesHeld == 0)
      modifies q`ref
      ensures q.ref == old(q.ref) - 1
    {
      assert q.ref > 0;
      q.ref := q.ref - 1;
      if q.ref == 0 {
        assert q.readsHeld + q.writesHeld == 0;
      }
    }

    /** A process that has left gives back its reference to one queue of its chain. */
    method GiveBack(q: Cfqq, ghost extra: set<Cfqq>)
      requires Core(extra) && q in links && q in extra
      modifies q`ref
      ensures Core(extra - {q}) && q.ref == old(q.ref) - 1 && (q.ref == 0 ==> q.readsHeld + q.writesHeld == 0)
    {
      hide Forest, Through;
      assert Counted(q, extra);
      Put(q);
      forall x | x in links ensures Counted(x, extra - {q}) {
        assert x != q ==> old(Counted(x, extra));
      }
      assert Counted(q, extra - {q});
    }

    /** The queues of a chain from the given place on. */
    ghost function From(q: Cfqq, k: nat): set<Cfqq>
      requires q in chain && k <= |chain[q]|
      reads this`chain
    {
      Elements(chain[q][k..])
    }

    /** The process is taken off its queue: all queues of its chain have one reference too many. */
    method Detach(p: Proc)
      requires Valid() && p in cics
      modifies this`cics
      ensures cics == old(cics) - {p} && old(cics)[p] in chain && Core(From(old(cics)[p], 0))
    {
      hide Forest;
      var q := cics[p];
      DetachedThrough(cics, links, chain, p);
      assert chain[q][0..] == chain[q];
      cics := cics - {p};
      forall x | x in links ensures Counted(x, From(q, 0)) {
        assert old(Counted(x, {}));
      }
    }

    /** cfq_put_cooperator: gives back the references to all queues further on in the chain. */
    method PutCooperator(q: Cfqq)
      requires q in links && q in chain && Core(From(q, 0))
      modifies links.Keys`ref
      ensures Core({q})
    {
      hide Through, Elements;
      assert Follows(links, chain, q);
      Onward(q, 0);
      ghost var k := 1;
      var n: Cfqq? := q.newCfqq;
      while n != null
        invariant 1 <= k <= |chain[q]| && Core({q} + From(q, k))
        invariant if n == null then k == |chain[q]| else k < |chain[q]| && chain[q][k] == n
        decreases |chain[q]| - k
      {
        Onward(q, k);
        if n == q {
          break;
        }
        var next := n.newCfqq;
        GiveBack(n, {q} + From(q, k));
        n, k := next, k + 1;
      }
      NoneLeft(q);
      assert {q} + From(q, k) == {q};
    }

    lemma NoneLeft(q: Cfqq)
      requires q in chain
      ensures From(q, |chain[q]|) == {}
    {
    }

    /** One step along a chain: the queue met there is not the first one, and the others are those from the
        next place on. */
    lemma Onward(q: Cfqq, k: nat)
      requires Forest(links, chain) && q in links && k < |chain[q]|
      ensures var n := chain[q][k];
              && n in links && n in {q} + From(q, k) && (k > 0 ==> n != q)
              && (k > 0 ==> {q} + From(q, k) - {n} == {q} + From(q, k + 1)) && (k == 0 ==> From(q, 0) == {q} + From(q, 1))
              && (k + 1 < |chain[q]| <==> links[n] != null) && (k + 1 < |chain[q]| ==> chain[q][k + 1] == links[n])
      ensures k + 1 == |chain[q]| ==> From(q, k + 1) == {}
    {
      Suffix(links, chain, q, k);
      var n, rest := chain[q][k], chain[q][k + 1..];
      assert Follows(links, chain, n) && Follows(links, chain, q);
      assert chain[q][k..] == [n] + rest;
      if k > 0 {
        Acyclic(links, chain, q, 0, k);
      }
      forall x | x in rest ensures x != n {
        var j :| 0 <= j < |rest| && rest[j] == x;
        Acyclic(links, chain, q, k, k + 1 + j);
      }
      assert links[n] != null ==> Follows(links, chain, links[n]) && chain[q][k..][1] == links[n];
    }

    /** The process leaves its queue and all that it was to be merged with. */
    method Leave(p: Proc)
      requires Valid() && p in cics
      modifies this`cics, links.Keys`ref
      ensures Valid() && cics == old(cics) - {p}
    {
      hide Forest, Through, CfqData.Synced;
      var q := cics[p];
      Detach(p);
      PutCooperator(q);
      GiveBack(q, {q});
      assert {q} - {q} == {};
    }

    /** split_cfqq: the last process of a queue keeps it; any other leaves, and will get a new one. */
    method Split(p: Proc) returns (left: bool)
      requires Valid() && p in cics
      modifies this`cics, links.Keys`ref
      ensures Valid() && (left <==> old(ProcessRefs(cics[p])) != 1)
      ensures cics == if left then old(cics) - {p} else old(cics)
    {
      hide Forest, Through, CfqData.Synced, CfqData.Counted;
      var refs := CountProcessRefs(cics[p]);
      left := refs != 1;
      if left {
        Leave(p);
      }
    }

    /** cfq_merge_cfqqs: the process moves on to the queue that its own is to be merged with. */
    method MergeCfqqs(p: Proc)
      requires Valid() && p in cics && cics[p].newCfqq != null
      modifies this`cics, {cics[p]}`ref
      ensures Valid() && cics == old(cics[p := cics[p].newCfqq])
    {
      hide Forest;
      var q := cics[p];
      var n := q.newCfqq;
      MovedThrough(cics, links, chain, p, n);
      assert Counted(q, {});
      cics := cics[p := n];
      Put(q);
      forall x | x in links ensures Counted(x, {}) {
        assert old(Counted(x, {}));
      }
    }

    /** Links a queue to another; the processes that come through the one have a reference to the other as well. */
    method Link(a: Cfqq, b: Cfqq, refs: int)
      requires Valid() && a in links && b in links && a != b && a.newCfqq == null && b.newCfqq == null && refs == ProcessRefs(a)
      modifies this`links, this`chain, a`newCfqq, b`ref
      ensures Valid() && links == old(links)[a := b]
    {
      hide Forest, Through;
      LinkedForest(links, chain, a, b);
      ghost var chain' := Linked(links, chain, a, b);
      forall q | q in links
        ensures |Through(cics, chain', q)| == |Through(cics, chain, q)| + if q == b then |Through(cics, chain, a)| else 0
      {
        LinkedThrough(cics, links, chain, a, b, q);
      }
      a.newCfqq := b;
      b.ref := b.ref + refs;
      links, chain := links[a := b], chain';
      forall q | q in links ensures Counted(q, {}) {
        assert old(Counted(q, {}));
      }
    }

    /** All queues met from a queue with a process reference are in use. */
    lemma WalkSafe(q: Cfqq, x: Cfqq)
      requires Valid() && q in links && ProcessRefs(q) > 0 && x in chain[q]
      ensures x in links && x.ref > 0 && ProcessRefs(x) > 0
    {
      var p :| p in Through(cics, chain, q);
      var c := cics[p];
      var i :| 0 <= i < |chain[c]| && chain[c][i] == q;
      Suffix(links, chain, c, i);
      assert x in chain[c][i..];
      InUse(p, x);
      assert p in Through(cics, chain, x);
    }

    /** The end of the chain of a queue, or nothing if the given queue is met on the way. */
    method FindRoot(q: Cfqq, avoid: Cfqq) returns (root: Cfqq?)
      requires Valid() && q in links && avoid in links && avoid.newCfqq == null && q != avoid && ProcessRefs(q) > 0
      ensures chain[q] != [] && root == if Last(chain[q]) == avoid then null else Last(chain[q])
    {
      hide Through;
      assert Follows(links, chain, q);
      LastRoot(links, chain, q);
      ghost var k := 0;
      var n := q;
      while n.newCfqq != null
        invariant n in links && k < |chain[q]| && chain[q][k] == n && n != avoid
        decreases |chain[q]| - k
      {
        WalkSafe(q, n);
        Onward(q, k);
        assert n.ref > 0 && Follows(links, chain, n);
        if n.newCfqq == avoid {
          RootLast(links, chain, q, avoid);
          return null;
        }
        n, k := n.newCfqq, k + 1;
      }
      RootLast(links, chain, q, n);
      root := n;
    }

    /** cfq_setup_merge: schedules two queues to be merged, in the direction of fewer processes, unless that would
        close a circle or no process is left. */
    method SetupMerge(cfqq: Cfqq, newCfqq: Cfqq)
      requires Valid() && cfqq in links && newCfqq in links && cfqq != newCfqq && cfqq.newCfqq == null
      modifies this`links, this`chain, links.Keys`newCfqq, links.Keys`ref
      ensures Valid() && old(chain)[newCfqq] != []
      ensures var root := Last(old(chain)[newCfqq]);
              links == if old(ProcessRefs(newCfqq)) == 0 || root == cfqq || old(ProcessRefs(cfqq)) == 0 then old(links)
                       else if old(ProcessRefs(root)) >= old(ProcessRefs(cfqq)) then old(links)[cfqq := root]
                       else old(links)[root := cfqq]
    {
      hide Forest, Through, CfqData.Counted;
      LastRoot(links, chain, newCfqq);
      var refs := CountProcessRefs(newCfqq);
      if refs == 0 {
        return;
      }
      var root := FindRoot(newCfqq, cfqq);
      if root == null {
        return;
      }
      WalkSafe(newCfqq, root);
      var processRefs := CountProcessRefs(cfqq);
      var newProcessRefs := CountProcessRefs(root);
      if processRefs == 0 || newProcessRefs == 0 {
        return;
      }
      if newProcessRefs >= processRefs {
        Link(cfqq, root, processRefs);
      } else {
        Link(root, cfqq, newProcessRefs);
      }
    }

    /** cfq_set_request: a process that has no queue, or has to leave the one it has, gets a new one; a process whose
        queue is to be merged moves on; and the request holds a reference to the queue. */
    method SetRequest(p: Proc, write: bool, split: bool) returns (q: Cfqq)
      requires Valid()
      modifies this, links.Keys
      ensures Valid() && p in cics && cics[p] == q && q in links && fresh(links.Keys - old(links.Keys))
      ensures old(links.Keys) <= links.Keys && (forall x :: x in old(cics) && x != p ==> x in cics && cics[x] == old(cics)[x])
      ensures if p !in old(cics) || (split && old(ProcessRefs(cics[p])) != 1) then fresh(q) && links == old(links)[q := null]
              else var c := old(cics)[p]; c in old(links) && links == old(links) && q == if old(links)[c] == null then c else old(links)[c]
    {
      hide Forest, Through, CfqData.Counted;
      if p in cics && split {
        var left := Split(p);
      }
      if p !in cics {
        q := NewQueue(p);
      } else if cics[p].newCfqq != null {
        MergeCfqqs(p);
      }
      q := cics[p];
      Allocate(q, write);
    }

    /** A request is allocated, or freed; it holds a reference to its queue. */
    method Allocate(q: Cfqq, write: bool)
      requires Valid() && q in links
      modifies q`ref, q`readsHeld, q`writesHeld
      ensures Valid() && q.ref == old(q.ref) + 1
      ensures q.readsHeld == old(q.readsHeld) + (if write then 0 else 1) && q.writesHeld == old(q.writesHeld) + (if write then 1 else 0)
    {
      hide Forest, Through;
      assert Counted(q, {});
      if write {
        q.writesHeld := q.writesHeld + 1;
      } else {
        q.readsHeld := q.readsHeld + 1;
      }
      q.ref := q.ref + 1;
      forall x | x in links ensures Counted(x, {}) {
        assert x != q ==> old(Counted(x, {}));
      }
    }

    method PutRequest(q: Cfqq, write: bool)
      requires Valid() && q in links && (if write then q.writesHeld > 0 else q.readsHeld > 0)
      modifies q`ref, q`readsHeld, q`writesHeld
      ensures Valid() && q.ref == old(q.ref) - 1
      ensures q.readsHeld == old(q.readsHeld) - (if write then 0 else 1) && q.writesHeld == old(q.writesHeld) - (if write then 1 else 0)
    {
      hide Forest, Through;
      assert Counted(q, {});
      if write {
        q.writesHeld := q.writesHeld - 1;
      } else {
        q.readsHeld := q.readsHeld - 1;
      }
      Put(q);
      forall x | x in links ensures Counted(x, {}) {
        assert x != q ==> old(Counted(x, {}));
      }
    }

    /** A process without a queue gets a new one. */
    method NewQueue(p: Proc) returns (q: Cfqq)
      requires Valid() && p !in cics
      modifies this
      ensures Valid() && fresh(q) && cics == old(cics)[p := q] && links == old(links)[q := null]
    {
      hide Through, Forest;
      q := new Cfqq();
      AddedForest(links, chain, q);
      cics, links, chain := cics[p := q], links[q := null], chain[q := [q]];
      forall x | x in links ensures Counted(x, {}) {
        AddedThrough(old(cics), old(links), old(chain), p, q, x);
        assert x != q ==> x in old(links) && old(Counted(x, {}));
      }
    }
  }

  lemma DetachedThrough(cics: map<Proc, Cfqq>, links: Links, chain: Chains, p: Proc)
    requires Forest(links, chain) && p in cics && cics[p] in links
    ensures cics[p] in chain
    ensures forall x :: |Through(cics - {p}, chain, x)| == |Through(cics, chain, x)| - if x in chain[cics[p]] then 1 else 0
  {
    forall x ensures |Through(cics - {p}, chain, x)| == |Through(cics, chain, x)| - if x in chain[cics[p]] then 1 else 0 {
      if x in chain[cics[p]] {
        assert Through(cics - {p}, chain, x) == Through(cics, chain, x) - {p};
      } else {
        assert Through(cics - {p}, chain, x) == Through(cics, chain, x);
      }
    }
  }

  /** Moving on along the link takes a process off its queue, and off no other. */
  lemma MovedThrough(cics: map<Proc, Cfqq>, links: Links, chain: Chains, p: Proc, n: Cfqq)
    requires Forest(links, chain) && p in cics && cics[p] in links && links[cics[p]] == n
    ensures n in links
    ensures forall x :: |Through(cics[p := n], chain, x)| == |Through(cics, chain, x)| - if x == cics[p] then 1 else 0
  {
    var q := cics[p];
    assert Follows(links, chain, q);
    assert q !in chain[n] by {
      if q in chain[n] {
        var i :| 0 <= i < |chain[n]| && chain[n][i] == q;
        Acyclic(links, chain, q, 0, i + 1);
      }
    }
    forall x ensures |Through(cics[p := n], chain, x)| == |Through(cics, chain, x)| - if x == q then 1 else 0 {
      if x == q {
        assert Through(cics[p := n], chain, x) == Through(cics, chain, x) - {p};
      } else {
        assert Through(cics[p := n], chain, x) == Through(cics, chain, x);
      }
    }
  }

  lemma AddedForest(links: Links, chain: Chains, q: Cfqq)
    requires Forest(links, chain) && q !in links
    ensures Forest(links[q := null], chain[q := [q]])
  {
    var links', chain' := links[q := null], chain[q := [q]];
    forall x | x in links' ensures Follows(links', chain', x) {
      assert x != q ==> Follows(links, chain, x);
    }
  }

  lemma AddedThrough(cics: map<Proc, Cfqq>, links: Links, chain: Chains, p: Proc, q: Cfqq, x: Cfqq)
    requires Forest(links, chain) && q !in links && p !in cics && forall p :: p in cics ==> cics[p] in links
    ensures |Through(cics[p := q], chain[q := [q]], x)| == if x == q then 1 else |Through(cics, chain, x)|
  {
    var t := Through(cics[p := q], chain[q := [q]], x);
    if x == q {
      forall p' | p' in cics ensures q !in chain[cics[p']] {
        var c := cics[p'];
        if q in chain[c] {
          var i :| 0 <= i < |chain[c]| && chain[c][i] == q;
          Suffix(links, chain, c, i);
        }
      }
      assert t == {p};
    } else {
      assert t == Through(cics, chain, x);
    }
  }
}
