/** The links of the range tree as a value: which node is whose child, where every
node stands in the order, and which nodes are red.  All tree invariants are local,
relating a node to its children, its parent and the span of positions below it. */
module MemLinks {

  datatype Color = Red | Black

  class MemNode {
    var color: Color
    var parent: MemNode?
    var left: MemNode?
    var right: MemNode?
    var start: int
    var end: int
    var refcnt: int

    constructor (start: int, end: int, refcnt: int)
      ensures this.start == start && this.end == end && this.refcnt == refcnt
      ensures color == Black && parent == left == right == null
    {
      this.start, this.end, this.refcnt := start, end, refcnt;
      color, parent, left, right := Black, null, null, null;
    }
  }

  datatype Dir = L | R {
    ghost function Opp(): Dir { if this == L then R else L }
    ghost function Sign(): int { if this == L then -1 else 1 }
  }

  /** The links of one node, its position in the order, and the span lo..hi of
      positions that its subtree covers. */
  datatype Link = Link(parent: MemNode?, left: MemNode?, right: MemNode?, pos: int, lo: int, hi: int) {
    ghost function Kid(d: Dir): MemNode? { if d == L then left else right }
    ghost function End(d: Dir): int { if d == L then lo else hi }
    ghost function SetKid(d: Dir, k: MemNode?): Link { if d == L then this.(left := k) else this.(right := k) }
    ghost function SetEnd(d: Dir, e: int): Link { if d == L then this.(lo := e) else this.(hi := e) }
    /** The side of the pointer to n. */
    ghost function Side(n: MemNode): Dir { if right == n then R else L }
  }

  type Links = map<MemNode, Link>

  // --- shape ---

  /** The child on side d covers exactly the part of the span beyond n on that side. */
  ghost predicate FitsKid(s: Links, n: MemNode, d: Dir)
    requires n in s
  {
    var v, l := s[n], s[n].Kid(d);
    if l == null then v.End(d) == v.pos
    else l in s && s[l].parent == n && s[l].End(d) == v.End(d) && s[l].End(d.Opp()) == v.pos + d.Sign()
  }

  ghost predicate FitsParent(s: Links, root: MemNode?, size: nat, n: MemNode)
    requires n in s
  {
    var p := s[n].parent;
    if p == null then n == root && s[n].lo == 0 && s[n].hi == size - 1
    else p in s && (s[p].left == n || s[p].right == n)
  }

  ghost predicate FitsOrder(s: Links, order: seq<MemNode>, n: MemNode)
    requires n in s
  {
    0 <= s[n].lo <= s[n].pos <= s[n].hi < |order| && order[s[n].pos] == n
  }

  ghost predicate Fits(s: Links, root: MemNode?, order: seq<MemNode>, n: MemNode) {
    && n in s && FitsKid(s, n, L) && FitsKid(s, n, R)
    && FitsParent(s, root, |order|, n) && FitsOrder(s, order, n)
  }

  /** The links hold one binary tree below root, whose in-order sequence is order. */
  ghost predicate Shape(s: Links, root: MemNode?, order: seq<MemNode>) {
    && (forall n {:trigger Fits(s, root, order, n)} :: n in s ==> Fits(s, root, order, n))
    && (forall i :: 0 <= i < |order| ==> order[i] in s && s[order[i]].pos == i)
    && (if root == null then s == map[] else root in s && s[root].parent == null)
  }

  /** A node's children are two different nodes below it. */
  ghost predicate Kin(s: Links, n: MemNode) {
    && n in s && (s[n].left != null ==> s[n].left != s[n].right)
    && (s[n].left != null ==> s[n].left in s && s[s[n].left].parent == n && s[n].left != n)
    && (s[n].right != null ==> s[n].right in s && s[s[n].right].parent == n && s[n].right != n)
  }

  lemma ShapeKin(s: Links, root: MemNode?, order: seq<MemNode>, n: MemNode)
    requires Shape(s, root, order) && n in s
    ensures Kin(s, n) && (s[n].parent != null ==> s[n].parent in s)
  {
    assert Fits(s, root, order, n);
  }

  /** No node is its own grandparent. */
  lemma ShapeGrandparent(s: Links, root: MemNode?, order: seq<MemNode>, n: MemNode)
    requires Shape(s, root, order) && n in s
    ensures s[n].parent != null ==> s[n].parent in s && s[n].parent != n && s[s[n].parent].parent != n
  {
    assert Fits(s, root, order, n);
    var p := s[n].parent;
    if p != null {
      assert Fits(s, root, order, p);
    }
  }

  /** The nodes of the subtree of n, left before node before right; depth is enough for its height. */
  ghost function InOrder(s: Links, n: MemNode?, depth: nat): seq<MemNode> {
    if n == null || n !in s || depth == 0 then []
    else InOrder(s, s[n].left, depth - 1) + [n] + InOrder(s, s[n].right, depth - 1)
  }

  /** The local invariants mean what they are to mean: following the child pointers gives the span. */
  lemma {:induction false} SpanIsSubtree(s: Links, root: MemNode?, order: seq<MemNode>, n: MemNode, depth: nat)
    requires Shape(s, root, order) && n in s && depth > s[n].hi - s[n].lo
    ensures 0 <= s[n].lo <= s[n].hi < |order| && InOrder(s, n, depth) == order[s[n].lo..s[n].hi + 1]
    decreases depth, 1
  {
    hide Shape;
    var v := s[n];
    FitsNode(s, root, order, n);
    SpanIsKid(s, root, order, n, L, depth);
    SpanIsKid(s, root, order, n, R, depth);
    assert order[v.lo..v.hi + 1] == order[v.lo..v.pos] + [n] + order[v.pos + 1..v.hi + 1];
  }

  lemma FitsNode(s: Links, root: MemNode?, order: seq<MemNode>, n: MemNode)
    requires Shape(s, root, order) && n in s
    ensures Fits(s, root, order, n)
  {
  }

  lemma {:induction false} SpanIsKid(s: Links, root: MemNode?, order: seq<MemNode>, n: MemNode, d: Dir, depth: nat)
    requires Shape(s, root, order) && n in s && depth > s[n].hi - s[n].lo && Fits(s, root, order, n)
    ensures InOrder(s, s[n].Kid(d), depth - 1) == if d == L then order[s[n].lo..s[n].pos] else order[s[n].pos + 1..s[n].hi + 1]
    decreases depth, 0
  {
    hide Shape;
    var k := s[n].Kid(d);
    if k != null {
      SpanIsSubtree(s, root, order, k, depth - 1);
    }
  }

  /** The whole tree, walked in order, is the sequence that the operations are specified by. */
  lemma TreeIsOrder(s: Links, root: MemNode?, order: seq<MemNode>)
    requires Shape(s, root, order)
    ensures InOrder(s, root, |order|) == order
  {
    assert |order| > 0 ==> order[0] in s;
    if root != null {
      assert Fits(s, root, order, root);
      SpanIsSubtree(s, root, order, root, |order|);
      assert order[0..|order|] == order;
    }
  }

  // --- rotation ---

  /** s' is s with n rotated down to side d: m comes up, b changes sides, p is the parent above. */
  ghost predicate Rotated(s: Links, s': Links, d: Dir, n: MemNode, m: MemNode, b: MemNode?, p: MemNode?) {
    && n in s && m in s && n != m && s[n].Kid(d.Opp()) == m && s[m].Kid(d) == b && s[n].parent == p
    && s'.Keys == s.Keys
    && s'[n] == s[n].(parent := m).SetKid(d.Opp(), b).SetEnd(d.Opp(), s[m].pos + d.Sign())
    && s'[m] == s[m].(parent := p).SetKid(d, n).SetEnd(d, s[n].End(d))
    && (b != null ==> b in s && b != n && b != m && b != p && s'[b] == s[b].(parent := n))
    && (p != null ==> p in s && p != n && p != m && s[p].Kid(s[p].Side(n)) == n && s'[p] == s[p].SetKid(s[p].Side(n), m))
    && (forall k {:trigger s'[k]} :: k in s && k != n && k != m && k != b && k != p ==> s'[k] == s[k])
  }

  ghost predicate RotatedAt(s: Links, s': Links, root: MemNode?, order: seq<MemNode>,
                            d: Dir, n: MemNode, m: MemNode, b: MemNode?, p: MemNode?, k: MemNode)
  {
    && Rotated(s, s', d, n, m, b, p)
    && Fits(s, root, order, n) && Fits(s, root, order, m) && Fits(s, root, order, k)
    && (b != null ==> Fits(s, root, order, b)) && (p != null ==> Fits(s, root, order, p))
  }

  lemma RotatedKidN(s: Links, s': Links, root: MemNode?, order: seq<MemNode>,
                    d: Dir, n: MemNode, m: MemNode, b: MemNode?, p: MemNode?, e: Dir)
    requires RotatedAt(s, s', root, order, d, n, m, b, p, n)
    ensures FitsKid(s', n, e)
  {
  }

  lemma RotatedKidM(s: Links, s': Links, root: MemNode?, order: seq<MemNode>,
                    d: Dir, n: MemNode, m: MemNode, b: MemNode?, p: MemNode?, e: Dir)
    requires RotatedAt(s, s', root, order, d, n, m, b, p, n)
    ensures FitsKid(s', m, e)
  {
  }

  lemma RotatedKidP(s: Links, s': Links, root: MemNode?, order: seq<MemNode>,
                    d: Dir, n: MemNode, m: MemNode, b: MemNode?, p: MemNode?, e: Dir)
    requires RotatedAt(s, s', root, order, d, n, m, b, p, n) && p != null
    ensures FitsKid(s', p, e)
  {
  }

  lemma RotatedKidOther(s: Links, s': Links, root: MemNode?, order: seq<MemNode>,
                        d: Dir, n: MemNode, m: MemNode, b: MemNode?, p: MemNode?, k: MemNode, e: Dir)
    requires RotatedAt(s, s', root, order, d, n, m, b, p, k) && k != n && k != m && k != p
    ensures FitsKid(s', k, e)
  {
    var l := s[k].Kid(e);
    assert s'[k].Kid(e) == l && s'[k].End(e) == s[k].End(e) && s'[k].pos == s[k].pos;
    if l != null {
      assert s[l].parent == k;
      assert l != n && l != m && l != b;
    }
  }

  lemma RotatedParent(s: Links, s': Links, root: MemNode?, order: seq<MemNode>,
                      d: Dir, n: MemNode, m: MemNode, b: MemNode?, p: MemNode?, k: MemNode)
    requires RotatedAt(s, s', root, order, d, n, m, b, p, k)
    ensures FitsParent(s', if p == null then m else root, |order|, k)
  {
    if k != n && k != m && k != b {
      assert s'[k].parent == s[k].parent;
      var q := s[k].parent;
      if q != null {
        assert s[q].left == k ==> s'[q].left == k;
        assert s[q].right == k ==> s'[q].right == k;
      }
    }
  }

  lemma RotatedOrder(s: Links, s': Links, root: MemNode?, order: seq<MemNode>,
                     d: Dir, n: MemNode, m: MemNode, b: MemNode?, p: MemNode?, k: MemNode)
    requires RotatedAt(s, s', root, order, d, n, m, b, p, k)
    ensures FitsOrder(s', order, k) && s'[k].pos == s[k].pos
    ensures s[k].parent == null && k != n ==> s'[k].parent == null
  {
  }

  lemma RotatedFits(s: Links, s': Links, root: MemNode?, order: seq<MemNode>,
                    d: Dir, n: MemNode, m: MemNode, b: MemNode?, p: MemNode?, k: MemNode)
    requires Shape(s, root, order) && Rotated(s, s', d, n, m, b, p) && k in s
    ensures Fits(s', if p == null then m else root, order, k) && s'[k].pos == s[k].pos
    ensures s[k].parent == null && k != n ==> s'[k].parent == null
  {
    assert Fits(s, root, order, n) && Fits(s, root, order, m) && Fits(s, root, order, k);
    assert b != null ==> Fits(s, root, order, b);
    assert p != null ==> Fits(s, root, order, p);
    RotatedParent(s, s', root, order, d, n, m, b, p, k);
    RotatedOrder(s, s', root, order, d, n, m, b, p, k);
    forall e ensures FitsKid(s', k, e) {
      if k == n {
        RotatedKidN(s, s', root, order, d, n, m, b, p, e);
      } else if k == m {
        RotatedKidM(s, s', root, order, d, n, m, b, p, e);
      } else if k == p {
        RotatedKidP(s, s', root, order, d, n, m, b, p, e);
      } else {
        RotatedKidOther(s, s', root, order, d, n, m, b, p, k, e);
      }
    }
  }

  /** A rotation keeps the tree and its order. */
  lemma RotatedShape(s: Links, s': Links, root: MemNode?, order: seq<MemNode>,
                     d: Dir, n: MemNode, m: MemNode, b: MemNode?, p: MemNode?)
    requires Shape(s, root, order) && Rotated(s, s', d, n, m, b, p)
    ensures Shape(s', if p == null then m else root, order)
  {
    forall k | k in s' ensures Fits(s', if p == null then m else root, order, k) && s'[k].pos == s[k].pos {
      RotatedFits(s, s', root, order, d, n, m, b, p, k);
    }
    RotatedFits(s, s', root, order, d, n, m, b, p, root);
    forall i | 0 <= i < |order| ensures order[i] in s' && s'[order[i]].pos == i {
      assert order[i] in s && s'[order[i]].pos == s[order[i]].pos;
    }
  }

  ghost predicate Distinct(s: Links, d: Dir, n: MemNode, m: MemNode, b: MemNode?, p: MemNode?) {
    && n in s && m in s && m != n && s[n].Kid(d.Opp()) == m && s[m].Kid(d) == b && s[n].parent == p
    && (b != null ==> b in s && b != n && b != m && b != p)
    && (p != null ==> p in s && p != n && p != m && s[p].Kid(s[p].Side(n)) == n)
  }

  lemma Rotate(s: Links, d: Dir, n: MemNode, m: MemNode, b: MemNode?, p: MemNode?) returns (s': Links)
    requires Distinct(s, d, n, m, b, p)
    ensures Rotated(s, s', d, n, m, b, p)
  {
    s' := map k | k in s ::
      if k == n then s[n].(parent := m).SetKid(d.Opp(), b).SetEnd(d.Opp(), s[m].pos + d.Sign())
      else if k == m then s[m].(parent := p).SetKid(d, n).SetEnd(d, s[n].End(d))
      else if k == b then s[k].(parent := n)
      else if k == p then s[k].SetKid(s[k].Side(n), m)
      else s[k];
  }

  /** The nodes that a rotation touches are in the tree and all different. */
  lemma RotationReady(s: Links, root: MemNode?, order: seq<MemNode>, d: Dir, n: MemNode)
    requires Shape(s, root, order) && n in s && s[n].Kid(d.Opp()) != null
    ensures s[n].Kid(d.Opp()) in s
    ensures Distinct(s, d, n, s[n].Kid(d.Opp()), s[s[n].Kid(d.Opp())].Kid(d), s[n].parent)
  {
    assert Fits(s, root, order, n);
    var m := s[n].Kid(d.Opp());
    assert Fits(s, root, order, m);
    var b, p := s[m].Kid(d), s[n].parent;
    assert b != null ==> Fits(s, root, order, b);
    assert p != null ==> Fits(s, root, order, p);
  }

  /** Away from the rotation, nodes keep their children, and none of those was rotated. */
  lemma RotatedKeeps(s: Links, s': Links, d: Dir, n: MemNode, m: MemNode, b: MemNode?, p: MemNode?, k: MemNode)
    requires Rotated(s, s', d, n, m, b, p) && Kin(s, k) && s[m].parent == n && k != n && k != m && k != p
    ensures k in s' && s'[k].left == s[k].left && s'[k].right == s[k].right
    ensures s[k].left != n && s[k].right != n && s[k].left != m && s[k].right != m
  {
  }

  // --- inserting a leaf ---

  ghost function Opened(v: Link, at: int, k: int): Link {
    v.(pos := if v.pos >= k then v.pos + 1 else v.pos,
       lo := if v.lo > at then v.lo + 1 else v.lo,
       hi := if v.hi >= at then v.hi + 1 else v.hi)
  }

  /** s' is s with the new leaf x below q on its empty side d, at position k. */
  ghost predicate Inserted(s: Links, s': Links, d: Dir, x: MemNode, q: MemNode, k: int) {
    && q in s && x !in s && s[q].Kid(d) == null && k == s[q].pos + (if d == R then 1 else 0)
    && s'.Keys == s.Keys + {x}
    && s'[x] == Link(q, null, null, k, k, k)
    && s'[q] == Opened(s[q], s[q].pos, k).SetKid(d, x)
    && (forall j {:trigger s'[j]} :: j in s && j != q ==> s'[j] == Opened(s[j], s[q].pos, k))
  }

  lemma Insert(s: Links, d: Dir, x: MemNode, q: MemNode, k: int) returns (s': Links)
    requires q in s && x !in s && s[q].Kid(d) == null && k == s[q].pos + (if d == R then 1 else 0)
    ensures Inserted(s, s', d, x, q, k)
  {
    s' := map j | j in s.Keys + {x} ::
      if j == x then Link(q, null, null, k, k, k)
      else if j == q then Opened(s[q], s[q].pos, k).SetKid(d, x)
      else Opened(s[j], s[q].pos, k);
  }

  lemma InsertedKid(s: Links, s': Links, root: MemNode?, order: seq<MemNode>,
                    d: Dir, x: MemNode, q: MemNode, k: int, j: MemNode, e: Dir)
    requires Inserted(s, s', d, x, q, k) && Fits(s, root, order, q) && Fits(s, root, order, j)
    requires s[j].pos == s[q].pos ==> j == q
    ensures FitsKid(s', j, e)
  {
  }

  lemma InsertedParent(s: Links, s': Links, root: MemNode?, order: seq<MemNode>,
                       d: Dir, x: MemNode, q: MemNode, k: int, j: MemNode)
    requires Inserted(s, s', d, x, q, k) && Fits(s, root, order, q) && Fits(s, root, order, j)
    ensures FitsParent(s', root, |order| + 1, j)
  {
  }

  lemma InsertedOrder(s: Links, s': Links, root: MemNode?, order: seq<MemNode>,
                      d: Dir, x: MemNode, q: MemNode, k: int, j: MemNode)
    requires Inserted(s, s', d, x, q, k) && Fits(s, root, order, q) && Fits(s, root, order, j)
    requires 0 <= k <= |order|
    ensures FitsOrder(s', order[..k] + [x] + order[k..], j)
  {
  }

  /** Inserting a leaf puts its node at position k and changes nothing else of the order. */
  lemma InsertedFits(s: Links, s': Links, root: MemNode?, order: seq<MemNode>,
                     d: Dir, x: MemNode, q: MemNode, k: int, j: MemNode)
    requires Shape(s, root, order) && Inserted(s, s', d, x, q, k) && j in s' && 0 <= k <= |order|
    ensures Fits(s', root, order[..k] + [x] + order[k..], j)
  {
    FitsNode(s, root, order, q);
    if j == x {
      assert FitsKid(s', x, L) && FitsKid(s', x, R);
    } else {
      FitsNode(s, root, order, j);
      InsertedKid(s, s', root, order, d, x, q, k, j, L);
      InsertedKid(s, s', root, order, d, x, q, k, j, R);
      InsertedParent(s, s', root, order, d, x, q, k, j);
      InsertedOrder(s, s', root, order, d, x, q, k, j);
    }
  }

  lemma InsertedPosition(s: Links, s': Links, root: MemNode?, order: seq<MemNode>,
                         d: Dir, x: MemNode, q: MemNode, k: int, i: int)
    requires Shape(s, root, order) && Inserted(s, s', d, x, q, k) && 0 <= k <= |order| && 0 <= i <= |order|
    ensures var n := (order[..k] + [x] + order[k..])[i]; n in s' && s'[n].pos == i
  {
    hide Fits;
    if i != k {
      var j := if i < k then i else i - 1;
      assert (order[..k] + [x] + order[k..])[i] == order[j] && order[j] in s && s[order[j]].pos == j;
    }
  }

  lemma InsertedShape(s: Links, s': Links, root: MemNode?, order: seq<MemNode>,
                      d: Dir, x: MemNode, q: MemNode, k: int)
    requires Shape(s, root, order) && Inserted(s, s', d, x, q, k)
    ensures 0 <= k <= |order| && Shape(s', root, order[..k] + [x] + order[k..])
  {
    hide FitsKid, FitsParent;
    assert Fits(s, root, order, q);
    var order' := order[..k] + [x] + order[k..];
    forall j | j in s' ensures Fits(s', root, order', j) {
      InsertedFits(s, s', root, order, d, x, q, k, j);
    }
    forall i | 0 <= i < |order'| ensures order'[i] in s' && s'[order'[i]].pos == i {
      InsertedPosition(s, s', root, order, d, x, q, k, i);
    }
  }

  // --- unlinking a node with at most one child ---

  ghost function Closed(v: Link, k: int): Link {
    v.(pos := if v.pos > k then v.pos - 1 else v.pos,
       lo := if v.lo > k then v.lo - 1 else v.lo,
       hi := if v.hi >= k then v.hi - 1 else v.hi)
  }

  /** Closing the gap at k moves a node and the ends of its child on side e alike. */
  lemma ClosedEnds(v: Link, w: Link, k: int, e: Dir)
    requires v.pos != k
    ensures w.End(e) == v.End(e) ==> Closed(w, k).End(e) == Closed(v, k).End(e)
    ensures w.End(e.Opp()) == v.pos + e.Sign() ==> Closed(w, k).End(e.Opp()) == Closed(v, k).pos + e.Sign()
    ensures v.End(e) == v.pos ==> Closed(v, k).End(e) == Closed(v, k).pos
    ensures Closed(v, k).left == v.left && Closed(v, k).right == v.right && Closed(v, k).parent == v.parent
    ensures Closed(w, k).left == w.left && Closed(w, k).right == w.right && Closed(w, k).parent == w.parent
  {
  }

  /** s' is s without n, whose only child c, if any, hangs off n's parent p instead. */
  ghost predicate Unlinked(s: Links, s': Links, d: Dir, n: MemNode, c: MemNode?, p: MemNode?) {
    && n in s && s[n].Kid(d) == null && s[n].Kid(d.Opp()) == c && s[n].parent == p
    && s'.Keys == s.Keys - {n}
    && (c != null ==> c in s && c != n && c != p && s'[c] == Closed(s[c], s[n].pos).(parent := p))
    && (p != null ==> p in s && p != n && s[p].Kid(s[p].Side(n)) == n && s'[p] == Closed(s[p], s[n].pos).SetKid(s[p].Side(n), c))
    && (forall j {:trigger s'[j]} :: j in s && j != n && j != c && j != p ==> s'[j] == Closed(s[j], s[n].pos))
  }

  lemma Unlink(s: Links, root: MemNode?, order: seq<MemNode>, d: Dir, n: MemNode) returns (s': Links)
    requires Shape(s, root, order) && n in s && s[n].Kid(d) == null
    ensures Unlinked(s, s', d, n, s[n].Kid(d.Opp()), s[n].parent)
  {
    var c, p, k := s[n].Kid(d.Opp()), s[n].parent, s[n].pos;
    assert Fits(s, root, order, n);
    assert c != null ==> Fits(s, root, order, c);
    assert p != null ==> Fits(s, root, order, p);
    s' := map j | j in s.Keys - {n} ::
      if j == c then Closed(s[j], k).(parent := p)
      else if j == p then Closed(s[j], k).SetKid(s[j].Side(n), c)
      else Closed(s[j], k);
  }

  /** The pointers of the nodes that stay. */
  lemma UnlinkedPointers(s: Links, s': Links, d: Dir, n: MemNode, c: MemNode?, p: MemNode?, k: MemNode)
    requires Unlinked(s, s', d, n, c, p) && k in s'
    ensures k in s && s'[k].parent == if k == c then p else s[k].parent
    ensures s'[k].left == if k == p && s[k].right != n then c else s[k].left
    ensures s'[k].right == if k == p && s[k].right == n then c else s[k].right
  {
  }

  ghost predicate UnlinkedAt(s: Links, s': Links, root: MemNode?, order: seq<MemNode>,
                             d: Dir, n: MemNode, c: MemNode?, p: MemNode?, j: MemNode)
  {
    && Unlinked(s, s', d, n, c, p) && j != n
    && Fits(s, root, order, n) && Fits(s, root, order, j)
    && (c != null ==> Fits(s, root, order, c)) && (p != null ==> Fits(s, root, order, p))
    && s[j].pos != s[n].pos
  }

  lemma UnlinkedKidP(s: Links, s': Links, root: MemNode?, order: seq<MemNode>,
                     d: Dir, n: MemNode, c: MemNode?, p: MemNode, e: Dir)
    requires UnlinkedAt(s, s', root, order, d, n, c, p, p)
    ensures FitsKid(s', p, e)
  {
  }

  lemma UnlinkedKidOther(s: Links, s': Links, root: MemNode?, order: seq<MemNode>,
                         d: Dir, n: MemNode, c: MemNode?, p: MemNode?, j: MemNode, e: Dir)
    requires UnlinkedAt(s, s', root, order, d, n, c, p, j) && j != p
    ensures FitsKid(s', j, e)
  {
    hide FitsParent, FitsOrder, Closed;
    var l := s[j].Kid(e);
    ClosedEnds(s[j], if l == null then s[j] else s[l], s[n].pos, e);
    assert s'[j].Kid(e) == l;
    if l != null {
      assert s[l].parent == j && l != n && l != c;
    }
  }

  lemma UnlinkedParent(s: Links, s': Links, root: MemNode?, order: seq<MemNode>,
                       d: Dir, n: MemNode, c: MemNode?, p: MemNode?, j: MemNode)
    requires UnlinkedAt(s, s', root, order, d, n, c, p, j)
    ensures FitsParent(s', if p == null then c else root, |order| - 1, j)
  {
    if j != c {
      var q := s[j].parent;
      assert s'[j].parent == q;
      if q != null {
        assert q != n;
        assert s[q].left == j ==> s'[q].left == j;
        assert s[q].right == j ==> s'[q].right == j;
      }
    }
  }

  lemma UnlinkedOrder(s: Links, s': Links, root: MemNode?, order: seq<MemNode>,
                      d: Dir, n: MemNode, c: MemNode?, p: MemNode?, j: MemNode)
    requires UnlinkedAt(s, s', root, order, d, n, c, p, j)
    ensures FitsOrder(s', order[..s[n].pos] + order[s[n].pos + 1..], j)
    ensures s[j].parent == null ==> s'[j].parent == null
  {
    var v := Closed(s[j], s[n].pos);
    assert s'[j].pos == v.pos && s'[j].lo == v.lo && s'[j].hi == v.hi;
  }

  lemma UnlinkedFits(s: Links, s': Links, root: MemNode?, order: seq<MemNode>,
                     d: Dir, n: MemNode, c: MemNode?, p: MemNode?, j: MemNode)
    requires Shape(s, root, order) && Unlinked(s, s', d, n, c, p) && j in s && j != n
    ensures 0 <= s[n].pos < |order|
    ensures Fits(s', if p == null then c else root, order[..s[n].pos] + order[s[n].pos + 1..], j)
    ensures s[j].parent == null ==> s'[j].parent == null
  {
    assert Fits(s, root, order, n) && Fits(s, root, order, j);
    assert c != null ==> Fits(s, root, order, c);
    assert p != null ==> Fits(s, root, order, p);
    UnlinkedParent(s, s', root, order, d, n, c, p, j);
    UnlinkedOrder(s, s', root, order, d, n, c, p, j);
    forall e ensures FitsKid(s', j, e) {
      if j == p {
        UnlinkedKidP(s, s', root, order, d, n, c, p, e);
      } else {
        UnlinkedKidOther(s, s', root, order, d, n, c, p, j, e);
      }
    }
  }

  /** Unlinking a node takes it out of the order and changes nothing else of the order. */
  lemma UnlinkedShape(s: Links, s': Links, root: MemNode?, order: seq<MemNode>,
                      d: Dir, n: MemNode, c: MemNode?, p: MemNode?)
    requires Shape(s, root, order) && Unlinked(s, s', d, n, c, p)
    ensures 0 <= s[n].pos < |order|
    ensures Shape(s', if p == null then c else root, order[..s[n].pos] + order[s[n].pos + 1..])
  {
    assert Fits(s, root, order, n);
    var k := s[n].pos;
    var order' := order[..k] + order[k + 1..];
    var root' := if p == null then c else root;
    forall j | j in s' ensures Fits(s', root', order', j) {
      UnlinkedFits(s, s', root, order, d, n, c, p, j);
    }
    UnlinkedPositions(s, s', root, order, d, n, c, p);
    UnlinkedRoot(s, s', root, order, d, n, c, p);
  }

  lemma UnlinkedPositions(s: Links, s': Links, root: MemNode?, order: seq<MemNode>,
                          d: Dir, n: MemNode, c: MemNode?, p: MemNode?)
    requires Shape(s, root, order) && Unlinked(s, s', d, n, c, p)
    ensures 0 <= s[n].pos < |order|
    ensures var order' := order[..s[n].pos] + order[s[n].pos + 1..];
            forall i :: 0 <= i < |order'| ==> order'[i] in s' && s'[order'[i]].pos == i
  {
    assert Fits(s, root, order, n);
    var k := s[n].pos;
    var order' := order[..k] + order[k + 1..];
    forall i | 0 <= i < |order'| ensures order'[i] in s' && s'[order'[i]].pos == i {
      var j := if i < k then i else i + 1;
      assert order'[i] == order[j] && order[j] in s && s[order[j]].pos == j;
    }
  }

  lemma UnlinkedRoot(s: Links, s': Links, root: MemNode?, order: seq<MemNode>,
                     d: Dir, n: MemNode, c: MemNode?, p: MemNode?)
    requires Shape(s, root, order) && Unlinked(s, s', d, n, c, p)
    ensures var root' := if p == null then c else root;
            if root' == null then s' == map[] else root' in s' && s'[root'].parent == null
  {
    if p != null {
      UnlinkedFits(s, s', root, order, d, n, c, p, root);
    } else if c == null {
      assert Fits(s, root, order, n);
      forall j | j in s' ensures false {
        UnlinkedFits(s, s', root, order, d, n, c, p, j);
      }
    }
  }

  // --- relabelling ---

  /** s' is s with y in the place of x. */
  ghost predicate Relabelled(s: Links, s': Links, x: MemNode, y: MemNode) {
    && x in s && y !in s && s'.Keys == s.Keys - {x} + {y} && s'[y] == s[x]
    && (var p := s[x].parent;
        p != null ==> p in s && p != x && p != s[x].left && p != s[x].right && s[p].Kid(s[p].Side(x)) == x)
    && (forall j {:trigger s'[j]} :: j in s && j != x ==>
          s'[j] == (if j == s[x].left || j == s[x].right then s[j].(parent := y)
                    else if j == s[x].parent then s[j].SetKid(s[j].Side(x), y)
                    else s[j]))
  }

  lemma Relabel(s: Links, root: MemNode?, order: seq<MemNode>, x: MemNode, y: MemNode) returns (s': Links)
    requires Shape(s, root, order) && x in s && y !in s
    ensures Relabelled(s, s', x, y)
  {
    assert Fits(s, root, order, x);
    assert s[x].parent != null ==> Fits(s, root, order, s[x].parent);
    ShapeGrandparent(s, root, order, x);
    s' := map j | j in s.Keys - {x} + {y} ::
      if j == y then s[x]
      else if j == s[x].left || j == s[x].right then s[j].(parent := y)
      else if j == s[x].parent then s[j].SetKid(s[j].Side(x), y)
      else s[j];
  }

  ghost predicate RelabelledAt(s: Links, s': Links, root: MemNode?, order: seq<MemNode>, x: MemNode, y: MemNode, j: MemNode) {
    && Relabelled(s, s', x, y) && Fits(s, root, order, x) && Fits(s, root, order, j) && j != x
    && s[j].pos != s[x].pos
  }

  lemma RelabelledKid(s: Links, s': Links, root: MemNode?, order: seq<MemNode>, x: MemNode, y: MemNode, j: MemNode, e: Dir)
    requires RelabelledAt(s, s', root, order, x, y, j)
    ensures FitsKid(s', j, e)
  {
    var l := s[j].Kid(e);
    if l == x {
      assert s'[j].Kid(e) == y;
    } else {
      assert s'[j].Kid(e) == l;
    }
  }

  lemma RelabelledParent(s: Links, s': Links, root: MemNode?, order: seq<MemNode>, x: MemNode, y: MemNode, j: MemNode)
    requires RelabelledAt(s, s', root, order, x, y, j)
    ensures FitsParent(s', if s[x].parent == null then y else root, |order|, j)
    ensures FitsOrder(s', order[s[x].pos := y], j)
    ensures s[j].parent == null ==> s'[j].parent == null
  {
  }

  lemma RelabelledKeeps(s: Links, s': Links, x: MemNode, y: MemNode, k: MemNode, e: Dir)
    requires Relabelled(s, s', x, y) && Kin(s, x) && Kin(s, k) && k != x
    ensures k in s' && s'[k].Kid(e) == if s[k].Kid(e) == x then y else s[k].Kid(e)
  {
  }

  lemma RelabelledNew(s: Links, s': Links, root: MemNode?, order: seq<MemNode>, x: MemNode, y: MemNode)
    requires Relabelled(s, s', x, y) && Fits(s, root, order, x)
    requires s[x].parent != null ==> Fits(s, root, order, s[x].parent)
    ensures Fits(s', if s[x].parent == null then y else root, order[s[x].pos := y], y)
  {
  }

  lemma RelabelledFits(s: Links, s': Links, root: MemNode?, order: seq<MemNode>, x: MemNode, y: MemNode, j: MemNode)
    requires Shape(s, root, order) && Relabelled(s, s', x, y) && j in s' && 0 <= s[x].pos < |order|
    ensures Fits(s', if s[x].parent == null then y else root, order[s[x].pos := y], j)
  {
    FitsNode(s, root, order, x);
    if j == y {
      assert s[x].parent != null ==> Fits(s, root, order, s[x].parent);
      RelabelledNew(s, s', root, order, x, y);
    } else {
      FitsNode(s, root, order, j);
      RelabelledKid(s, s', root, order, x, y, j, L);
      RelabelledKid(s, s', root, order, x, y, j, R);
      RelabelledParent(s, s', root, order, x, y, j);
    }
  }

  lemma RelabelledShape(s: Links, s': Links, root: MemNode?, order: seq<MemNode>, x: MemNode, y: MemNode)
    requires Shape(s, root, order) && Relabelled(s, s', x, y)
    ensures 0 <= s[x].pos < |order|
    ensures Shape(s', if s[x].parent == null then y else root, order[s[x].pos := y])
  {
    hide FitsKid;
    assert Fits(s, root, order, x);
    var order' := order[s[x].pos := y];
    var root' := if s[x].parent == null then y else root;
    forall j | j in s' ensures Fits(s', root', order', j) {
      RelabelledFits(s, s', root, order, x, y, j);
    }
    forall i | 0 <= i < |order'| ensures order'[i] in s' && s'[order'[i]].pos == i {
      if i != s[x].pos {
        assert order'[i] == order[i] && order[i] in s && s[order[i]].pos == i;
      }
    }
    if s[x].parent != null {
      assert Fits(s, root, order, root);
      RelabelledParent(s, s', root, order, x, y, root);
    }
  }

  // --- replacing a node by its predecessor ---

  /** The nodes around n and its predecessor t, the rightmost node below n's left child. */
  ghost predicate Replaceable(s: Links, n: MemNode, t: MemNode) {
    && n in s && t in s && n != t && s[t].right == null && s[n].left != null && s[n].right != null
    && s[n].left in s && s[n].right in s && s[n].left != s[n].right && s[n].left != n && s[n].right != n
    && s[t].parent != null && s[t].parent in s && s[t].parent != t && s[t].parent != s[n].right
    && (if s[t].parent == n then t == s[n].left else t != s[n].left && s[s[t].parent].right == t)
    && t != s[n].right && t != s[n].parent
    && (s[t].left != null ==>
          && s[t].left in s && s[t].left != t && s[t].left != n && s[t].left != s[n].left
          && s[t].left != s[n].right && s[t].left != s[n].parent && s[t].left != s[t].parent)
    && (s[n].parent != null ==>
          && s[n].parent in s && s[n].parent != n && s[n].parent != s[n].left && s[n].parent != s[n].right
          && s[n].parent != s[t].parent && s[s[n].parent].Kid(s[s[n].parent].Side(n)) == n)
  }

  lemma PredecessorReplaceable(s: Links, root: MemNode?, order: seq<MemNode>, n: MemNode, t: MemNode)
    requires Shape(s, root, order) && n in s && s[n].left != null && s[n].right != null
    requires t in s && s[t].right == null && s[t].pos == s[n].pos - 1
    ensures Replaceable(s, n, t)
  {
    assert Fits(s, root, order, n);
    assert Fits(s, root, order, s[n].left) && Fits(s, root, order, s[n].right);
    assert Fits(s, root, order, t);
    assert s[n].parent != null ==> Fits(s, root, order, s[n].parent);
    assert s[t].left != null ==> Fits(s, root, order, s[t].left);
    assert s[t].parent != null ==> Fits(s, root, order, s[t].parent);
  }

  /** Taking out t and writing it over n takes out n. */
  lemma PredecessorOrder(s: Links, root: MemNode?, order: seq<MemNode>, n: MemNode, t: MemNode)
    requires Shape(s, root, order) && n in s && t in s && s[t].pos == s[n].pos - 1
    ensures 0 <= s[t].pos && s[n].pos < |order|
    ensures (order[..s[t].pos] + order[s[t].pos + 1..])[s[n].pos - 1 := t] == order[..s[n].pos] + order[s[n].pos + 1..]
  {
    assert Fits(s, root, order, n) && Fits(s, root, order, t);
    assert order[s[t].pos] == t;
  }

  /** The pointers of node k once t has taken the place of n. */
  ghost function ReplacedParent(s: Links, n: MemNode, t: MemNode, k: MemNode): MemNode?
    requires n in s && t in s && k in s
  {
    if k == t then s[n].parent
    else if k == s[t].left then (if s[t].parent == n then t else s[t].parent)
    else if k == s[n].left || k == s[n].right then t
    else s[k].parent
  }

  ghost function ReplacedLeft(s: Links, n: MemNode, t: MemNode, k: MemNode): MemNode?
    requires n in s && t in s && k in s
  {
    if k == t then (if s[t].parent == n then s[t].left else s[n].left)
    else if k == s[n].parent && s[k].right != n then t
    else s[k].left
  }

  ghost function ReplacedRight(s: Links, n: MemNode, t: MemNode, k: MemNode): MemNode?
    requires n in s && t in s && k in s
  {
    if k == t then s[n].right
    else if k == s[t].parent then s[t].left
    else if k == s[n].parent && s[k].right == n then t
    else s[k].right
  }

  /** Unlinking t and then putting it in the place of n gives exactly those pointers. */
  lemma ReplacedPointers(s: Links, s1: Links, s2: Links, n: MemNode, t: MemNode, k: MemNode)
    requires Replaceable(s, n, t) && Unlinked(s, s1, R, t, s[t].left, s[t].parent) && Relabelled(s1, s2, n, t)
    requires k in s2
    ensures k in s && k != n && s2[k].parent == ReplacedParent(s, n, t, k)
    ensures s2[k].left == ReplacedLeft(s, n, t, k) && s2[k].right == ReplacedRight(s, n, t, k)
  {
    if k == t {
    } else if k == s[t].left {
    } else if k == s[t].parent {
    } else if k == s[n].parent {
    } else {
    }
  }
}
