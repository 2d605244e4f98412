/** The red-black tree of address ranges on the heap, linked by parent pointers. */
module MemTree {
  import opened MemLinks
  import opened MemBalance
  import opened Intervals

  ghost predicate Sorted(order: seq<MemNode>)
    reads order`start
  {
    forall i, j :: 0 <= i < j < |order| ==> order[i].start < order[j].start
  }

  ghost function RangeOfNode(n: MemNode): Range
    reads n`start, n`end, n`refcnt
  {
    Range(n.start, n.end, n.refcnt)
  }

  ghost function RangesOf(order: seq<MemNode>): (r: seq<Range>)
    reads order`start, order`end, order`refcnt
    ensures |r| == |order| && forall i :: 0 <= i < |r| ==> r[i] == RangeOfNode(order[i])
  {
    if |order| == 0 then [] else RangesOf(order[..|order| - 1]) + [RangeOfNode(order[|order| - 1])]
  }

  lemma SortedInsert(order: seq<MemNode>, k: nat, node: MemNode)
    requires Sorted(order) && k <= |order|
    requires forall i :: 0 <= i < k ==> order[i].start < node.start
    requires forall i :: k <= i < |order| ==> node.start < order[i].start
    ensures Sorted(order[..k] + [node] + order[k..])
  {
    var order' := order[..k] + [node] + order[k..];
    forall i, j | 0 <= i < j < |order'| ensures order'[i].start < order'[j].start {
      assert i < k ==> order'[i] == order[i];
      assert i > k ==> order'[i] == order[i - 1];
      assert j < k ==> order'[j] == order[j];
      assert j > k ==> order'[j] == order[j - 1];
    }
  }

  /** The position at which an order takes a new start is fixed. */
  lemma InsertionPoint(order: seq<MemNode>, order': seq<MemNode>, k: nat, i: nat, node: MemNode)
    requires i < |order| && k <= |order| && order' == order[..k] + [node] + order[k..] && Sorted(order')
    requires order[i].start < node.start && (i + 1 < |order| ==> node.start < order[i + 1].start)
    ensures k == i + 1
  {
    assert order'[k] == node && order'[if i < k then i else i + 1] == order[i];
    assert i + 1 < |order| ==> order'[if i + 1 < k then i + 1 else i + 2] == order[i + 1];
  }

  class RangeTree {
    var root: MemNode?
    ghost var links: Links
    ghost var tints: Tints
    ghost var order: seq<MemNode>

    /** A tree of one black node. */
    constructor (node: MemNode)
      requires node.color == Black && node.parent == null && node.left == null && node.right == null
      ensures Valid() && root == node && order == [node] && links.Keys == {node}
    {
      root := node;
      links := map[node := Link(null, null, null, 0, 0, 0)];
      tints := map[node := Tint(Black, 0)];
      order := [node];
      new;
      assert Fits(links, root, order, node);
      assert Level(links, tints, node, null, L) && Proper(links, tints, node, null);
    }

    ghost predicate LinksSynced()
      reads this`links, links.Keys`parent, links.Keys`left, links.Keys`right
    {
      forall n :: n in links ==>
        n.parent == links[n].parent && n.left == links[n].left && n.right == links[n].right
    }

    /** The pointers of a node are those of its link. */
    static ghost predicate At(n: MemNode, s: Links)
      reads n`parent, n`left, n`right
    {
      n in s && n.parent == s[n].parent && n.left == s[n].left && n.right == s[n].right
    }

    ghost predicate TintsSynced()
      reads this`tints, tints.Keys`color
    {
      forall n :: n in tints ==> n.color == tints[n].color
    }

    /** The ghost view agrees with the heap. */
    ghost predicate Synced()
      reads this`links, this`tints, links.Keys`parent, links.Keys`left, links.Keys`right, tints.Keys`color
    {
      tints.Keys == links.Keys && LinksSynced() && TintsSynced()
    }

    ghost predicate Valid()
      reads this, links.Keys`parent, links.Keys`left, links.Keys`right, tints.Keys`color, order`start
    {
      Synced() && RedBlack(links, tints, root, order) && Sorted(order)
    }

    // --- walking in order ---

    method Next(node: MemNode) returns (r: MemNode?)
      requires Synced() && Shape(links, root, order) && node in links
      ensures var k := links[node].pos + 1;
              r == if 0 <= k < |order| then order[k] else null
    {
      ghost var k := links[node].pos;
      var n := node;
      assert Fits(links, root, order, n);
      if n.right != null {
        n := n.right;
        assert Fits(links, root, order, n);
        while n.left != null
          invariant n in links && links[n].lo == k + 1 && Fits(links, root, order, n)
          decreases links[n].hi - links[n].lo
        {
          n := n.left;
          assert Fits(links, root, order, n);
        }
        r := n;
      } else {
        while n.parent != null && n == n.parent.right
          invariant n in links && links[n].hi == k && Fits(links, root, order, n)
          decreases |order| - (links[n].hi - links[n].lo)
        {
          n := n.parent;
          assert Fits(links, root, order, n);
        }
        assert n.parent != null ==> Fits(links, root, order, n.parent);
        r := n.parent;
      }
    }

    method Prev(node: MemNode) returns (r: MemNode?)
      requires Synced() && Shape(links, root, order) && node in links
      ensures var k := links[node].pos - 1;
              r == if 0 <= k < |order| then order[k] else null
    {
      ghost var k := links[node].pos;
      var n := node;
      assert Fits(links, root, order, n);
      if n.left != null {
        n := n.left;
        assert Fits(links, root, order, n);
        while n.right != null
          invariant n in links && links[n].hi == k - 1 && Fits(links, root, order, n)
          decreases links[n].hi - links[n].lo
        {
          n := n.right;
          assert Fits(links, root, order, n);
        }
        r := n;
      } else {
        while n.parent != null && n == n.parent.left
          invariant n in links && links[n].lo == k && Fits(links, root, order, n)
          decreases |order| - (links[n].hi - links[n].lo)
        {
          n := n.parent;
          assert Fits(links, root, order, n);
        }
        assert n.parent != null ==> Fits(links, root, order, n.parent);
        r := n.parent;
      }
    }

    // --- rotations ---

    static function Some(n: MemNode?): set<MemNode> {
      if n == null then {} else {n}
    }

    ghost method Relink(s: Links)
      requires forall k :: k in s ==> At(k, s)
      modifies this`links
      ensures LinksSynced() && links == s
    {
      links := s;
      forall k | k in links ensures At(k, links) {
      }
    }

    /** The assignments of a left rotation. */
    method TurnLeft(node: MemNode)
      requires node.right != null && node.right != node && node.parent != node && node.parent != node.right
      requires node.right.left != node && node.right.left != node.right
      requires node.right.left != null ==> node.right.left != node.parent
      modifies this`root, node`parent, node`right, node.right`parent, node.right`left, Some(node.right.left)`parent
      modifies Some(node.parent)`left, Some(node.parent)`right
      ensures node.parent == old(node.right) && node.right == old(node.right.left)
      ensures old(node.right).parent == old(node.parent) && old(node.right).left == node
      ensures old(node.right.left) != null ==> old(node.right.left).parent == node
      ensures root == if old(node.parent) == null then old(node.right) else old(root)
      ensures old(node.parent) != null ==>
        old(node.parent).right == if old(node.parent.right) == node then old(node.right) else old(node.parent.right)
      ensures old(node.parent) != null ==>
        old(node.parent).left == if old(node.parent.right) == node then old(node.parent.left) else old(node.right)
    {
      var tmp := node.right;
      node.right := tmp.left;
      if node.right != null {
        node.right.parent := node;
      }
      if node.parent != null {
        if node.parent.right == node {
          node.parent.right := tmp;
        } else {
          node.parent.left := tmp;
        }
      } else {
        root := tmp;
      }
      tmp.parent := node.parent;
      tmp.left := node;
      node.parent := tmp;
    }

    method TurnLeftTo(node: MemNode, ghost m: MemNode, ghost b: MemNode?, ghost p: MemNode?, ghost s: Links)
      requires LinksSynced() && Rotated(links, s, L, node, m, b, p)
      modifies this`root, links.Keys`parent, links.Keys`left, links.Keys`right
      ensures (forall k :: k in s ==> At(k, s)) && root == if p == null then m else old(root)
    {
      TurnLeft(node);
      assert At(node, s) && At(m, s) && (b != null ==> At(b, s)) && (p != null ==> At(p, s));
      forall k | k in s && k != node && k != m && k != b && k != p ensures At(k, s) {
        assert s[k] == links[k];
      }
    }

    /** Rotates node down to the left, where m, b and p are the nodes around; s is what the links become. */
    method RotateLeft(node: MemNode, ghost m: MemNode, ghost b: MemNode?, ghost p: MemNode?, ghost s: Links)
      requires Synced() && Rotated(links, s, L, node, m, b, p)
      modifies this`root, this`links, links.Keys`parent, links.Keys`left, links.Keys`right
      ensures Synced() && links == s && root == if p == null then m else old(root)
    {
      hide TintsSynced, LinksSynced, At;
      TurnLeftTo(node, m, b, p, s);
      Relink(s);
    }

    method TurnRight(node: MemNode)
      requires node.left != null && node.left != node && node.parent != node && node.parent != node.left
      requires node.left.right != node && node.left.right != node.left
      requires node.left.right != null ==> node.left.right != node.parent
      modifies this`root, node`parent, node`left, node.left`parent, node.left`right, Some(node.left.right)`parent
      modifies Some(node.parent)`left, Some(node.parent)`right
      ensures node.parent == old(node.left) && node.left == old(node.left.right)
      ensures old(node.left).parent == old(node.parent) && old(node.left).right == node
      ensures old(node.left.right) != null ==> old(node.left.right).parent == node
      ensures root == if old(node.parent) == null then old(node.left) else old(root)
      ensures old(node.parent) != null ==>
        old(node.parent).right == if old(node.parent.right) == node then old(node.left) else old(node.parent.right)
      ensures old(node.parent) != null ==>
        old(node.parent).left == if old(node.parent.right) == node then old(node.parent.left) else old(node.left)
    {
      var tmp := node.left;
      node.left := tmp.right;
      if node.left != null {
        node.left.parent := node;
      }
      if node.parent != null {
        if node.parent.right == node {
          node.parent.right := tmp;
        } else {
          node.parent.left := tmp;
        }
      } else {
        root := tmp;
      }
      tmp.parent := node.parent;
      tmp.right := node;
      node.parent := tmp;
    }

    method TurnRightTo(node: MemNode, ghost m: MemNode, ghost b: MemNode?, ghost p: MemNode?, ghost s: Links)
      requires LinksSynced() && Rotated(links, s, R, node, m, b, p)
      modifies this`root, links.Keys`parent, links.Keys`left, links.Keys`right
      ensures (forall k :: k in s ==> At(k, s)) && root == if p == null then m else old(root)
    {
      TurnRight(node);
      assert At(node, s) && At(m, s) && (b != null ==> At(b, s)) && (p != null ==> At(p, s));
      forall k | k in s && k != node && k != m && k != b && k != p ensures At(k, s) {
        assert s[k] == links[k];
      }
    }

    /** Rotates node down to the right, where m, b and p are the nodes around; s is what the links become. */
    method RotateRight(node: MemNode, ghost m: MemNode, ghost b: MemNode?, ghost p: MemNode?, ghost s: Links)
      requires Synced() && Rotated(links, s, R, node, m, b, p)
      modifies this`root, this`links, links.Keys`parent, links.Keys`left, links.Keys`right
      ensures Synced() && links == s && root == if p == null then m else old(root)
    {
      hide TintsSynced, LinksSynced, At;
      TurnRightTo(node, m, b, p, s);
      Relink(s);
    }

    // --- insertion ---

    /** Colours a node; t is what its tint becomes. */
    method SetTint(n: MemNode, col: Color, ghost t: Tint)
      requires Synced() && n in tints && t.color == col
      modifies n`color, this`tints
      ensures Synced() && tints == old(tints)[n := t]
    {
      hide LinksSynced;
      n.color := col;
      tints := tints[n := t];
    }

    ghost method SetHeight(n: MemNode, bh: int)
      requires Synced() && n in tints
      modifies this`tints
      ensures Synced() && tints == old(tints)[n := old(tints)[n].(bh := bh)]
    {
      hide LinksSynced;
      tints := tints[n := tints[n].(bh := bh)];
    }

    method SetColor(n: MemNode, col: Color)
      requires Synced() && n in tints
      modifies n`color, this`tints
      ensures Synced() && tints == Paint(old(tints), n, col)
    {
      hide Synced;
      SetTint(n, col, tints[n].(color := col));
    }

    method RecolorUncle(gp: MemNode, parent: MemNode, uncle: MemNode)
      requires Synced() && gp in links && parent in links && uncle in links
      requires gp != parent && gp != uncle && parent != uncle
      modifies gp`color, parent`color, uncle`color, this`tints
      ensures Synced() && tints == UncleRecolored(old(tints), gp, parent, uncle)
    {
      hide LinksSynced, TintsSynced;
      ghost var c := tints;
      SetTint(parent, Black, c[parent].(color := Black));
      SetTint(uncle, Black, c[uncle].(color := Black));
      SetTint(gp, Red, Tint(Red, c[gp].bh + 1));
      assert tints == UncleRecolored(c, gp, parent, uncle);
    }

    method PaintRotateLeft(x: MemNode, cx: Color, y: MemNode, cy: Color,
                           node: MemNode, ghost m: MemNode, ghost b: MemNode?, ghost p: MemNode?, ghost s: Links)
      requires Synced() && x in tints && y in tints && Rotated(links, s, L, node, m, b, p)
      modifies this`root, this`links, this`tints, x`color, y`color
      modifies links.Keys`parent, links.Keys`left, links.Keys`right
      ensures Synced() && links == s && tints == Paint(Paint(old(tints), x, cx), y, cy)
      ensures root == if p == null then m else old(root)
    {
      hide LinksSynced, TintsSynced;
      SetColor(x, cx);
      SetColor(y, cy);
      RotateLeft(node, m, b, p, s);
    }

    method PaintRotateRight(x: MemNode, cx: Color, y: MemNode, cy: Color,
                           node: MemNode, ghost m: MemNode, ghost b: MemNode?, ghost p: MemNode?, ghost s: Links)
      requires Synced() && x in tints && y in tints && Rotated(links, s, R, node, m, b, p)
      modifies this`root, this`links, this`tints, x`color, y`color
      modifies links.Keys`parent, links.Keys`left, links.Keys`right
      ensures Synced() && links == s && tints == Paint(Paint(old(tints), x, cx), y, cy)
      ensures root == if p == null then m else old(root)
    {
      hide LinksSynced, TintsSynced;
      SetColor(x, cx);
      SetColor(y, cy);
      RotateRight(node, m, b, p, s);
    }

    method AddInnerLeft(node: MemNode, parent: MemNode, gp: MemNode, ghost u: MemNode?)
      requires Synced() && Adding(links, tints, root, order, node)
      requires Uncle(links, tints, node, parent, gp, u, L) && links[parent].right == node
      modifies this`root, this`links, links.Keys`parent, links.Keys`left, links.Keys`right
      ensures Synced() && Adding(links, tints, root, order, parent)
      ensures Uncle(links, tints, parent, node, gp, u, L) && links[node].left == parent
    {
      ghost var s := PlanInner(links, tints, root, order, L, node, parent, gp, u);
      RotateLeft(parent, node, links[node].left, gp, s);
    }

    method AddOuterLeft(node: MemNode, parent: MemNode, gp: MemNode, ghost u: MemNode?)
      requires Synced() && Adding(links, tints, root, order, node)
      requires Uncle(links, tints, node, parent, gp, u, L) && IsBlack(tints, u) && links[parent].left == node
      modifies this`root, this`links, this`tints
      modifies links.Keys`parent, links.Keys`left, links.Keys`right, links.Keys`color
      ensures Synced() && Adding(links, tints, root, order, node) && links.Keys == old(links.Keys)
      ensures node.parent == parent && parent.color == Black
    {
      ghost var s := PlanOuter(links, tints, root, order, L, node, parent, gp, u);
      PaintRotateRight(parent, Black, gp, Red, gp, parent, links[parent].right, links[gp].parent, s);
    }

    method AddInnerRight(node: MemNode, parent: MemNode, gp: MemNode, ghost u: MemNode?)
      requires Synced() && Adding(links, tints, root, order, node)
      requires Uncle(links, tints, node, parent, gp, u, R) && links[parent].left == node
      modifies this`root, this`links, links.Keys`parent, links.Keys`left, links.Keys`right
      ensures Synced() && Adding(links, tints, root, order, parent)
      ensures Uncle(links, tints, parent, node, gp, u, R) && links[node].right == parent
    {
      ghost var s := PlanInner(links, tints, root, order, R, node, parent, gp, u);
      RotateRight(parent, node, links[node].right, gp, s);
    }

    method AddOuterRight(node: MemNode, parent: MemNode, gp: MemNode, ghost u: MemNode?)
      requires Synced() && Adding(links, tints, root, order, node)
      requires Uncle(links, tints, node, parent, gp, u, R) && IsBlack(tints, u) && links[parent].right == node
      modifies this`root, this`links, this`tints
      modifies links.Keys`parent, links.Keys`left, links.Keys`right, links.Keys`color
      ensures Synced() && Adding(links, tints, root, order, node) && links.Keys == old(links.Keys)
      ensures node.parent == parent && parent.color == Black
    {
      ghost var s := PlanOuter(links, tints, root, order, R, node, parent, gp, u);
      PaintRotateLeft(parent, Black, gp, Red, gp, parent, links[parent].left, links[gp].parent, s);
    }

    /** One turn of the rebalancing loop. */
    method AddStep(node: MemNode) returns (next: MemNode)
      requires Synced() && Adding(links, tints, root, order, node) && node.parent != null && node.parent.color == Red
      modifies this`root, this`links, this`tints
      modifies links.Keys`parent, links.Keys`left, links.Keys`right, links.Keys`color
      ensures Synced() && Adding(links, tints, root, order, next) && links.Keys == old(links.Keys)
      ensures (next.parent != null && next.parent.color == Black)
        || (links == old(links) && links[next].hi - links[next].lo > links[node].hi - links[node].lo)
    {
      assert Fits(links, root, order, node);
      AddingUncle(links, tints, root, order, node);
      var parent := node.parent;
      var gp := parent.parent;
      if parent == gp.left {
        var uncle := gp.right;
        if uncle != null && uncle.color == Red {
          next := RecolorUp(node, parent, gp, uncle, L);
        } else if node == parent.right {
          AddInnerLeft(node, parent, gp, uncle);
          AddOuterLeft(parent, node, gp, uncle);
          next := parent;
        } else {
          AddOuterLeft(node, parent, gp, uncle);
          next := node;
        }
      } else {
        var uncle := gp.left;
        if uncle != null && uncle.color == Red {
          next := RecolorUp(node, parent, gp, uncle, R);
        } else if node == parent.left {
          AddInnerRight(node, parent, gp, uncle);
          AddOuterRight(parent, node, gp, uncle);
          next := parent;
        } else {
          AddOuterRight(node, parent, gp, uncle);
          next := node;
        }
      }
    }

    method RecolorUp(node: MemNode, parent: MemNode, gp: MemNode, uncle: MemNode, ghost e: Dir) returns (next: MemNode)
      requires Synced() && Adding(links, tints, root, order, node) && uncle in tints && tints[uncle].color.Red?
      requires Uncle(links, tints, node, parent, gp, uncle, e)
      modifies this`tints, links.Keys`color
      ensures Synced() && Adding(links, tints, root, order, next)
      ensures links[next].hi - links[next].lo > links[node].hi - links[node].lo
    {
      hide LinksSynced, TintsSynced, Colored;
      ghost var c := tints;
      RecolorUncle(gp, parent, uncle);
      UncleRecoloredAdding(links, c, root, order, node, parent, gp, uncle, e);
      assert Fits(links, root, order, gp) && Fits(links, root, order, parent) && Fits(links, root, order, node);
      next := gp;
    }

    method AddRebalance(start: MemNode)
      requires Synced() && Adding(links, tints, root, order, start)
      modifies this`root, this`links, this`tints
      modifies links.Keys`parent, links.Keys`left, links.Keys`right, links.Keys`color
      ensures Synced() && RedBlack(links, tints, root, order) && links.Keys == old(links.Keys)
    {
      hide Colored, RedBlack;
      var node := start;
      while node.parent != null && node.parent.color == Red
        invariant Synced() && Adding(links, tints, root, order, node) && links.Keys == old(links.Keys)
        decreases if node.parent != null && node.parent.color == Red
                  then |order| - (links[node].hi - links[node].lo) else 0
      {
        assert Fits(links, root, order, node);
        node := AddStep(node);
        assert Fits(links, root, order, node);
      }
      RootBlackened(links, tints, root, order, node);
      SetColor(root, Black);
    }

    /** Where a new start address belongs: below which node, and at which position. */
    method FindParent(start: int) returns (parent: MemNode, ghost k: nat)
      requires Synced() && Shape(links, root, order) && Sorted(order) && root != null
      requires forall n :: n in links ==> n.start != start
      ensures parent in links && k <= |order|
      ensures if parent.start < start then parent.right == null && k == links[parent].pos + 1
              else parent.left == null && k == links[parent].pos
      ensures forall i :: 0 <= i < k ==> order[i].start < start
      ensures forall i :: k <= i < |order| ==> start < order[i].start
    {
      var n: MemNode? := root;
      parent := root;
      assert Fits(links, root, order, root);
      ghost var lo, hi := 0, |order| - 1;
      while n != null
        invariant parent in links && 0 <= lo <= hi + 1 <= |order|
        invariant n != null ==> n in links && lo == links[n].lo && hi == links[n].hi
        invariant forall i :: 0 <= i < lo ==> order[i].start < start
        invariant forall i :: hi < i < |order| ==> start < order[i].start
        invariant n == null ==> lo == hi + 1
        invariant n == null ==> if parent.start < start then parent.right == null && lo == links[parent].pos + 1
                                else parent.left == null && lo == links[parent].pos
        decreases hi - lo + 1, n != null
      {
        parent := n;
        assert Fits(links, root, order, n);
        ghost var at := links[n].pos;
        assert order[at] == n;
        if n.start < start {
          n := n.right;
          lo := at + 1;
        } else {
          n := n.left;
          hi := at - 1;
        }
        assert n != null ==> Fits(links, root, order, n);
      }
      k := lo;
    }

    /** The assignments that hang a new red leaf below its parent. */
    method Hang(node: MemNode, parent: MemNode)
      requires node != parent
      modifies node`parent, node`left, node`right, node`color, parent`left, parent`right
      ensures node.parent == parent && node.left == null && node.right == null && node.color == Red
      ensures parent.right == if parent.start < node.start then node else old(parent.right)
      ensures parent.left == if parent.start < node.start then old(parent.left) else node
    {
      if parent.start < node.start {
        parent.right := node;
      } else {
        parent.left := node;
      }
      node.parent := parent;
      node.left := null;
      node.right := null;
      node.color := Red;
    }

    method LinkLeaf(node: MemNode, parent: MemNode, ghost d: Dir, ghost s: Links, ghost k: int)
      requires LinksSynced() && parent in links && Inserted(links, s, d, node, parent, k)
      requires d == if parent.start < node.start then R else L
      modifies this`links, node`parent, node`left, node`right, node`color
      modifies parent`left, parent`right
      ensures LinksSynced() && links == s && node.color == Red
    {
      Hang(node, parent);
      assert forall k :: k in s ==> k.parent == s[k].parent;
      assert forall k :: k in s ==> k.left == s[k].left && k.right == s[k].right;
      links := s;
    }

    ghost method TintLeaf(node: MemNode)
      requires TintsSynced() && node.color == Red
      modifies this`tints
      ensures TintsSynced() && tints == old(tints)[node := Tint(Red, 0)]
    {
      tints := tints[node := Tint(Red, 0)];
    }

    method AddLeaf(node: MemNode, parent: MemNode, ghost d: Dir, ghost s: Links, ghost k: int)
      requires Synced() && parent in links && Inserted(links, s, d, node, parent, k)
      requires d == if parent.start < node.start then R else L
      modifies this`links, this`tints, node`parent, node`left, node`right, node`color
      modifies parent`left, parent`right
      ensures Synced() && links == s && tints == old(tints)[node := Tint(Red, 0)]
    {
      hide LinksSynced, TintsSynced;
      LinkLeaf(node, parent, d, s, k);
      TintLeaf(node);
    }

    /** Inserts a new leaf at position k, below the given parent, and rebalances. */
    method AddAt(node: MemNode, parent: MemNode, ghost k: nat)
      requires Synced() && RedBlack(links, tints, root, order) && parent in links && node !in links
      requires if parent.start < node.start then parent.right == null && k == links[parent].pos + 1
               else parent.left == null && k == links[parent].pos
      modifies this, node`parent, node`left, node`right, node`color
      modifies links.Keys`parent, links.Keys`left, links.Keys`right, links.Keys`color
      ensures Synced() && RedBlack(links, tints, root, order) && links.Keys == old(links.Keys) + {node}
      ensures k <= |old(order)| && order == old(order)[..k] + [node] + old(order)[k..]
    {
      ghost var d := if parent.start < node.start then R else L;
      ghost var s := Insert(links, d, node, parent, k);
      InsertedAdding(links, s, tints, root, order, d, node, parent, k);
      AddLeaf(node, parent, d, s, k);
      order := order[..k] + [node] + order[k..];
      AddRebalance(node);
    }

    /** Inserts a new node where its start address belongs. */
    method Add(node: MemNode) returns (ghost k: nat)
      requires Valid() && root != null && node !in links
      requires forall n :: n in links ==> n.start != node.start
      modifies this, node`parent, node`left, node`right, node`color
      modifies links.Keys`parent, links.Keys`left, links.Keys`right, links.Keys`color
      ensures Valid() && links.Keys == old(links.Keys) + {node}
      ensures k <= |old(order)| && order == old(order)[..k] + [node] + old(order)[k..]
    {
      hide Shape, Colored, LinksSynced, TintsSynced, Sorted;
      var parent;
      parent, k := FindParent(node.start);
      ghost var o := order[..k] + [node] + order[k..];
      SortedInsert(order, k, node);
      AddAt(node, parent, k);
      assert Sorted(o);
    }

    // --- removal ---

    method RecolorOuter(parent: MemNode, sib: MemNode, outer: MemNode)
      requires Synced() && parent in links && sib in links && outer in links
      requires parent != sib && parent != outer && sib != outer
      modifies parent`color, sib`color, outer`color, this`tints
      ensures Synced() && tints == OuterRecolored(old(tints), parent, sib, outer)
    {
      hide LinksSynced;
      ghost var c := tints;
      SetTint(sib, parent.color, c[parent]);
      SetTint(parent, Black, Tint(Black, c[parent].bh - 1));
      SetTint(outer, Black, c[outer].(color := Black));
      assert tints == OuterRecolored(c, parent, sib, outer);
    }

    method OuterRotateLeft(parent: MemNode, sib: MemNode, outer: MemNode, ghost b: MemNode?, ghost p: MemNode?, ghost s: Links)
      requires Synced() && parent != sib && parent != outer && sib != outer && sib in links && outer in links
      requires Rotated(links, s, L, parent, sib, b, p)
      modifies this`root, this`links, this`tints, parent`color, sib`color, outer`color
      modifies links.Keys`parent, links.Keys`left, links.Keys`right
      ensures Synced() && links == s && tints == OuterRecolored(old(tints), parent, sib, outer)
      ensures root == if p == null then sib else old(root)
    {
      RecolorOuter(parent, sib, outer);
      RotateLeft(parent, sib, b, p, s);
    }

    method OuterRotateRight(parent: MemNode, sib: MemNode, outer: MemNode, ghost b: MemNode?, ghost p: MemNode?, ghost s: Links)
      requires Synced() && parent != sib && parent != outer && sib != outer && sib in links && outer in links
      requires Rotated(links, s, R, parent, sib, b, p)
      modifies this`root, this`links, this`tints, parent`color, sib`color, outer`color
      modifies links.Keys`parent, links.Keys`left, links.Keys`right
      ensures Synced() && links == s && tints == OuterRecolored(old(tints), parent, sib, outer)
      ensures root == if p == null then sib else old(root)
    {
      RecolorOuter(parent, sib, outer);
      RotateRight(parent, sib, b, p, s);
    }

    method FixRedSiblingLeft(parent: MemNode, sib: MemNode, ghost child: MemNode?)
      requires Synced() && Removing(links, tints, root, order, child, parent, L) && IsBlack(tints, child)
      requires links[parent].right == sib && sib in links && tints[sib].color.Red?
      modifies this`root, this`links, this`tints
      modifies links.Keys`parent, links.Keys`left, links.Keys`right, links.Keys`color
      ensures Synced() && Removing(links, tints, root, order, child, parent, L) && links.Keys == old(links.Keys)
      ensures IsBlack(tints, child) && tints[parent].color.Red?
      ensures links[parent].right != null && links[parent].right in links && IsBlack(tints, links[parent].right)
    {
      ghost var s := PlanRedSibling(links, tints, root, order, child, L, parent, sib);
      PaintRotateLeft(parent, Red, sib, Black, parent, sib, links[sib].left, links[parent].parent, s);
    }

    method FixInnerLeft(parent: MemNode, sib: MemNode, inner: MemNode, ghost child: MemNode?)
      requires Synced() && Removing(links, tints, root, order, child, parent, L) && IsBlack(tints, child)
      requires links[parent].right == sib && sib in links && tints[sib].color.Black?
      requires links[sib].left == inner && inner in links && tints[inner].color.Red? && IsBlack(tints, links[sib].right)
      modifies this`root, this`links, this`tints
      modifies links.Keys`parent, links.Keys`left, links.Keys`right, links.Keys`color
      ensures Synced() && Removing(links, tints, root, order, child, parent, L) && links.Keys == old(links.Keys)
      ensures IsBlack(tints, child) && links[parent].right == inner && tints[inner].color.Black?
      ensures links[inner].right == sib && tints[sib].color.Red?
    {
      ghost var s := PlanInnerNephew(links, tints, root, order, child, L, parent, sib, inner);
      PaintRotateRight(inner, Black, sib, Red, sib, inner, links[inner].right, parent, s);
    }

    method FixOuterLeft(parent: MemNode, sib: MemNode, outer: MemNode, ghost child: MemNode?)
      requires Synced() && Removing(links, tints, root, order, child, parent, L) && IsBlack(tints, child)
      requires links[parent].right == sib && sib in links && tints[sib].color.Black?
      requires links[sib].right == outer && outer in links && tints[outer].color.Red?
      modifies this`root, this`links, this`tints
      modifies links.Keys`parent, links.Keys`left, links.Keys`right, links.Keys`color
      ensures Synced() && RedBlack(links, tints, root, order) && links.Keys == old(links.Keys)
    {
      ghost var s := PlanOuterNephew(links, tints, root, order, child, L, parent, sib, outer);
      OuterRotateLeft(parent, sib, outer, links[sib].left, links[parent].parent, s);
    }

    method FixRedSiblingRight(parent: MemNode, sib: MemNode, ghost child: MemNode?)
      requires Synced() && Removing(links, tints, root, order, child, parent, R) && IsBlack(tints, child)
      requires links[parent].left == sib && sib in links && tints[sib].color.Red?
      modifies this`root, this`links, this`tints
      modifies links.Keys`parent, links.Keys`left, links.Keys`right, links.Keys`color
      ensures Synced() && Removing(links, tints, root, order, child, parent, R) && links.Keys == old(links.Keys)
      ensures IsBlack(tints, child) && tints[parent].color.Red?
      ensures links[parent].left != null && links[parent].left in links && IsBlack(tints, links[parent].left)
    {
      ghost var s := PlanRedSibling(links, tints, root, order, child, R, parent, sib);
      PaintRotateRight(parent, Red, sib, Black, parent, sib, links[sib].right, links[parent].parent, s);
    }

    method FixInnerRight(parent: MemNode, sib: MemNode, inner: MemNode, ghost child: MemNode?)
      requires Synced() && Removing(links, tints, root, order, child, parent, R) && IsBlack(tints, child)
      requires links[parent].left == sib && sib in links && tints[sib].color.Black?
      requires links[sib].right == inner && inner in links && tints[inner].color.Red? && IsBlack(tints, links[sib].left)
      modifies this`root, this`links, this`tints
      modifies links.Keys`parent, links.Keys`left, links.Keys`right, links.Keys`color
      ensures Synced() && Removing(links, tints, root, order, child, parent, R) && links.Keys == old(links.Keys)
      ensures IsBlack(tints, child) && links[parent].left == inner && tints[inner].color.Black?
      ensures links[inner].left == sib && tints[sib].color.Red?
    {
      ghost var s := PlanInnerNephew(links, tints, root, order, child, R, parent, sib, inner);
      PaintRotateLeft(inner, Black, sib, Red, sib, inner, links[inner].left, parent, s);
    }

    method FixOuterRight(parent: MemNode, sib: MemNode, outer: MemNode, ghost child: MemNode?)
      requires Synced() && Removing(links, tints, root, order, child, parent, R) && IsBlack(tints, child)
      requires links[parent].left == sib && sib in links && tints[sib].color.Black?
      requires links[sib].left == outer && outer in links && tints[outer].color.Red?
      modifies this`root, this`links, this`tints
      modifies links.Keys`parent, links.Keys`left, links.Keys`right, links.Keys`color
      ensures Synced() && RedBlack(links, tints, root, order) && links.Keys == old(links.Keys)
    {
      ghost var s := PlanOuterNephew(links, tints, root, order, child, R, parent, sib, outer);
      OuterRotateRight(parent, sib, outer, links[sib].right, links[parent].parent, s);
    }

    method FixRedden(parent: MemNode, sib: MemNode, ghost child: MemNode?, ghost d: Dir)
      requires Synced() && Removing(links, tints, root, order, child, parent, d) && IsBlack(tints, child)
      requires parent in links && sib in links && links[parent].Kid(d.Opp()) == sib && sib.color == Black
      requires IsBlack(tints, sib.left) && IsBlack(tints, sib.right)
      modifies this`tints, sib`color
      ensures Synced() && (parent.parent != null ==> parent.parent in links)
      ensures Removing(links, tints, root, order, parent, parent.parent,
                       if parent.parent == null then L else links[parent.parent].Side(parent))
      ensures tints[parent].color == old(tints)[parent].color
    {
      hide Removing, Kin;
      ghost var c := tints;
      RemovingSibling(links, c, root, order, child, parent, d);
      SiblingReddenedRemoving(links, c, root, order, child, d, parent, sib);
      SetTint(sib, Red, c[sib].(color := Red));
      SetHeight(parent, c[parent].bh - 1);
    }

    /** The sibling is black and one of its children red. */
    method FixNephewsLeft(parent: MemNode, sib: MemNode, ghost child: MemNode?)
      requires Synced() && Removing(links, tints, root, order, child, parent, L) && IsBlack(tints, child)
      requires links[parent].right == sib && sib in links && tints[sib].color.Black?
      requires !(IsBlack(tints, links[sib].left) && IsBlack(tints, links[sib].right))
      modifies this`root, this`links, this`tints
      modifies links.Keys`parent, links.Keys`left, links.Keys`right, links.Keys`color
      ensures Synced() && RedBlack(links, tints, root, order) && links.Keys == old(links.Keys)
    {
      ShapeKin(links, root, order, sib);
      var s := sib;
      if s.right == null || s.right.color == Black {
        FixInnerLeft(parent, sib, sib.left, child);
        s := parent.right;
      }
      FixOuterLeft(parent, s, s.right, child);
    }

    method FixBlackSiblingLeft(parent: MemNode, sib: MemNode, ghost child: MemNode?)
      returns (next: MemNode?, up: MemNode?, ghost side: Dir)
      requires Synced() && Removing(links, tints, root, order, child, parent, L) && IsBlack(tints, child)
      requires links[parent].right == sib && sib in links && tints[sib].color.Black?
      modifies this`root, this`links, this`tints
      modifies links.Keys`parent, links.Keys`left, links.Keys`right, links.Keys`color
      ensures Synced() && Removing(links, tints, root, order, next, up, side) && links.Keys == old(links.Keys)
      ensures up == null || (links == old(links) && next == parent && up == links[parent].parent
                             && next in tints && tints[next].color == old(tints)[next].color)
    {
      ShapeKin(links, root, order, sib);
      ShapeKin(links, root, order, parent);
      if (sib.left == null || sib.left.color == Black) && (sib.right == null || sib.right.color == Black) {
        next, up := parent, parent.parent;
        side := if up == null then L else links[up].Side(parent);
        FixRedden(parent, sib, child, L);
      } else {
        FixNephewsLeft(parent, sib, child);
        RemovedAll(links, tints, root, order);
        next, up, side := root, null, L;
      }
    }

    /** A turn of the removal loop whose short subtree is a left child. */
    method RemoveStepLeft(child: MemNode?, parent: MemNode) returns (next: MemNode?, up: MemNode?, ghost side: Dir)
      requires Synced() && Removing(links, tints, root, order, child, parent, L) && IsBlack(tints, child)
      modifies this`root, this`links, this`tints
      modifies links.Keys`parent, links.Keys`left, links.Keys`right, links.Keys`color
      ensures Synced() && Removing(links, tints, root, order, next, up, side) && links.Keys == old(links.Keys)
      ensures up == null || !IsBlack(tints, next) || (links == old(links) && up == links[parent].parent)
    {
      RemovingSibling(links, tints, root, order, child, parent, L);
      var sib := parent.right;
      if sib.color == Red {
        FixRedSiblingLeft(parent, sib, child);
        sib := parent.right;
      }
      next, up, side := FixBlackSiblingLeft(parent, sib, child);
    }

    /** The sibling is black and one of its children red. */
    method FixNephewsRight(parent: MemNode, sib: MemNode, ghost child: MemNode?)
      requires Synced() && Removing(links, tints, root, order, child, parent, R) && IsBlack(tints, child)
      requires links[parent].left == sib && sib in links && tints[sib].color.Black?
      requires !(IsBlack(tints, links[sib].right) && IsBlack(tints, links[sib].left))
      modifies this`root, this`links, this`tints
      modifies links.Keys`parent, links.Keys`left, links.Keys`right, links.Keys`color
      ensures Synced() && RedBlack(links, tints, root, order) && links.Keys == old(links.Keys)
    {
      ShapeKin(links, root, order, sib);
      var s := sib;
      if s.left == null || s.left.color == Black {
        FixInnerRight(parent, sib, sib.right, child);
        s := parent.left;
      }
      FixOuterRight(parent, s, s.left, child);
    }

    method FixBlackSiblingRight(parent: MemNode, sib: MemNode, ghost child: MemNode?)
      returns (next: MemNode?, up: MemNode?, ghost side: Dir)
      requires Synced() && Removing(links, tints, root, order, child, parent, R) && IsBlack(tints, child)
      requires links[parent].left == sib && sib in links && tints[sib].color.Black?
      modifies this`root, this`links, this`tints
      modifies links.Keys`parent, links.Keys`left, links.Keys`right, links.Keys`color
      ensures Synced() && Removing(links, tints, root, order, next, up, side) && links.Keys == old(links.Keys)
      ensures up == null || (links == old(links) && next == parent && up == links[parent].parent
                             && next in tints && tints[next].color == old(tints)[next].color)
    {
      ShapeKin(links, root, order, sib);
      ShapeKin(links, root, order, parent);
      if (sib.right == null || sib.right.color == Black) && (sib.left == null || sib.left.color == Black) {
        next, up := parent, parent.parent;
        side := if up == null then L else links[up].Side(parent);
        FixRedden(parent, sib, child, R);
      } else {
        FixNephewsRight(parent, sib, child);
        RemovedAll(links, tints, root, order);
        next, up, side := root, null, L;
      }
    }

    /** A turn of the removal loop whose short subtree is a right child. */
    method RemoveStepRight(child: MemNode?, parent: MemNode) returns (next: MemNode?, up: MemNode?, ghost side: Dir)
      requires Synced() && Removing(links, tints, root, order, child, parent, R) && IsBlack(tints, child)
      modifies this`root, this`links, this`tints
      modifies links.Keys`parent, links.Keys`left, links.Keys`right, links.Keys`color
      ensures Synced() && Removing(links, tints, root, order, next, up, side) && links.Keys == old(links.Keys)
      ensures up == null || !IsBlack(tints, next) || (links == old(links) && up == links[parent].parent)
    {
      RemovingSibling(links, tints, root, order, child, parent, R);
      var sib := parent.left;
      if sib.color == Red {
        FixRedSiblingRight(parent, sib, child);
        sib := parent.left;
      }
      next, up, side := FixBlackSiblingRight(parent, sib, child);
    }

    /** One turn of the removal loop. */
    method RemoveStep(child: MemNode?, parent: MemNode, ghost at: Dir) returns (next: MemNode?, up: MemNode?, ghost side: Dir)
      requires Synced() && Removing(links, tints, root, order, child, parent, at) && IsBlack(tints, child)
      modifies this`root, this`links, this`tints
      modifies links.Keys`parent, links.Keys`left, links.Keys`right, links.Keys`color
      ensures Synced() && Removing(links, tints, root, order, next, up, side) && links.Keys == old(links.Keys)
      ensures (next == root <==> up == null) && (next != null ==> next in links)
      ensures up == null || !IsBlack(tints, next)
        || (links == old(links) && up in links && links[up].hi - links[up].lo > links[parent].hi - links[parent].lo)
    {
      RemovingRoot(links, tints, root, order, child, parent, at);
      assert Fits(links, root, order, parent);
      if parent.left == child {
        next, up, side := RemoveStepLeft(child, parent);
      } else {
        next, up, side := RemoveStepRight(child, parent);
      }
      RemovingRoot(links, tints, root, order, next, up, side);
      assert up != null ==> Fits(links, root, order, up);
    }

    method RemoveRebalance(start: MemNode?, above: MemNode?, ghost at: Dir)
      requires Synced() && Removing(links, tints, root, order, start, above, at)
      modifies this`root, this`links, this`tints
      modifies links.Keys`parent, links.Keys`left, links.Keys`right, links.Keys`color
      ensures Synced() && RedBlack(links, tints, root, order) && links.Keys == old(links.Keys)
    {
      hide Colored, LinksSynced;
      var child, parent := start, above;
      ghost var side := at;
      RemovingRoot(links, tints, root, order, child, parent, side);
      while (child == null || child.color == Black) && child != root
        invariant Synced() && Removing(links, tints, root, order, child, parent, side) && links.Keys == old(links.Keys)
        invariant (child == root <==> parent == null) && (child != null ==> child in links)
        decreases if IsBlack(tints, child) && parent != null
                  then |order| - (links[parent].hi - links[parent].lo) else 0
      {
        assert Fits(links, root, order, parent);
        child, parent, side := RemoveStep(child, parent, side);
        assert parent != null ==> Fits(links, root, order, parent);
      }
      if child != null {
        Blackened(links, tints, root, order, child, parent, side);
        SetColor(child, Black);
      } else {
        Emptied(links, tints, order, side);
      }
    }

    /** The assignments that take out a node with at most one child. */
    method Bypass(node: MemNode, ghost ns: set<MemNode>) returns (child: MemNode?, parent: MemNode?)
      requires node.left == null || node.right == null
      requires node.parent != node && node.left != node && node.right != node
      requires node.parent != null ==> node.parent != node.left && node.parent != node.right
      requires node.parent != null ==> (node.parent.left == node) != (node.parent.right == node)
      modifies this`root, Some(node.left)`parent, Some(node.right)`parent
      modifies Some(node.parent)`left, Some(node.parent)`right
      ensures child == (if node.left != null then node.left else node.right) && parent == node.parent
      ensures root == if parent == null then child else old(root)
      ensures forall k :: k in ns && k != node ==> k.parent == if k == child then parent else old(k.parent)
      ensures forall k :: k in ns && k != node ==> k.left == if k == parent && old(k.right) != node then child else old(k.left)
      ensures forall k :: k in ns && k != node ==> k.right == if k == parent && old(k.right) == node then child else old(k.right)
    {
      child := if node.left != null then node.left else node.right;
      parent := node.parent;
      if child != null {
        child.parent := parent;
      }
      if parent != null {
        if parent.left == node {
          parent.left := child;
        } else {
          parent.right := child;
        }
      } else {
        root := child;
      }
    }

    /** Takes out a node with at most one child; s is what the links become. */
    method UnlinkNode(node: MemNode, ghost d: Dir, ghost s: Links) returns (child: MemNode?, parent: MemNode?)
      requires LinksSynced() && node in links && Unlinked(links, s, d, node, links[node].Kid(d.Opp()), links[node].parent)
      requires Kin(links, node) && (links[node].parent != null ==> Kin(links, links[node].parent))
      modifies this`root, this`links, links.Keys`parent, links.Keys`left, links.Keys`right
      ensures LinksSynced() && links == s
      ensures child == old(links)[node].Kid(d.Opp()) && parent == old(links)[node].parent
      ensures root == if parent == null then child else old(root)
    {
      child, parent := Bypass(node, links.Keys);
      forall k | k in s ensures k.parent == s[k].parent && k.left == s[k].left && k.right == s[k].right {
        UnlinkedPointers(links, s, d, node, child, parent, k);
      }
      links := s;
    }

    /** The rightmost node below n. */
    method Rightmost(n: MemNode) returns (r: MemNode)
      requires Synced() && Shape(links, root, order) && n in links
      ensures r in links && links[r].right == null && links[r].pos == links[n].hi
    {
      r := n;
      assert Fits(links, root, order, n);
      while r.right != null
        invariant r in links && links[r].hi == links[n].hi && Fits(links, root, order, r)
        decreases links[r].hi - links[r].lo
      {
        r := r.right;
        assert Fits(links, root, order, r);
      }
    }

    /** The assignments that put tmp, the rightmost node below node.left, in the place of node. */
    method Replace(node: MemNode, tmp: MemNode, ghost ns: set<MemNode>) returns (parent: MemNode)
      requires node != tmp && tmp.right == null && node.left != null && node.right != null
      requires node.left != node.right && node.left != node && node.right != node
      requires tmp.parent != null && tmp.parent != tmp && tmp.parent != node.right
      requires if tmp.parent == node then tmp == node.left else tmp != node.left && tmp.parent.right == tmp
      requires tmp != node.right && tmp != node.parent
      requires tmp.left != null ==>
        && tmp.left != tmp && tmp.left != node && tmp.left != node.left && tmp.left.parent == tmp
        && tmp.left != node.right && tmp.left != node.parent && tmp.left != tmp.parent
      requires node.parent != null ==>
        && node.parent != node && node.parent != node.left && node.parent != node.right && node.parent != tmp.parent
        && (node.parent.left == node) != (node.parent.right == node)
      modifies this`root, tmp`parent, tmp`left, tmp`right, Some(tmp.left)`parent, tmp.parent`right
      modifies node.left`parent, node.right`parent, Some(node.parent)`left, Some(node.parent)`right
      ensures parent == if old(tmp.parent) == node then tmp else old(tmp.parent)
      ensures root == if old(node.parent) == null then tmp else old(root)
      ensures forall k :: k in ns && k != node ==>
        k.parent == (if k == tmp then old(node.parent)
                     else if k == old(tmp.left) then (if old(tmp.parent) == node then tmp else old(tmp.parent))
                     else if k == old(node.left) || k == old(node.right) then tmp
                     else old(k.parent))
      ensures forall k :: k in ns && k != node ==>
        k.left == (if k == tmp then (if old(tmp.parent) == node then old(tmp.left) else old(node.left))
                   else if k == old(node.parent) && old(k.right) != node then tmp
                   else old(k.left))
      ensures forall k :: k in ns && k != node ==>
        k.right == (if k == tmp then old(node.right)
                    else if k == old(tmp.parent) then old(tmp.left)
                    else if k == old(node.parent) && old(k.right) == node then tmp
                    else old(k.right))
    {
      if tmp.parent != node {
        parent := tmp.parent;
        parent.right := tmp.left;
        if tmp.left != null {
          tmp.left.parent := parent;
        }
        tmp.left := node.left;
        node.left.parent := tmp;
      } else {
        parent := tmp;
      }
      tmp.right := node.right;
      node.right.parent := tmp;
      tmp.parent := node.parent;
      if node.parent != null {
        if node.parent.left == node {
          node.parent.left := tmp;
        } else {
          node.parent.right := tmp;
        }
      } else {
        root := tmp;
      }
    }

    method ReplacePointers(node: MemNode, tmp: MemNode) returns (parent: MemNode)
      requires LinksSynced() && Replaceable(links, node, tmp) && Kin(links, tmp)
      requires links[node].parent != null ==> Kin(links, links[node].parent)
      modifies this`root, links.Keys`parent, links.Keys`left, links.Keys`right
      ensures parent == (if links[tmp].parent == node then tmp else links[tmp].parent)
      ensures root == if links[node].parent == null then tmp else old(root)
      ensures forall k :: k in links && k != node ==> k.parent == ReplacedParent(links, node, tmp, k)
      ensures forall k :: k in links && k != node ==> k.left == ReplacedLeft(links, node, tmp, k)
      ensures forall k :: k in links && k != node ==> k.right == ReplacedRight(links, node, tmp, k)
    {
      parent := Replace(node, tmp, links.Keys);
    }

    /** Puts tmp in the place of node; s2 is what the links become. */
    method ReplaceNode(node: MemNode, tmp: MemNode, ghost s1: Links, ghost s2: Links) returns (parent: MemNode)
      requires LinksSynced() && Replaceable(links, node, tmp) && Kin(links, tmp)
      requires links[node].parent != null ==> Kin(links, links[node].parent)
      requires Unlinked(links, s1, R, tmp, links[tmp].left, links[tmp].parent) && Relabelled(s1, s2, node, tmp)
      modifies this`root, this`links, links.Keys`parent, links.Keys`left, links.Keys`right
      ensures LinksSynced() && links == s2
      ensures parent == (if old(links)[tmp].parent == node then tmp else old(links)[tmp].parent)
      ensures root == if old(links)[node].parent == null then tmp else old(root)
    {
      parent := ReplacePointers(node, tmp);
      forall k | k in s2 ensures k.parent == s2[k].parent && k.left == s2[k].left && k.right == s2[k].right {
        ReplacedPointers(links, s1, s2, node, tmp, k);
      }
      links := s2;
    }

    ghost method DropTint(node: MemNode)
      requires TintsSynced() && node in tints
      modifies this`tints
      ensures TintsSynced() && tints == old(tints) - {node}
    {
      tints := tints - {node};
    }

    /** Takes out a node with at most one child, before any rebalancing. */
    method TakeOut(node: MemNode) returns (child: MemNode?, parent: MemNode?, ghost side: Dir)
      requires Synced() && RedBlack(links, tints, root, order) && node in links
      requires links[node].left == null || links[node].right == null
      modifies this, links.Keys`parent, links.Keys`left, links.Keys`right
      ensures Synced() && links.Keys == old(links.Keys) - {node}
      ensures var k := old(links)[node].pos;
              0 <= k < |old(order)| && order == old(order)[..k] + old(order)[k + 1..]
      ensures TakenOut(links, tints, root, order, old(tints)[node].color, child, parent, side)
    {
      hide Shape, Colored, RedBlack, LinksSynced, TintsSynced;
      ghost var d := if links[node].right == null then R else L;
      ghost var s := PlanUnlink(links, tints, root, order, d, node);
      ghost var k, p := links[node].pos, links[node].parent;
      side := if p == null then L else links[p].Side(node);
      child, parent := UnlinkNode(node, d, s);
      DropTint(node);
      order := order[..k] + order[k + 1..];
    }

    /** The node tmp takes the colour of the node whose place it will take. */
    method InheritColor(node: MemNode, tmp: MemNode)
      requires TintsSynced() && node in tints && tmp in tints && node != tmp
      modifies tmp`color, this`tints
      ensures TintsSynced() && tints == Renamed(old(tints) - {tmp}, node, tmp)
    {
      tmp.color := node.color;
      tints := Renamed(tints - {tmp}, node, tmp);
    }

    method Substitute(node: MemNode, tmp: MemNode, ghost s1: Links, ghost s2: Links) returns (parent: MemNode)
      requires Synced() && Replaceable(links, node, tmp) && Kin(links, tmp)
      requires links[node].parent != null ==> Kin(links, links[node].parent)
      requires Unlinked(links, s1, R, tmp, links[tmp].left, links[tmp].parent) && Relabelled(s1, s2, node, tmp)
      requires s2.Keys == Renamed(tints - {tmp}, node, tmp).Keys
      modifies this`root, this`links, this`tints, tmp`color, links.Keys`parent, links.Keys`left, links.Keys`right
      ensures Synced() && links == s2 && tints == Renamed(old(tints) - {tmp}, node, tmp)
      ensures parent == (if old(links)[tmp].parent == node then tmp else old(links)[tmp].parent)
      ensures root == if old(links)[node].parent == null then tmp else old(root)
    {
      InheritColor(node, tmp);
      parent := ReplaceNode(node, tmp, s1, s2);
    }

    /** Takes out a node with two children by way of its predecessor tmp. */
    method RemoveInner(node: MemNode, tmp: MemNode, ghost s1: Links, ghost s2: Links, ghost side: Dir, ghost k: int)
      requires Synced() && Replaceable(links, node, tmp) && Kin(links, tmp) && 0 <= k < |order|
      requires links[node].parent != null ==> Kin(links, links[node].parent)
      requires Unlinked(links, s1, R, tmp, links[tmp].left, links[tmp].parent) && Relabelled(s1, s2, node, tmp)
      requires s2.Keys == Renamed(tints - {tmp}, node, tmp).Keys && s2.Keys == links.Keys - {node}
      requires TakenOut(s2, Renamed(tints - {tmp}, node, tmp), if links[node].parent == null then tmp else root,
                        order[..k] + order[k + 1..], tints[tmp].color, links[tmp].left,
                        if links[tmp].parent == node then tmp else links[tmp].parent, side)
      modifies this, links.Keys`parent, links.Keys`left, links.Keys`right, links.Keys`color
      ensures Synced() && RedBlack(links, tints, root, order) && links.Keys == old(links.Keys) - {node}
      ensures order == old(order)[..k] + old(order)[k + 1..]
    {
      hide RedBlack, Removing, Relabelled, Unlinked, Renamed;
      var color, child := tmp.color, tmp.left;
      var parent := Substitute(node, tmp, s1, s2);
      order := order[..k] + order[k + 1..];
      if color != Red {
        RemoveRebalance(child, parent, side);
      }
    }

    method RemoveOuter(node: MemNode)
      requires Synced() && RedBlack(links, tints, root, order) && node in links
      requires links[node].left == null || links[node].right == null
      modifies this, links.Keys`parent, links.Keys`left, links.Keys`right, links.Keys`color
      ensures Synced() && RedBlack(links, tints, root, order) && links.Keys == old(links.Keys) - {node}
      ensures var k := old(links)[node].pos;
              0 <= k < |old(order)| && order == old(order)[..k] + old(order)[k + 1..]
    {
      var color := node.color;
      var child, parent, side := TakeOut(node);
      if color != Red {
        RemoveRebalance(child, parent, side);
      }
    }

    /** Takes node out of the tree and out of the order. */
    method Remove(node: MemNode)
      requires Synced() && RedBlack(links, tints, root, order) && node in links
      modifies this, links.Keys`parent, links.Keys`left, links.Keys`right, links.Keys`color
      ensures Synced() && RedBlack(links, tints, root, order) && links.Keys == old(links.Keys) - {node}
      ensures var k := old(links)[node].pos;
              0 <= k < |old(order)| && order == old(order)[..k] + old(order)[k + 1..]
    {
      hide Colored, Relabelled, Unlinked, Renamed, TakenOut, Replaceable, Kin, TintsSynced, FitsParent;
      if node.left != null && node.right != null {
        assert Fits(links, root, order, node);
        var tmp := Rightmost(node.left);
        ghost var s1, s2 := PlanReplace(links, tints, root, order, node, tmp);
        RemoveInner(node, tmp, s1, s2, links[links[tmp].parent].Side(tmp), links[node].pos);
      } else {
        RemoveOuter(node);
      }
    }

    // --- the tree by its order ---

    /** Inserts a node whose start is between those of the nodes i and i + 1. */
    method AddAfter(node: MemNode, ghost i: nat)
      requires Valid() && node !in links && i < |order|
      requires order[i].start < node.start && (i + 1 < |order| ==> node.start < order[i + 1].start)
      modifies this, node`parent, node`left, node`right, node`color
      modifies links.Keys`parent, links.Keys`left, links.Keys`right, links.Keys`color
      ensures Valid() && links.Keys == old(links.Keys) + {node}
      ensures order == old(order)[..i + 1] + [node] + old(order)[i + 1..]
      ensures RangesOf(order) == old(RangesOf(order[..i + 1] + [node] + order[i + 1..]))
    {
      ghost var o := order[..i + 1] + [node] + order[i + 1..];
      AddInOrder(node, i);
      assert RangesOf(o) == old(RangesOf(o));
    }

    method AddInOrder(node: MemNode, ghost i: nat)
      requires Valid() && node !in links && i < |order|
      requires order[i].start < node.start && (i + 1 < |order| ==> node.start < order[i + 1].start)
      modifies this, node`parent, node`left, node`right, node`color
      modifies links.Keys`parent, links.Keys`left, links.Keys`right, links.Keys`color
      ensures Valid() && links.Keys == old(links.Keys) + {node}
      ensures order == old(order)[..i + 1] + [node] + old(order)[i + 1..]
    {
      NewStart(i, node);
      ghost var k := Add(node);
      InsertionPoint(old(order), order, k, i, node);
    }

    lemma NewStart(i: nat, node: MemNode)
      requires Valid() && i < |order|
      requires order[i].start < node.start && (i + 1 < |order| ==> node.start < order[i + 1].start)
      ensures root != null && forall n :: n in links ==> n.start != node.start
    {
      assert order[i] in links;
      forall n | n in links ensures n.start != node.start {
        assert Fits(links, root, order, n);
      }
    }

    method RemoveAt(node: MemNode, ghost i: nat)
      requires Valid() && i < |order| && order[i] == node
      modifies this, links.Keys`parent, links.Keys`left, links.Keys`right, links.Keys`color
      ensures Valid() && links.Keys == old(links.Keys) - {node}
      ensures order == old(order)[..i] + old(order)[i + 1..]
      ensures RangesOf(order) == old(RangesOf(order[..i] + order[i + 1..]))
    {
      assert node in links;
      ghost var o := order[..i] + order[i + 1..];
      assert Sorted(o);
      Remove(node);
      assert Sorted(o);
      assert RangesOf(o) == old(RangesOf(o));
    }

    method PrevOf(node: MemNode, ghost i: nat) returns (r: MemNode?)
      requires Valid() && i < |order| && order[i] == node
      ensures r == if i > 0 then order[i - 1] else null
    {
      assert node in links;
      r := Prev(node);
    }

    method NextOf(node: MemNode, ghost i: nat) returns (r: MemNode?)
      requires Valid() && i < |order| && order[i] == node
      ensures r == if i + 1 < |order| then order[i + 1] else null
    {
      assert node in links;
      r := Next(node);
    }

    lemma Member(i: nat)
      requires Valid() && i < |order|
      ensures order[i] in links && Sorted(order)
    {
    }
  }
}
