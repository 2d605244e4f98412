/** Red and black over the links: what each recolouring and rotation of the C code
does to the black heights and to the rule against red children of red nodes. */
module MemBalance {
  import opened MemLinks

  /** A node's colour and the number of black nodes on each path below it. */
  datatype Tint = Tint(color: Color, bh: int)

  type Tints = map<MemNode, Tint>

  ghost predicate IsBlack(c: Tints, x: MemNode?) {
    x == null || x !in c || c[x].color.Black?
  }

  ghost function Height(c: Tints, x: MemNode?): int {
    if x == null || x !in c then 0 else c[x].bh + if c[x].color.Black? then 1 else 0
  }

  /** Both sides of n are equally high, where a hole below n on the given side counts as one. */
  ghost predicate Level(s: Links, c: Tints, n: MemNode, hole: MemNode?, side: Dir) {
    && n in s && n in c && c[n].bh >= 0
    && c[n].bh == Height(c, s[n].left) + (if n == hole && side == L then 1 else 0)
    && c[n].bh == Height(c, s[n].right) + (if n == hole && side == R then 1 else 0)
  }

  /** A red node has black children; x is exempt both as the node and as the child. */
  ghost predicate Proper(s: Links, c: Tints, n: MemNode, x: MemNode?) {
    && n in s && n in c
    && (c[n].color.Red? && n != x ==>
          (s[n].left == x || IsBlack(c, s[n].left)) && (s[n].right == x || IsBlack(c, s[n].right)))
  }

  ghost predicate Colored(s: Links, c: Tints, hole: MemNode?, side: Dir, x: MemNode?) {
    && c.Keys == s.Keys
    && (forall n {:trigger Level(s, c, n, hole, side)} :: n in s ==> Level(s, c, n, hole, side))
    && (forall n {:trigger Proper(s, c, n, x)} :: n in s ==> Proper(s, c, n, x))
  }

  ghost function Paint(c: Tints, n: MemNode, col: Color): Tints
    requires n in c
  {
    c[n := c[n].(color := col)]
  }

  // --- adding ---

  /** The state between two steps of the rebalancing after an insertion: all is well
      but for the red node x, whose parent may be red too. */
  ghost predicate Adding(s: Links, c: Tints, root: MemNode?, order: seq<MemNode>, x: MemNode) {
    && Shape(s, root, order) && Colored(s, c, null, L, x)
    && x in s && c[x].color.Red? && Proper(s, c, x, null) && (IsBlack(c, root) || root == x)
  }

  ghost predicate RedBlack(s: Links, c: Tints, root: MemNode?, order: seq<MemNode>) {
    Shape(s, root, order) && Colored(s, c, null, L, null) && IsBlack(c, root)
  }

  /** A way down from its first node to a missing child of its last one. */
  ghost predicate Path(s: Links, p: seq<MemNode>) {
    && |p| > 0 && p[0] in s
    && if |p| == 1 then s[p[0]].left == null || s[p[0]].right == null
       else (p[1] == s[p[0]].left || p[1] == s[p[0]].right) && Path(s, p[1..])
  }

  ghost function Blacks(c: Tints, p: seq<MemNode>): nat {
    if p == [] then 0 else (if IsBlack(c, p[0]) then 1 else 0) + Blacks(c, p[1..])
  }

  lemma {:induction false} PathHeight(s: Links, c: Tints, p: seq<MemNode>)
    requires Colored(s, c, null, L, null) && Path(s, p)
    ensures Blacks(c, p) == Height(c, p[0])
    ensures |p| <= 2 * Blacks(c, p) + if IsBlack(c, p[0]) then 0 else 1
    decreases |p|
  {
    var n := p[0];
    assert Level(s, c, n, null, L) && Proper(s, c, n, null);
    if |p| > 1 {
      PathHeight(s, c, p[1..]);
    } else {
      assert p[1..] == [];
    }
  }

  /** All ways down a red-black tree meet the same number of black nodes, and none is
      more than twice as long as another. */
  lemma EvenPaths(s: Links, c: Tints, root: MemNode, order: seq<MemNode>, p: seq<MemNode>, q: seq<MemNode>)
    requires RedBlack(s, c, root, order) && Path(s, p) && Path(s, q) && p[0] == root == q[0]
    ensures Blacks(c, p) == Blacks(c, q) && |p| <= 2 * |q|
  {
    PathHeight(s, c, p);
    PathHeight(s, c, q);
    BlacksBound(c, q);
  }

  lemma {:induction false} BlacksBound(c: Tints, p: seq<MemNode>)
    ensures Blacks(c, p) <= |p|
  {
    if p != [] {
      BlacksBound(c, p[1..]);
    }
  }

  lemma Dropped(s: Links, c: Tints, hole: MemNode?, side: Dir, x: MemNode?)
    requires Colored(s, c, hole, side, x) && IsBlack(c, x)
    ensures Colored(s, c, hole, side, null)
  {
    forall n | n in s ensures Proper(s, c, n, null) {
      assert Proper(s, c, n, x);
    }
  }

  lemma ColoredKeys(s: Links, c: Tints, hole: MemNode?, side: Dir, x: MemNode?)
    requires Colored(s, c, hole, side, x)
    ensures c.Keys == s.Keys
  {
  }

  lemma Exempted(s: Links, c: Tints, hole: MemNode?, side: Dir, x: MemNode?)
    requires Colored(s, c, hole, side, null)
    ensures Colored(s, c, hole, side, x)
  {
    forall n | n in s ensures Proper(s, c, n, x) {
      assert Proper(s, c, n, null);
    }
  }

  /** A node with a parent is not the root. */
  lemma RootOnTop(s: Links, root: MemNode?, order: seq<MemNode>, n: MemNode)
    requires Shape(s, root, order) && n in s
    ensures s[n].parent == null <==> n == root
    ensures s[n].parent != null ==> s[n].parent in s && s[s[n].parent].Kid(s[s[n].parent].Side(n)) == n
  {
    assert Fits(s, root, order, n);
  }

  /** With a black parent, or none, nothing is wrong at x either. */
  lemma Added(s: Links, c: Tints, root: MemNode?, order: seq<MemNode>, x: MemNode)
    requires Adding(s, c, root, order, x) && IsBlack(c, s[x].parent)
    ensures Colored(s, c, null, L, null)
  {
    forall n | n in s ensures Proper(s, c, n, null) {
      assert Proper(s, c, n, x);
      ShapeKin(s, root, order, n);
    }
  }

  /** Case 1 of the insertion: red parent p and red uncle u below g. */
  ghost function UncleRecolored(c: Tints, g: MemNode, p: MemNode, u: MemNode): Tints
    requires g in c && p in c && u in c
  {
    c[p := c[p].(color := Black)][u := c[u].(color := Black)][g := Tint(Red, c[g].bh + 1)]
  }

  ghost predicate Uncle(s: Links, c: Tints, x: MemNode, p: MemNode, g: MemNode, u: MemNode?, e: Dir) {
    && x in s && p in s && g in s && p in c && g in c && s[x].parent == p && s[p].parent == g && s[g].Kid(e) == p
    && s[g].Kid(e.Opp()) == u && c[p].color.Red? && c[g].color.Black? && x != p && x != g && p != g && Kin(s, g) && Kin(s, p)
  }

  lemma UncleRecoloredAt(s: Links, c: Tints, x: MemNode, p: MemNode, g: MemNode, u: MemNode, e: Dir, k: MemNode)
    requires Uncle(s, c, x, p, g, u, e) && u in c && c[u].color.Red?
    requires Kin(s, k) && Level(s, c, k, null, L) && Level(s, c, g, null, L)
    requires Proper(s, c, k, x) && Proper(s, c, x, null)
    ensures Level(s, UncleRecolored(c, g, p, u), k, null, L)
    ensures Proper(s, UncleRecolored(c, g, p, u), k, g)
  {
  }

  /** The parent of a red node with a red parent is black. */
  lemma AddingUncle(s: Links, c: Tints, root: MemNode?, order: seq<MemNode>, x: MemNode)
    requires Adding(s, c, root, order, x) && !IsBlack(c, s[x].parent)
    ensures s[x].parent in s && s[s[x].parent].parent != null && s[s[x].parent].parent in s
    ensures var p := s[x].parent;
            var g := s[p].parent;
            var e := if s[g].left == p then L else R;
            Uncle(s, c, x, p, g, s[g].Kid(e.Opp()), e)
  {
    var p := s[x].parent;
    ShapeKin(s, root, order, x);
    assert Fits(s, root, order, p);
    ShapeGrandparent(s, root, order, x);
    ShapeGrandparent(s, root, order, p);
    ShapeKin(s, root, order, p);
    ShapeKin(s, root, order, s[p].parent);
    assert Proper(s, c, s[p].parent, x);
  }

  lemma UncleRecoloredAdding(s: Links, c: Tints, root: MemNode?, order: seq<MemNode>, x: MemNode, p: MemNode, g: MemNode, u: MemNode, e: Dir)
    requires Adding(s, c, root, order, x) && Uncle(s, c, x, p, g, u, e) && u in c && c[u].color.Red?
    ensures Adding(s, UncleRecolored(c, g, p, u), root, order, g)
  {
    var c' := UncleRecolored(c, g, p, u);
    forall k | k in s ensures Level(s, c', k, null, L) && Proper(s, c', k, g) {
      ShapeKin(s, root, order, k);
      assert Level(s, c, k, null, L) && Level(s, c, g, null, L) && Proper(s, c, k, x);
      UncleRecoloredAt(s, c, x, p, g, u, e, k);
    }
    assert s[g].parent == null ==> Fits(s, root, order, g);
  }

  /** Case 2: x is the inner grandchild; rotating p away makes p the outer one. */
  lemma InnerRotatedAt(s: Links, s': Links, c: Tints, d: Dir, x: MemNode, p: MemNode, g: MemNode, u: MemNode?, e: Dir, b: MemNode?, k: MemNode)
    requires Uncle(s, c, x, p, g, u, e) && Rotated(s, s', d, p, x, b, g) && x in c && c[x].color.Red?
    requires Kin(s, k) && Kin(s, x) && Level(s, c, k, null, L) && Level(s, c, p, null, L) && Level(s, c, x, null, L)
    ensures Level(s', c, k, null, L)
  {
  }

  lemma InnerRotatedProper(s: Links, s': Links, c: Tints, d: Dir, x: MemNode, p: MemNode, g: MemNode, u: MemNode?, e: Dir, b: MemNode?, k: MemNode)
    requires Uncle(s, c, x, p, g, u, e) && Rotated(s, s', d, p, x, b, g) && x in c && c[x].color.Red?
    requires Kin(s, k) && Kin(s, x) && Proper(s, c, k, x) && Proper(s, c, x, null) && Proper(s, c, p, x)
    ensures Proper(s', c, k, p)
    ensures k == p ==> Proper(s', c, k, null)
  {
  }

  lemma InnerRotatedAdding(s: Links, s': Links, c: Tints, root: MemNode?, order: seq<MemNode>,
                           d: Dir, x: MemNode, p: MemNode, g: MemNode, u: MemNode?, e: Dir, b: MemNode?)
    requires Adding(s, c, root, order, x) && Uncle(s, c, x, p, g, u, e) && Rotated(s, s', d, p, x, b, g)
    ensures Adding(s', c, root, order, p)
  {
    RotatedShape(s, s', root, order, d, p, x, b, g);
    ShapeKin(s, root, order, x);
    assert Level(s, c, p, null, L) && Level(s, c, x, null, L) && Proper(s, c, p, x);
    forall k | k in s' ensures Level(s', c, k, null, L) && Proper(s', c, k, p) && (k == p ==> Proper(s', c, k, null)) {
      ShapeKin(s, root, order, k);
      assert Level(s, c, k, null, L) && Proper(s, c, k, x);
      InnerRotatedAt(s, s', c, d, x, p, g, u, e, b, k);
      InnerRotatedProper(s, s', c, d, x, p, g, u, e, b, k);
    }
    assert root != x by { assert s[root].parent == null; }
  }

  /** Tints change only at n, at m and at m's child w. */
  ghost predicate TintsKept(s: Links, c: Tints, c': Tints, n: MemNode, m: MemNode, w: MemNode?) {
    && c'.Keys == c.Keys && (w != null ==> w in s && s[w].parent == m && w in c && c'[w].bh == c[w].bh)
    && (forall x {:trigger c'[x]} :: x in c && x != n && x != m && x != w ==> c'[x] == c[x])
  }

  /** A rotation that leaves the height of its place alone levels all nodes but its own two. */
  lemma RotatedLevel(s: Links, s': Links, c: Tints, c': Tints, d: Dir, n: MemNode, m: MemNode, b: MemNode?, p: MemNode?,
                     w: MemNode?, hole: MemNode?, hole': MemNode?, side: Dir, k: MemNode)
    requires Rotated(s, s', d, n, m, b, p) && s[m].parent == n && TintsKept(s, c, c', n, m, w)
    requires n in c && m in c && Height(c', m) == Height(c, n)
    requires Kin(s, k) && Level(s, c, k, hole, side) && k != n && k != m && k != hole && k != hole'
    ensures Level(s', c', k, hole', side)
  {
    if k == p {
      var e := s[p].Side(n);
      assert s[p].Kid(e.Opp()) == s'[p].Kid(e.Opp());
      assert s[p].Kid(e.Opp()) != n && s[p].Kid(e.Opp()) != m && (w != null ==> s[p].Kid(e.Opp()) != w);
      assert Height(c', s[p].Kid(e.Opp())) == Height(c, s[p].Kid(e.Opp()));
    } else {
      RotatedKeeps(s, s', d, n, m, b, p, k);
      assert w != null ==> s[k].left != w && s[k].right != w;
      assert Height(c', s[k].left) == Height(c, s[k].left) && Height(c', s[k].right) == Height(c, s[k].right);
    }
  }

  /** Case 3: x is the outer grandchild; p takes the place and the colour of g. */
  lemma OuterRotatedOwn(s: Links, s': Links, c: Tints, d: Dir, x: MemNode, p: MemNode, g: MemNode, u: MemNode?, e: Dir, b: MemNode?, q: MemNode?)
    requires Uncle(s, c, x, p, g, u, e) && d == e.Opp() && Rotated(s, s', d, g, p, b, q)
    requires Level(s, c, p, null, L) && Level(s, c, g, null, L)
    ensures Level(s', Paint(Paint(c, p, Black), g, Red), p, null, L) && Level(s', Paint(Paint(c, p, Black), g, Red), g, null, L)
  {
  }

  lemma OuterRotatedAt(s: Links, s': Links, c: Tints, d: Dir, x: MemNode, p: MemNode, g: MemNode, u: MemNode?, e: Dir, b: MemNode?, q: MemNode?, k: MemNode)
    requires Uncle(s, c, x, p, g, u, e) && d == e.Opp() && Rotated(s, s', d, g, p, b, q)
    requires Kin(s, k) && Level(s, c, k, null, L) && Level(s, c, p, null, L) && Level(s, c, g, null, L)
    ensures Level(s', Paint(Paint(c, p, Black), g, Red), k, null, L)
  {
    hide Kin;
    var c' := Paint(Paint(c, p, Black), g, Red);
    if k != p && k != g {
      RotatedLevel(s, s', c, c', d, g, p, b, q, null, null, null, L, k);
    } else {
      OuterRotatedOwn(s, s', c, d, x, p, g, u, e, b, q);
    }
  }

  lemma OuterRotatedProper(s: Links, s': Links, c: Tints, d: Dir, x: MemNode, p: MemNode, g: MemNode, u: MemNode?, e: Dir, b: MemNode?, q: MemNode?, k: MemNode)
    requires Uncle(s, c, x, p, g, u, e) && IsBlack(c, u) && d == e.Opp() && Rotated(s, s', d, g, p, b, q)
    requires s[p].Kid(e) == x && x in c
    requires Kin(s, k) && Proper(s, c, k, x) && Proper(s, c, p, x) && Proper(s, c, x, null)
    ensures Proper(s', Paint(Paint(c, p, Black), g, Red), k, null)
  {
  }

  lemma OuterRotatedColored(s: Links, s': Links, c: Tints, root: MemNode?, order: seq<MemNode>,
                            d: Dir, x: MemNode, p: MemNode, g: MemNode, u: MemNode?, e: Dir, b: MemNode?, q: MemNode?)
    requires Adding(s, c, root, order, x) && Uncle(s, c, x, p, g, u, e) && IsBlack(c, u)
    requires s[p].Kid(e) == x && d == e.Opp() && Rotated(s, s', d, g, p, b, q)
    ensures Colored(s', Paint(Paint(c, p, Black), g, Red), null, L, null)
  {
    var c' := Paint(Paint(c, p, Black), g, Red);
    assert Level(s, c, p, null, L) && Level(s, c, g, null, L) && Proper(s, c, p, x);
    forall k | k in s' ensures Level(s', c', k, null, L) && Proper(s', c', k, null) {
      ShapeKin(s, root, order, k);
      assert Level(s, c, k, null, L) && Proper(s, c, k, x);
      OuterRotatedAt(s, s', c, d, x, p, g, u, e, b, q, k);
      OuterRotatedProper(s, s', c, d, x, p, g, u, e, b, q, k);
    }
  }

  lemma OuterRotatedAdded(s: Links, s': Links, c: Tints, root: MemNode?, order: seq<MemNode>,
                          d: Dir, x: MemNode, p: MemNode, g: MemNode, u: MemNode?, e: Dir, b: MemNode?, q: MemNode?)
    requires Adding(s, c, root, order, x) && Uncle(s, c, x, p, g, u, e) && IsBlack(c, u)
    requires s[p].Kid(e) == x && d == e.Opp() && Rotated(s, s', d, g, p, b, q)
    ensures Adding(s', Paint(Paint(c, p, Black), g, Red), if q == null then p else root, order, x)
    ensures s'[x].parent == p
  {
    RotatedShape(s, s', root, order, d, g, p, b, q);
    OuterRotatedColored(s, s', c, root, order, d, x, p, g, u, e, b, q);
    var c' := Paint(Paint(c, p, Black), g, Red);
    ShapeKin(s', if q == null then p else root, order, p);
    assert s'[p].Kid(e) == x;
    assert Proper(s', c', x, null);
    forall k | k in s' ensures Proper(s', c', k, x) {
      assert Proper(s', c', k, null);
    }
  }

  // --- removing ---

  /** The state between two steps of the rebalancing after a removal: the subtree x,
      below hole on the given side, is one black node short, or x is the root. */
  ghost predicate Removing(s: Links, c: Tints, root: MemNode?, order: seq<MemNode>, x: MemNode?, hole: MemNode?, side: Dir) {
    && Shape(s, root, order) && Colored(s, c, hole, side, x)
    && (if hole == null then x == root else hole in s && s[hole].Kid(side) == x)
    && (IsBlack(c, root) || x == root)
  }

  ghost predicate Sibling(s: Links, c: Tints, p: MemNode, d: Dir, m: MemNode) {
    && p in s && p in c && s[p].Kid(d.Opp()) == m && m in s && m in c && s[m].parent == p && m != p
    && Kin(s, p) && Kin(s, m)
  }

  /** The short side has a sibling. */
  lemma RemovingSibling(s: Links, c: Tints, root: MemNode?, order: seq<MemNode>, x: MemNode?, p: MemNode, d: Dir)
    requires Removing(s, c, root, order, x, p, d)
    ensures s[p].Kid(d.Opp()) != null && Sibling(s, c, p, d, s[p].Kid(d.Opp()))
  {
    ShapeKin(s, root, order, p);
    assert Level(s, c, p, p, d);
    assert x != null ==> Level(s, c, x, p, d);
    ShapeKin(s, root, order, s[p].Kid(d.Opp()));
  }

  /** Case 1 of the removal: a red sibling comes up, and its black child is the new sibling. */
  lemma RedSiblingAt(s: Links, s': Links, c: Tints, d: Dir, p: MemNode, m: MemNode, b: MemNode?, q: MemNode?, k: MemNode)
    requires Sibling(s, c, p, d, m) && c[m].color.Red? && c[p].color.Black? && Rotated(s, s', d, p, m, b, q)
    requires Kin(s, k) && Level(s, c, k, p, d) && Level(s, c, p, p, d) && Level(s, c, m, p, d)
    ensures Level(s', Paint(Paint(c, p, Red), m, Black), k, p, d)
  {
    var c' := Paint(Paint(c, p, Red), m, Black);
    if k != p && k != m {
      RotatedLevel(s, s', c, c', d, p, m, b, q, null, p, p, d, k);
    }
  }

  lemma RedSiblingProper(s: Links, s': Links, c: Tints, d: Dir, p: MemNode, m: MemNode, b: MemNode?, q: MemNode?, k: MemNode)
    requires Sibling(s, c, p, d, m) && c[m].color.Red? && c[p].color.Black? && Rotated(s, s', d, p, m, b, q)
    requires Kin(s, k) && Proper(s, c, k, null) && Proper(s, c, m, null) && IsBlack(c, s[p].Kid(d))
    ensures Proper(s', Paint(Paint(c, p, Red), m, Black), k, null)
  {
    if k != p && k != m && k != q {
      RotatedKeeps(s, s', d, p, m, b, q, k);
    }
  }

  lemma RedSiblingColored(s: Links, s': Links, c: Tints, root: MemNode?, order: seq<MemNode>,
                          d: Dir, p: MemNode, m: MemNode, b: MemNode?, q: MemNode?)
    requires Shape(s, root, order) && Colored(s, c, p, d, null) && Sibling(s, c, p, d, m) && IsBlack(c, s[p].Kid(d))
    requires c[m].color.Red? && c[p].color.Black? && Rotated(s, s', d, p, m, b, q)
    ensures Colored(s', Paint(Paint(c, p, Red), m, Black), p, d, null)
  {
    var c' := Paint(Paint(c, p, Red), m, Black);
    assert Level(s, c, p, p, d) && Level(s, c, m, p, d) && Proper(s, c, m, null);
    forall k | k in s' ensures Level(s', c', k, p, d) && Proper(s', c', k, null) {
      ShapeKin(s, root, order, k);
      assert Level(s, c, k, p, d) && Proper(s, c, k, null);
      RedSiblingAt(s, s', c, d, p, m, b, q, k);
      RedSiblingProper(s, s', c, d, p, m, b, q, k);
    }
  }

  lemma RedSiblingRemoving(s: Links, s': Links, c: Tints, root: MemNode?, order: seq<MemNode>, x: MemNode?,
                           d: Dir, p: MemNode, m: MemNode, b: MemNode?, q: MemNode?)
    requires Removing(s, c, root, order, x, p, d) && IsBlack(c, x)
    requires Sibling(s, c, p, d, m) && c[m].color.Red? && Rotated(s, s', d, p, m, b, q)
    ensures var c' := Paint(Paint(c, p, Red), m, Black);
            && Removing(s', c', if q == null then m else root, order, x, p, d)
            && b != null && IsBlack(c', b) && s'[p].Kid(d.Opp()) == b
  {
    var c' := Paint(Paint(c, p, Red), m, Black);
    Dropped(s, c, p, d, x);
    RotatedShape(s, s', root, order, d, p, m, b, q);
    assert Proper(s, c, p, null) && Proper(s, c, m, null) && Level(s, c, m, p, d) && Level(s, c, p, p, d);
    assert x != null ==> Level(s, c, x, p, d);
    RedSiblingColored(s, s', c, root, order, d, p, m, b, q);
    forall k | k in s' ensures Proper(s', c', k, x) {
      assert Proper(s', c', k, null);
    }
  }

  /** Case 2: a black sibling with black children turns red, and the whole of p is short. */
  ghost function SiblingReddened(c: Tints, p: MemNode, m: MemNode): Tints
    requires p in c && m in c
  {
    c[m := c[m].(color := Red)][p := c[p].(bh := c[p].bh - 1)]
  }

  lemma SiblingReddenedAt(s: Links, c: Tints, d: Dir, p: MemNode, m: MemNode, q: MemNode?, e: Dir, k: MemNode)
    requires Sibling(s, c, p, d, m) && c[m].color.Black? && IsBlack(c, s[m].left) && IsBlack(c, s[m].right)
    requires s[p].parent == q && q != p && q != m && (q != null ==> q in s && s[q].Kid(e) == p)
    requires Kin(s, k) && Level(s, c, k, p, d) && Level(s, c, p, p, d) && Level(s, c, m, p, d) && Proper(s, c, k, null)
    ensures Level(s, SiblingReddened(c, p, m), k, q, e)
    ensures Proper(s, SiblingReddened(c, p, m), k, p)
  {
  }

  lemma SiblingReddenedColored(s: Links, c: Tints, root: MemNode?, order: seq<MemNode>, d: Dir, p: MemNode, m: MemNode, q: MemNode?, e: Dir)
    requires Shape(s, root, order) && Colored(s, c, p, d, null)
    requires Sibling(s, c, p, d, m) && c[m].color.Black? && IsBlack(c, s[m].left) && IsBlack(c, s[m].right)
    requires s[p].parent == q && q != p && q != m && (q != null ==> q in s && s[q].Kid(e) == p)
    ensures Colored(s, SiblingReddened(c, p, m), q, e, p)
  {
    hide Shape, Kin, Level, Proper;
    var c' := SiblingReddened(c, p, m);
    forall k | k in s ensures Level(s, c', k, q, e) && Proper(s, c', k, p) {
      ShapeKin(s, root, order, k);
      assert Level(s, c, k, p, d) && Level(s, c, p, p, d) && Level(s, c, m, p, d) && Proper(s, c, k, null);
      SiblingReddenedAt(s, c, d, p, m, q, e, k);
    }
  }

  lemma SiblingReddenedRemoving(s: Links, c: Tints, root: MemNode?, order: seq<MemNode>, x: MemNode?, d: Dir, p: MemNode, m: MemNode)
    requires Removing(s, c, root, order, x, p, d) && IsBlack(c, x)
    requires Sibling(s, c, p, d, m) && c[m].color.Black? && IsBlack(c, s[m].left) && IsBlack(c, s[m].right)
    ensures s[p].parent != null ==> s[p].parent in s
    ensures Removing(s, SiblingReddened(c, p, m), root, order, p, s[p].parent,
                     if s[p].parent == null then L else s[s[p].parent].Side(p))
  {
    hide Shape, Colored, Kin;
    var q := s[p].parent;
    RootOnTop(s, root, order, p);
    RootOnTop(s, root, order, m);
    ShapeGrandparent(s, root, order, p);
    ShapeGrandparent(s, root, order, m);
    Dropped(s, c, p, d, x);
    SiblingReddenedColored(s, c, root, order, d, p, m, q, if q == null then L else s[q].Side(p));
  }

  /** Case 3: the sibling's inner child i is red and its outer one black; i becomes the sibling. */
  lemma InnerNephewOwn(s: Links, s': Links, c: Tints, d: Dir, p: MemNode, m: MemNode, i: MemNode, b: MemNode?, k: MemNode)
    requires Sibling(s, c, p, d, m) && c[m].color.Black? && i in s && i in c && c[i].color.Red? && s[i].parent == m
    requires Rotated(s, s', d.Opp(), m, i, b, p) && Level(s, c, m, p, d) && Level(s, c, i, p, d) && Kin(s, k) && (k == m || k == i)
    ensures Level(s', Paint(Paint(c, i, Black), m, Red), k, p, d)
  {
  }

  lemma InnerNephewParent(s: Links, s': Links, c: Tints, d: Dir, p: MemNode, m: MemNode, i: MemNode, b: MemNode?)
    requires Sibling(s, c, p, d, m) && c[m].color.Black? && i in s && i in c && c[i].color.Red? && s[i].parent == m
    requires Rotated(s, s', d.Opp(), m, i, b, p) && Level(s, c, p, p, d) && Level(s, c, m, p, d) && Level(s, c, i, p, d)
    ensures Level(s', Paint(Paint(c, i, Black), m, Red), p, p, d)
  {
    assert s'[p].Kid(d) == s[p].Kid(d) && s'[p].Kid(d.Opp()) == i;
  }

  lemma InnerNephewAt(s: Links, s': Links, c: Tints, d: Dir, p: MemNode, m: MemNode, i: MemNode, b: MemNode?, k: MemNode)
    requires Sibling(s, c, p, d, m) && c[m].color.Black? && i in s && i in c && c[i].color.Red? && s[i].parent == m
    requires Rotated(s, s', d.Opp(), m, i, b, p)
    requires Kin(s, k) && Level(s, c, k, p, d) && Level(s, c, p, p, d) && Level(s, c, m, p, d) && Level(s, c, i, p, d)
    ensures Level(s', Paint(Paint(c, i, Black), m, Red), k, p, d)
  {
    hide Kin;
    var c' := Paint(Paint(c, i, Black), m, Red);
    if k == p {
      InnerNephewParent(s, s', c, d, p, m, i, b);
    } else if k == i || k == m {
      InnerNephewOwn(s, s', c, d, p, m, i, b, k);
    } else {
      RotatedLevel(s, s', c, c', d.Opp(), m, i, b, p, null, p, p, d, k);
    }
  }

  lemma InnerNephewProper(s: Links, s': Links, c: Tints, d: Dir, p: MemNode, m: MemNode, i: MemNode, b: MemNode?, k: MemNode)
    requires Sibling(s, c, p, d, m) && c[m].color.Black? && i in s && i in c && c[i].color.Red? && s[i].parent == m
    requires Rotated(s, s', d.Opp(), m, i, b, p) && IsBlack(c, s[m].Kid(d.Opp()))
    requires Kin(s, k) && Proper(s, c, k, null) && Proper(s, c, i, null)
    ensures Proper(s', Paint(Paint(c, i, Black), m, Red), k, null)
  {
    if k != m && k != i && k != p {
      RotatedKeeps(s, s', d.Opp(), m, i, b, p, k);
    }
  }

  lemma InnerNephewColored(s: Links, s': Links, c: Tints, root: MemNode?, order: seq<MemNode>,
                           d: Dir, p: MemNode, m: MemNode, i: MemNode, b: MemNode?)
    requires Shape(s, root, order) && Colored(s, c, p, d, null)
    requires Sibling(s, c, p, d, m) && c[m].color.Black? && i in s && i in c && c[i].color.Red? && s[i].parent == m
    requires Rotated(s, s', d.Opp(), m, i, b, p) && IsBlack(c, s[m].Kid(d.Opp()))
    ensures Colored(s', Paint(Paint(c, i, Black), m, Red), p, d, null)
  {
    hide Shape, Kin, Level, Proper;
    var c' := Paint(Paint(c, i, Black), m, Red);
    forall k | k in s' ensures Level(s', c', k, p, d) && Proper(s', c', k, null) {
      ShapeKin(s, root, order, k);
      assert Level(s, c, k, p, d) && Level(s, c, p, p, d) && Level(s, c, m, p, d) && Level(s, c, i, p, d);
      assert Proper(s, c, k, null) && Proper(s, c, i, null);
      InnerNephewAt(s, s', c, d, p, m, i, b, k);
      InnerNephewProper(s, s', c, d, p, m, i, b, k);
    }
  }

  lemma InnerNephewRemoving(s: Links, s': Links, c: Tints, root: MemNode?, order: seq<MemNode>, x: MemNode?,
                            d: Dir, p: MemNode, m: MemNode, i: MemNode, b: MemNode?)
    requires Removing(s, c, root, order, x, p, d) && IsBlack(c, x)
    requires Sibling(s, c, p, d, m) && c[m].color.Black? && i in s && c[i].color.Red? && s[m].Kid(d) == i
    requires Rotated(s, s', d.Opp(), m, i, b, p) && IsBlack(c, s[m].Kid(d.Opp()))
    ensures var c' := Paint(Paint(c, i, Black), m, Red);
            && Removing(s', c', root, order, x, p, d)
            && s'[p].Kid(d.Opp()) == i && IsBlack(c', i) && s'[i].Kid(d.Opp()) == m
  {
    hide Shape, Colored;
    ColoredKeys(s, c, p, d, x);
    var c' := Paint(Paint(c, i, Black), m, Red);
    Dropped(s, c, p, d, x);
    RotatedShape(s, s', root, order, d.Opp(), m, i, b, p);
    InnerNephewColored(s, s', c, root, order, d, p, m, i, b);
    Exempted(s', c', p, d, x);
    RootOnTop(s, root, order, m);
    RootOnTop(s, root, order, i);
  }

  /** Case 4: the sibling's outer child o is red; the sibling takes the place of p, and all is level. */
  ghost function OuterRecolored(c: Tints, p: MemNode, m: MemNode, o: MemNode): Tints
    requires p in c && m in c && o in c
  {
    c[m := c[p]][p := Tint(Black, c[p].bh - 1)][o := c[o].(color := Black)]
  }

  ghost predicate OuterNephew(s: Links, c: Tints, d: Dir, p: MemNode, m: MemNode, o: MemNode) {
    && Sibling(s, c, p, d, m) && c[m].color.Black? && o in s && o in c && c[o].color.Red?
    && s[m].Kid(d.Opp()) == o && o != p && o != m
  }

  lemma OuterNephewAt(s: Links, s': Links, c: Tints, d: Dir, p: MemNode, m: MemNode, o: MemNode, b: MemNode?, q: MemNode?, k: MemNode)
    requires OuterNephew(s, c, d, p, m, o) && Rotated(s, s', d, p, m, b, q)
    requires Kin(s, k) && Level(s, c, k, p, d) && Level(s, c, p, p, d) && Level(s, c, m, p, d)
    ensures Level(s', OuterRecolored(c, p, m, o), k, null, L)
  {
    var c' := OuterRecolored(c, p, m, o);
    if k == p {
      assert Height(c', b) == Height(c, b);
    } else if k != m {
      RotatedLevel(s, s', c, c', d, p, m, b, q, o, p, null, d, k);
      assert Level(s', c', k, null, d);
    }
  }

  lemma OuterNephewProper(s: Links, s': Links, c: Tints, d: Dir, p: MemNode, m: MemNode, o: MemNode, b: MemNode?, q: MemNode?, k: MemNode)
    requires OuterNephew(s, c, d, p, m, o) && Rotated(s, s', d, p, m, b, q)
    requires Kin(s, k) && Proper(s, c, k, null) && Proper(s, c, p, null)
    ensures Proper(s', OuterRecolored(c, p, m, o), k, null)
  {
    if k != m && k != p && k != q {
      RotatedKeeps(s, s', d, p, m, b, q, k);
    }
  }

  lemma OuterNephewColored(s: Links, s': Links, c: Tints, root: MemNode?, order: seq<MemNode>,
                           d: Dir, p: MemNode, m: MemNode, o: MemNode, b: MemNode?, q: MemNode?)
    requires Shape(s, root, order) && Colored(s, c, p, d, null)
    requires OuterNephew(s, c, d, p, m, o) && Rotated(s, s', d, p, m, b, q)
    ensures Colored(s', OuterRecolored(c, p, m, o), null, L, null)
  {
    hide Shape, Kin, Level, Proper;
    var c' := OuterRecolored(c, p, m, o);
    forall k | k in s' ensures Level(s', c', k, null, L) && Proper(s', c', k, null) {
      ShapeKin(s, root, order, k);
      assert Level(s, c, k, p, d) && Level(s, c, p, p, d) && Level(s, c, m, p, d);
      assert Proper(s, c, k, null) && Proper(s, c, p, null);
      OuterNephewAt(s, s', c, d, p, m, o, b, q, k);
      OuterNephewProper(s, s', c, d, p, m, o, b, q, k);
    }
  }

  lemma OuterNephewRemoved(s: Links, s': Links, c: Tints, root: MemNode?, order: seq<MemNode>, x: MemNode?,
                           d: Dir, p: MemNode, m: MemNode, o: MemNode, b: MemNode?, q: MemNode?)
    requires Removing(s, c, root, order, x, p, d) && IsBlack(c, x)
    requires OuterNephew(s, c, d, p, m, o) && Rotated(s, s', d, p, m, b, q)
    ensures RedBlack(s', OuterRecolored(c, p, m, o), if q == null then m else root, order)
  {
    hide Shape, Colored, Kin;
    Dropped(s, c, p, d, x);
    RotatedShape(s, s', root, order, d, p, m, b, q);
    OuterNephewColored(s, s', c, root, order, d, p, m, o, b, q);
    RootOnTop(s, root, order, p);
    RootOnTop(s, root, order, m);
    RootOnTop(s, root, order, o);
  }

  // --- first and last steps ---

  /** A new leaf is red: the heights stay, and only its parent may object. */
  lemma InsertedAdding(s: Links, s': Links, c: Tints, root: MemNode?, order: seq<MemNode>,
                       d: Dir, x: MemNode, q: MemNode, k: int)
    requires RedBlack(s, c, root, order) && Inserted(s, s', d, x, q, k)
    ensures 0 <= k <= |order| && Adding(s', c[x := Tint(Red, 0)], root, order[..k] + [x] + order[k..], x)
  {
    var c' := c[x := Tint(Red, 0)];
    InsertedShape(s, s', root, order, d, x, q, k);
    forall n | n in s' ensures Level(s', c', n, null, L) && Proper(s', c', n, x) {
      if n != x {
        ShapeKin(s, root, order, n);
        assert Level(s, c, n, null, L) && Proper(s, c, n, null);
      }
    }
    assert Proper(s', c', x, null);
  }

  /** Without the node n, the place of n is short by the black that n was. */
  lemma UnlinkedAt(s: Links, s': Links, c: Tints, d: Dir, n: MemNode, x: MemNode?, p: MemNode?, k: MemNode)
    requires Unlinked(s, s', d, n, x, p) && c.Keys == s.Keys && k in s' && Kin(s, n)
    requires Kin(s, k) && Level(s, c, k, null, L) && Level(s, c, n, null, L) && Proper(s, c, k, null)
    ensures var c' := c - {n};
            var e := if p == null then L else s[p].Side(n);
            Level(s', c', k, if c[n].color.Black? then p else null, e) && Proper(s', c', k, x)
  {
  }

  lemma UnlinkedRemoving(s: Links, s': Links, c: Tints, root: MemNode?, order: seq<MemNode>,
                         d: Dir, n: MemNode, x: MemNode?, p: MemNode?)
    requires RedBlack(s, c, root, order) && Unlinked(s, s', d, n, x, p)
    ensures 0 <= s[n].pos < |order|
    ensures var c', root', order' := c - {n}, if p == null then x else root, order[..s[n].pos] + order[s[n].pos + 1..];
            if c[n].color.Red? then RedBlack(s', c', root', order')
            else Removing(s', c', root', order', x, p, if p == null then L else s[p].Side(n))
  {
    UnlinkedShape(s, s', root, order, d, n, x, p);
    var c' := c - {n};
    var e := if p == null then L else s[p].Side(n);
    ShapeKin(s, root, order, n);
    assert Fits(s, root, order, n);
    assert Level(s, c, n, null, L) && Proper(s, c, n, null);
    var hole := if c[n].color.Black? then p else null;
    forall k | k in s' ensures Level(s', c', k, hole, e) && Proper(s', c', k, x) {
      ShapeKin(s, root, order, k);
      assert Level(s, c, k, null, L) && Proper(s, c, k, null);
      UnlinkedAt(s, s', c, d, n, x, p, k);
    }
    if c[n].color.Red? {
      forall k | k in s' ensures Level(s', c', k, null, L) {
        assert Level(s', c', k, null, e);
      }
      Dropped(s', c', null, L, x);
    }
  }

  ghost function Renamed(c: Tints, x: MemNode, y: MemNode): Tints
    requires x in c
  {
    (c - {x})[y := c[x]]
  }

  lemma HeightRenamed(c: Tints, x: MemNode, y: MemNode, k: MemNode?)
    requires x in c && y !in c && k != y
    ensures Height(Renamed(c, x, y), if k == x then y else k) == Height(c, k)
  {
  }

  /** The links of a node with its new name. */
  lemma RelabelledSelf(s: Links, s': Links, x: MemNode, y: MemNode, k: MemNode)
    requires Relabelled(s, s', x, y) && Kin(s, x) && Kin(s, k)
    ensures y !in s && var k' := if k == x then y else k;
            && k' in s' && s'[k'].left == (if s[k].left == x then y else s[k].left)
            && s'[k'].right == (if s[k].right == x then y else s[k].right)
  {
    if k != x {
      RelabelledKeeps(s, s', x, y, k, L);
      RelabelledKeeps(s, s', x, y, k, R);
    }
  }

  lemma RelabelledAt(s: Links, s': Links, c: Tints, x: MemNode, y: MemNode, hole: MemNode?, side: Dir, k: MemNode)
    requires Relabelled(s, s', x, y) && c.Keys == s.Keys && Kin(s, x) && hole != y
    requires Kin(s, k) && Level(s, c, k, hole, side)
    ensures var k', hole' := if k == x then y else k, if hole == x then y else hole;
            Level(s', Renamed(c, x, y), k', hole', side)
  {
    hide Relabelled, Height;
    RelabelledSelf(s, s', x, y, k);
    HeightRenamed(c, x, y, s[k].left);
    HeightRenamed(c, x, y, s[k].right);
  }

  lemma RelabelledProper(s: Links, s': Links, c: Tints, x: MemNode, y: MemNode, z: MemNode?, k: MemNode)
    requires Relabelled(s, s', x, y) && c.Keys == s.Keys && Kin(s, x) && z != x && z != y
    requires Kin(s, k) && Proper(s, c, k, z)
    ensures Proper(s', Renamed(c, x, y), if k == x then y else k, z)
  {
    hide Relabelled;
    RelabelledSelf(s, s', x, y, k);
  }

  lemma RelabelledColored(s: Links, s': Links, c: Tints, root: MemNode?, order: seq<MemNode>,
                          x: MemNode, y: MemNode, hole: MemNode?, side: Dir, z: MemNode?)
    requires Shape(s, root, order) && Colored(s, c, hole, side, z) && Relabelled(s, s', x, y)
    requires z != x && z != y && hole != y
    ensures Colored(s', Renamed(c, x, y), if hole == x then y else hole, side, z)
  {
    ShapeKin(s, root, order, x);
    var c' := Renamed(c, x, y);
    var hole' := if hole == x then y else hole;
    forall k | k in s' ensures Level(s', c', k, hole', side) && Proper(s', c', k, z) {
      var k0 := if k == y then x else k;
      ShapeKin(s, root, order, k0);
      assert Level(s, c, k0, hole, side) && Proper(s, c, k0, z);
      RelabelledAt(s, s', c, x, y, hole, side, k0);
      RelabelledProper(s, s', c, x, y, z, k0);
    }
  }

  /** Putting another node in the place of x changes nothing but the order at that place. */
  lemma RelabelledRedBlack(s: Links, s': Links, c: Tints, root: MemNode?, order: seq<MemNode>, x: MemNode, y: MemNode)
    requires RedBlack(s, c, root, order) && Relabelled(s, s', x, y)
    ensures 0 <= s[x].pos < |order|
    ensures RedBlack(s', Renamed(c, x, y), if s[x].parent == null then y else root, order[s[x].pos := y])
  {
    RelabelledShape(s, s', root, order, x, y);
    RelabelledColored(s, s', c, root, order, x, y, null, L, null);
    assert Fits(s, root, order, x);
  }

  lemma RelabelledRemoving(s: Links, s': Links, c: Tints, root: MemNode?, order: seq<MemNode>,
                           x: MemNode, y: MemNode, hole: MemNode?, side: Dir, z: MemNode?)
    requires Removing(s, c, root, order, z, hole, side) && Relabelled(s, s', x, y) && z != x && z != y
    requires hole != null
    ensures 0 <= s[x].pos < |order|
    ensures Removing(s', Renamed(c, x, y), if s[x].parent == null then y else root, order[s[x].pos := y],
                     z, if hole == x then y else hole, side)
  {
    RelabelledShape(s, s', root, order, x, y);
    RelabelledColored(s, s', c, root, order, x, y, hole, side, z);
    assert Fits(s, root, order, x);
    ShapeKin(s, root, order, hole);
    ShapeKin(s, root, order, x);
    if hole != x {
      RelabelledKeeps(s, s', x, y, hole, side);
    }
  }

  /** The last node is gone. */
  lemma Emptied(s: Links, c: Tints, order: seq<MemNode>, side: Dir)
    requires Removing(s, c, null, order, null, null, side)
    ensures RedBlack(s, c, null, order)
  {
  }

  /** Blackening the short subtree, when it is red or the root, makes a red-black tree. */
  lemma Blackened(s: Links, c: Tints, root: MemNode?, order: seq<MemNode>, x: MemNode, hole: MemNode?, side: Dir)
    requires Removing(s, c, root, order, x, hole, side) && x in c && (c[x].color.Red? || hole == null)
    ensures RedBlack(s, Paint(c, x, Black), root, order)
  {
    var c' := Paint(c, x, Black);
    if hole != null {
      ShapeKin(s, root, order, hole);
    }
    forall k | k in s ensures Level(s, c', k, null, L) && Proper(s, c', k, null) {
      ShapeKin(s, root, order, k);
      assert Level(s, c, k, hole, side) && Proper(s, c, k, x);
    }
  }

  /** The same after an insertion, where only the root may be red. */
  lemma RootBlackened(s: Links, c: Tints, root: MemNode, order: seq<MemNode>, x: MemNode)
    requires Adding(s, c, root, order, x) && IsBlack(c, s[x].parent)
    ensures root in c && RedBlack(s, Paint(c, root, Black), root, order)
  {
    Added(s, c, root, order, x);
    var c' := Paint(c, root, Black);
    forall k | k in s ensures Level(s, c', k, null, L) && Proper(s, c', k, null) {
      ShapeKin(s, root, order, k);
      assert Level(s, c, k, null, L) && Proper(s, c, k, null);
    }
  }

  // --- plans: the links after each rotation, and what then holds ---

  ghost function TopAfter(s: Links, root: MemNode?, n: MemNode, m: MemNode): MemNode?
    requires n in s
  {
    if s[n].parent == null then m else root
  }

  lemma PlanInner(s: Links, c: Tints, root: MemNode?, order: seq<MemNode>, d: Dir, x: MemNode, p: MemNode, g: MemNode, u: MemNode?)
    returns (s': Links)
    requires Adding(s, c, root, order, x) && Uncle(s, c, x, p, g, u, d) && s[p].Kid(d.Opp()) == x
    ensures Rotated(s, s', d, p, x, s[x].Kid(d), g)
    ensures Adding(s', c, root, order, p) && Uncle(s', c, p, x, g, u, d) && s'[x].Kid(d) == p
  {
    RotationReady(s, root, order, d, p);
    s' := Rotate(s, d, p, x, s[x].Kid(d), g);
    InnerRotatedAdding(s, s', c, root, order, d, x, p, g, u, d, s[x].Kid(d));
    AddingUncle(s', c, root, order, p);
  }

  lemma PlanOuter(s: Links, c: Tints, root: MemNode?, order: seq<MemNode>, e: Dir, x: MemNode, p: MemNode, g: MemNode, u: MemNode?)
    returns (s': Links)
    requires Adding(s, c, root, order, x) && Uncle(s, c, x, p, g, u, e) && IsBlack(c, u) && s[p].Kid(e) == x
    ensures Rotated(s, s', e.Opp(), g, p, s[p].Kid(e.Opp()), s[g].parent)
    ensures Adding(s', Paint(Paint(c, p, Black), g, Red), TopAfter(s, root, g, p), order, x)
    ensures s'[x].parent == p
  {
    RotationReady(s, root, order, e.Opp(), g);
    s' := Rotate(s, e.Opp(), g, p, s[p].Kid(e.Opp()), s[g].parent);
    OuterRotatedAdded(s, s', c, root, order, e.Opp(), x, p, g, u, e, s[p].Kid(e.Opp()), s[g].parent);
  }

  lemma PlanRedSibling(s: Links, c: Tints, root: MemNode?, order: seq<MemNode>, x: MemNode?, d: Dir, p: MemNode, m: MemNode)
    returns (s': Links)
    requires Removing(s, c, root, order, x, p, d) && IsBlack(c, x)
    requires s[p].Kid(d.Opp()) == m && m in s && c[m].color.Red?
    ensures Rotated(s, s', d, p, m, s[m].Kid(d), s[p].parent)
    ensures var c' := Paint(Paint(c, p, Red), m, Black);
            && Removing(s', c', TopAfter(s, root, p, m), order, x, p, d) && IsBlack(c', x)
            && s'[p].Kid(d.Opp()) != null && s'[p].Kid(d.Opp()) in s' && IsBlack(c', s'[p].Kid(d.Opp()))
  {
    RemovingSibling(s, c, root, order, x, p, d);
    RotationReady(s, root, order, d, p);
    s' := Rotate(s, d, p, m, s[m].Kid(d), s[p].parent);
    RedSiblingRemoving(s, s', c, root, order, x, d, p, m, s[m].Kid(d), s[p].parent);
    ShapeKin(s', TopAfter(s, root, p, m), order, p);
    ShapeKin(s, root, order, p);
  }

  lemma PlanInnerNephew(s: Links, c: Tints, root: MemNode?, order: seq<MemNode>, x: MemNode?, d: Dir, p: MemNode, m: MemNode, i: MemNode)
    returns (s': Links)
    requires Removing(s, c, root, order, x, p, d) && IsBlack(c, x)
    requires s[p].Kid(d.Opp()) == m && m in s && c[m].color.Black?
    requires s[m].Kid(d) == i && i in s && c[i].color.Red? && IsBlack(c, s[m].Kid(d.Opp()))
    ensures Rotated(s, s', d.Opp(), m, i, s[i].Kid(d.Opp()), p)
    ensures var c' := Paint(Paint(c, i, Black), m, Red);
            && Removing(s', c', root, order, x, p, d) && IsBlack(c', x)
            && s'[p].Kid(d.Opp()) == i && s'[i].Kid(d.Opp()) == m
  {
    RemovingSibling(s, c, root, order, x, p, d);
    RotationReady(s, root, order, d.Opp(), m);
    s' := Rotate(s, d.Opp(), m, i, s[i].Kid(d.Opp()), p);
    InnerNephewRemoving(s, s', c, root, order, x, d, p, m, i, s[i].Kid(d.Opp()));
    ShapeKin(s, root, order, p);
  }

  lemma PlanOuterNephew(s: Links, c: Tints, root: MemNode?, order: seq<MemNode>, x: MemNode?, d: Dir, p: MemNode, m: MemNode, o: MemNode)
    returns (s': Links)
    requires Removing(s, c, root, order, x, p, d) && IsBlack(c, x)
    requires s[p].Kid(d.Opp()) == m && m in s && c[m].color.Black? && s[m].Kid(d.Opp()) == o && o in s && c[o].color.Red?
    ensures p != m && p != o && m != o
    ensures Rotated(s, s', d, p, m, s[m].Kid(d), s[p].parent)
    ensures RedBlack(s', OuterRecolored(c, p, m, o), TopAfter(s, root, p, m), order)
  {
    RemovingSibling(s, c, root, order, x, p, d);
    RotationReady(s, root, order, d, p);
    ShapeGrandparent(s, root, order, o);
    s' := Rotate(s, d, p, m, s[m].Kid(d), s[p].parent);
    OuterNephewRemoved(s, s', c, root, order, x, d, p, m, o, s[m].Kid(d), s[p].parent);
  }

  /** A finished tree is also a removal with nothing missing. */
  lemma RemovedAll(s: Links, c: Tints, root: MemNode?, order: seq<MemNode>)
    requires RedBlack(s, c, root, order)
    ensures Removing(s, c, root, order, root, null, L)
  {
    forall n | n in s ensures Proper(s, c, n, root) {
      assert Proper(s, c, n, null);
    }
  }

  /** The short subtree is the root exactly when nothing is above it. */
  lemma RemovingRoot(s: Links, c: Tints, root: MemNode?, order: seq<MemNode>, x: MemNode?, hole: MemNode?, side: Dir)
    requires Removing(s, c, root, order, x, hole, side)
    ensures x == root <==> hole == null
    ensures x != null ==> x in s
    ensures hole != null ==> side == if s[hole].left == x then L else R
  {
    if hole != null {
      ShapeKin(s, root, order, hole);
      RemovingSibling(s, c, root, order, x, hole, side);
    }
  }

  /** What holds once a node of the given colour is gone: a red one is not missed. */
  ghost predicate TakenOut(s: Links, c: Tints, root: MemNode?, order: seq<MemNode>, color: Color, x: MemNode?, hole: MemNode?, side: Dir) {
    if color.Red? then RedBlack(s, c, root, order) else Removing(s, c, root, order, x, hole, side)
  }

  lemma PlanUnlink(s: Links, c: Tints, root: MemNode?, order: seq<MemNode>, d: Dir, n: MemNode) returns (s': Links)
    requires RedBlack(s, c, root, order) && n in s && s[n].Kid(d) == null
    ensures Unlinked(s, s', d, n, s[n].Kid(d.Opp()), s[n].parent) && 0 <= s[n].pos < |order|
    ensures var x, p := s[n].Kid(d.Opp()), s[n].parent;
            var c', root', order' := c - {n}, if p == null then x else root, order[..s[n].pos] + order[s[n].pos + 1..];
            TakenOut(s', c', root', order', c[n].color, x, p, if p == null then L else s[p].Side(n))
    ensures Kin(s, n) && (s[n].parent != null ==> Kin(s, s[n].parent))
  {
    ShapeKin(s, root, order, n);
    if s[n].parent != null {
      ShapeKin(s, root, order, s[n].parent);
    }
    s' := Unlink(s, root, order, d, n);
    UnlinkedRemoving(s, s', c, root, order, d, n, s[n].Kid(d.Opp()), s[n].parent);
  }

  lemma PlanReplace(s: Links, c: Tints, root: MemNode?, order: seq<MemNode>, n: MemNode, t: MemNode) returns (s1: Links, s2: Links)
    requires RedBlack(s, c, root, order) && n in s && s[n].left != null && s[n].right != null
    requires t in s && s[t].right == null && s[t].pos == s[n].pos - 1
    ensures Replaceable(s, n, t) && Unlinked(s, s1, R, t, s[t].left, s[t].parent) && Relabelled(s1, s2, n, t)
    ensures 0 <= s[n].pos < |order|
    ensures var c', root' := Renamed(c - {t}, n, t), if s[n].parent == null then t else root;
            var order' := order[..s[n].pos] + order[s[n].pos + 1..];
            TakenOut(s2, c', root', order', c[t].color, s[t].left,
                     if s[t].parent == n then t else s[t].parent, s[s[t].parent].Side(t))
    ensures Kin(s, t) && (s[n].parent != null ==> Kin(s, s[n].parent))
    ensures s2.Keys == s.Keys - {n} && Renamed(c - {t}, n, t).Keys == s2.Keys
  {
    ShapeKin(s, root, order, t);
    ShapeKin(s, root, order, n);
    if s[n].parent != null {
      ShapeKin(s, root, order, s[n].parent);
    }
    PredecessorReplaceable(s, root, order, n, t);
    PredecessorOrder(s, root, order, n, t);
    s1 := PlanUnlink(s, c, root, order, R, t);
    assert s1[n].pos == s[n].pos - 1 && s1[n].parent == s[n].parent;
    var order1 := order[..s[t].pos] + order[s[t].pos + 1..];
    s2 := Relabel(s1, root, order1, n, t);
    if c[t].color.Red? {
      RelabelledRedBlack(s1, s2, c - {t}, root, order1, n, t);
    } else {
      RelabelledRemoving(s1, s2, c - {t}, root, order1, n, t, s[t].parent, s[s[t].parent].Side(t), s[t].left);
    }
  }
}
