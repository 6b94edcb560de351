/** What one pass of the two rebalancing loops does to the shape of the tree, and why it brings the
    red-black conditions back. */
module RbFixup {
  import opened RbShape
  import opened RbBalance
  import opened RbLinks

  /** The entries of the node at a position and of the nodes around it. */
  lemma View(h: Heap, z: Zip, t: Tree)
    requires Shaped(h, Plug(z, t))
    ensures t.T? ==> t.n in h.links && h.links[t.n] == Cell(RootOf(t.l), RootOf(t.r), Par(z), t.c)
    ensures z.In? ==> z.n in h.links && h.links[z.n] == Entry(z.left, RootOf(t), RootOf(z.sib), Par(z.up), z.c)
    ensures z.In? && z.sib.T? ==>
      z.sib.n in h.links && h.links[z.sib.n] == Cell(RootOf(z.sib.l), RootOf(z.sib.r), z.n, z.sib.c)
    ensures z.In? && z.sib.T? ==> RootOf(t) != z.sib.n
    ensures h.root == RootOf(Plug(z, t)) && (z.In? ==> h.root != RootOf(t))
  {
    TreeAtPlug(h.links, z, t);
    DistinctPlug(z, t);
    if z.In? {
      RootPlug(z, t, E);
      RootInZip(z);
      assert z.sib.T? ==> z.sib.n in Nodes(z.sib);
      assert t.T? ==> t.n in Nodes(t);
    }
  }

  lemma {:induction false} RootInZip(z: Zip)
    requires z.In?
    ensures forall t :: RootOf(Plug(z, t)) in ZipNodes(z)
  {
    if z.up.In? {
      RootInZip(z.up);
    }
  }

  // ---------- after an insertion ----------

  /** `t` is red and otherwise in order; the only fault left may be a red parent. */
  ghost predicate RedPending(z: Zip, t: Tree) {
    && IsRed(t) && Balanced(t) && NoRedRed(t)
    && ZipBalanced(z, Blacks(t)) && ZipNoRedRed(z, false) && TopBlack(z)
  }

  ghost predicate RedParent(z: Zip, t: Tree) {
    RedPending(z, t) && z.In? && z.c == Red
  }

  lemma GrandparentIsBlack(z: Zip, t: Tree)
    requires RedParent(z, t)
    ensures z.up.In? && z.up.c == Black && !IsRed(z.sib)
    ensures ZipBalanced(z.up, Blacks(t)) && ZipNoRedRed(z.up, true) && TopBlack(z.up)
  {
    assert ZipNoRedRed(z.up, true);
  }

  ghost function Blacken(t: Tree): Tree {
    if t.E? then t else t.(c := Black)
  }

  /** Red uncle: parent and uncle turn black, the grandparent red. */
  ghost function Flip(z: Zip, t: Tree): Tree
    requires z.In? && z.up.In?
  {
    Join(z.up.left, Join(z.left, t, z.n, Black, z.sib), z.up.n, Red, Blacken(z.up.sib))
  }

  lemma FlippedPending(z: Zip, t: Tree)
    requires RedParent(z, t) && IsRed(z.up.sib)
    ensures RedPending(z.up.up, Flip(z, t))
  {
    GrandparentIsBlack(z, t);
  }

  /** The node is on the inner side of its parent: rotating the parent moves it to the outer side. */
  ghost function TurnZip(z: Zip, t: Tree): Zip
    requires z.In? && z.up.In? && t.T?
  {
    In(z.up.left, t.n, Red, if z.up.left then t.r else t.l, z.up)
  }

  ghost function TurnTree(z: Zip, t: Tree): Tree
    requires z.In? && z.up.In? && t.T?
  {
    Join(z.up.left, z.sib, z.n, Red, if z.up.left then t.l else t.r)
  }

  lemma TurnedPending(z: Zip, t: Tree)
    requires RedParent(z, t) && z.left != z.up.left
    ensures RedParent(TurnZip(z, t), TurnTree(z, t))
  {
    GrandparentIsBlack(z, t);
  }

  /** Black uncle, node on the outer side: recolour and rotate the grandparent. */
  ghost function StraightZip(z: Zip): Zip
    requires z.In? && z.up.In?
  {
    In(z.left, z.n, Black, Join(z.left, z.sib, z.up.n, Red, z.up.sib), z.up.up)
  }

  lemma StraightenedPending(z: Zip, t: Tree)
    requires RedParent(z, t) && z.left == z.up.left && !IsRed(z.up.sib)
    ensures RedPending(StraightZip(z), t)
  {
    GrandparentIsBlack(z, t);
  }

  /** With a black parent, or at the root once that is painted black, nothing is left to repair. */
  lemma Repaired(z: Zip, t: Tree)
    requires RedPending(z, t) && !RedParent(z, t)
    ensures z.Top? ==> IsRedBlack(Blacken(t))
    ensures z.In? ==> IsRedBlack(Plug(z, t))
  {
    if z.In? {
      BalancedPlug(z, t);
      NoRedRedPlug(z, t);
      RootColorPlug(z, t);
    }
  }

  /** A new red leaf in a red-black tree. */
  lemma LeafPending(z: Zip, n: Node)
    requires IsRedBlack(Plug(z, E))
    ensures RedPending(z, T(E, n, Red, E))
  {
    BalancedPlug(z, E);
    NoRedRedPlug(z, E);
    if z.In? {
      RootColorPlug(z, E);
    }
  }

  // ---------- after a removal ----------

  ghost function Near(d: bool, t: Tree): Tree
    requires t.T?
  {
    if d then t.l else t.r
  }

  /** Every path through `t` is one black node short; otherwise only the root of `t` may be out of order,
      by being red below a red node. */
  ghost predicate LackOne(z: Zip, t: Tree) {
    && Balanced(t) && NoRedRedBelow(t) && ZipNoRedRed(z, false) && TopBlack(z)
    && (z.In? ==> ZipBalanced(z, Blacks(t) + 1))
  }

  /** `t` is short and its root cannot make up for it. */
  ghost predicate Lacking(z: Zip, t: Tree) {
    LackOne(z, t) && !IsRed(t) && z.In?
  }

  lemma SiblingExists(z: Zip, t: Tree)
    requires Lacking(z, t)
    ensures z.sib.T? && Balanced(z.sib) && NoRedRed(z.sib) && NoRedRed(t) && Blacks(z.sib) == Blacks(t) + 1
    ensures z.up.Top? ==> z.c == Black
    ensures ZipNoRedRed(z.up, z.c == Red) && ZipBalanced(z.up, Blacks(t) + 1 + (if z.c == Black then 1 else 0))
    ensures TopBlack(z.up) && (IsRed(z.sib) ==> z.c == Black)
  {
  }

  /** Red sibling: it takes the parent's place, so that the new sibling is black. */
  ghost function LiftZip(z: Zip): Zip
    requires z.In? && z.sib.T?
  {
    var d, s := z.left, z.sib;
    In(d, z.n, Red, Near(d, s), In(d, s.n, Black, Near(!d, s), z.up))
  }

  lemma LiftedLacking(z: Zip, t: Tree)
    requires Lacking(z, t) && IsRed(z.sib)
    ensures z.sib.T? && Lacking(LiftZip(z), t) && !IsRed(LiftZip(z).sib)
  {
    SiblingExists(z, t);
  }

  /** Black sibling with black children: it turns red and the parent's subtree becomes the short one. */
  ghost function Sink(z: Zip, t: Tree): Tree
    requires z.In? && z.sib.T?
  {
    Join(z.left, t, z.n, z.c, z.sib.(c := Red))
  }

  lemma SunkLack(z: Zip, t: Tree)
    requires Lacking(z, t) && z.sib.T? && !IsRed(z.sib) && !IsRed(z.sib.l) && !IsRed(z.sib.r)
    ensures LackOne(z.up, Sink(z, t))
  {
    SiblingExists(z, t);
    assert Balanced(z.sib.(c := Red)) && NoRedRed(z.sib.(c := Red));
  }

  /** Black sibling whose near child alone is red: a rotation makes the far child the red one. */
  ghost function Swing(d: bool, s: Tree): Tree
    requires s.T? && Near(d, s).T?
  {
    var o := Near(d, s);
    Join(d, Near(d, o), o.n, Black, Join(d, Near(!d, o), s.n, Red, Near(!d, s)))
  }

  lemma SwungLacking(z: Zip, t: Tree)
    requires Lacking(z, t) && z.sib.T? && !IsRed(z.sib) && IsRed(Near(z.left, z.sib)) && !IsRed(Near(!z.left, z.sib))
    ensures Lacking(z.(sib := Swing(z.left, z.sib)), t)
    ensures var s := Swing(z.left, z.sib); s.c == Black && IsRed(Near(!z.left, s))
  {
    SiblingExists(z, t);
    var d, s, o := z.left, z.sib, Near(z.left, z.sib);
    var s' := Join(d, Near(!d, o), s.n, Red, Near(!d, s));
    assert Balanced(o) && NoRedRed(o);
    assert Balanced(s') && NoRedRed(s') && Blacks(s') == Blacks(o);
  }

  /** Black sibling whose far child is red: a last rotation restores every count. */
  ghost function Settle(z: Zip, t: Tree): Tree
    requires z.In? && z.sib.T?
  {
    var d, s := z.left, z.sib;
    Join(d, Join(d, t, z.n, Black, Near(d, s)), s.n, z.c, Blacken(Near(!d, s)))
  }

  lemma Settled(z: Zip, t: Tree)
    requires Lacking(z, t) && z.sib.T? && !IsRed(z.sib) && IsRed(Near(!z.left, z.sib))
    ensures IsRedBlack(Plug(z.up, Settle(z, t)))
  {
    SiblingExists(z, t);
    var d, s, w := z.left, z.sib, Settle(z, t);
    var l, r := Join(d, t, z.n, Black, Near(d, s)), Blacken(Near(!d, s));
    assert Balanced(l) && NoRedRed(l) && !IsRed(l) && Blacks(l) == Blacks(t) + 1;
    assert Balanced(r) && NoRedRed(r) && !IsRed(r) && Blacks(r) == Blacks(t) + 1;
    assert Balanced(w) && NoRedRed(w);
    BalancedPlug(z.up, w);
    NoRedRedPlug(z.up, w);
    if z.up.In? {
      RootColorPlug(z.up, w);
    }
  }

  /** A red root, or the root of the whole tree, makes up for the missing black node. */
  lemma MadeUp(z: Zip, t: Tree)
    requires LackOne(z, t) && !Lacking(z, t)
    ensures IsRedBlack(Plug(z, Blacken(t)))
  {
    var t' := Blacken(t);
    assert Balanced(t') && NoRedRed(t');
    BalancedPlug(z, t');
    NoRedRedPlug(z, t');
    if z.In? {
      RootColorPlug(z, t');
    }
  }

  /** What is left of the conditions when a node with at most one child is bypassed. */
  lemma RemovedColors(z: Zip, x: Node, c: Color, t: Tree, onLeft: bool)
    requires IsRedBlack(Plug(z, Join(onLeft, t, x, c, E)))
    ensures if c == Black then LackOne(z, t) else IsRedBlack(Plug(z, t)) && RedLeaf(z, t)
  {
    var s := Join(onLeft, t, x, c, E);
    BalancedPlug(z, s);
    NoRedRedPlug(z, s);
    if z.In? {
      RootColorPlug(z, s);
      RootColorPlug(z, t);
    }
    if c == Red {
      assert t.E?;
      BalancedPlug(z, t);
      NoRedRedPlug(z, t);
    }
  }

  ghost predicate RedLeaf(z: Zip, t: Tree) {
    Balanced(t) && NoRedRed(t) && !IsRed(t) && ZipBalanced(z, Blacks(t)) && ZipNoRedRed(z, false) && TopBlack(z)
  }

  /** The red-black conditions do not depend on which node sits at a position. */
  lemma {:induction false} SwapColors(zs: Zip, n: Node, n': Node, c: Color, l: Tree, z: Zip, t: Tree)
    ensures var z1, z2 := Nest(zs, In(false, n, c, l, z)), Nest(zs, In(false, n', c, l, z));
      && (LackOne(z1, t) ==> LackOne(z2, t))
      && (RedLeaf(z1, t) ==> IsRedBlack(Plug(z2, t)))
  {
    var z1, z2 := Nest(zs, In(false, n, c, l, z)), Nest(zs, In(false, n', c, l, z));
    SwapZip(zs, n, n', c, l, z, Blacks(t));
    SwapZip(zs, n, n', c, l, z, Blacks(t) + 1);
    BalancedPlug(z2, t);
    NoRedRedPlug(z2, t);
    if z2.In? {
      RootColorPlug(z2, t);
    }
  }

  lemma {:induction false} SwapZip(zs: Zip, n: Node, n': Node, c: Color, l: Tree, z: Zip, h: nat)
    ensures var z1, z2 := Nest(zs, In(false, n, c, l, z)), Nest(zs, In(false, n', c, l, z));
      && z1.In? && z2.In? && (ZipBalanced(z1, h) <==> ZipBalanced(z2, h)) && (TopBlack(z1) <==> TopBlack(z2))
      && forall red :: ZipNoRedRed(z1, red) <==> ZipNoRedRed(z2, red)
  {
    if zs.In? {
      SwapZip(zs.up, n, n', c, l, z, h + (if zs.c == Black then 1 else 0));
    }
  }
}
