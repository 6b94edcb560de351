/** The red-black tree operations on linked nodes. Each mirror-image pair of branches is written once,
    with the side as a parameter. */
module RbTree {
  import opened RbShape
  import opened RbBalance
  import opened RbLinks
  import opened RbFixup
  import opened RbOrder

  /** The user's comparison function. */
  function Compare(a: Node, b: Node): int {
    if a.key < b.key then -1 else if a.key > b.key then 1 else 0
  }

  class Head {
    var root: Node?
    /** The value that the root link and the entries of the member nodes hold. */
    ghost var heap: Heap
    ghost var tree: Tree

    ghost predicate Mirrored()
      reads this`root, this`heap, heap.links.Keys
    {
      && root == heap.root
      && forall n :: n in heap.links.Keys ==>
           n.left == heap.links[n].left && n.right == heap.links[n].right &&
           n.parent == heap.links[n].parent && n.color == heap.links[n].color
    }

    ghost predicate Valid()
      reads this, heap.links.Keys
    {
      Mirrored() && Shaped(heap, tree) && IsRedBlack(tree) && Sorted(InOrder(tree))
    }

    /** The member nodes in ascending order. */
    ghost function Members(): seq<Node>
      reads this`tree
    {
      InOrder(tree)
    }

    constructor ()
      ensures Valid() && Members() == []
    {
      root := null;
      heap := Heap(null, map[]);
      tree := E;
    }

    method PutChild(n: Node, onLeft: bool, v: Node?)
      requires Mirrored() && n in heap.links
      modifies this`heap, n`left, n`right
      ensures Mirrored() && heap == old(heap).SetChild(n, onLeft, v)
    {
      if onLeft {
        n.left := v;
      } else {
        n.right := v;
      }
      heap := heap.SetChild(n, onLeft, v);
    }

    method PutParent(n: Node, v: Node?)
      requires Mirrored() && n in heap.links
      modifies this`heap, n`parent
      ensures Mirrored() && heap == old(heap).SetParent(n, v)
    {
      n.parent := v;
      heap := heap.SetParent(n, v);
    }

    method PutColor(n: Node, c: Color)
      requires Mirrored() && n in heap.links
      modifies this`heap, n`color
      ensures Mirrored() && heap == old(heap).SetColor(n, c)
    {
      n.color := c;
      heap := heap.SetColor(n, c);
    }

    method ReplaceChild(parent: Node?, x: Node, repl: Node?)
      requires Mirrored() && heap.Known(parent)
      modifies this`root, this`heap, if parent == null then {} else {parent}
      ensures Mirrored() && heap == old(heap).ReplaceChild(parent, x, repl)
    {
      if parent != null {
        PutChild(parent, parent.left == x, repl);
      } else {
        root := repl;
        heap := heap.(root := repl);
      }
    }

    method Rotate(onLeft: bool, elm: Node)
      requires Mirrored() && heap.CanRotate(onLeft, elm)
      modifies this`root, this`heap, heap.links.Keys
      ensures Mirrored() && heap == old(heap).Rotate(onLeft, elm)
    {
      var tmp: Node := elm.Child(!onLeft);
      var near := tmp.Child(onLeft);
      PutChild(elm, !onLeft, near);
      if near != null {
        PutParent(near, elm);
      }
      PutParent(tmp, elm.parent);
      ReplaceChild(elm.parent, elm, tmp);
      PutChild(tmp, onLeft, elm);
      PutParent(elm, tmp);
    }

    /** A colour change at a position. */
    method Paint(n: Node, c: Color, ghost z: Zip, ghost t: Tree)
      requires Mirrored() && t.T? && t.n == n && Shaped(heap, Plug(z, t))
      modifies this`heap, heap.links.Keys
      ensures Mirrored() && Shaped(heap, Plug(z, t.(c := c)))
      ensures InOrder(Plug(z, t.(c := c))) == InOrder(Plug(z, t))
      ensures heap.links.Keys == old(heap.links.Keys)
    {
      Recolored(heap, z, t, c);
      PutColor(n, c);
    }

    /** A rotation at a position: `x` above `a` and `y`, with `y` above `b` and `c`. */
    method RotateAt(d: bool, x: Node, ghost z: Zip, ghost a: Tree, ghost cx: Color,
                    ghost b: Tree, ghost y: Node, ghost cy: Color, ghost c: Tree)
      requires Mirrored() && Shaped(heap, Plug(z, Join(d, a, x, cx, Join(d, b, y, cy, c))))
      modifies this`root, this`heap, heap.links.Keys
      ensures Mirrored() && Shaped(heap, Plug(z, Join(d, Join(d, a, x, cx, b), y, cy, c)))
      ensures InOrder(Plug(z, Join(d, Join(d, a, x, cx, b), y, cy, c))) ==
              InOrder(Plug(z, Join(d, a, x, cx, Join(d, b, y, cy, c))))
      ensures heap.links.Keys == old(heap.links.Keys)
    {
      Rotated(heap, z, d, a, x, cx, b, y, cy, c);
      RotateEffect(heap, d, x);
      RotatedOrder(z, d, a, x, cx, b, y, cy, c);
      Rotate(d, x);
    }

    /** One pass of the loop after an insertion; the position of the red node moves towards the root. */
    method InsertPass(elm: Node, parent: Node, ghost z: Zip, ghost t: Tree)
      returns (elm': Node, ghost z': Zip, ghost t': Tree)
      requires Mirrored() && Shaped(heap, Plug(z, t)) && RedParent(z, t) && elm == t.n && parent == z.n
      modifies this`root, this`heap, heap.links.Keys
      ensures Mirrored() && Shaped(heap, Plug(z', t')) && RedPending(z', t') && elm' == t'.n
      ensures Depth(z') < Depth(z)
      ensures InOrder(Plug(z', t')) == InOrder(Plug(z, t))
      ensures heap.links.Keys == old(heap.links.Keys)
    {
      GrandparentIsBlack(z, t);
      View(heap, z, t);
      View(heap, z.up, Join(z.left, t, z.n, Red, z.sib));
      var gparent: Node := parent.parent;
      var d := parent == gparent.left;
      var uncle := gparent.Child(!d);
      if uncle != null && uncle.color == Red {
        FlippedPending(z, t);
        Flip3(d, uncle, parent, gparent, z, t);
        elm', z', t' := gparent, z.up.up, Flip(z, t);
      } else if parent.Child(!d) == elm {
        TurnedPending(z, t);
        ghost var near, far := if d then t.l else t.r, if d then t.r else t.l;
        assert Plug(z, t) == Plug(z.up, Join(d, z.sib, parent, Red, Join(d, near, elm, Red, far)));
        RotateAt(d, parent, z.up, z.sib, Red, near, elm, Red, far);
        z', t' := TurnZip(z, t), TurnTree(z, t);
        Straighten(d, elm, gparent, z', t');
        elm', z' := parent, StraightZip(z');
      } else {
        Straighten(d, parent, gparent, z, t);
        elm', z', t' := elm, StraightZip(z), t;
      }
    }

    method Flip3(d: bool, uncle: Node, parent: Node, gparent: Node, ghost z: Zip, ghost t: Tree)
      requires RedParent(z, t) && z.up.In? && z.up.c == Black && z.up.sib.T?
      requires d == z.up.left && parent == z.n && gparent == z.up.n && uncle == z.up.sib.n
      requires Mirrored() && Shaped(heap, Plug(z, t))
      modifies this`heap, heap.links.Keys
      ensures Mirrored() && Shaped(heap, Plug(z.up.up, Flip(z, t)))
      ensures InOrder(Plug(z.up.up, Flip(z, t))) == InOrder(Plug(z, t))
      ensures heap.links.Keys == old(heap.links.Keys)
    {
      ghost var up, u, t1 := z.up.up, z.up.sib, Join(z.left, t, parent, Red, z.sib);
      ghost var t2, u' := t1.(c := Black), u.(c := Black);
      assert Plug(In(!d, gparent, Black, t1, up), u) == Plug(z, t);
      Paint(uncle, Black, In(!d, gparent, Black, t1, up), u);
      assert Plug(In(d, gparent, Black, u', up), t1) == Plug(In(!d, gparent, Black, t1, up), u');
      Paint(parent, Black, In(d, gparent, Black, u', up), t1);
      assert Plug(up, Join(d, t2, gparent, Black, u')) == Plug(In(d, gparent, Black, u', up), t2);
      Paint(gparent, Red, up, Join(d, t2, gparent, Black, u'));
      assert Flip(z, t) == Join(d, t2, gparent, Black, u').(c := Red);
    }

    /** The end of a pass whose uncle is black and whose node is on the outer side. */
    method Straighten(d: bool, parent: Node, gparent: Node, ghost z: Zip, ghost t: Tree)
      requires RedParent(z, t) && z.up.In? && z.left == z.up.left == d && !IsRed(z.up.sib)
      requires parent == z.n && gparent == z.up.n
      requires Mirrored() && Shaped(heap, Plug(z, t))
      modifies this`root, this`heap, heap.links.Keys
      ensures Mirrored() && Shaped(heap, Plug(StraightZip(z), t)) && RedPending(StraightZip(z), t)
      ensures InOrder(Plug(StraightZip(z), t)) == InOrder(Plug(z, t))
      ensures heap.links.Keys == old(heap.links.Keys)
    {
      GrandparentIsBlack(z, t);
      StraightenedPending(z, t);
      ghost var s, u, up, t1 := z.sib, z.up.sib, z.up.up, Join(d, t, parent, Red, z.sib);
      ghost var t2 := t1.(c := Black);
      assert Plug(z.up, t1) == Plug(z, t);
      Paint(parent, Black, z.up, t1);
      assert Plug(up, Join(d, t2, gparent, Black, u)) == Plug(z.up, t2);
      Paint(gparent, Red, up, Join(d, t2, gparent, Black, u));
      assert Join(!d, u, gparent, Red, Join(!d, s, parent, Black, t)) == Join(d, t2, gparent, Black, u).(c := Red);
      RotateAt(!d, gparent, up, u, Red, s, parent, Black, t);
      assert Plug(StraightZip(z), t) == Plug(up, Join(!d, Join(!d, u, gparent, Red, s), parent, Black, t));
    }

    method InsertColor(elm0: Node, ghost z0: Zip, ghost t0: Tree) returns (ghost t: Tree)
      requires Mirrored() && Shaped(heap, Plug(z0, t0)) && RedPending(z0, t0) && elm0 == t0.n
      modifies this`root, this`heap, heap.links.Keys
      ensures Mirrored() && Shaped(heap, t) && IsRedBlack(t) && InOrder(t) == InOrder(Plug(z0, t0))
      ensures heap.links.Keys == old(heap.links.Keys)
    {
      var elm := elm0;
      ghost var z, s := z0, t0;
      View(heap, z, s);
      var parent := elm.parent;
      while parent != null && parent.color == Red
        invariant Mirrored() && Shaped(heap, Plug(z, s)) && RedPending(z, s) && elm == s.n
        invariant InOrder(Plug(z, s)) == InOrder(Plug(z0, t0))
        invariant parent == Par(z) && (z.In? ==> z.n in heap.links && heap.links[z.n].color == z.c)
        invariant heap.links.Keys == old(heap.links.Keys)
        decreases Depth(z)
      {
        elm, z, s := InsertPass(elm, parent, z, s);
        View(heap, z, s);
        parent := elm.parent;
      }
      Repaired(z, s);
      t := Plug(z, s);
      Paint(root, Black, Top, t);
      t := t.(c := Black);
    }

    /** Red sibling `tmp`. */
    method Lift(d: bool, parent: Node, tmp: Node, ghost z: Zip, ghost t: Tree)
      requires Mirrored() && Shaped(heap, Plug(z, t)) && Lacking(z, t) && IsRed(z.sib)
      requires d == z.left && parent == z.n && tmp == z.sib.n
      modifies this`root, this`heap, heap.links.Keys
      ensures z.sib.T? && Mirrored() && Shaped(heap, Plug(LiftZip(z), t))
      ensures InOrder(Plug(LiftZip(z), t)) == InOrder(Plug(z, t))
      ensures heap.links.Keys == old(heap.links.Keys)
    {
      SiblingExists(z, t);
      ghost var s, up := z.sib, z.up;
      ghost var s' := s.(c := Black);
      ghost var near, far := Near(d, s), Near(!d, s);
      assert Plug(In(!d, parent, Black, t, up), s) == Plug(z, t);
      Paint(tmp, Black, In(!d, parent, Black, t, up), s);
      assert Plug(In(!d, parent, Black, t, up), s') == Plug(up, Join(d, t, parent, Black, s'));
      Paint(parent, Red, up, Join(d, t, parent, Black, s'));
      assert Join(d, t, parent, Black, s').(c := Red) == Join(d, t, parent, Red, Join(d, near, tmp, Black, far));
      RotateAt(d, parent, up, t, Red, near, tmp, Black, far);
      assert Plug(LiftZip(z), t) == Plug(up, Join(d, Join(d, t, parent, Red, near), tmp, Black, far));
    }

    /** Black sibling `tmp` whose near child `o` is red and whose far child is not. */
    method SwingNear(d: bool, parent: Node, tmp: Node, ghost z: Zip, ghost t: Tree)
      requires Mirrored() && Shaped(heap, Plug(z, t)) && z.In? && z.sib.T? && Near(z.left, z.sib).T?
      requires z.sib.c == Black && IsRed(Near(z.left, z.sib))
      requires d == z.left && parent == z.n && tmp == z.sib.n
      modifies this`root, this`heap, heap.links.Keys
      ensures Mirrored() && Shaped(heap, Plug(z.(sib := Swing(d, z.sib)), t))
      ensures InOrder(Plug(z.(sib := Swing(d, z.sib)), t)) == InOrder(Plug(z, t))
      ensures heap.links.Keys == old(heap.links.Keys)
    {
      ghost var s, o, far, zs := z.sib, Near(d, z.sib), Near(!d, z.sib), In(!d, parent, z.c, t, z.up);
      ghost var o' := o.(c := Black);
      assert Plug(In(d, tmp, Black, far, zs), o) == Plug(zs, s) == Plug(z, t);
      View(heap, zs, s);
      View(heap, In(d, tmp, Black, far, zs), o);
      var oNear := tmp.Child(d);
      if oNear != null {
        Paint(oNear, Black, In(d, tmp, Black, far, zs), o);
      }
      assert Plug(In(d, tmp, Black, far, zs), o') == Plug(zs, Join(d, o', tmp, Black, far));
      Paint(tmp, Red, zs, Join(d, o', tmp, Black, far));
      ghost var n1, n2 := Near(d, o), Near(!d, o);
      assert Join(d, o', tmp, Black, far).(c := Red) == Join(!d, far, tmp, Red, Join(!d, n2, o.n, Black, n1));
      RotateAt(!d, tmp, zs, far, Red, n2, o.n, Black, n1);
      assert Swing(d, s) == Join(!d, Join(!d, far, tmp, Red, n2), o.n, Black, n1);
      assert Plug(z.(sib := Swing(d, s)), t) == Plug(zs, Swing(d, s));
    }

    /** Black sibling `tmp` whose far child is red. */
    method SettleHere(d: bool, parent: Node, tmp: Node, ghost z: Zip, ghost t: Tree)
      requires Mirrored() && Shaped(heap, Plug(z, t)) && z.In? && z.sib.T? && z.sib.c == Black
      requires IsRed(Near(!z.left, z.sib)) && d == z.left && parent == z.n && tmp == z.sib.n
      modifies this`root, this`heap, heap.links.Keys
      ensures Mirrored() && Shaped(heap, Plug(z.up, Settle(z, t)))
      ensures InOrder(Plug(z.up, Settle(z, t))) == InOrder(Plug(z, t))
      ensures heap.links.Keys == old(heap.links.Keys)
    {
      ghost var s, up, near, f, pc := z.sib, z.up, Near(d, z.sib), Near(!d, z.sib), z.c;
      ghost var s' := s.(c := pc);
      View(heap, z, t);
      assert Plug(In(!d, parent, pc, t, up), s) == Plug(z, t);
      Paint(tmp, parent.color, In(!d, parent, pc, t, up), s);
      assert Plug(In(!d, parent, pc, t, up), s') == Plug(up, Join(d, t, parent, pc, s'));
      Paint(parent, Black, up, Join(d, t, parent, pc, s'));
      ghost var zf := In(!d, tmp, pc, near, In(!d, parent, Black, t, up));
      assert Plug(up, Join(d, t, parent, pc, s').(c := Black)) == Plug(In(!d, parent, Black, t, up), s') == Plug(zf, f);
      View(heap, zf, f);
      View(heap, zf.up, s');
      var far := tmp.Child(!d);
      if far != null {
        Paint(far, Black, zf, f);
      }
      assert Plug(zf, Blacken(f)) == Plug(up, Join(d, t, parent, Black, Join(d, near, tmp, pc, Blacken(f))));
      RotateAt(d, parent, up, t, Black, near, tmp, pc, Blacken(f));
    }

    method RemoveColor(parent0: Node?, elm0: Node?, ghost z0: Zip, ghost t0: Tree) returns (ghost t: Tree)
      requires Mirrored() && Shaped(heap, Plug(z0, t0)) && LackOne(z0, t0)
      requires elm0 == RootOf(t0) && parent0 == Par(z0)
      modifies this`root, this`heap, heap.links.Keys
      ensures Mirrored() && Shaped(heap, t) && IsRedBlack(t) && InOrder(t) == InOrder(Plug(z0, t0))
      ensures heap.links.Keys == old(heap.links.Keys)
    {
      var parent, elm := parent0, elm0;
      ghost var z, s := z0, t0;
      View(heap, z, s);
      while (elm == null || elm.color == Black) && elm != root
        invariant Mirrored() && Shaped(heap, Plug(z, s)) && LackOne(z, s)
        invariant elm == RootOf(s) && (z.In? ==> parent == z.n)
        invariant elm != null ==> elm in heap.links && heap.links[elm].color == s.c
        invariant z.In? ==> heap.root != elm
        invariant z.Top? ==> heap.root == elm
        invariant InOrder(Plug(z, s)) == InOrder(Plug(z0, t0))
        invariant heap.links.Keys == old(heap.links.Keys)
        decreases if IsRed(s) then 0 else 1 + Depth(z)
      {
        elm, parent, z, s := RemovePass(elm, parent, z, s);
        View(heap, z, s);
      }
      MadeUp(z, s);
      t := Plug(z, Blacken(s));
      if elm != null {
        Paint(elm, Black, z, s);
      }
    }

    /** One pass of the loop after a removal. */
    method RemovePass(elm: Node?, parent: Node, ghost z: Zip, ghost t: Tree)
      returns (elm': Node?, parent': Node?, ghost z': Zip, ghost t': Tree)
      requires Mirrored() && Shaped(heap, Plug(z, t)) && Lacking(z, t) && elm == RootOf(t) && parent == z.n
      modifies this`root, this`heap, heap.links.Keys
      ensures Mirrored() && Shaped(heap, Plug(z', t')) && LackOne(z', t')
      ensures elm' == RootOf(t') && (z'.In? ==> parent' == z'.n)
      ensures z'.Top? || IsRed(t') || Depth(z') < Depth(z)
      ensures InOrder(Plug(z', t')) == InOrder(Plug(z, t))
      ensures heap.links.Keys == old(heap.links.Keys)
    {
      SiblingExists(z, t);
      View(heap, z, t);
      z', t' := z, t;
      var d := parent.left == elm;
      var tmp: Node := parent.Child(!d);
      if tmp.color == Red {
        LiftedLacking(z, t);
        Lift(d, parent, tmp, z, t);
        z' := LiftZip(z);
        SiblingExists(z', t);
        View(heap, z', t);
        tmp := parent.Child(!d);
      }
      elm', parent', z', t' := RemoveBlackSibling(d, elm, parent, tmp, z', t');
    }

    /** The rest of a pass, whose sibling `tmp` is black. */
    method RemoveBlackSibling(d: bool, elm: Node?, parent: Node, tmp0: Node, ghost z: Zip, ghost t: Tree)
      returns (elm': Node?, parent': Node?, ghost z': Zip, ghost t': Tree)
      requires Mirrored() && Shaped(heap, Plug(z, t)) && Lacking(z, t) && elm == RootOf(t) && parent == z.n
      requires d == z.left && z.sib.T? && !IsRed(z.sib) && tmp0 == z.sib.n
      modifies this`root, this`heap, heap.links.Keys
      ensures Mirrored() && Shaped(heap, Plug(z', t')) && LackOne(z', t')
      ensures elm' == RootOf(t') && (z'.In? ==> parent' == z'.n)
      ensures (z' == z.up && t' == Sink(z, t)) || z' == Top
      ensures InOrder(Plug(z', t')) == InOrder(Plug(z, t))
      ensures heap.links.Keys == old(heap.links.Keys)
    {
      var tmp := tmp0;
      ghost var zs := In(!d, parent, z.c, t, z.up);
      assert Plug(zs, z.sib) == Plug(z, t);
      View(heap, zs, z.sib);
      View(heap, In(true, tmp, Black, z.sib.r, zs), z.sib.l);
      View(heap, In(false, tmp, Black, z.sib.l, zs), z.sib.r);
      if (tmp.left == null || tmp.left.color == Black) && (tmp.right == null || tmp.right.color == Black) {
        SinkHere(d, parent, tmp, z, t);
        z', t' := z.up, Sink(z, t);
        elm', parent' := parent, parent.parent;
      } else {
        t' := EndLack(d, parent, tmp, z, t);
        z' := Top;
        elm', parent' := root, parent;
      }
    }

    /** The sibling becomes red: the shortage is one level up. */
    method SinkHere(d: bool, parent: Node, tmp: Node, ghost z: Zip, ghost t: Tree)
      requires Mirrored() && Shaped(heap, Plug(z, t)) && Lacking(z, t) && parent == z.n && d == z.left
      requires z.sib.T? && !IsRed(z.sib) && tmp == z.sib.n && !IsRed(z.sib.l) && !IsRed(z.sib.r)
      modifies this`heap, heap.links.Keys
      ensures Mirrored() && Shaped(heap, Plug(z.up, Sink(z, t))) && LackOne(z.up, Sink(z, t))
      ensures parent == RootOf(Sink(z, t)) && (z.up.In? ==> parent.parent == z.up.n)
      ensures InOrder(Plug(z.up, Sink(z, t))) == InOrder(Plug(z, t)) && heap.links.Keys == old(heap.links.Keys)
    {
      ghost var zs := In(!d, parent, z.c, t, z.up);
      SunkLack(z, t);
      View(heap, zs, z.sib);
      Paint(tmp, Red, zs, z.sib);
      assert Plug(z.up, Sink(z, t)) == Plug(zs, z.sib.(c := Red));
      View(heap, z.up, Sink(z, t));
    }

    /** A child of the sibling is red: one or two rotations, and the shortage is over. */
    method EndLack(d: bool, parent: Node, tmp0: Node, ghost z0: Zip, ghost t: Tree) returns (ghost t': Tree)
      requires Mirrored() && Shaped(heap, Plug(z0, t)) && Lacking(z0, t) && parent == z0.n && d == z0.left
      requires z0.sib.T? && !IsRed(z0.sib) && tmp0 == z0.sib.n && (IsRed(z0.sib.l) || IsRed(z0.sib.r))
      modifies this`root, this`heap, heap.links.Keys
      ensures Mirrored() && Shaped(heap, t') && LackOne(Top, t') && root == RootOf(t')
      ensures InOrder(t') == InOrder(Plug(z0, t)) && heap.links.Keys == old(heap.links.Keys)
    {
      var tmp := tmp0;
      ghost var z := z0;
      ViewFar(d, parent, tmp, z, t);
      var far := tmp.Child(!d);
      if far == null || far.color == Black {
        SwungLacking(z, t);
        SwingNear(d, parent, tmp, z, t);
        z := z.(sib := Swing(d, z.sib));
        View(heap, z, t);
        tmp := parent.Child(!d);
      }
      Settled(z, t);
      SettleHere(d, parent, tmp, z, t);
      t' := Plug(z.up, Settle(z, t));
      View(heap, Top, t');
    }

    /** What the fields of the sibling and of its far child say. */
    lemma ViewFar(d: bool, parent: Node, tmp: Node, z: Zip, t: Tree)
      requires Mirrored() && Shaped(heap, Plug(z, t)) && z.In? && parent == z.n && d == z.left && z.sib.T? && tmp == z.sib.n
      ensures tmp in heap.links && tmp.Child(!d) == RootOf(if d then z.sib.r else z.sib.l)
      ensures var far := if d then z.sib.r else z.sib.l; far.T? ==> far.n in heap.links && far.n.color == far.c
    {
      var zs := In(!d, parent, z.c, t, z.up);
      assert Plug(zs, z.sib) == Plug(z, t);
      View(heap, zs, z.sib);
      View(heap, In(true, tmp, z.sib.c, z.sib.r, zs), z.sib.l);
      View(heap, In(false, tmp, z.sib.c, z.sib.l, zs), z.sib.r);
    }

    /** The search of an insertion: stops at the member that compares equal, or at a free position. */
    method Descend(elm: Node) returns (tmp: Node?, parent: Node?, comp: int, ghost z: Zip)
      requires Valid()
      ensures tmp != null ==> tmp in Members() && tmp.key == elm.key
      ensures tmp == null ==> tree == Plug(z, E) && parent == Par(z) && (z.In? ==> (comp < 0 <==> z.left))
      ensures tmp == null ==> AllBelow(Before(z), elm.key) && AllAbove(After(z), elm.key)
    {
      tmp, parent, comp := root, null, 0;
      z := Top;
      ghost var s := tree;
      while tmp != null
        invariant Plug(z, s) == tree && tmp == RootOf(s) && parent == Par(z)
        invariant AllBelow(Before(z), elm.key) && AllAbove(After(z), elm.key)
        invariant z.In? ==> comp != 0 && (comp < 0 <==> z.left)
        decreases s
      {
        parent := tmp;
        comp := Compare(elm, parent);
        View(heap, z, s);
        SortedAround(z, s);
        if comp < 0 {
          tmp := tmp.left;
          z, s := In(true, s.n, s.c, s.r, z), s.l;
        } else if comp > 0 {
          tmp := tmp.right;
          z, s := In(false, s.n, s.c, s.l, z), s.r;
        } else {
          return;
        }
      }
    }

    /** Adds `elm`, or returns the member that compares equal to it and changes nothing. */
    method Insert(elm: Node) returns (r: Node?)
      requires Valid()
      modifies this, elm, heap.links.Keys
      ensures Valid()
      ensures r != null ==> r in old(Members()) && r.key == elm.key && tree == old(tree) && heap == old(heap)
      ensures r == null ==> forall x :: x in old(Members()) ==> x.key != elm.key
      ensures r == null ==> Members() == Inserted(old(Members()), elm)
    {
      var tmp, parent, comp;
      ghost var z;
      tmp, parent, comp, z := Descend(elm);
      if tmp != null {
        return tmp;
      }
      InsertedAt(z, elm);
      LeafPending(z, elm);
      Link(elm, parent, comp, z);
      r := null;
    }

    /** The second half of an insertion: the new node becomes a leaf and the tree is rebalanced. */
    method Link(elm: Node, parent: Node?, comp: int, ghost z: Zip)
      requires Mirrored() && Shaped(heap, Plug(z, E)) && RedPending(z, T(E, elm, Red, E))
      requires elm !in InOrder(Plug(z, E)) && parent == Par(z) && (z.In? ==> (comp < 0 <==> z.left))
      modifies this, elm, heap.links.Keys
      ensures Mirrored() && Shaped(heap, tree) && IsRedBlack(tree)
      ensures InOrder(tree) == InOrder(Plug(z, T(E, elm, Red, E)))
    {
      Attach(elm, parent, comp, z);
      tree := InsertColor(elm, z, T(E, elm, Red, E));
    }

    method Attach(elm: Node, parent: Node?, comp: int, ghost z: Zip)
      requires Mirrored() && Shaped(heap, Plug(z, E))
      requires elm !in InOrder(Plug(z, E)) && parent == Par(z) && (z.In? ==> (comp < 0 <==> z.left))
      modifies this`root, this`heap, elm, heap.links.Keys
      ensures Mirrored() && Shaped(heap, Plug(z, T(E, elm, Red, E)))
      ensures heap.links.Keys == old(heap.links.Keys) + {elm}
    {
      InOrderNodes(Plug(z, E), elm);
      Attached(heap, z, elm);
      SetUp(elm, parent);
      if parent != null {
        PutChild(parent, comp < 0, elm);
      } else {
        root := elm;
        heap := heap.(root := elm);
      }
    }

    /** RB_SET */
    method SetUp(elm: Node, parent: Node?)
      requires Mirrored() && elm !in heap.links
      modifies this`heap, elm
      ensures Mirrored() && heap == old(heap).(links := old(heap).links[elm := Cell(null, null, parent, Red)])
    {
      elm.parent := parent;
      elm.left, elm.right := null, null;
      elm.color := Red;
      heap := heap.(links := heap.links[elm := Cell(null, null, parent, Red)]);
    }

    /** The member that compares equal to `elm`, if there is one. */
    method Find(elm: Node) returns (r: Node?)
      requires Valid()
      ensures r != null ==> r in Members() && r.key == elm.key
      ensures r == null ==> forall x :: x in Members() ==> x.key != elm.key
    {
      var tmp := root;
      ghost var z, s := Top, tree;
      while tmp != null
        invariant Plug(z, s) == tree && tmp == RootOf(s)
        invariant AllBelow(Before(z), elm.key) && AllAbove(After(z), elm.key)
        decreases s
      {
        var comp := Compare(elm, tmp);
        View(heap, z, s);
        SortedAround(z, s);
        if comp < 0 {
          tmp := tmp.left;
          z, s := In(true, s.n, s.c, s.r, z), s.l;
        } else if comp > 0 {
          tmp := tmp.right;
          z, s := In(false, s.n, s.c, s.l, z), s.r;
        } else {
          return tmp;
        }
      }
      InOrderPlug(z, E);
      return null;
    }

    /** The least member that does not compare below `elm`. */
    method NFind(elm: Node) returns (r: Node?)
      requires Valid()
      ensures r != null ==> r in Members() && elm.key <= r.key
      ensures forall x :: x in Members() && elm.key <= x.key ==> r != null && r.key <= x.key
    {
      var tmp := root;
      r := null;
      ghost var z, s := Top, tree;
      while tmp != null
        invariant Plug(z, s) == tree && tmp == RootOf(s)
        invariant AllBelow(Before(z), elm.key) && AllAbove(After(z), elm.key)
        invariant r == if After(z) == [] then null else After(z)[0]
        decreases s
      {
        var comp := Compare(elm, tmp);
        View(heap, z, s);
        SortedAround(z, s);
        if comp < 0 {
          r := tmp;
          tmp := tmp.left;
          z, s := In(true, s.n, s.c, s.r, z), s.l;
        } else if comp > 0 {
          tmp := tmp.right;
          z, s := In(false, s.n, s.c, s.l, z), s.r;
        } else {
          r := tmp;
          AllAboveLeast(Before(z) + InOrder(s.l), s.n, InOrder(s.r) + After(z));
          return;
        }
      }
      InOrderPlug(z, E);
      assert Members() == Before(z) + After(z);
      LeastAfter(Before(z), After(z), elm.key);
    }

    /** Takes the member `elm` out of the tree. */
    method Remove(elm: Node) returns (r: Node)
      requires Valid() && elm in Members()
      modifies this, heap.links.Keys
      ensures Valid() && Members() == Removed(old(Members()), elm) && r == elm
    {
      r := elm;
      ghost var z, s := Locate(tree, elm);
      View(heap, z, s);
      RemovedAt(z, s);
      if elm.left != null && elm.right != null {
        RemoveInner(elm, z, s);
        return;
      }
      var child := if elm.left == null then elm.right else elm.left;
      ghost var onLeft := elm.left != null;
      ghost var t := if onLeft then s.l else s.r;
      assert s == Join(onLeft, t, elm, s.c, E);
      RemovedOuterOrder(z, elm, s.c, t, onLeft);
      RemovedColors(z, elm, s.c, t, onLeft);
      RemoveAt(elm, child, z, s.c, t, onLeft);
    }

    /** A node with at most one child leaves, and the tree is rebalanced if the node was black. */
    method RemoveAt(elm: Node, child: Node?, ghost z: Zip, ghost c: Color, ghost t: Tree, ghost onLeft: bool)
      requires Mirrored() && Shaped(heap, Plug(z, Join(onLeft, t, elm, c, E))) && child == RootOf(t)
      requires if c == Black then LackOne(z, t) else IsRedBlack(Plug(z, t))
      modifies this, heap.links.Keys
      ensures Mirrored() && Shaped(heap, tree) && IsRedBlack(tree) && InOrder(tree) == InOrder(Plug(z, t))
    {
      var parent, color := SpliceOut(elm, child, z, c, t, onLeft);
      Rebalance(parent, child, color, z, t);
    }

    /** The common end of both kinds of removal. */
    method Rebalance(parent: Node?, child: Node?, color: Color, ghost z: Zip, ghost t: Tree)
      requires Mirrored() && Shaped(heap, Plug(z, t)) && parent == Par(z) && child == RootOf(t)
      requires if color == Black then LackOne(z, t) else IsRedBlack(Plug(z, t))
      modifies this, heap.links.Keys
      ensures Mirrored() && Shaped(heap, tree) && IsRedBlack(tree) && InOrder(tree) == InOrder(Plug(z, t))
    {
      if color == Black {
        tree := RemoveColor(parent, child, z, t);
      } else {
        tree := Plug(z, t);
      }
    }

    /** The links around `elm`, which has at most the one child `child`, bypass it. */
    method SpliceOut(elm: Node, child: Node?, ghost z: Zip, ghost c: Color, ghost t: Tree, ghost onLeft: bool)
      returns (parent: Node?, color: Color)
      requires Mirrored() && Shaped(heap, Plug(z, Join(onLeft, t, elm, c, E))) && child == RootOf(t)
      modifies this`root, this`heap, heap.links.Keys - {elm}
      ensures Mirrored() && Shaped(heap, Plug(z, t))
      ensures heap.links.Keys == old(heap.links.Keys) - {elm}
      ensures parent == Par(z) == elm.parent && color == c
    {
      Spliced(heap, z, elm, c, t, onLeft);
      SpliceEffect(heap, Par(z), elm, RootOf(t));
      parent, color := elm.parent, elm.color;
      Bypass(elm, child, parent);
    }

    method Bypass(elm: Node, child: Node?, parent: Node?)
      requires Mirrored() && elm in heap.links && heap.Known(parent) && heap.Known(child)
      requires parent != elm && child != elm
      modifies this`root, this`heap, heap.links.Keys - {elm}
      ensures Mirrored() && heap == Splice(old(heap), parent, elm, child)
    {
      if child != null {
        PutParent(child, parent);
      }
      ReplaceChild(parent, elm, child);
      heap := heap.(links := heap.links - {elm});
    }

    /** `elm`, just taken out, gets the entry of the member `out` and the links around it. */
    method SwapIn(out: Node, elm: Node, ghost z: Zip, ghost l: Tree, ghost c: Color, ghost r: Tree)
      requires Mirrored() && Shaped(heap, Plug(z, T(l, out, c, r))) && l.T? && elm !in heap.links
      modifies this`root, this`heap, elm, heap.links.Keys
      ensures Mirrored() && Shaped(heap, Plug(z, T(l, elm, c, r)))
      ensures heap.links.Keys == old(heap.links.Keys) - {out} + {elm}
    {
      TookPlace(heap, z, l, out, c, r, elm);
      CopyEntry(out, elm);
      Retarget(out, elm);
    }

    method CopyEntry(out: Node, elm: Node)
      requires Mirrored() && out in heap.links && elm !in heap.links
      modifies this`heap, elm
      ensures Mirrored() && heap == old(heap).(links := old(heap).links[elm := old(heap).links[out]])
    {
      elm.left, elm.right, elm.parent, elm.color := out.left, out.right, out.parent, out.color;
      heap := heap.(links := heap.links[elm := heap.links[out]]);
    }

    /** The links that led to `out` lead to `elm`, which already holds a copy of its entry. */
    method Retarget(out: Node, elm: Node)
      requires Mirrored() && out in heap.links && elm in heap.links && out != elm
      requires heap.Known(out.parent) && heap.Known(out.left) && heap.Known(out.right) && out.left != null
      requires out.left != out && out.right != out && out.parent != out
      modifies this`root, this`heap, heap.links.Keys
      ensures var h, e := old(heap), old(heap).links[out];
        var h1 := h.ReplaceChild(e.parent, out, elm).SetParent(e.left, elm);
        var h2 := if e.right == null then h1 else h1.SetParent(e.right, elm);
        Mirrored() && heap == h2.(links := h2.links - {out})
    {
      ReplaceChild(out.parent, out, elm);
      PutParent(out.left, elm);
      if out.right != null {
        PutParent(out.right, elm);
      }
      heap := heap.(links := heap.links - {out});
    }

    /** Removal of a member with two children: its successor leaves its own place and takes this one. */
    method RemoveInner(out: Node, ghost z: Zip, ghost s: Tree)
      requires Mirrored() && Shaped(heap, Plug(z, s)) && IsRedBlack(Plug(z, s)) && s.T? && s.n == out && s.l.T? && s.r.T?
      modifies this, heap.links.Keys
      ensures Mirrored() && Shaped(heap, tree) && IsRedBlack(tree)
      ensures InOrder(tree) == Before(z) + InOrder(s.l) + InOrder(s.r) + After(z)
    {
      var elm: Node;
      ghost var zs, u;
      elm, zs, u := Successor(out, z, s);
      InnerColors(z, s, zs, u);
      RemovedInnerOrder(zs, elm, s.c, s.l, z, u);
      var parent, child, color := MoveUp(out, elm, z, s, zs, u);
      Rebalance(parent, child, color, Nest(zs, In(false, elm, s.c, s.l, z)), u.r);
    }

    /** The successor `elm` of `out` is taken out of its place and put into that of `out`. */
    method MoveUp(out: Node, elm: Node, ghost z: Zip, ghost s: Tree, ghost zs: Zip, ghost u: Tree)
      returns (parent: Node?, child: Node?, color: Color)
      requires Mirrored() && Shaped(heap, Plug(z, s)) && s.T? && s.n == out && s.l.T?
      requires Plug(zs, u) == s.r && u.T? && u.l.E? && u.n == elm
      modifies this`root, this`heap, heap.links.Keys
      ensures var z' := Nest(zs, In(false, elm, s.c, s.l, z));
        Mirrored() && Shaped(heap, Plug(z', u.r)) && parent == Par(z') && child == RootOf(u.r) && color == u.c
      ensures heap.links.Keys == old(heap.links.Keys) - {out}
    {
      ghost var z1 := Nest(zs, In(false, out, s.c, s.l, z));
      InnerPositions(z, s, zs, u);
      View(heap, z1, u);
      child := elm.right;
      parent, color := SpliceOut(elm, child, z1, u.c, u.r, false);
      if elm.parent == out {
        parent := elm;
      }
      SwapIn(out, elm, z, s.l, s.c, Plug(zs, u.r));
    }

    /** The leftmost node below the right child. */
    method Successor(out: Node, ghost z: Zip, ghost s: Tree) returns (elm: Node, ghost zs: Zip, ghost u: Tree)
      requires Mirrored() && Shaped(heap, Plug(z, s)) && s.T? && s.n == out && s.r.T?
      ensures Plug(zs, u) == s.r && LeftSpine(zs) && u.T? && u.l.E? && u.n == elm
    {
      View(heap, z, s);
      elm, zs, u := out.right, Top, s.r;
      ghost var zo := In(false, out, s.c, s.l, z);
      assert Plug(zo, s.r) == Plug(z, s);
      View(heap, zo, s.r);
      var left := elm.left;
      while left != null
        invariant Plug(zs, u) == s.r && LeftSpine(zs) && u.T? && u.n == elm && left == RootOf(u.l)
        decreases u
      {
        elm := left;
        zs, u := In(true, u.n, u.c, u.r, zs), u.l;
        PlugNest(zs, zo, u);
        View(heap, Nest(zs, zo), u);
        left := elm.left;
      }
    }

    /** The least member, or the greatest when `val` is not negative. */
    method MinMax(val: int) returns (parent: Node?)
      requires Valid()
      ensures parent == EndOf(val < 0, Members())
    {
      var tmp := root;
      parent := null;
      ghost var z, s := Top, tree;
      while tmp != null
        invariant Plug(z, s) == tree && tmp == RootOf(s) && parent == Par(z)
        invariant Outermost(val < 0, z)
        decreases s
      {
        View(heap, z, s);
        parent := tmp;
        if val < 0 {
          tmp := tmp.left;
          z, s := In(true, s.n, s.c, s.r, z), s.l;
        } else {
          tmp := tmp.right;
          z, s := In(false, s.n, s.c, s.l, z), s.r;
        }
      }
      OutermostEnd(val < 0, z);
    }

    /** The next member after `elm`, or with `forward` false the one before it. */
    method Step(elm0: Node, forward: bool, ghost i: nat) returns (elm: Node?)
      requires Valid() && i < |Members()| && Members()[i] == elm0
      ensures elm == Neighbour(forward, Members(), i)
    {
      ghost var z, s := Locate(tree, elm0);
      View(heap, z, s);
      NeighbourAt(forward, z, s);
      elm := elm0;
      if elm.Child(!forward) != null {
        elm := elm.Child(!forward);
        elm := GoDown(elm, forward, In(!forward, s.n, s.c, Near(forward, s), z), Near(!forward, s));
      } else if elm.parent != null && elm == elm.parent.Child(forward) {
        elm := elm.parent;
      } else {
        elm := Climb(elm0, forward, z, s);
      }
    }

    method GoDown(elm0: Node, forward: bool, ghost z: Zip, ghost s0: Tree) returns (elm: Node)
      requires Mirrored() && Shaped(heap, Plug(z, s0)) && s0.T? && s0.n == elm0
      ensures elm == EndOf(forward, InOrder(s0))
    {
      elm := elm0;
      ghost var zs, s := z, s0;
      View(heap, zs, s);
      while elm.Child(forward) != null
        invariant Plug(zs, s) == Plug(z, s0) && s.T? && s.n == elm && EndOf(forward, InOrder(s)) == EndOf(forward, InOrder(s0))
        invariant elm in heap.links && heap.links[elm].Child(forward) == RootOf(Near(forward, s))
        decreases s
      {
        elm := elm.Child(forward);
        zs, s := In(forward, s.n, s.c, Near(!forward, s), zs), Near(forward, s);
        View(heap, zs, s);
      }
    }

    method Climb(elm0: Node, forward: bool, ghost z0: Zip, ghost s0: Tree) returns (elm: Node?)
      requires Mirrored() && Shaped(heap, Plug(z0, s0)) && s0.T? && s0.n == elm0
      ensures elm == EndOf(forward, Beyond(forward, z0))
    {
      var cur: Node := elm0;
      ghost var z, s := z0, s0;
      View(heap, z, s);
      while cur.parent != null && cur == cur.parent.Child(!forward)
        invariant Plug(z, s) == Plug(z0, s0) && s.T? && s.n == cur
        invariant EndOf(forward, Beyond(forward, z)) == EndOf(forward, Beyond(forward, z0))
        invariant cur in heap.links && heap.links[cur].parent == Par(z)
        invariant z.In? ==> z.n in heap.links && heap.links[z.n] == Entry(z.left, cur, RootOf(z.sib), Par(z.up), z.c) &&
                            RootOf(z.sib) != cur
        decreases Depth(z)
      {
        cur := cur.parent;
        z, s := z.up, Join(z.left, s, z.n, z.c, z.sib);
        View(heap, z, s);
      }
      elm := cur.parent;
    }

    /** The whole loop over the members, in ascending order or in descending order. */
    method ForEach(forward: bool) returns (visited: seq<Node>)
      requires Valid()
      ensures |visited| == |Members()| && SoFar(forward, Members(), visited)
      ensures forward ==> visited == Members()
    {
      ghost var s := Members();
      visited := [];
      var x := MinMax(if forward then -1 else 1);
      while x != null
        invariant |visited| <= |s| && s == Members() && SoFar(forward, s, visited)
        invariant x == if |visited| == |s| then null else s[if forward then |visited| else |s| - 1 - |visited|]
        decreases |s| - |visited|
      {
        ghost var i := if forward then |visited| else |s| - 1 - |visited|;
        visited := visited + [x];
        x := Step(x, forward, i);
        assert x == Neighbour(forward, s, i);
      }
    }
  }

  /** The first of the members, or with `forward` false the last of them, one after the other. */
  ghost predicate SoFar(forward: bool, s: seq<Node>, visited: seq<Node>) {
    |visited| <= |s| && forall i :: 0 <= i < |visited| ==> visited[i] == s[if forward then i else |s| - 1 - i]
  }

  /** The tree around the successor `u` of the root of `s`, before and after it takes that node's place. */
  lemma InnerPositions(z: Zip, s: Tree, zs: Zip, u: Tree)
    requires s.T? && Plug(zs, u) == s.r && u.T? && u.l.E? && Distinct(Plug(z, s))
    ensures var z1, z2 := Nest(zs, In(false, s.n, s.c, s.l, z)), Nest(zs, In(false, u.n, s.c, s.l, z));
      && Plug(z1, Join(false, u.r, u.n, u.c, E)) == Plug(z1, u) == Plug(z, s)
      && Plug(z1, u.r) == Plug(z, T(s.l, s.n, s.c, Plug(zs, u.r)))
      && Plug(z2, u.r) == Plug(z, T(s.l, u.n, s.c, Plug(zs, u.r)))
      && Par(z1) == (if zs.Top? then s.n else zs.n) && Par(z2) == (if zs.Top? then u.n else zs.n)
      && u.n != s.n && (zs.In? ==> zs.n != s.n)
  {
    var zo := In(false, s.n, s.c, s.l, z);
    PlugNest(zs, zo, u);
    PlugNest(zs, zo, u.r);
    PlugNest(zs, In(false, u.n, s.c, s.l, z), u.r);
    DistinctPlug(z, s);
    NodesPlug(zs, u);
    assert zs.In? ==> zs.n in ZipNodes(zs);
  }

  lemma InnerColors(z: Zip, s: Tree, zs: Zip, u: Tree)
    requires s.T? && Plug(zs, u) == s.r && u.T? && u.l.E? && IsRedBlack(Plug(z, s))
    ensures var z' := Nest(zs, In(false, u.n, s.c, s.l, z));
      if u.c == Black then LackOne(z', u.r) else IsRedBlack(Plug(z', u.r))
  {
    var zo := In(false, s.n, s.c, s.l, z);
    PlugNest(zs, zo, u);
    assert u == Join(false, u.r, u.n, u.c, E);
    RemovedColors(Nest(zs, zo), u.n, u.c, u.r, false);
    SwapColors(zs, s.n, u.n, s.c, s.l, z, u.r);
  }

  /** Every reachable tree of n nodes has a height of at most 2 * lg(n + 1). */
  lemma HeightOfValid(h: Head)
    requires h.Valid()
    ensures var n := |h.Members()|; Pow2(Height(h.tree)) <= (n + 1) * (n + 1)
  {
    HeightBound(h.tree);
  }
}
