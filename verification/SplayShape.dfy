/** What a splay tree looks like while the loop takes it apart from the top: the part not looked at yet, and
    on each side a chain of nodes that hang from a dummy node. */
module SplayShape {
  import opened Basics

  class Node {
    var left: Node?
    var right: Node?
    const key: int          // stands for the place of the element in the caller's order

    constructor (k: int)
      ensures key == k && left == null && right == null
    {
      key := k;
      left, right := null, null;
    }

    function Child(onLeft: bool): Node?
      reads this
    {
      if onLeft then left else right
    }
  }

  datatype Cell = Cell(left: Node?, right: Node?) {
    ghost function Child(onLeft: bool): Node? {
      if onLeft then left else right
    }

    ghost function SetChild(onLeft: bool, v: Node?): Cell {
      if onLeft then this.(left := v) else this.(right := v)
    }
  }

  type Links = map<Node, Cell>

  datatype Heap = Heap(root: Node?, links: Links) {
    ghost function SetChild(n: Node, onLeft: bool, v: Node?): Heap
      requires n in links
    {
      this.(links := links[n := links[n].SetChild(onLeft, v)])
    }

    /** The child of the root on one side becomes the root, and the root its child on the other side. */
    ghost function Rotate(d: bool, x: Node, y: Node): Heap
      requires x in links && y in links
    {
      SetChild(x, d, links[y].Child(!d)).SetChild(y, !d, x).(root := y)
    }

    /** The root is hung from the end of a chain, and its child becomes the root. */
    ghost function Hang(d: bool, tip: Node, x: Node): Heap
      requires x in links && tip in links
    {
      SetChild(tip, d, x).(root := links[x].Child(d))
    }

    /** The children of the root go to the ends of the chains, and the chains become its children. */
    ghost function Assemble(dummy: Node, lo: Node, hi: Node, x: Node): Heap
      requires dummy in links && lo in links && hi in links && x in links
    {
      var h1 := SetChild(lo, false, links[x].left).SetChild(hi, true, links[x].right);
      h1.SetChild(x, true, h1.links[dummy].right).SetChild(x, false, h1.links[dummy].left)
    }
  }

  datatype Tree = E | T(l: Tree, n: Node, r: Tree)

  ghost function RootOf(t: Tree): Node? {
    if t.T? then t.n else null
  }

  /** A tree given by its subtree on side `d`, its root, and its other subtree. */
  ghost function Join(d: bool, near: Tree, n: Node, far: Tree): Tree {
    if d then T(near, n, far) else T(far, n, near)
  }

  ghost function InOrder(t: Tree): seq<Node> {
    match t case E => [] case T(l, n, r) => InOrder(l) + [n] + InOrder(r)
  }

  ghost function Size(t: Tree): nat {
    match t case E => 0 case T(l, _, r) => Size(l) + 1 + Size(r)
  }

  /** A chain, seen from its end: each node has a subtree on one side, and the next node of the chain is its
      child on the other side. */
  datatype Spine = End | Link(n: Node, sub: Tree, up: Spine)

  ghost function Tip(s: Spine, dummy: Node): Node {
    if s.Link? then s.n else dummy
  }

  /** The nodes of a chain that runs along the children on side `d`, in order. */
  ghost function Flat(d: bool, s: Spine): seq<Node> {
    match s
    case End => []
    case Link(n, sub, up) => if d then [n] + InOrder(sub) + Flat(d, up) else Flat(d, up) + InOrder(sub) + [n]
  }

  /** The tree that a chain becomes with a subtree at its end. */
  ghost function Close(d: bool, s: Spine, t: Tree): Tree {
    match s
    case End => t
    case Link(n, sub, up) => Close(d, up, Join(d, t, n, sub))
  }

  datatype Work = Work(t: Tree, lo: Spine, hi: Spine) {
    ghost function Side(d: bool): Spine {
      if d then hi else lo
    }

    ghost function Hang(d: bool, x: Node, near: Tree, far: Tree): Work {
      if d then Work(near, lo, Link(x, far, hi)) else Work(near, Link(x, far, lo), hi)
    }

    ghost function Whole(): seq<Node> {
      Flat(false, lo) + InOrder(t) + Flat(true, hi)
    }

    ghost function Assembled(): Tree
      requires t.T?
    {
      T(Close(false, lo, t.l), t.n, Close(true, hi, t.r))
    }
  }

  // ---------- the links ----------

  ghost predicate TreeAt(m: Links, t: Tree) {
    match t
    case E => true
    case T(l, n, r) => n in m && m[n] == Cell(RootOf(l), RootOf(r)) && TreeAt(m, l) && TreeAt(m, r)
  }

  /** The chain has this shape; where the end of it points to does not matter. */
  ghost predicate SpineAt(m: Links, s: Spine, d: bool, dummy: Node) {
    match s
    case End => dummy in m
    case Link(n, sub, up) =>
      && n in m && m[n].Child(!d) == RootOf(sub) && TreeAt(m, sub)
      && SpineAt(m, up, d, dummy) && Tip(up, dummy) in m && m[Tip(up, dummy)].Child(d) == n
  }

  ghost predicate Shaped(h: Heap, t: Tree) {
    h.root == RootOf(t) && TreeAt(h.links, t) && NoDup(InOrder(t)) && h.links.Keys == Set(InOrder(t))
  }

  ghost predicate WorkAt(h: Heap, w: Work, dummy: Node) {
    && h.root == RootOf(w.t) && TreeAt(h.links, w.t)
    && SpineAt(h.links, w.lo, false, dummy) && SpineAt(h.links, w.hi, true, dummy)
    && NoDup(w.Whole()) && dummy !in w.Whole() && h.links.Keys == Set(w.Whole()) + {dummy}
  }

  ghost predicate SameOn(m: Links, m': Links, q: seq<Node>) {
    forall x :: x in q && x in m ==> x in m' && m'[x] == m[x]
  }

  lemma {:induction false} TreeKept(m: Links, m': Links, t: Tree)
    requires TreeAt(m, t) && SameOn(m, m', InOrder(t))
    ensures TreeAt(m', t)
  {
    if t.T? {
      assert t.n in InOrder(t);
      TreeKept(m, m', t.l);
      TreeKept(m, m', t.r);
    }
  }

  lemma {:induction false} SpineKept(m: Links, m': Links, s: Spine, d: bool, dummy: Node)
    requires SpineAt(m, s, d, dummy) && SameOn(m, m', Flat(d, s))
    requires dummy in m && dummy in m' && m'[dummy].Child(d) == m[dummy].Child(d)
    ensures SpineAt(m', s, d, dummy)
  {
    if s.Link? {
      assert s.n in Flat(d, s);
      assert forall x :: x in InOrder(s.sub) ==> x in Flat(d, s);
      TreeKept(m, m', s.sub);
      assert forall x :: x in Flat(d, s.up) ==> x in Flat(d, s);
      SpineKept(m, m', s.up, d, dummy);
      assert s.up.Link? ==> s.up.n in Flat(d, s.up);
    }
  }

  /** The end of a chain may point anywhere. */
  lemma TipFree(m: Links, m': Links, s: Spine, d: bool, dummy: Node)
    requires SpineAt(m, s, d, dummy) && dummy in m && dummy !in Flat(d, s) && NoDup(Flat(d, s))
    requires Tip(s, dummy) in m && Tip(s, dummy) in m'
    requires m' == m[Tip(s, dummy) := m[Tip(s, dummy)].SetChild(d, m'[Tip(s, dummy)].Child(d))]
    ensures SpineAt(m', s, d, dummy)
  {
    if s.Link? {
      TipOnce(s, d);
      TreeKept(m, m', s.sub);
      SpineKept(m, m', s.up, d, dummy);
      assert s.up.Link? ==> s.up.n in Flat(d, s.up);
    }
  }

  lemma TipOnce(s: Spine, d: bool)
    requires s.Link? && NoDup(Flat(d, s))
    ensures s.n !in InOrder(s.sub) && s.n !in Flat(d, s.up) && NoDup(Flat(d, s.up))
  {
    var a, b := InOrder(s.sub), Flat(d, s.up);
    if d {
      NoDup3([s.n], a, b);
    } else {
      NoDup3(b, a, [s.n]);
    }
    assert s.n in [s.n];
  }

  ghost predicate Apart(a: seq<Node>, b: seq<Node>) {
    forall x :: x in a ==> x !in b
  }

  lemma NoDup2(a: seq<Node>, b: seq<Node>)
    requires NoDup(a + b)
    ensures NoDup(a) && NoDup(b) && Apart(a, b)
  {
    var t := a + b;
    assert forall i :: 0 <= i < |a| ==> t[i] == a[i];
    assert forall i :: 0 <= i < |b| ==> t[|a| + i] == b[i];
    forall x | x in a ensures x !in b {
      var i :| 0 <= i < |a| && a[i] == x;
      forall j | 0 <= j < |b| ensures b[j] != x {
        assert t[|a| + j] == b[j] && t[i] == x;
      }
    }
  }

  lemma NoDup3(a: seq<Node>, b: seq<Node>, c: seq<Node>)
    requires NoDup(a + b + c)
    ensures NoDup(a) && NoDup(b) && NoDup(c) && Apart(a, b) && Apart(a, c) && Apart(b, c)
  {
    NoDup2(a + b, c);
    NoDup2(a, b);
    assert forall x :: x in a || x in b ==> x in a + b;
  }

  // ---------- the steps ----------

  ghost function Rest(d: bool, w: Work): seq<Node> {
    Flat(d, w.Side(d))
  }

  /** All parts have different nodes, and none is the dummy. */
  lemma Parts(h: Heap, w: Work, dummy: Node)
    requires WorkAt(h, w, dummy)
    ensures var a, b, c := Flat(false, w.lo), InOrder(w.t), Flat(true, w.hi);
            && NoDup(a) && NoDup(b) && NoDup(c) && Apart(a, b) && Apart(a, c) && Apart(b, c)
            && dummy !in a && dummy !in b && dummy !in c && dummy in h.links
  {
    NoDup3(Flat(false, w.lo), InOrder(w.t), Flat(true, w.hi));
  }

  /** The parts of a tree have different nodes. */
  lemma TreeParts(t: Tree)
    requires t.T? && NoDup(InOrder(t))
    ensures NoDup(InOrder(t.l)) && NoDup(InOrder(t.r)) && Apart(InOrder(t.l), InOrder(t.r))
    ensures t.n !in InOrder(t.l) && t.n !in InOrder(t.r)
  {
    NoDup3(InOrder(t.l), [t.n], InOrder(t.r));
    assert t.n in [t.n];
  }

  lemma RotateTree(d: bool, a: Tree, y: Node, b: Tree, x: Node, far: Tree)
    ensures InOrder(Join(d, a, y, Join(d, b, x, far))) == InOrder(Join(d, Join(d, a, y, b), x, far))
    ensures Size(Join(d, a, y, Join(d, b, x, far))) == Size(Join(d, Join(d, a, y, b), x, far))
  {
  }

  lemma RotateLinks(h: Heap, d: bool, a: Tree, y: Node, b: Tree, x: Node, far: Tree)
    requires var t := Join(d, Join(d, a, y, b), x, far);
             TreeAt(h.links, t) && NoDup(InOrder(t)) && h.root == x
    ensures x in h.links && y in h.links && x != y && x in InOrder(Join(d, Join(d, a, y, b), x, far))
    ensures y in InOrder(Join(d, Join(d, a, y, b), x, far)) && h.links[x].Child(d) == y
    ensures var h' := h.Rotate(d, x, y);
            TreeAt(h'.links, Join(d, a, y, Join(d, b, x, far))) && h'.root == y
            && h'.links.Keys == h.links.Keys
            && (forall z :: z in h.links && z != x && z != y ==> h'.links[z] == h.links[z])
  {
    RotateParts(d, a, y, b, x, far);
    var m' := h.Rotate(d, x, y).links;
    TreeKept(h.links, m', a);
    TreeKept(h.links, m', b);
    TreeKept(h.links, m', far);
  }

  /** The two nodes are in none of the three subtrees. */
  lemma RotateParts(d: bool, a: Tree, y: Node, b: Tree, x: Node, far: Tree)
    requires NoDup(InOrder(Join(d, Join(d, a, y, b), x, far)))
    ensures x != y && x in InOrder(Join(d, Join(d, a, y, b), x, far)) && y in InOrder(Join(d, Join(d, a, y, b), x, far))
    ensures x !in InOrder(a) && x !in InOrder(b) && x !in InOrder(far)
    ensures y !in InOrder(a) && y !in InOrder(b) && y !in InOrder(far)
  {
    var t, s := Join(d, Join(d, a, y, b), x, far), Join(d, a, y, b);
    TreeParts(t);
    TreeParts(s);
    assert forall z :: z in InOrder(a) || z in InOrder(b) || z == y ==> z in InOrder(s);
  }

  /** A rotation at the root of the middle part. */
  lemma RotateWork(h: Heap, w: Work, dummy: Node, d: bool, a: Tree, y: Node, b: Tree, x: Node, far: Tree)
    requires WorkAt(h, w, dummy) && w.t == Join(d, Join(d, a, y, b), x, far)
    ensures x in h.links && y in h.links && h.links[x].Child(d) == y && h.root == x
    ensures var w' := w.(t := Join(d, a, y, Join(d, b, x, far)));
            WorkAt(h.Rotate(d, x, y), w', dummy) && w'.Whole() == w.Whole()
  {
    Parts(h, w, dummy);
    RotateLinks(h, d, a, y, b, x, far);
    RotateTree(d, a, y, b, x, far);
    var m' := h.Rotate(d, x, y).links;
    SpineKept(h.links, m', w.lo, false, dummy);
    SpineKept(h.links, m', w.hi, true, dummy);
    assert m'.Keys == h.links.Keys;
  }

  /** The root of the middle part goes to the end of a chain. */
  lemma HangWork(h: Heap, w: Work, dummy: Node, d: bool, near: Tree, x: Node, far: Tree)
    requires WorkAt(h, w, dummy) && w.t == Join(d, near, x, far)
    ensures x in h.links && Tip(w.Side(d), dummy) in h.links && h.root == x
    ensures var w' := w.Hang(d, x, near, far);
            WorkAt(h.Hang(d, Tip(w.Side(d), dummy), x), w', dummy) && w'.Whole() == w.Whole()
  {
    HangLinks(h, w, dummy, d, near, x, far);
    HangOrder(w, d, near, x, far);
  }

  lemma HangLinks(h: Heap, w: Work, dummy: Node, d: bool, near: Tree, x: Node, far: Tree)
    requires WorkAt(h, w, dummy) && w.t == Join(d, near, x, far)
    ensures x in h.links && Tip(w.Side(d), dummy) in h.links && h.root == x
    ensures var h', s := h.Hang(d, Tip(w.Side(d), dummy), x), w.Side(d);
            && h'.links.Keys == h.links.Keys && h'.root == RootOf(near) && TreeAt(h'.links, near)
            && SpineAt(h'.links, Link(x, far, s), d, dummy) && SpineAt(h'.links, w.Side(!d), !d, dummy)
  {
    HangFacts(h, w, dummy, d, near, x, far);
    HangMap(h.links, d, w.Side(d), w.Side(!d), near, x, far, dummy);
  }

  /** The node at the end of the chain is in no other part. */
  ghost predicate CanHang(m: Links, d: bool, s: Spine, other: Spine, near: Tree, x: Node, far: Tree, dummy: Node) {
    var tip := Tip(s, dummy);
    && TreeAt(m, near) && TreeAt(m, far) && x in m && tip in m && dummy in m && m[x].Child(!d) == RootOf(far)
    && SpineAt(m, s, d, dummy) && SpineAt(m, other, !d, dummy) && NoDup(Flat(d, s)) && dummy !in Flat(d, s)
    && tip != x && tip !in InOrder(near) && tip !in InOrder(far) && tip !in Flat(!d, other)
  }

  lemma HangFacts(h: Heap, w: Work, dummy: Node, d: bool, near: Tree, x: Node, far: Tree)
    requires WorkAt(h, w, dummy) && w.t == Join(d, near, x, far)
    ensures CanHang(h.links, d, w.Side(d), w.Side(!d), near, x, far, dummy)
    ensures h.root == x && h.links[x].Child(d) == RootOf(near)
  {
    Parts(h, w, dummy);
    TreeParts(w.t);
    var s := w.Side(d);
    assert s.Link? ==> s.n in Flat(d, s);
    assert forall z :: z in InOrder(near) || z in InOrder(far) || z == x ==> z in InOrder(w.t);
  }

  lemma HangMap(m: Links, d: bool, s: Spine, other: Spine, near: Tree, x: Node, far: Tree, dummy: Node)
    requires CanHang(m, d, s, other, near, x, far, dummy)
    ensures var tip := Tip(s, dummy);
            var m' := m[tip := m[tip].SetChild(d, x)];
            && m'.Keys == m.Keys && TreeAt(m', near) && SpineAt(m', Link(x, far, s), d, dummy)
            && SpineAt(m', other, !d, dummy)
  {
    var tip := Tip(s, dummy);
    var m' := m[tip := m[tip].SetChild(d, x)];
    TreeKept(m, m', near);
    TreeKept(m, m', far);
    TipFree(m, m', s, d, dummy);
    SpineKept(m, m', other, !d, dummy);
  }

  lemma HangOrder(w: Work, d: bool, near: Tree, x: Node, far: Tree)
    requires w.t == Join(d, near, x, far)
    ensures w.Hang(d, x, near, far).Whole() == w.Whole()
  {
  }

  /** A chain whose end points to a subtree is a tree hanging from the dummy. */
  lemma {:induction false} CloseAt(m: Links, s: Spine, d: bool, dummy: Node, t: Tree)
    requires SpineAt(m, s, d, dummy) && TreeAt(m, t) && Tip(s, dummy) in m && m[Tip(s, dummy)].Child(d) == RootOf(t)
    ensures TreeAt(m, Close(d, s, t)) && dummy in m && m[dummy].Child(d) == RootOf(Close(d, s, t))
  {
    if s.Link? {
      CloseAt(m, s.up, d, dummy, Join(d, t, s.n, s.sub));
    }
  }

  lemma {:induction false} CloseOrder(s: Spine, d: bool, t: Tree)
    ensures InOrder(Close(d, s, t)) == if d then InOrder(t) + Flat(d, s) else Flat(d, s) + InOrder(t)
  {
    if s.Link? {
      CloseOrder(s.up, d, Join(d, t, s.n, s.sub));
      if d {
        Regroup(InOrder(t), [s.n], InOrder(s.sub), Flat(d, s.up));
      } else {
        Regroup(Flat(d, s.up), InOrder(s.sub), [s.n], InOrder(t));
      }
    }
  }

  lemma Regroup(a: seq<Node>, b: seq<Node>, c: seq<Node>, e: seq<Node>)
    ensures (a + b + c) + e == a + (b + c + e) == (a + (b + c)) + e == a + (b + (c + e))
  {
  }

  /** The links of the two subtrees of the root and of the chains. */
  ghost predicate AllAt(m: Links, w: Work, dummy: Node)
    requires w.t.T?
  {
    && TreeAt(m, w.t.l) && TreeAt(m, w.t.r) && SpineAt(m, w.lo, false, dummy) && SpineAt(m, w.hi, true, dummy)
    && dummy in m && Tip(w.lo, dummy) in m && Tip(w.hi, dummy) in m
  }

  ghost predicate AllApart(w: Work, dummy: Node) {
    var a, b, c := Flat(false, w.lo), InOrder(w.t), Flat(true, w.hi);
    && NoDup(a) && NoDup(b) && NoDup(c) && Apart(a, b) && Apart(a, c) && Apart(b, c)
    && dummy !in a && dummy !in b && dummy !in c
  }

  /** The end of one chain gets a new child. */
  lemma TieOne(m: Links, w: Work, dummy: Node, d: bool, v: Node?)
    requires w.t.T? && AllAt(m, w, dummy) && AllApart(w, dummy)
    ensures AllAt(m[Tip(w.Side(d), dummy) := m[Tip(w.Side(d), dummy)].SetChild(d, v)], w, dummy)
  {
    var tip := Tip(w.Side(d), dummy);
    var m' := m[tip := m[tip].SetChild(d, v)];
    assert w.Side(d).Link? ==> tip in Flat(d, w.Side(d));
    assert forall z :: z in InOrder(w.t.l) || z in InOrder(w.t.r) ==> z in InOrder(w.t);
    TreeKept(m, m', w.t.l);
    TreeKept(m, m', w.t.r);
    TipFree(m, m', w.Side(d), d, dummy);
    SpineKept(m, m', w.Side(!d), !d, dummy);
  }

  /** The two subtrees of the root are hung from the ends of the chains. */
  lemma EndsTied(h: Heap, w: Work, dummy: Node)
    requires WorkAt(h, w, dummy) && w.t.T?
    ensures Tip(w.lo, dummy) in h.links && Tip(w.hi, dummy) in h.links && w.t.n in h.links
    ensures var m := h.SetChild(Tip(w.lo, dummy), false, RootOf(w.t.l)).SetChild(Tip(w.hi, dummy), true, RootOf(w.t.r)).links;
            && AllAt(m, w, dummy) && m.Keys == h.links.Keys
            && m[Tip(w.lo, dummy)].Child(false) == RootOf(w.t.l) && m[Tip(w.hi, dummy)].Child(true) == RootOf(w.t.r)
  {
    Parts(h, w, dummy);
    var lo, hi := Tip(w.lo, dummy), Tip(w.hi, dummy);
    assert w.lo.Link? ==> lo in Flat(false, w.lo);
    assert w.hi.Link? ==> hi in Flat(true, w.hi);
    TieOne(h.links, w, dummy, false, RootOf(w.t.l));
    TieOne(h.SetChild(lo, false, RootOf(w.t.l)).links, w, dummy, true, RootOf(w.t.r));
  }

  lemma TiedClosed(h: Heap, w: Work, dummy: Node)
    requires WorkAt(h, w, dummy) && w.t.T?
    ensures Tip(w.lo, dummy) in h.links && Tip(w.hi, dummy) in h.links && w.t.n in h.links
    ensures var m := h.SetChild(Tip(w.lo, dummy), false, RootOf(w.t.l)).SetChild(Tip(w.hi, dummy), true, RootOf(w.t.r)).links;
            && TreeAt(m, Close(false, w.lo, w.t.l)) && TreeAt(m, Close(true, w.hi, w.t.r)) && dummy in m
            && m[dummy] == Cell(RootOf(Close(true, w.hi, w.t.r)), RootOf(Close(false, w.lo, w.t.l)))
            && m.Keys == h.links.Keys
  {
    EndsTied(h, w, dummy);
    var m := h.SetChild(Tip(w.lo, dummy), false, RootOf(w.t.l)).SetChild(Tip(w.hi, dummy), true, RootOf(w.t.r)).links;
    CloseAt(m, w.lo, false, dummy, w.t.l);
    CloseAt(m, w.hi, true, dummy, w.t.r);
  }

  ghost function Forget(h: Heap, n: Node): Heap {
    h.(links := h.links - {n})
  }

  /** The assembled tree has the same nodes in the same order. */
  lemma AssembleWork(h: Heap, w: Work, dummy: Node)
    requires WorkAt(h, w, dummy) && w.t.T?
    ensures Tip(w.lo, dummy) in h.links && Tip(w.hi, dummy) in h.links && w.t.n in h.links && dummy in h.links
    ensures h.links[w.t.n] == Cell(RootOf(w.t.l), RootOf(w.t.r))
    ensures Shaped(Forget(h.Assemble(dummy, Tip(w.lo, dummy), Tip(w.hi, dummy), w.t.n), dummy), w.Assembled())
    ensures InOrder(w.Assembled()) == w.Whole()
  {
    TiedClosed(h, w, dummy);
    RootApart(h, w, dummy);
    var lo, hi, x := Tip(w.lo, dummy), Tip(w.hi, dummy), w.t.n;
    AssembleLinks(h, dummy, lo, hi, x);
    var m := h.SetChild(lo, false, RootOf(w.t.l)).SetChild(hi, true, RootOf(w.t.r)).links;
    Finished(w, m, h.Assemble(dummy, lo, hi, x).links, dummy);
    KeysWithout(h.Assemble(dummy, lo, hi, x).links, w.Whole(), dummy);
  }

  /** The root is neither the dummy nor the end of a chain. */
  lemma RootApart(h: Heap, w: Work, dummy: Node)
    requires WorkAt(h, w, dummy) && w.t.T?
    ensures w.t.n in h.links && dummy in h.links && w.t.n != dummy
    ensures w.t.n != Tip(w.lo, dummy) && w.t.n != Tip(w.hi, dummy)
  {
    Parts(h, w, dummy);
    assert w.lo.Link? ==> w.lo.n in Flat(false, w.lo);
    assert w.hi.Link? ==> w.hi.n in Flat(true, w.hi);
    assert w.t.n in InOrder(w.t);
  }

  lemma AssembleLinks(h: Heap, dummy: Node, lo: Node, hi: Node, x: Node)
    requires dummy in h.links && lo in h.links && hi in h.links && x in h.links && x != dummy && x != lo && x != hi
    ensures var m := h.SetChild(lo, false, h.links[x].left).SetChild(hi, true, h.links[x].right).links;
            && h.Assemble(dummy, lo, hi, x).links == m[x := Cell(m[dummy].right, m[dummy].left)]
            && h.Assemble(dummy, lo, hi, x).root == h.root && m.Keys == h.links.Keys
  {
  }

  lemma KeysWithout(m: Links, q: seq<Node>, n: Node)
    requires m.Keys == Set(q) + {n} && n !in q
    ensures (m - {n}).Keys == Set(q)
  {
  }

  lemma AssembledOrder(w: Work)
    requires w.t.T?
    ensures InOrder(w.Assembled()) == w.Whole()
  {
    CloseOrder(w.lo, false, w.t.l);
    CloseOrder(w.hi, true, w.t.r);
    Middle(Flat(false, w.lo), InOrder(w.t.l), [w.t.n], InOrder(w.t.r), Flat(true, w.hi));
  }

  lemma Middle(a: seq<Node>, b: seq<Node>, c: seq<Node>, d: seq<Node>, e: seq<Node>)
    ensures (a + b) + c + (d + e) == a + (b + c + d) + e
  {
  }

  lemma Finished(w: Work, m: Links, m': Links, dummy: Node)
    requires w.t.T? && NoDup(w.Whole()) && dummy !in w.Whole() && w.t.n in m
    requires var l, r := Close(false, w.lo, w.t.l), Close(true, w.hi, w.t.r);
             TreeAt(m, l) && TreeAt(m, r) && m' == m[w.t.n := Cell(RootOf(l), RootOf(r))]
    ensures TreeAt(m' - {dummy}, w.Assembled()) && InOrder(w.Assembled()) == w.Whole()
  {
    AssembledOrder(w);
    TreeParts(w.Assembled());
    assert forall z :: z in InOrder(w.Assembled().l) || z in InOrder(w.Assembled().r) ==> z in w.Whole();
    TreeKept(m, m' - {dummy}, w.Assembled().l);
    TreeKept(m, m' - {dummy}, w.Assembled().r);
  }

  // ---------- insertion and removal at the root ----------

  /** A new root takes the subtree on side `d` from the old root, which becomes its child on the other side. */
  ghost function OnTop(h: Heap, d: bool, elm: Node, x: Node): Heap
    requires x in h.links
  {
    var c := h.links[x];
    Heap(elm, h.links[elm := Cell(null, null).SetChild(d, c.Child(d)).SetChild(!d, x)][x := c.SetChild(d, null)])
  }

  lemma OnTopShape(h: Heap, d: bool, near: Tree, x: Node, far: Tree, elm: Node)
    requires Shaped(h, Join(d, near, x, far)) && elm !in h.links
    ensures x in h.links && Shaped(OnTop(h, d, elm, x), Join(d, near, elm, Join(d, E, x, far)))
  {
    var t := Join(d, near, x, far);
    assert elm !in InOrder(t) by {
      assert elm !in Set(InOrder(t));
    }
    OnTopLinks(h, d, near, x, far, elm);
    OnTopNodes(d, near, x, far, elm);
    assert OnTop(h, d, elm, x).links.Keys == h.links.Keys + {elm};
  }

  lemma OnTopLinks(h: Heap, d: bool, near: Tree, x: Node, far: Tree, elm: Node)
    requires TreeAt(h.links, Join(d, near, x, far)) && NoDup(InOrder(Join(d, near, x, far)))
    requires elm !in InOrder(Join(d, near, x, far))
    ensures x in h.links && TreeAt(OnTop(h, d, elm, x).links, Join(d, near, elm, Join(d, E, x, far)))
  {
    var t := Join(d, near, x, far);
    TreeParts(t);
    assert forall z :: z in InOrder(near) || z in InOrder(far) || z == x ==> z in InOrder(t);
    TreeKept(h.links, OnTop(h, d, elm, x).links, near);
    TreeKept(h.links, OnTop(h, d, elm, x).links, far);
  }

  lemma OnTopNodes(d: bool, near: Tree, x: Node, far: Tree, elm: Node)
    requires NoDup(InOrder(Join(d, near, x, far))) && elm !in InOrder(Join(d, near, x, far))
    ensures NoDup(InOrder(Join(d, near, elm, Join(d, E, x, far))))
    ensures Set(InOrder(Join(d, near, elm, Join(d, E, x, far)))) == Set(InOrder(Join(d, near, x, far))) + {elm}
  {
    OnTopOrder(d, near, x, far, elm);
    if d {
      Associates(InOrder(near), [x], InOrder(far));
      InsertedInto(InOrder(near), [x] + InOrder(far), elm);
    } else {
      InsertedInto(InOrder(far) + [x], InOrder(near), elm);
    }
  }

  lemma InsertedInto(a: seq<Node>, b: seq<Node>, x: Node)
    requires NoDup(a + b) && x !in a + b
    ensures NoDup(a + [x] + b) && Set(a + [x] + b) == Set(a + b) + {x}
  {
    assert (a + b)[..|a|] == a && (a + b)[|a|..] == b;
    InsertedNodes(a + b, |a|, x);
  }

  lemma OnTopOrder(d: bool, near: Tree, x: Node, far: Tree, elm: Node)
    ensures InOrder(Join(d, near, x, far)) ==
            if d then InOrder(near) + [x] + InOrder(far) else InOrder(far) + [x] + InOrder(near)
    ensures InOrder(Join(d, near, elm, Join(d, E, x, far))) ==
            if d then InOrder(near) + [elm] + ([x] + InOrder(far)) else (InOrder(far) + [x]) + [elm] + InOrder(near)
  {
    OneSided(x, InOrder(far));
    if d {
      assert InOrder(T(E, x, far)) == [] + [x] + InOrder(far);
    } else {
      assert InOrder(T(far, x, E)) == InOrder(far) + [x] + [];
    }
  }

  lemma OneSided(x: Node, q: seq<Node>)
    ensures [] + [x] + q == [x] + q && q + [x] + [] == q + [x]
  {
  }

  lemma InsertedNodes(q: seq<Node>, k: nat, x: Node)
    requires NoDup(q) && k <= |q| && x !in q
    ensures NoDup(q[..k] + [x] + q[k..]) && Set(q[..k] + [x] + q[k..]) == Set(q) + {x}
  {
    var r := q[..k] + [x] + q[k..];
    assert forall i :: 0 <= i < |r| ==> r[i] == if i < k then q[i] else if i == k then x else q[i - 1];
    assert q == q[..k] + q[k..];
  }

  ghost function Only(m: Links, q: seq<Node>): Links {
    map n | n in m && n in q :: m[n]
  }

  /** A subtree by itself. */
  lemma PartShape(h: Heap, t: Tree, part: Tree)
    requires TreeAt(h.links, t) && NoDup(InOrder(t)) && t.T? && (part == t.l || part == t.r)
    requires h.links.Keys == Set(InOrder(t))
    ensures Shaped(Heap(RootOf(part), Only(h.links, InOrder(part))), part)
  {
    TreeParts(t);
    assert forall z :: z in InOrder(part) ==> z in InOrder(t);
    TreeKept(h.links, Only(h.links, InOrder(part)), part);
  }

  /** A tree without a right subtree, and another tree as that. */
  lemma TogetherShape(h: Heap, l: Tree, y: Node, m: Links, r: Tree)
    requires Shaped(h, T(l, y, E)) && TreeAt(m, r) && m.Keys == Set(InOrder(r)) && NoDup(InOrder(l) + [y] + InOrder(r))
    ensures y in h.links
    ensures Shaped(Heap(y, (h.links + m)[y := h.links[y].SetChild(false, RootOf(r))]), T(l, y, r))
  {
    assert InOrder(T(l, y, E)) == InOrder(l) + [y];
    TogetherLinks(h.links, l, y, m, r);
    SetOf3(InOrder(l), y, InOrder(r));
  }

  lemma TogetherLinks(m0: Links, l: Tree, y: Node, m: Links, r: Tree)
    requires TreeAt(m0, T(l, y, E)) && TreeAt(m, r) && m.Keys == Set(InOrder(r)) && NoDup(InOrder(T(l, y, r)))
    ensures TreeAt((m0 + m)[y := m0[y].SetChild(false, RootOf(r))], T(l, y, r))
  {
    TreeParts(T(l, y, r));
    var m' := (m0 + m)[y := m0[y].SetChild(false, RootOf(r))];
    assert forall z :: z in InOrder(l) ==> z !in m;
    TreeKept(m0, m', l);
    TreeKept(m, m', r);
  }

  lemma SetOf3(a: seq<Node>, y: Node, b: seq<Node>)
    ensures Set(a + [y] + b) == Set(a + [y]) + Set(b)
  {
  }
}
