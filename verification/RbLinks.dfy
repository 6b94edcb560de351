/** The link fields of the nodes of a red-black tree as a value, what it means for them to have a
    given shape, and how a rotation and a colour change transform that shape. */
module RbLinks {
  import opened RbShape

  /** The tree entry of one node. */
  datatype Cell = Cell(left: Node?, right: Node?, parent: Node?, color: Color) {
    ghost function Child(onLeft: bool): Node? {
      if onLeft then left else right
    }

    ghost function SetChild(onLeft: bool, v: Node?): Cell {
      if onLeft then this.(left := v) else this.(right := v)
    }
  }

  ghost function Entry(onLeft: bool, near: Node?, far: Node?, parent: Node?, color: Color): Cell {
    if onLeft then Cell(near, far, parent, color) else Cell(far, near, parent, color)
  }

  type Links = map<Node, Cell>

  datatype Heap = Heap(root: Node?, links: Links) {
    ghost predicate Known(n: Node?) {
      n != null ==> n in links
    }

    ghost function SetChild(n: Node, onLeft: bool, v: Node?): Heap
      requires n in links
    {
      this.(links := links[n := links[n].SetChild(onLeft, v)])
    }

    ghost function SetParent(n: Node, v: Node?): Heap
      requires n in links
    {
      this.(links := links[n := links[n].(parent := v)])
    }

    ghost function SetColor(n: Node, c: Color): Heap
      requires n in links
    {
      this.(links := links[n := links[n].(color := c)])
    }

    /** The child link of `p` that held `x`, or the root, takes `repl`. */
    ghost function ReplaceChild(p: Node?, x: Node, repl: Node?): Heap
      requires Known(p)
    {
      if p == null then this.(root := repl) else SetChild(p, links[p].left == x, repl)
    }

    /** `x`, its child on the far side, the near child of that, and the parent of `x` are different nodes. */
    ghost predicate CanRotate(onLeft: bool, x: Node) {
      && x in links && links[x].Child(!onLeft) != null && links[x].Child(!onLeft) in links
      && var y: Node, p := links[x].Child(!onLeft), links[x].parent;
      && var b := links[y].Child(onLeft);
      && Known(p) && Known(b) && x != y && p != x && p != y && b != x && b != y && (b != null ==> b != p)
    }

    /** The child of `x` on the far side takes the place of `x`, which becomes its near child: a left
        rotation when the near side is the left. */
    ghost function Rotate(onLeft: bool, x: Node): Heap
      requires CanRotate(onLeft, x)
    {
      var y: Node, p := links[x].Child(!onLeft), links[x].parent;
      var b := links[y].Child(onLeft);
      var h1 := SetChild(x, !onLeft, b);
      var h2 := if b == null then h1 else h1.SetParent(b, x);
      var h3 := h2.SetParent(y, p);
      h3.ReplaceChild(p, x, y).SetChild(y, onLeft, x).SetParent(x, y)
    }
  }

  // ---------- shape ----------

  /** The links `m` below `par` have the shape `t`. */
  ghost predicate TreeAt(m: Links, t: Tree, par: Node?) {
    match t
    case E => true
    case T(l, n, c, r) =>
      n in m && m[n] == Cell(RootOf(l), RootOf(r), par, c) && TreeAt(m, l, n) && TreeAt(m, r, n)
  }

  /** The links `m` have the shape `z` around a subtree whose root is `hole`. */
  ghost predicate ZipAt(m: Links, z: Zip, hole: Node?) {
    match z
    case Top => true
    case In(left, n, c, sib, up) =>
      n in m && m[n] == Entry(left, hole, RootOf(sib), Par(up), c) && TreeAt(m, sib, n) && ZipAt(m, up, n)
  }

  /** Head and links together have exactly the shape `t`, no node occurring twice. */
  ghost predicate Shaped(h: Heap, t: Tree) {
    h.root == RootOf(t) && h.links.Keys == Nodes(t) && Distinct(t) && TreeAt(h.links, t, null)
  }

  lemma {:induction false} TreeAtPlug(m: Links, z: Zip, t: Tree)
    ensures TreeAt(m, Plug(z, t), null) <==> ZipAt(m, z, RootOf(t)) && TreeAt(m, t, Par(z))
  {
    match z
    case Top =>
    case In(left, n, c, sib, up) =>
      TreeAtPlug(m, up, Join(left, t, n, c, sib));
  }

  ghost predicate SameBut(m: Links, m': Links, changed: set<Node>) {
    forall x :: x in m && x !in changed ==> x in m' && m'[x] == m[x]
  }

  ghost function Opt(n: Node?): set<Node> {
    if n == null then {} else {n}
  }

  lemma {:induction false} TreeKept(m: Links, m': Links, changed: set<Node>, t: Tree, p: Node?)
    requires TreeAt(m, t, p) && SameBut(m, m', changed) && changed !! Nodes(t)
    ensures TreeAt(m', t, p)
  {
    if t.T? {
      TreeKept(m, m', changed, t.l, t.n);
      TreeKept(m, m', changed, t.r, t.n);
    }
  }

  /** Hanging a subtree below another node changes one link: the parent link of its root. */
  lemma TreeMoved(m: Links, m': Links, changed: set<Node>, t: Tree, p: Node?, q: Node?)
    requires TreeAt(m, t, p) && Distinct(t) && SameBut(m, m', changed)
    requires changed * Nodes(t) == Opt(RootOf(t))
    requires t.T? ==> t.n in m && t.n in m' && m'[t.n] == m[t.n].(parent := q)
    ensures TreeAt(m', t, q)
  {
    if t.T? {
      TreeKept(m, m', changed, t.l, t.n);
      TreeKept(m, m', changed, t.r, t.n);
    }
  }

  lemma {:induction false} ZipKept(m: Links, m': Links, changed: set<Node>, z: Zip, p: Node?)
    requires ZipAt(m, z, p) && SameBut(m, m', changed) && changed !! ZipNodes(z)
    ensures ZipAt(m', z, p)
  {
    if z.In? {
      TreeKept(m, m', changed, z.sib, z.n);
      ZipKept(m, m', changed, z.up, z.n);
    }
  }

  /** Filling the hole of a context differently changes one link: the child link above the hole. */
  lemma ZipRefilled(m: Links, m': Links, changed: set<Node>, z: Zip, p: Node?, q: Node?)
    requires ZipAt(m, z, p) && ZipDistinct(z) && SameBut(m, m', changed)
    requires changed * ZipNodes(z) == Opt(Par(z))
    requires z.In? ==> z.n in m && z.n in m' && m'[z.n] == m[z.n].SetChild(z.left, q)
    ensures ZipAt(m', z, q)
  {
    if z.In? {
      TreeKept(m, m', changed, z.sib, z.n);
      ZipKept(m, m', changed, z.up, z.n);
    }
  }

  // ---------- a colour change ----------

  lemma Recolored(h: Heap, z: Zip, t: Tree, c: Color)
    requires t.T? && Shaped(h, Plug(z, t))
    ensures t.n in h.links && Shaped(h.SetColor(t.n, c), Plug(z, t.(c := c)))
    ensures InOrder(Plug(z, t.(c := c))) == InOrder(Plug(z, t))
  {
    var t', n := t.(c := c), t.n;
    InOrderPlug(z, t);
    InOrderPlug(z, t');
    NodesPlug(z, t);
    NodesPlug(z, t');
    DistinctPlug(z, t);
    DistinctPlug(z, t');
    RootPlug(z, t, t');
    TreeAtPlug(h.links, z, t);
    var m, m' := h.links, h.SetColor(n, c).links;
    TreeKept(m, m', {n}, t.l, n);
    TreeKept(m, m', {n}, t.r, n);
    ZipKept(m, m', {n}, z, n);
    TreeAtPlug(m', z, t');
  }

  // ---------- a rotation ----------

  /** The pieces around a rotation share no node. */
  ghost predicate Apart(z: Zip, a: Tree, x: Node, b: Tree, y: Node, c: Tree) {
    Disjoint6(Nodes(a), x, Nodes(b), y, Nodes(c), ZipNodes(z)) &&
    Distinct(a) && Distinct(b) && Distinct(c) && ZipDistinct(z)
  }

  ghost predicate Disjoint6<X>(a: set<X>, x: X, b: set<X>, y: X, c: set<X>, z: set<X>) {
    && x != y
    && x !in a && x !in b && x !in c && x !in z && y !in a && y !in b && y !in c && y !in z
    && a !! b && a !! c && b !! c && a !! z && b !! z && c !! z
  }

  lemma Disjoint6Nested<X>(a: set<X>, x: X, b: set<X>, y: X, c: set<X>, z: set<X>)
    ensures Disjoint6(a, x, b, y, c, z) <==>
      var r := b + {y} + c;
      a + {x} + r !! z && x !in a && x !in r && a !! r && y !in b && y !in c && b !! c
    ensures a + {x} + (b + {y} + c) == (a + {x} + b) + {y} + c
    ensures c + {y} + (b + {x} + a) == a + {x} + (b + {y} + c)
  {
  }

  lemma Disjoint6Turned<X>(a: set<X>, x: X, b: set<X>, y: X, c: set<X>, z: set<X>)
    ensures Disjoint6(a, x, b, y, c, z) <==> Disjoint6(c, y, b, x, a, z)
  {
  }

  /** `x` with the near subtree `a` and, on the far side, `y` above `b` and `c`. */
  lemma ApartFar(z: Zip, d: bool, a: Tree, x: Node, cx: Color, b: Tree, y: Node, cy: Color, c: Tree)
    ensures Distinct(Plug(z, Join(d, a, x, cx, Join(d, b, y, cy, c)))) <==> Apart(z, a, x, b, y, c)
    ensures Nodes(Plug(z, Join(d, a, x, cx, Join(d, b, y, cy, c)))) ==
            ZipNodes(z) + (Nodes(a) + {x} + (Nodes(b) + {y} + Nodes(c)))
  {
    var r := Join(d, b, y, cy, c);
    DistinctPlug(z, Join(d, a, x, cx, r));
    NodesPlug(z, Join(d, a, x, cx, r));
    Disjoint6Nested(Nodes(a), x, Nodes(b), y, Nodes(c), ZipNodes(z));
    assert Nodes(r) == Nodes(b) + {y} + Nodes(c);
    assert Nodes(Join(d, a, x, cx, r)) == Nodes(a) + {x} + Nodes(r);
  }

  lemma ApartNear(z: Zip, d: bool, a: Tree, x: Node, cx: Color, b: Tree, y: Node, cy: Color, c: Tree)
    ensures Distinct(Plug(z, Join(d, Join(d, a, x, cx, b), y, cy, c))) <==> Apart(z, a, x, b, y, c)
    ensures Nodes(Plug(z, Join(d, Join(d, a, x, cx, b), y, cy, c))) ==
            ZipNodes(z) + (Nodes(a) + {x} + (Nodes(b) + {y} + Nodes(c)))
  {
    ApartFar(z, !d, c, y, cy, b, x, cx, a);
    Disjoint6Nested(Nodes(a), x, Nodes(b), y, Nodes(c), ZipNodes(z));
    Disjoint6Turned(Nodes(a), x, Nodes(b), y, Nodes(c), ZipNodes(z));
    assert Join(!d, c, y, cy, Join(!d, b, x, cx, a)) == Join(d, Join(d, a, x, cx, b), y, cy, c);
  }

  lemma RotateView(h: Heap, z: Zip, d: bool, a: Tree, x: Node, cx: Color, b: Tree, y: Node, cy: Color, c: Tree)
    requires TreeAt(h.links, Plug(z, Join(d, a, x, cx, Join(d, b, y, cy, c))), null) && Apart(z, a, x, b, y, c)
    ensures h.CanRotate(d, x)
    ensures h.links[x] == Entry(d, RootOf(a), y, Par(z), cx) && h.links[y] == Entry(d, RootOf(b), RootOf(c), x, cy)
    ensures TreeAt(h.links, a, x) && TreeAt(h.links, b, y) && TreeAt(h.links, c, y) && ZipAt(h.links, z, x)
    ensures z.In? ==> (h.links[z.n].left == x <==> z.left)
  {
    TreeAtPlug(h.links, z, Join(d, a, x, cx, Join(d, b, y, cy, c)));
    assert TreeAt(h.links, Join(d, b, y, cy, c), x) && TreeAt(h.links, b, y);
    assert z.In? && z.sib.T? ==> z.sib.n in Nodes(z.sib);
  }

  lemma RotateEffect(h: Heap, d: bool, x: Node)
    requires h.CanRotate(d, x)
    ensures var m, m' := h.links, h.Rotate(d, x).links;
      var y: Node, p := m[x].Child(!d), m[x].parent;
      var b := m[y].Child(d);
      && m'.Keys == m.Keys
      && m'[x] == m[x].SetChild(!d, b).(parent := y)
      && m'[y] == m[y].SetChild(d, x).(parent := p)
      && (b != null ==> m'[b] == m[b].(parent := x))
      && (p != null ==> m'[p] == m[p].SetChild(m[p].left == x, y))
      && SameBut(m, m', {x, y} + Opt(b) + Opt(p))
  {
  }

  lemma RotatedPieces(m: Links, m': Links, z: Zip, a: Tree, x: Node, b: Tree, y: Node, c: Tree)
    requires Apart(z, a, x, b, y, c)
    requires TreeAt(m, a, x) && TreeAt(m, b, y) && TreeAt(m, c, y) && ZipAt(m, z, x)
    requires b.T? ==> b.n in m && b.n in m' && m'[b.n] == m[b.n].(parent := x)
    requires z.In? ==> z.n in m && z.n in m' && m'[z.n] == m[z.n].SetChild(z.left, y)
    requires SameBut(m, m', {x, y} + Opt(RootOf(b)) + Opt(Par(z)))
    ensures TreeAt(m', a, x) && TreeAt(m', b, x) && TreeAt(m', c, y) && ZipAt(m', z, y)
  {
    RotatedOuter(m, m', z, x, b, y, a, x);
    RotatedOuter(m, m', z, x, b, y, c, y);
    RotatedInner(m, m', z, x, b, y);
  }

  lemma RotatedOuter(m: Links, m': Links, z: Zip, x: Node, b: Tree, y: Node, t: Tree, p: Node)
    requires x !in Nodes(t) && y !in Nodes(t) && Nodes(t) !! Nodes(b) && Nodes(t) !! ZipNodes(z)
    requires TreeAt(m, t, p) && SameBut(m, m', {x, y} + Opt(RootOf(b)) + Opt(Par(z)))
    ensures TreeAt(m', t, p)
  {
    assert Opt(RootOf(b)) <= Nodes(b) && Opt(Par(z)) <= ZipNodes(z);
    TreeKept(m, m', {x, y} + Opt(RootOf(b)) + Opt(Par(z)), t, p);
  }

  lemma RotatedInner(m: Links, m': Links, z: Zip, x: Node, b: Tree, y: Node)
    requires Distinct(b) && ZipDistinct(z) && Nodes(b) !! ZipNodes(z)
    requires x !in Nodes(b) && x !in ZipNodes(z) && y !in Nodes(b) && y !in ZipNodes(z)
    requires TreeAt(m, b, y) && ZipAt(m, z, x)
    requires b.T? ==> b.n in m && b.n in m' && m'[b.n] == m[b.n].(parent := x)
    requires z.In? ==> z.n in m && z.n in m' && m'[z.n] == m[z.n].SetChild(z.left, y)
    requires SameBut(m, m', {x, y} + Opt(RootOf(b)) + Opt(Par(z)))
    ensures TreeAt(m', b, x) && ZipAt(m', z, y)
  {
    assert Opt(RootOf(b)) <= Nodes(b) && Opt(Par(z)) <= ZipNodes(z);
    var changed := {x, y} + Opt(RootOf(b)) + Opt(Par(z));
    TreeMoved(m, m', changed, b, y, x);
    ZipRefilled(m, m', changed, z, x, y);
  }

  lemma RotatedLinks(h: Heap, z: Zip, d: bool, a: Tree, x: Node, cx: Color, b: Tree, y: Node, cy: Color, c: Tree)
    requires TreeAt(h.links, Plug(z, Join(d, a, x, cx, Join(d, b, y, cy, c))), null) && Apart(z, a, x, b, y, c)
    ensures h.CanRotate(d, x) && h.links[x].Child(!d) == y
    ensures h.Rotate(d, x).root == if z.Top? then y else h.root
    ensures h.Rotate(d, x).links.Keys == h.links.Keys
    ensures TreeAt(h.Rotate(d, x).links, Plug(z, Join(d, Join(d, a, x, cx, b), y, cy, c)), null)
  {
    RotateView(h, z, d, a, x, cx, b, y, cy, c);
    RotateEffect(h, d, x);
    var m := h.Rotate(d, x).links;
    RotatedPieces(h.links, m, z, a, x, b, y, c);
    assert TreeAt(m, Join(d, a, x, cx, b), y);
    TreeAtPlug(m, z, Join(d, Join(d, a, x, cx, b), y, cy, c));
  }

  lemma Rotated(h: Heap, z: Zip, d: bool, a: Tree, x: Node, cx: Color, b: Tree, y: Node, cy: Color, c: Tree)
    requires Shaped(h, Plug(z, Join(d, a, x, cx, Join(d, b, y, cy, c))))
    ensures h.CanRotate(d, x) && h.links[x].Child(!d) == y
    ensures Shaped(h.Rotate(d, x), Plug(z, Join(d, Join(d, a, x, cx, b), y, cy, c)))
  {
    ApartFar(z, d, a, x, cx, b, y, cy, c);
    ApartNear(z, d, a, x, cx, b, y, cy, c);
    RotatedLinks(h, z, d, a, x, cx, b, y, cy, c);
    RootPlug(z, Join(d, a, x, cx, Join(d, b, y, cy, c)), Join(d, Join(d, a, x, cx, b), y, cy, c));
  }

  lemma RotatedOrder(z: Zip, d: bool, a: Tree, x: Node, cx: Color, b: Tree, y: Node, cy: Color, c: Tree)
    ensures InOrder(Plug(z, Join(d, Join(d, a, x, cx, b), y, cy, c))) ==
            InOrder(Plug(z, Join(d, a, x, cx, Join(d, b, y, cy, c))))
  {
    InOrderPlug(z, Join(d, Join(d, a, x, cx, b), y, cy, c));
    InOrderPlug(z, Join(d, a, x, cx, Join(d, b, y, cy, c)));
    Associative(InOrder(a), [x], InOrder(b), [y], InOrder(c));
    Associative(InOrder(c), [y], InOrder(b), [x], InOrder(a));
  }

  lemma Associative<X>(a: seq<X>, x: seq<X>, b: seq<X>, y: seq<X>, c: seq<X>)
    ensures (a + x + b) + y + c == a + x + (b + y + c)
  {
  }

  // ---------- a node enters, leaves, or takes another's place ----------

  lemma Attached(h: Heap, z: Zip, n: Node)
    requires Shaped(h, Plug(z, E)) && n !in h.links
    ensures h.Known(Par(z))
    ensures var h1 := h.(links := h.links[n := Cell(null, null, Par(z), Red)]);
      var h' := if z.Top? then h1.(root := n) else h1.SetChild(z.n, z.left, n);
      Shaped(h', Plug(z, T(E, n, Red, E)))
  {
    var t' := T(E, n, Red, E);
    NodesPlug(z, E);
    NodesPlug(z, t');
    DistinctPlug(z, E);
    DistinctPlug(z, t');
    RootPlug(z, E, t');
    TreeAtPlug(h.links, z, E);
    var h1 := h.(links := h.links[n := Cell(null, null, Par(z), Red)]);
    var h' := if z.Top? then h1.(root := n) else h1.SetChild(z.n, z.left, n);
    assert z.In? ==> z.n in ZipNodes(z);
    ZipRefilled(h.links, h'.links, Opt(Par(z)), z, null, n);
    TreeAtPlug(h'.links, z, t');
  }

  /** `x` leaves and its child `y`, if it has one, takes its place below `p`. */
  ghost function Splice(h: Heap, p: Node?, x: Node, y: Node?): Heap
    requires h.Known(p) && h.Known(y)
  {
    var h1 := if y == null then h else h.SetParent(y, p);
    var h2 := h1.ReplaceChild(p, x, y);
    h2.(links := h2.links - {x})
  }

  lemma SpliceEffect(h: Heap, p: Node?, x: Node, y: Node?)
    requires h.Known(p) && h.Known(y) && p != x && y != x && (p == y ==> p == null)
    ensures var m, m' := h.links, Splice(h, p, x, y).links;
      && m'.Keys == m.Keys - {x}
      && (y != null ==> m'[y] == m[y].(parent := p))
      && (p != null ==> m'[p] == m[p].SetChild(m[p].left == x, y))
      && SameBut(m, m', {x} + Opt(y) + Opt(p))
  {
  }

  lemma SplicedLinks(h: Heap, z: Zip, x: Node, c: Color, t: Tree)
    requires ZipAt(h.links, z, x) && ZipDistinct(z) && TreeAt(h.links, t, x) && Distinct(t)
    requires x !in ZipNodes(z) && x !in Nodes(t) && Nodes(t) !! ZipNodes(z)
    ensures h.Known(Par(z)) && h.Known(RootOf(t))
    ensures var m := Splice(h, Par(z), x, RootOf(t)).links; ZipAt(m, z, RootOf(t)) && TreeAt(m, t, Par(z))
  {
    assert t.T? ==> t.n in Nodes(t);
    assert z.In? && z.sib.T? ==> z.sib.n in Nodes(z.sib);
    SpliceEffect(h, Par(z), x, RootOf(t));
    var m := Splice(h, Par(z), x, RootOf(t)).links;
    assert Opt(RootOf(t)) <= Nodes(t) && Opt(Par(z)) <= ZipNodes(z);
    var changed := {x} + Opt(RootOf(t)) + Opt(Par(z));
    TreeMoved(h.links, m, changed, t, x, Par(z));
    ZipRefilled(h.links, m, changed, z, x, RootOf(t));
  }

  lemma Spliced(h: Heap, z: Zip, x: Node, c: Color, t: Tree, onLeft: bool)
    requires Shaped(h, Plug(z, Join(onLeft, t, x, c, E)))
    ensures x in h.links && h.links[x] == Entry(onLeft, RootOf(t), null, Par(z), c)
    ensures h.Known(Par(z)) && h.Known(RootOf(t)) && Par(z) != x && RootOf(t) != x
    ensures RootOf(t) == Par(z) ==> t.E?
    ensures Shaped(Splice(h, Par(z), x, RootOf(t)), Plug(z, t))
  {
    var s := Join(onLeft, t, x, c, E);
    SplicedNodes(z, x, c, t, onLeft);
    TreeAtPlug(h.links, z, s);
    SplicedLinks(h, z, x, c, t);
    SpliceEffect(h, Par(z), x, RootOf(t));
    TreeAtPlug(Splice(h, Par(z), x, RootOf(t)).links, z, t);
    RootPlug(z, t, s);
    RootPlug(z, s, t);
  }

  lemma SplicedNodes(z: Zip, x: Node, c: Color, t: Tree, onLeft: bool)
    requires Distinct(Plug(z, Join(onLeft, t, x, c, E)))
    ensures Distinct(Plug(z, t)) && Nodes(Plug(z, t)) == Nodes(Plug(z, Join(onLeft, t, x, c, E))) - {x}
    ensures ZipDistinct(z) && Distinct(t) && x !in ZipNodes(z) && x !in Nodes(t) && Nodes(t) !! ZipNodes(z)
  {
    var s := Join(onLeft, t, x, c, E);
    NodesPlug(z, s);
    NodesPlug(z, t);
    DistinctPlug(z, s);
    DistinctPlug(z, t);
  }

  /** `n`, from outside the tree, takes the place of `x`, which has a left child. */
  ghost function TakePlace(h: Heap, x: Node, n: Node): Heap
    requires x in h.links && h.Known(h.links[x].parent) && h.Known(h.links[x].left) && h.Known(h.links[x].right)
    requires h.links[x].left != null
  {
    var e := h.links[x];
    var h1 := h.(links := h.links[n := e]).ReplaceChild(e.parent, x, n).SetParent(e.left, n);
    var h2 := if e.right == null then h1 else h1.SetParent(e.right, n);
    h2.(links := h2.links - {x})
  }

  lemma TookPlace(h: Heap, z: Zip, l: Tree, x: Node, c: Color, r: Tree, n: Node)
    requires Shaped(h, Plug(z, T(l, x, c, r))) && n !in h.links && l.T?
    ensures x in h.links && h.links[x] == Cell(RootOf(l), RootOf(r), Par(z), c)
    ensures h.Known(Par(z)) && h.Known(RootOf(l)) && h.Known(RootOf(r))
    ensures Par(z) != x && RootOf(l) != x && RootOf(r) != x
    ensures TakePlace(h, x, n).links.Keys == h.links.Keys - {x} + {n}
    ensures Shaped(TakePlace(h, x, n), Plug(z, T(l, n, c, r)))
  {
    var t, t' := T(l, x, c, r), T(l, n, c, r);
    NodesPlug(z, t);
    NodesPlug(z, t');
    DistinctPlug(z, t);
    DistinctPlug(z, t');
    RootPlug(z, t, t');
    TreeAtPlug(h.links, z, t);
    TookPlaceLinks(h, z, l, x, c, r, n);
    TreeAtPlug(TakePlace(h, x, n).links, z, t');
  }

  lemma TakePlaceEffect(h: Heap, x: Node, n: Node)
    requires x in h.links && h.Known(h.links[x].parent) && h.Known(h.links[x].left) && h.Known(h.links[x].right)
    requires h.links[x].left != null && n !in h.links
    requires var e := h.links[x];
      && e.left != x && e.right != x && e.parent != x && e.left != e.right && e.left != e.parent
      && (e.right == e.parent ==> e.right == null)
    ensures var m, m', e := h.links, TakePlace(h, x, n).links, h.links[x];
      && m'.Keys == m.Keys - {x} + {n}
      && m'[n] == e && m'[e.left] == m[e.left].(parent := n)
      && (e.right != null ==> m'[e.right] == m[e.right].(parent := n))
      && (e.parent != null ==> m'[e.parent] == m[e.parent].SetChild(m[e.parent].left == x, n))
      && SameBut(m, m', {x} + Opt(e.left) + Opt(e.right) + Opt(e.parent))
  {
  }

  lemma TookPlaceLinks(h: Heap, z: Zip, l: Tree, x: Node, c: Color, r: Tree, n: Node)
    requires TreeAt(h.links, T(l, x, c, r), Par(z)) && ZipAt(h.links, z, x) && n !in h.links && l.T?
    requires Distinct(T(l, x, c, r)) && ZipDistinct(z) && Nodes(T(l, x, c, r)) !! ZipNodes(z)
    requires h.links.Keys == ZipNodes(z) + Nodes(T(l, x, c, r))
    ensures var m := TakePlace(h, x, n).links;
      TreeAt(m, T(l, n, c, r), Par(z)) && ZipAt(m, z, n) && m.Keys == h.links.Keys - {x} + {n}
  {
    assert l.n in Nodes(l) && (r.T? ==> r.n in Nodes(r));
    assert z.In? && z.sib.T? ==> z.sib.n in Nodes(z.sib);
    TakePlaceEffect(h, x, n);
    TookPlacePieces(h.links, TakePlace(h, x, n).links, z, l, x, r, n);
  }

  lemma TookPlacePieces(m: Links, m': Links, z: Zip, l: Tree, x: Node, r: Tree, n: Node)
    requires TreeAt(m, l, x) && TreeAt(m, r, x) && ZipAt(m, z, x) && l.T?
    requires Distinct(l) && Distinct(r) && ZipDistinct(z)
    requires Nodes(l) !! Nodes(r) && Nodes(l) !! ZipNodes(z) && Nodes(r) !! ZipNodes(z)
    requires x !in Nodes(l) && x !in Nodes(r) && x !in ZipNodes(z)
    requires l.n in m && l.n in m' && m'[l.n] == m[l.n].(parent := n)
    requires r.T? ==> r.n in m && r.n in m' && m'[r.n] == m[r.n].(parent := n)
    requires z.In? ==> z.n in m && z.n in m' && m'[z.n] == m[z.n].SetChild(z.left, n)
    requires SameBut(m, m', {x} + Opt(l.n) + Opt(RootOf(r)) + Opt(Par(z)))
    ensures TreeAt(m', l, n) && TreeAt(m', r, n) && ZipAt(m', z, n)
  {
    var changed := {x} + Opt(l.n) + Opt(RootOf(r)) + Opt(Par(z));
    Meets(Nodes(l), Nodes(r), ZipNodes(z), x, Opt(l.n), Opt(RootOf(r)), Opt(Par(z)));
    TreeMoved(m, m', changed, l, x, n);
    TreeMoved(m, m', changed, r, x, n);
    ZipRefilled(m, m', changed, z, x, n);
  }

  /** One node of each part, and one of none. */
  lemma Meets(l: set<Node>, r: set<Node>, z: set<Node>, x: Node, a: set<Node>, b: set<Node>, c: set<Node>)
    requires l !! r && l !! z && r !! z && x !in l && x !in r && x !in z && a <= l && b <= r && c <= z
    ensures ({x} + a + b + c) * l == a && ({x} + a + b + c) * r == b && ({x} + a + b + c) * z == c
  {
  }
}
