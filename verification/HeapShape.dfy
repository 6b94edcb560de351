/** The shape of a complete binary tree: its nodes in level order are the positions 1, 2, 3, ..., and the
    link fields of the nodes follow from the positions. */
module HeapShape {
  import opened Basics

  class Node {
    var left: Node?
    var right: Node?
    var parent: Node?
    const key: int          // stands for the place of the element in the caller's order

    constructor (k: int)
      ensures key == k
    {
      key := k;
      left, right, parent := null, null, null;
    }
  }

  datatype Cell = Cell(left: Node?, right: Node?, parent: Node?)

  type Links = map<Node, Cell>

  /** The node at a position, if there is one. */
  ghost function At(q: seq<Node>, p: int): Node? {
    if 1 <= p <= |q| then q[p - 1] else null
  }

  ghost function CellFor(q: seq<Node>, p: int): Cell {
    Cell(At(q, 2 * p), At(q, 2 * p + 1), At(q, p / 2))
  }

  ghost predicate CellOk(m: Links, q: seq<Node>, p: int) {
    1 <= p <= |q| ==> q[p - 1] in m && m[q[p - 1]] == CellFor(q, p)
  }

  // ---------- the heap's fields as a value ----------

  datatype Heap = Heap(min: Node?, links: Links) {
    ghost predicate Known(n: Node?) {
      n != null ==> n in links
    }

    ghost function PutLeft(n: Node, v: Node?): Heap
      requires n in links
    {
      this.(links := links[n := links[n].(left := v)])
    }

    ghost function PutRight(n: Node, v: Node?): Heap
      requires n in links
    {
      this.(links := links[n := links[n].(right := v)])
    }

    ghost function PutParent(n: Node?, v: Node?): Heap
      requires Known(n)
    {
      if n == null then this else this.(links := links[n := links[n].(parent := v)])
    }

    /** The link that leads to `was` from above leads to `to`. */
    ghost function PutLink(above: Node?, was: Node, to: Node): Heap
      requires Known(above)
    {
      if above == null then this.(min := to)
      else if links[above].left == was then PutLeft(above, to)
      else PutRight(above, to)
    }

    ghost predicate CanSwap(p: Node, c: Node) {
      && p in links && c in links && p != c && (links[p].left == c || links[p].right == c)
      && Known(links[p].left) && Known(links[p].right) && Known(links[p].parent)
      && Known(links[c].left) && Known(links[c].right)
    }

    /** Writes through a pointer to a link: to `min`, or to a child link of `owner`. */
    ghost function PutSlot(owner: Node?, onLeft: bool, v: Node?): Heap
      requires Known(owner)
    {
      if owner == null then this.(min := v) else if onLeft then PutLeft(owner, v) else PutRight(owner, v)
    }

    /** `repl` takes over the links of `node`, and the neighbours point to it. */
    ghost function Replace(node: Node, repl: Node): Heap
      requires node in links && Known(links[node].left) && Known(links[node].right) && Known(links[node].parent)
    {
      var c := links[node];
      this.(links := links[repl := c]).PutParent(c.left, repl).PutParent(c.right, repl).PutLink(c.parent, node, repl)
    }

    /** `n` is no longer one of the heap's nodes. */
    ghost function Forget(n: Node): Heap {
      this.(links := links - {n})
    }

    ghost function Add(n: Node, c: Cell): Heap {
      this.(links := links[n := c])
    }

    /** heap_node_swap, up to where the sibling gets its new parent. */
    ghost function Exchange(p: Node, c: Node): Heap
      requires CanSwap(p, c)
    {
      var h1 := Heap(min, links[p := links[c]][c := links[p]]).PutParent(p, c);
      if h1.links[c].left == c then h1.PutLeft(c, p).PutParent(links[p].right, c)
      else h1.PutRight(c, p).PutParent(links[p].left, c)
    }

    /** The rest of it, for the former children of `c` and the former parent of `p`. */
    ghost function Reattach(p: Node, c: Node, l: Node?, r: Node?, g: Node?): Heap
      requires Known(l) && Known(r) && Known(g)
    {
      PutParent(l, p).PutParent(r, p).PutLink(g, p, c)
    }

    ghost function Swap(p: Node, c: Node): Heap
      requires CanSwap(p, c)
    {
      Exchange(p, c).Reattach(p, c, links[c].left, links[c].right, links[p].parent)
    }
  }

  /** The fields have the shape that the level order `q` asks for. */
  ghost predicate Shaped(h: Heap, q: seq<Node>) {
    && NoDup(q) && h.links.Keys == Set(q) && h.min == At(q, 1)
    && forall p :: 1 <= p <= |q| ==> CellOk(h.links, q, p)
  }

  // ---------- swapping two positions ----------

  /** `q` with the nodes at the positions `p` and `c` exchanged. */
  ghost function Exchanged(q: seq<Node>, p: int, c: int): (r: seq<Node>)
    requires 1 <= p <= |q| && 1 <= c <= |q|
    ensures |r| == |q|
  {
    q[p - 1 := q[c - 1]][c - 1 := q[p - 1]]
  }

  lemma ExchangedNodes(q: seq<Node>, p: int, c: int)
    requires 1 <= p <= |q| && 1 <= c <= |q| && NoDup(q)
    ensures NoDup(Exchanged(q, p, c)) && Set(Exchanged(q, p, c)) == Set(q)
  {
    var r := Exchanged(q, p, c);
    assert forall i :: 0 <= i < |q| ==> r[i] == q[if i == p - 1 then c - 1 else if i == c - 1 then p - 1 else i];
    assert r[p - 1] == q[c - 1] && r[c - 1] == q[p - 1];
    assert forall i :: 0 <= i < |q| ==> q[i] == r[if i == p - 1 then c - 1 else if i == c - 1 then p - 1 else i];
  }

  lemma ExchangedAt(q: seq<Node>, p: int, c: int, k: int)
    requires 1 <= p <= |q| && 1 <= c <= |q|
    ensures At(Exchanged(q, p, c), k) == if k == p then At(q, c) else if k == c then At(q, p) else At(q, k)
  {
  }

  /** Different positions hold different nodes. */
  lemma Different(q: seq<Node>, i: int, j: int)
    requires NoDup(q) && i != j
    ensures At(q, i) == At(q, j) ==> At(q, i) == null
  {
  }

  lemma ShapedKnown(h: Heap, q: seq<Node>, p: int)
    requires Shaped(h, q)
    ensures h.Known(At(q, p))
  {
  }

  ghost predicate Link(p: int, c: int) {
    1 <= p && (c == 2 * p || c == 2 * p + 1)
  }

  lemma CanSwapAt(h: Heap, q: seq<Node>, p: int, c: int)
    requires Shaped(h, q) && Link(p, c) && c <= |q|
    ensures h.CanSwap(q[p - 1], q[c - 1])
  {
    assert CellOk(h.links, q, p) && CellOk(h.links, q, c);
    ShapedKnown(h, q, 2 * p);
    ShapedKnown(h, q, 2 * p + 1);
    ShapedKnown(h, q, p / 2);
    ShapedKnown(h, q, 2 * c);
    ShapedKnown(h, q, 2 * c + 1);
    Different(q, p, c);
  }

  /** The two nodes to be swapped and the up to four around them are different nodes. */
  ghost predicate Apart(p: Node, c: Node, sib: Node?, l: Node?, r: Node?, g: Node?) {
    && p != c && p != sib && p != l && p != r && p != g && c != sib && c != l && c != r && c != g
    && (sib != null ==> sib != l && sib != r && sib != g) && (l != null ==> l != r && l != g) && (r != null ==> r != g)
  }

  lemma ExchangeEffect(h: Heap, p: Node, c: Node, onLeft: bool, sib: Node?, x: Node)
    requires h.CanSwap(p, c) && x in h.links && Apart(p, c, sib, h.links[c].left, h.links[c].right, h.links[p].parent)
    requires h.links[p] == if onLeft then Cell(c, sib, h.links[p].parent) else Cell(sib, c, h.links[p].parent)
    ensures var cp, cc, h' := h.links[p], h.links[c], h.Exchange(p, c);
            && h'.links.Keys == h.links.Keys && h'.min == h.min
            && h'.links[x] ==
               (if x == p then cc.(parent := c)
                else if x == c then (if onLeft then cp.(left := p) else cp.(right := p))
                else if x == sib then h.links[x].(parent := c)
                else h.links[x])
  {
  }

  lemma ReattachEffect(h: Heap, p: Node, c: Node, l: Node?, r: Node?, g: Node?, x: Node)
    requires h.Known(l) && h.Known(r) && h.Known(g) && x in h.links
    requires (l != null ==> l != r && l != g) && (r != null ==> r != g)
    ensures var h' := h.Reattach(p, c, l, r, g);
            && h'.links.Keys == h.links.Keys && h'.min == (if g == null then c else h.min)
            && h'.links[x] ==
               (if x == l || x == r then h.links[x].(parent := p)
                else if x == g then
                  (if h.links[x].left == p then h.links[x].(left := c) else h.links[x].(right := c))
                else h.links[x])
  {
  }

  /** What heap_node_swap does to each node. */
  lemma SwapEffect(h: Heap, p: Node, c: Node, onLeft: bool, sib: Node?, x: Node)
    requires h.CanSwap(p, c) && x in h.links && Apart(p, c, sib, h.links[c].left, h.links[c].right, h.links[p].parent)
    requires h.links[p] == if onLeft then Cell(c, sib, h.links[p].parent) else Cell(sib, c, h.links[p].parent)
    ensures var cp, cc, h' := h.links[p], h.links[c], h.Swap(p, c);
            && h'.links.Keys == h.links.Keys && h'.min == (if cp.parent == null then c else h.min)
            && h'.links[x] ==
               (if x == p then cc.(parent := c)
                else if x == c then (if onLeft then cp.(left := p) else cp.(right := p))
                else if x == sib then h.links[x].(parent := c)
                else if x == cc.left || x == cc.right then h.links[x].(parent := p)
                else if x == cp.parent then
                  (if h.links[x].left == p then h.links[x].(left := c) else h.links[x].(right := c))
                else h.links[x])
  {
    ExchangeEffect(h, p, c, onLeft, sib, x);
    ReattachEffect(h.Exchange(p, c), p, c, h.links[c].left, h.links[c].right, h.links[p].parent, x);
  }

  /** The position of the other child. */
  ghost function Sibling(p: int, c: int): int {
    4 * p + 1 - c
  }

  lemma ApartAt(q: seq<Node>, p: int, c: int)
    requires NoDup(q) && Link(p, c) && c <= |q|
    ensures Apart(q[p - 1], q[c - 1], At(q, Sibling(p, c)), At(q, 2 * c), At(q, 2 * c + 1), At(q, p / 2))
  {
    var s, l, r, g := Sibling(p, c), 2 * c, 2 * c + 1, p / 2;
    forall i, j | i in [p, c, s, l, r, g] && j in [p, c, s, l, r, g] && i != j
      ensures At(q, i) == At(q, j) ==> At(q, i) == null {
      Different(q, i, j);
    }
  }

  /** The whole of heap_node_swap, in terms of positions: two of them exchange their nodes. */
  lemma SwapShape(h: Heap, q: seq<Node>, p: int, c: int)
    requires Shaped(h, q) && Link(p, c) && c <= |q|
    ensures h.CanSwap(q[p - 1], q[c - 1])
    ensures Shaped(h.Swap(q[p - 1], q[c - 1]), Exchanged(q, p, c))
  {
    CanSwapAt(h, q, p, c);
    ExchangedNodes(q, p, c);
    var r := Exchanged(q, p, c);
    var m := h.Swap(q[p - 1], q[c - 1]).links;
    forall k | 1 <= k <= |r| ensures CellOk(m, r, k) {
      SwapCell(h, q, p, c, k);
    }
    SwapCell(h, q, p, c, p);
    assert CellOk(h.links, q, p);
  }

  lemma SwapCell(h: Heap, q: seq<Node>, p: int, c: int, k: int)
    requires Shaped(h, q) && Link(p, c) && c <= |q| && 1 <= k <= |q|
    ensures h.CanSwap(q[p - 1], q[c - 1])
    ensures h.Swap(q[p - 1], q[c - 1]).links.Keys == h.links.Keys
    ensures h.Swap(q[p - 1], q[c - 1]).min == (if At(q, p / 2) == null then q[c - 1] else h.min)
    ensures CellOk(h.Swap(q[p - 1], q[c - 1]).links, Exchanged(q, p, c), k)
  {
    var r := Exchanged(q, p, c);
    CanSwapAt(h, q, p, c);
    ApartAt(q, p, c);
    assert CellOk(h.links, q, p) && CellOk(h.links, q, c) && CellOk(h.links, q, k);
    SwapEffect(h, q[p - 1], q[c - 1], c == 2 * p, At(q, Sibling(p, c)), r[k - 1]);
    ExchangedCell(q, p, c, k);
    if k != p && k != c {
      WhichNode(q, p, c, k);
    }
  }

  /** A node is one of those around the two exactly when its position is. */
  lemma WhichNode(q: seq<Node>, p: int, c: int, k: int)
    requires NoDup(q) && Link(p, c) && c <= |q| && 1 <= k <= |q| && k != p && k != c
    ensures var x := q[k - 1];
            && x != q[p - 1] && x != q[c - 1] && (x == At(q, Sibling(p, c)) <==> k == Sibling(p, c))
            && (x == At(q, 2 * c) <==> k == 2 * c) && (x == At(q, 2 * c + 1) <==> k == 2 * c + 1)
            && (x == At(q, p / 2) <==> k == p / 2)
            && (k == p / 2 ==> (At(q, 2 * k) == q[p - 1] <==> p == 2 * k))
  {
    if p != 2 * k {
      Different(q, 2 * k, p);
    }
  }

  /** The cells that the exchanged order asks for, in terms of the cells of the old one. */
  lemma ExchangedCell(q: seq<Node>, p: int, c: int, k: int)
    requires Link(p, c) && c <= |q| && 1 <= k <= |q| && NoDup(q)
    ensures var r := Exchanged(q, p, c);
            CellFor(r, k) ==
              if k == p then
                (if c == 2 * p then CellFor(q, p).(left := q[p - 1]) else CellFor(q, p).(right := q[p - 1]))
              else if k == c then CellFor(q, c).(parent := q[c - 1])
              else if k == Sibling(p, c) then CellFor(q, k).(parent := q[c - 1])
              else if k == 2 * c || k == 2 * c + 1 then CellFor(q, k).(parent := q[p - 1])
              else if k == p / 2 then
                (if p == 2 * k then CellFor(q, k).(left := q[c - 1]) else CellFor(q, k).(right := q[c - 1]))
              else CellFor(q, k)
  {
    ExchangedAt(q, p, c, 2 * k);
    ExchangedAt(q, p, c, 2 * k + 1);
    ExchangedAt(q, p, c, k / 2);
  }

  // ---------- the last position, and a node taking the place of another ----------

  /** The child link that leads to a position: of the node above it, or `min`. */
  ghost function Above(q: seq<Node>, p: int): Node? {
    At(q, p / 2)
  }

  lemma LastPlace(q: seq<Node>, x: Node, k: int)
    requires 1 <= k <= |q| + 1
    ensures var n := |q| + 1;
            CellFor(q + [x], k) ==
              if k == n then Cell(null, null, Above(q, n))
              else if k == n / 2 then
                (if n % 2 == 0 then CellFor(q, k).(left := x) else CellFor(q, k).(right := x))
              else CellFor(q, k)
  {
  }

  /** A new node at the first free position. */
  lemma AppendShape(h: Heap, q: seq<Node>, x: Node)
    requires Shaped(h, q) && x !in h.links
    ensures var n := |q| + 1;
            var h1 := h.Add(x, Cell(null, null, Above(q, n)));
            && h1.Known(Above(q, n)) && Shaped(h1.PutSlot(Above(q, n), n % 2 == 0, x), q + [x])
  {
    var n, r := |q| + 1, q + [x];
    ShapedKnown(h, q, n / 2);
    var h' := h.Add(x, Cell(null, null, Above(q, n))).PutSlot(Above(q, n), n % 2 == 0, x);
    assert r[n - 1] == x;
    assert Set(r) == Set(q) + {x};
    forall k | 1 <= k <= |r| ensures CellOk(h'.links, r, k) {
      LastPlace(q, x, k);
      assert CellOk(h.links, q, k);
      assert k < n ==> r[k - 1] == q[k - 1];
    }
  }

  /** The last node unlinked. */
  lemma UnlinkShape(h: Heap, q: seq<Node>)
    requires Shaped(h, q) && q != []
    ensures var n := |q|;
            && h.Known(Above(q, n)) && Shaped(h.PutSlot(Above(q, n), n % 2 == 0, null).Forget(q[n - 1]), q[..n - 1])
  {
    var n, x := |q|, q[|q| - 1];
    var r := q[..n - 1];
    ShapedKnown(h, q, n / 2);
    Different(q, n / 2, n);
    SetInit(q);
    var m := h.PutSlot(Above(q, n), n % 2 == 0, null).links - {x};
    forall k | 1 <= k <= |r| ensures CellOk(m, r, k) {
      UnlinkCell(h, q, k);
    }
  }

  lemma SetInit(q: seq<Node>)
    requires NoDup(q) && q != []
    ensures Set(q[..|q| - 1]) == Set(q) - {q[|q| - 1]} && NoDup(q[..|q| - 1])
  {
    var r := q[..|q| - 1];
    forall x | x in Set(q) - {q[|q| - 1]} ensures x in r {
      var i :| 0 <= i < |q| && q[i] == x;
      assert r[i] == x;
    }
  }

  lemma UnlinkCell(h: Heap, q: seq<Node>, k: int)
    requires Shaped(h, q) && 1 <= k < |q|
    ensures var n := |q|;
            && h.Known(Above(q, n))
            && CellOk(h.PutSlot(Above(q, n), n % 2 == 0, null).links - {q[n - 1]}, q[..n - 1], k)
  {
    var n := |q|;
    ShapedKnown(h, q, n / 2);
    assert q[..n - 1] + [q[n - 1]] == q;
    LastPlace(q[..n - 1], q[n - 1], k);
    assert CellOk(h.links, q, k);
    Different(q, k, n);
    if k != n / 2 {
      Different(q, k, n / 2);
    }
  }

  lemma ReplaceEffect(h: Heap, node: Node, repl: Node, l: Node?, r: Node?, g: Node?, x: Node)
    requires node in h.links && repl !in h.links && h.links[node] == Cell(l, r, g) && x in h.links
    requires h.Known(l) && h.Known(r) && h.Known(g) && node != l && node != r && node != g
    requires (l != null ==> l != r && l != g) && (r != null ==> r != g)
    ensures var h' := h.Replace(node, repl);
            && h'.links.Keys == h.links.Keys + {repl} && h'.min == (if g == null then repl else h.min)
            && h'.links[repl] == h.links[node]
            && h'.links[x] ==
               (if x == node then h.links[x]
                else if x == l || x == r then h.links[x].(parent := repl)
                else if x == g then
                  (if h.links[x].left == node then h.links[x].(left := repl) else h.links[x].(right := repl))
                else h.links[x])
  {
  }

  lemma ReplacedCell(q: seq<Node>, p: int, x: Node, k: int)
    requires 1 <= p <= |q| && 1 <= k <= |q|
    ensures CellFor(q[p - 1 := x], k) ==
              if k == 2 * p || k == 2 * p + 1 then CellFor(q, k).(parent := x)
              else if k == p / 2 then
                (if p == 2 * k then CellFor(q, k).(left := x) else CellFor(q, k).(right := x))
              else CellFor(q, k)
  {
  }

  lemma ReplacedNodes(q: seq<Node>, p: int, x: Node)
    requires NoDup(q) && 1 <= p <= |q| && x !in q
    ensures NoDup(q[p - 1 := x]) && Set(q[p - 1 := x]) == Set(q) - {q[p - 1]} + {x}
  {
    var r := q[p - 1 := x];
    assert r[p - 1] == x;
    forall y | y in Set(q) - {q[p - 1]} ensures y in r {
      var i :| 0 <= i < |q| && q[i] == y;
      assert r[i] == y;
    }
  }

  lemma ReplaceCell(h: Heap, q: seq<Node>, p: int, x: Node, k: int)
    requires Shaped(h, q) && 1 <= p <= |q| && x !in h.links && 1 <= k <= |q|
    requires h.Known(At(q, 2 * p)) && h.Known(At(q, 2 * p + 1)) && h.Known(At(q, p / 2))
    requires h.links[q[p - 1]] == CellFor(q, p)
    ensures CellOk(h.Replace(q[p - 1], x).links - {q[p - 1]}, q[p - 1 := x], k)
  {
    ReplacedCell(q, p, x, k);
    assert CellOk(h.links, q, k);
    NeighboursApart(q, p);
    var y := if k == p then x else q[k - 1];
    if k != p {
      Different(q, k, p);
      ReplaceEffect(h, q[p - 1], x, At(q, 2 * p), At(q, 2 * p + 1), At(q, p / 2), y);
      WhichNeighbour(q, p, k);
    } else {
      ReplaceEffect(h, q[p - 1], x, At(q, 2 * p), At(q, 2 * p + 1), At(q, p / 2), q[p - 1]);
    }
  }

  lemma NeighboursApart(q: seq<Node>, p: int)
    requires NoDup(q) && 1 <= p <= |q|
    ensures var n, l, r, g := q[p - 1], At(q, 2 * p), At(q, 2 * p + 1), At(q, p / 2);
            n != l && n != r && n != g && (l != null ==> l != r && l != g) && (r != null ==> r != g)
  {
    forall i, j | i in [p, 2 * p, 2 * p + 1, p / 2] && j in [p, 2 * p, 2 * p + 1, p / 2] && i != j
      ensures At(q, i) == At(q, j) ==> At(q, i) == null {
      Different(q, i, j);
    }
  }

  lemma WhichNeighbour(q: seq<Node>, p: int, k: int)
    requires NoDup(q) && 1 <= p <= |q| && 1 <= k <= |q|
    ensures var x := q[k - 1];
            && (x == At(q, 2 * p) <==> k == 2 * p) && (x == At(q, 2 * p + 1) <==> k == 2 * p + 1)
            && (x == At(q, p / 2) <==> k == p / 2)
            && (k == p / 2 ==> (At(q, 2 * k) == q[p - 1] <==> p == 2 * k))
  {
    if p != 2 * k {
      Different(q, 2 * k, p);
    }
  }

  /** A node from outside in the place of another. */
  lemma ReplaceShape(h: Heap, q: seq<Node>, p: int, x: Node)
    requires Shaped(h, q) && 1 <= p <= |q| && x !in h.links
    ensures h.Known(At(q, 2 * p)) && h.Known(At(q, 2 * p + 1)) && h.Known(At(q, p / 2))
    ensures q[p - 1] in h.links && h.links[q[p - 1]] == CellFor(q, p)
    ensures Shaped(h.Replace(q[p - 1], x).Forget(q[p - 1]), q[p - 1 := x])
  {
    ShapedKnown(h, q, 2 * p);
    ShapedKnown(h, q, 2 * p + 1);
    ShapedKnown(h, q, p / 2);
    assert CellOk(h.links, q, p);
    assert x !in q by {
      assert h.links.Keys == Set(q);
    }
    ReplacedNodes(q, p, x);
    var m, r := h.Replace(q[p - 1], x).links - {q[p - 1]}, q[p - 1 := x];
    forall k | 1 <= k <= |q| ensures CellOk(m, r, k) {
      ReplaceCell(h, q, p, x, k);
    }
    ReplaceOutside(h, q, p, x);
  }

  lemma ReplaceOutside(h: Heap, q: seq<Node>, p: int, x: Node)
    requires Shaped(h, q) && 1 <= p <= |q| && x !in h.links && q[p - 1] in h.links
    requires h.Known(At(q, 2 * p)) && h.Known(At(q, 2 * p + 1)) && h.Known(At(q, p / 2))
    requires h.links[q[p - 1]] == CellFor(q, p)
    ensures h.Replace(q[p - 1], x).links.Keys == h.links.Keys + {x}
    ensures h.Replace(q[p - 1], x).min == (if p == 1 then x else h.min)
  {
    NeighboursApart(q, p);
  }
}
