/** The binary heap on linked nodes: insertion, and removal of any member. */
module MinHeap {
  import opened Basics
  import opened HeapShape
  import opened HeapPath

  predicate LessThan(a: Node, b: Node) {
    a.key < b.key
  }

  // ---------- order ----------

  /** The node at a position is not less than the one above it. */
  ghost predicate InOrderAt(q: seq<Node>, p: int) {
    2 <= p <= |q| ==> q[p / 2 - 1].key <= q[p - 1].key
  }

  ghost predicate Ordered(q: seq<Node>) {
    forall p :: 2 <= p <= |q| ==> InOrderAt(q, p)
  }

  /** In order but for the node at `pos`, which may be less than the one above it. */
  ghost predicate UpPending(q: seq<Node>, pos: int) {
    && 1 <= pos <= |q| && (forall p :: 2 <= p <= |q| && p != pos ==> InOrderAt(q, p)) && Bridged(q, pos)
  }

  /** In order but for the node at `pos`, which may be out of order both ways. */
  ghost predicate Loose(q: seq<Node>, pos: int) {
    && 1 <= pos <= |q| && (forall p :: 2 <= p <= |q| && p != pos && p / 2 != pos ==> InOrderAt(q, p)) && Bridged(q, pos)
  }

  /** The nodes below `pos` are not less than the one above it. */
  ghost predicate Bridged(q: seq<Node>, pos: int) {
    pos >= 2 ==> forall p :: 2 <= p <= |q| && p / 2 == pos ==> q[pos / 2 - 1].key <= q[p - 1].key
  }

  lemma UpStep(q: seq<Node>, pos: int)
    requires UpPending(q, pos) && pos >= 2 && LessThan(q[pos - 1], q[pos / 2 - 1])
    ensures UpPending(Exchanged(q, pos / 2, pos), pos / 2)
  {
    var r, up := Exchanged(q, pos / 2, pos), pos / 2;
    forall p | 2 <= p <= |r| && p != up ensures InOrderAt(r, p) {
      assert p != pos ==> InOrderAt(q, p);
      assert up >= 2 ==> InOrderAt(q, up);
    }
    if up >= 2 {
      forall p | 2 <= p <= |r| && p / 2 == up ensures r[up / 2 - 1].key <= r[p - 1].key {
        assert InOrderAt(q, up);
        assert p != pos ==> InOrderAt(q, p);
      }
    }
  }

  lemma UpDone(q: seq<Node>, pos: int)
    requires UpPending(q, pos) && (pos >= 2 ==> !LessThan(q[pos - 1], q[pos / 2 - 1]))
    ensures Ordered(q)
  {
    assert InOrderAt(q, pos);
  }

  /** The node at `pos` goes down to `c`, the place of the lesser of its children. */
  lemma DownStep(q: seq<Node>, pos: int, c: int)
    requires Loose(q, pos) && Link(pos, c) && c <= |q| && LessThan(q[c - 1], q[pos - 1])
    requires forall p :: 2 <= p <= |q| && p / 2 == pos ==> q[c - 1].key <= q[p - 1].key
    ensures Loose(Exchanged(q, pos, c), c)
  {
    var r := Exchanged(q, pos, c);
    forall p | 2 <= p <= |r| && p != c && p / 2 != c ensures InOrderAt(r, p) {
      assert p != pos && p / 2 != pos ==> InOrderAt(q, p);
    }
    forall p | 2 <= p <= |r| && p / 2 == c ensures r[c / 2 - 1].key <= r[p - 1].key {
      assert InOrderAt(q, p);
    }
  }

  lemma DownDone(q: seq<Node>, pos: int)
    requires Loose(q, pos)
    requires forall p :: 2 <= p <= |q| && p / 2 == pos ==> !LessThan(q[p - 1], q[pos - 1])
    ensures UpPending(q, pos)
  {
    forall p | 2 <= p <= |q| && p != pos ensures InOrderAt(q, p) {
    }
  }

  /** The node in front is the least. */
  lemma {:induction false} FirstIsLeast(q: seq<Node>, p: int)
    requires Ordered(q) && 1 <= p <= |q|
    ensures q[0].key <= q[p - 1].key
    decreases p
  {
    if p >= 2 {
      FirstIsLeast(q, p / 2);
      assert InOrderAt(q, p);
    }
  }

  lemma AppendPending(q: seq<Node>, x: Node)
    requires Ordered(q)
    ensures UpPending(q + [x], |q| + 1)
  {
    var r := q + [x];
    forall p | 2 <= p <= |r| && p != |q| + 1 ensures InOrderAt(r, p) {
      assert InOrderAt(q, p);
    }
  }

  lemma InitOrdered(q: seq<Node>)
    requires Ordered(q) && q != []
    ensures Ordered(q[..|q| - 1])
  {
    var r := q[..|q| - 1];
    forall p | 2 <= p <= |r| ensures InOrderAt(r, p) {
      assert InOrderAt(q, p);
    }
  }

  /** Whatever takes the place of a member, only that place can be out of order. */
  lemma ReplacedLoose(q: seq<Node>, pos: int, x: Node)
    requires Ordered(q) && 1 <= pos <= |q|
    ensures Loose(q[pos - 1 := x], pos)
  {
    var r := q[pos - 1 := x];
    forall p | 2 <= p <= |r| && p != pos && p / 2 != pos ensures InOrderAt(r, p) {
      assert InOrderAt(q, p);
    }
    if pos >= 2 {
      forall p | 2 <= p <= |r| && p / 2 == pos ensures r[pos / 2 - 1].key <= r[p - 1].key {
        assert InOrderAt(q, p) && InOrderAt(q, pos);
      }
    }
  }

  // ---------- the heap ----------

  class MinHeap {
    var min: Node?
    var nelts: nat
    /** The value that `min` and the links of the member nodes hold, and the nodes in level order. */
    ghost var heap: Heap
    ghost var q: seq<Node>

    ghost predicate Mirrored()
      reads this`min, this`heap, heap.links.Keys
    {
      && min == heap.min
      && forall n :: n in heap.links.Keys ==>
           n.left == heap.links[n].left && n.right == heap.links[n].right && n.parent == heap.links[n].parent
    }

    ghost predicate Valid()
      reads this, heap.links.Keys
    {
      Mirrored() && Shaped(heap, q) && nelts == |q| && Ordered(q)
    }

    ghost function Members(): set<Node>
      reads this`heap
    {
      heap.links.Keys
    }

    constructor ()
      ensures Valid() && Members() == {}
    {
      min, nelts := null, 0;
      heap, q := Heap(null, map[]), [];
    }

    /** heap_min: a least member, or null for an empty heap. */
    method Min() returns (n: Node?)
      requires Valid()
      ensures n == min && (n == null <==> Members() == {})
      ensures n != null ==> n in Members() && forall x :: x in Members() ==> !LessThan(x, n)
    {
      n := min;
      LeastOf(heap, q);
    }

    method PutLeft(n: Node, v: Node?)
      requires Mirrored() && n in heap.links
      modifies this`heap, n`left
      ensures Mirrored() && heap == old(heap).PutLeft(n, v)
    {
      n.left := v;
      heap := heap.PutLeft(n, v);
    }

    method PutRight(n: Node, v: Node?)
      requires Mirrored() && n in heap.links
      modifies this`heap, n`right
      ensures Mirrored() && heap == old(heap).PutRight(n, v)
    {
      n.right := v;
      heap := heap.PutRight(n, v);
    }

    method PutParent(n: Node?, v: Node?)
      requires Mirrored() && heap.Known(n)
      modifies this`heap, (if n == null then {} else {n})`parent
      ensures Mirrored() && heap == old(heap).PutParent(n, v)
    {
      if n != null {
        n.parent := v;
        heap := heap.PutParent(n, v);
      }
    }

    method PutSlot(owner: Node?, onLeft: bool, v: Node?)
      requires Mirrored() && heap.Known(owner)
      modifies this`min, this`heap, if owner == null then {} else {owner}
      ensures Mirrored() && heap == old(heap).PutSlot(owner, onLeft, v)
    {
      if owner == null {
        min := v;
        heap := heap.(min := v);
      } else if onLeft {
        PutLeft(owner, v);
      } else {
        PutRight(owner, v);
      }
    }

    method PutLink(above: Node?, was: Node, to: Node)
      requires Mirrored() && heap.Known(above)
      modifies this`min, this`heap, if above == null then {} else {above}
      ensures Mirrored() && heap == old(heap).PutLink(above, was, to)
    {
      if above == null {
        min := to;
        heap := heap.(min := to);
      } else if above.left == was {
        PutLeft(above, to);
      } else {
        PutRight(above, to);
      }
    }

    method SwapEntries(parent: Node, child: Node)
      requires Mirrored() && parent in heap.links && child in heap.links
      modifies this`heap, parent, child
      ensures Mirrored()
      ensures heap == old(Heap(heap.min, heap.links[parent := heap.links[child]][child := heap.links[parent]]))
    {
      var left, right, up := parent.left, parent.right, parent.parent;
      parent.left, parent.right, parent.parent := child.left, child.right, child.parent;
      child.left, child.right, child.parent := left, right, up;
      heap := Heap(heap.min, heap.links[parent := heap.links[child]][child := heap.links[parent]]);
    }

    /** heap_node_swap, up to where the sibling gets its new parent. */
    method Exchange(parent: Node, child: Node)
      requires Mirrored() && heap.CanSwap(parent, child)
      modifies this`heap, heap.links.Keys
      ensures Mirrored() && heap == old(heap).Exchange(parent, child)
    {
      SwapEntries(parent, child);
      PutParent(parent, child);
      var sibling;
      if child.left == child {
        PutLeft(child, parent);
        sibling := child.right;
      } else {
        PutRight(child, parent);
        sibling := child.left;
      }
      PutParent(sibling, child);
    }

    /** The rest of heap_node_swap. */
    method Reattach(parent: Node, child: Node)
      requires Mirrored() && parent in heap.links && child in heap.links
      requires heap.Known(parent.left) && heap.Known(parent.right) && heap.Known(child.parent)
      requires parent.left != child && parent.right != child
      modifies this`min, this`heap, heap.links.Keys
      ensures Mirrored()
      ensures heap == old(heap.Reattach(parent, child, parent.left, parent.right, child.parent))
    {
      PutParent(parent.left, parent);
      PutParent(parent.right, parent);
      PutLink(child.parent, parent, child);
    }

    /** heap_node_swap: the two nodes exchange their positions. */
    method Swap(parent: Node, child: Node, ghost p: int, ghost c: int)
      requires Mirrored() && Shaped(heap, q) && Link(p, c) && c <= |q| && parent == q[p - 1] && child == q[c - 1]
      modifies this`min, this`heap, this`q, heap.links.Keys
      ensures Mirrored() && Shaped(heap, q) && q == Exchanged(old(q), p, c) && heap.links.Keys == old(heap.links.Keys)
    {
      SwapSteps(heap, q, p, c, parent, child);
      q := Exchanged(q, p, c);
      Exchange(parent, child);
      Reattach(parent, child);
    }

    /** The loop that moves a node up to where it belongs. */
    method SiftUp(node: Node, ghost pos0: int)
      requires Mirrored() && Shaped(heap, q) && UpPending(q, pos0) && node == q[pos0 - 1]
      modifies this`min, this`heap, this`q, heap.links.Keys
      ensures Mirrored() && Shaped(heap, q) && Ordered(q) && |q| == old(|q|) && heap.links.Keys == old(heap.links.Keys)
    {
      ghost var pos := pos0;
      LinksAt(heap, q, pos);
      while node.parent != null && LessThan(node, node.parent)
        invariant Mirrored() && Shaped(heap, q) && UpPending(q, pos) && node == q[pos - 1]
        invariant |q| == old(|q|) && heap.links.Keys == old(heap.links.Keys)
        invariant node in heap.links && node.parent == At(q, pos / 2)
        decreases pos
      {
        UpStep(q, pos);
        Swap(node.parent, node, pos / 2, pos);
        pos := pos / 2;
        LinksAt(heap, q, pos);
      }
      UpDone(q, pos);
    }

    /** The lesser child of `child` if it is less than that, or `child` itself. */
    method Smallest(child: Node, ghost pos: int) returns (smallest: Node, ghost c: int)
      requires Mirrored() && Shaped(heap, q) && 1 <= pos <= |q| && child == q[pos - 1]
      ensures 1 <= c <= |q| && smallest == q[c - 1] && (c == pos || (Link(pos, c) && LessThan(smallest, child)))
      ensures forall p :: 2 <= p <= |q| && p / 2 == pos ==> !LessThan(q[p - 1], smallest)
      ensures smallest == child <==> c == pos
    {
      LinksAt(heap, q, pos);
      smallest, c := child, pos;
      if child.left != null && LessThan(child.left, smallest) {
        smallest, c := child.left, 2 * pos;
      }
      if child.right != null && LessThan(child.right, smallest) {
        smallest, c := child.right, 2 * pos + 1;
      }
      if c != pos {
        Different(q, c, pos);
      }
    }

    /** The loop that moves a node down to where it is not less than anything below. */
    method SiftDown(child: Node, ghost pos0: int) returns (ghost pos: int)
      requires Mirrored() && Shaped(heap, q) && Loose(q, pos0) && child == q[pos0 - 1]
      modifies this`min, this`heap, this`q, heap.links.Keys
      ensures Mirrored() && Shaped(heap, q) && UpPending(q, pos) && child == q[pos - 1]
      ensures |q| == old(|q|) && heap.links.Keys == old(heap.links.Keys)
    {
      pos := pos0;
      var more := true;
      while more
        invariant Mirrored() && Shaped(heap, q) && Loose(q, pos) && child == q[pos - 1]
        invariant |q| == old(|q|) && heap.links.Keys == old(heap.links.Keys)
        invariant !more ==> UpPending(q, pos)
        decreases more, |q| - pos
      {
        more, pos := DownPass(child, pos);
      }
    }

    method DownPass(child: Node, ghost pos: int) returns (more: bool, ghost pos': int)
      requires Mirrored() && Shaped(heap, q) && Loose(q, pos) && child == q[pos - 1]
      modifies this`min, this`heap, this`q, heap.links.Keys
      ensures Mirrored() && Shaped(heap, q) && Loose(q, pos') && child == q[pos' - 1]
      ensures |q| == old(|q|) && heap.links.Keys == old(heap.links.Keys)
      ensures if more then pos < pos' else UpPending(q, pos')
    {
      var smallest;
      smallest, pos' := Smallest(child, pos);
      more := smallest != child;
      if more {
        DownStep(q, pos, pos');
        Swap(child, smallest, pos, pos');
      } else {
        DownDone(q, pos);
      }
    }

    /** Reads through a pointer to a link. */
    method Deref(owner: Node?, onLeft: bool, ghost pos: int) returns (n: Node?)
      requires Mirrored() && Shaped(heap, q) && 1 <= pos <= |q|
      requires owner == Above(q, pos) && (pos > 1 ==> onLeft == (pos % 2 == 0))
      ensures n == At(q, pos) == q[pos - 1] && heap.Known(n)
    {
      if pos > 1 {
        LinksAt(heap, q, pos / 2);
      }
      LinksAt(heap, q, pos);
      n := if owner == null then min else if onLeft then owner.left else owner.right;
    }

    /** Follows the path of position `n` from the root: a pointer to the link that leads there, and what is at
        the position above. */
    method Walk(n: int) returns (owner: Node?, onLeft: bool, above: Node?)
      requires Mirrored() && Shaped(heap, q) && 1 <= n <= |q| + 1
      ensures owner == Above(q, n) && above == At(q, n / 2) && (n > 1 ==> onLeft == (n % 2 == 0))
      ensures heap.Known(owner)
    {
      var path, k := PathTo(n);
      owner, onLeft, above := null, true, null;
      ghost var pos := 1;
      while k > 0
        invariant pos >= 1 && Follow(pos, path, k) == n
        invariant owner == Above(q, pos) && (pos > 1 ==> onLeft == (pos % 2 == 0)) && above == At(q, pos / 2)
        invariant heap.Known(owner)
        decreases k
      {
        FollowAbove(pos, path, k);
        above := Deref(owner, onLeft, pos);
        owner, onLeft := above, path % 2 == 0;
        pos := 2 * pos + path % 2;
        path, k := path / 2, k - 1;
      }
    }

    static method Clear(node: Node)
      modifies node
      ensures node.left == null && node.right == null && node.parent == null
    {
      node.left, node.right, node.parent := null, null, null;
    }

    method Enter(node: Node, above: Node?)
      requires Mirrored() && node !in heap.links && node.left == null && node.right == null
      modifies this`heap, node
      ensures Mirrored() && heap == old(heap).Add(node, Cell(null, null, above))
    {
      node.parent := above;
      heap := heap.Add(node, Cell(null, null, above));
    }

    /** Adds a node at the first free position and moves it up to where it belongs. */
    method Insert(node: Node)
      requires Valid() && node !in Members()
      modifies this, node, heap.links.Keys
      ensures Valid() && Members() == old(Members()) + {node}
    {
      Place(node);
      nelts := nelts + 1;
      SiftUp(node, nelts);
    }

    /** The new node goes to the first free position. */
    method Place(node: Node)
      requires Mirrored() && Shaped(heap, q) && Ordered(q) && nelts == |q| && node !in heap.links
      modifies this`min, this`heap, this`q, node, heap.links.Keys
      ensures Mirrored() && Shaped(heap, q) && UpPending(q, |q|) && |q| == old(|q|) + 1 && q[|q| - 1] == node
      ensures heap.links.Keys == old(heap.links.Keys) + {node}
    {
      Clear(node);
      var owner, onLeft, above := Walk(1 + nelts);
      Append(node, owner, onLeft, above);
    }

    method Append(node: Node, owner: Node?, onLeft: bool, above: Node?)
      requires Mirrored() && Shaped(heap, q) && Ordered(q) && node !in heap.links
      requires node.left == null && node.right == null && above == Above(q, |q| + 1) == owner
      requires heap.Known(owner) && (|q| >= 1 ==> onLeft == ((|q| + 1) % 2 == 0))
      modifies this`min, this`heap, this`q, node, heap.links.Keys
      ensures Mirrored() && Shaped(heap, q) && q == old(q) + [node] && UpPending(q, |q|)
      ensures heap.links.Keys == old(heap.links.Keys) + {node}
    {
      AppendShape(heap, q, node);
      AppendPending(q, node);
      AppendKeys(heap, node, above, onLeft);
      Enter(node, above);
      PutSlot(owner, onLeft, node);
      q := q + [node];
    }

    /** Takes the node at the last position out of the tree. */
    method UnlinkLast() returns (child: Node)
      requires Mirrored() && Shaped(heap, q) && Ordered(q) && q != [] && nelts == |q|
      modifies this, heap.links.Keys
      ensures Valid() && child !in heap.links && heap.links.Keys + {child} == old(heap.links.Keys)
    {
      var owner, onLeft, _ := Walk(nelts);
      child := Deref(owner, onLeft, nelts);
      nelts := nelts - 1;
      Unlink(owner, onLeft, child);
    }

    method Unlink(owner: Node?, onLeft: bool, ghost child: Node)
      requires Mirrored() && Shaped(heap, q) && Ordered(q) && q != [] && child == q[|q| - 1]
      requires owner == Above(q, |q|) && heap.Known(owner) && (|q| > 1 ==> onLeft == (|q| % 2 == 0))
      modifies this`min, this`heap, this`q, heap.links.Keys
      ensures Mirrored() && Shaped(heap, q) && Ordered(q) && q == old(q[..|q| - 1])
      ensures child !in heap.links && heap.links.Keys + {child} == old(heap.links.Keys)
    {
      UnlinkShape(heap, q);
      UnlinkKeys(heap, q, onLeft);
      InitOrdered(q);
      q := q[..|q| - 1];
      PutSlot(owner, onLeft, null);
      heap := heap.Forget(child);
    }

    method CopyLinks(child: Node, node: Node)
      requires Mirrored() && node in heap.links && child != node
      modifies this`heap, child
      ensures Mirrored() && heap == old(heap).Add(child, old(heap.links[node]))
      ensures child.left == node.left && child.right == node.right
    {
      child.left, child.right, child.parent := node.left, node.right, node.parent;
      heap := heap.Add(child, heap.links[node]);
    }

    /** The links of a member are copied to a node from outside, and the neighbours' links turned to it. */
    method Replace(child: Node, node: Node)
      requires Mirrored() && node in heap.links && child !in heap.links && node.left != node && node.right != node
      requires heap.Known(node.left) && heap.Known(node.right) && heap.Known(node.parent)
      modifies this`min, this`heap, child, heap.links.Keys
      ensures Mirrored() && heap == old(heap).Replace(node, child)
    {
      CopyLinks(child, node);
      PutParent(child.left, child);
      PutParent(child.right, child);
      PutLink(node.parent, node, child);
    }

    /** Puts the node that has been unlinked in the place of another. */
    method TakePlace(child: Node, node: Node, ghost pos: int)
      requires Mirrored() && Shaped(heap, q) && Ordered(q) && 1 <= pos <= |q| && node == q[pos - 1]
      requires child !in heap.links
      modifies this`min, this`heap, this`q, child, heap.links.Keys
      ensures Mirrored() && Shaped(heap, q) && Loose(q, pos) && child == q[pos - 1] && |q| == old(|q|)
      ensures heap.links.Keys == old(heap.links.Keys) - {node} + {child}
    {
      ReplaceShape(heap, q, pos, child);
      ReplaceOutside(heap, q, pos, child);
      NeighboursApart(q, pos);
      ReplacedLoose(q, pos, child);
      q := q[pos - 1 := child];
      Replace(child, node);
      heap := heap.Forget(node);
    }

    /** Puts the unlinked node in the place of the one to be deleted, and from there to where it belongs. */
    method Refill(child: Node, node: Node, ghost pos0: int)
      requires Mirrored() && Shaped(heap, q) && Ordered(q) && 1 <= pos0 <= |q| && node == q[pos0 - 1]
      requires child !in heap.links
      modifies this`min, this`heap, this`q, child, heap.links.Keys
      ensures Mirrored() && Shaped(heap, q) && Ordered(q) && |q| == old(|q|)
      ensures heap.links.Keys == old(heap.links.Keys) - {node} + {child}
    {
      TakePlace(child, node, pos0);
      ghost var pos := SiftDown(child, pos0);
      SiftUp(child, pos);
    }

    /** Removes a member, wherever it is. An empty heap has none, and nothing happens. */
    method Remove(node: Node?)
      requires Valid() && (Members() != {} ==> node != null && node in Members())
      modifies this, heap.links.Keys
      ensures Valid() && Members() == old(Members()) - {node}
    {
      if nelts == 0 {
        return;
      }
      var child := UnlinkLast();
      if child == node {
        // the source tests once more whether this was the root, but the link to the root is null by then
        return;
      }
      ghost var pos := PositionOf(heap, q, node);
      Refill(child, node, pos);
    }

    /** Removes the least member. */
    method Dequeue() returns (ghost n: Node?)
      requires Valid()
      modifies this, heap.links.Keys
      ensures n == old(min)
      ensures Valid() && Members() == old(Members()) - {n} && (n == null <==> old(Members()) == {})
      ensures n != null ==> n in old(Members()) && forall x :: x in old(Members()) ==> !LessThan(x, n)
    {
      LeastOf(heap, q);
      n := min;
      Remove(min);
    }

    method TakeOne() returns (n: Node)
      requires Valid() && min != null
      modifies this, heap.links.Keys
      ensures Valid() && n in old(Members()) && Members() == old(Members()) - {n}
      ensures forall x :: x in old(Members()) ==> n.key <= x.key
    {
      n := min;
      ghost var least := Dequeue();
    }

    /** Taking the least member again and again, as the timers do, yields all members in ascending order. */
    method DequeueAll() returns (out: seq<Node>)
      requires Valid()
      modifies this, heap.links.Keys
      ensures Valid() && Members() == {} && NoDup(out) && Set(out) == old(Members()) && Ascending(out)
    {
      out := [];
      while min != null
        invariant Valid() && Members() <= old(Members())
        invariant Taken(out, Members(), old(Members()))
        decreases Members()
      {
        var n := TakeOne();
        TakeLeast(out, old(Members()), n, Members() + {n});
        out := out + [n];
      }
      LeastOf(heap, q);
    }
  }

  ghost predicate Ascending(q: seq<Node>) {
    forall i, j :: 0 <= i < j < |q| ==> q[i].key <= q[j].key
  }

  /** `out` has been taken from `all` in ascending order, and `s` is left. */
  ghost predicate Taken(out: seq<Node>, s: set<Node>, all: set<Node>) {
    && NoDup(out) && Ascending(out) && Set(out) + s == all
    && forall i, x :: 0 <= i < |out| && x in s ==> out[i] != x && out[i].key <= x.key
  }

  lemma TakeLeast(out: seq<Node>, all: set<Node>, n: Node, s: set<Node>)
    requires Taken(out, s, all) && n in s && forall x :: x in s ==> n.key <= x.key
    ensures Taken(out + [n], s - {n}, all)
  {
    assert Set(out + [n]) == Set(out) + {n} by {
      assert (out + [n])[|out|] == n;
      forall x | x in out ensures x in out + [n] {
      }
    }
  }

  lemma UnlinkKeys(h: Heap, q: seq<Node>, onLeft: bool)
    requires Shaped(h, q) && q != [] && h.Known(Above(q, |q|))
    ensures var h' := h.PutSlot(Above(q, |q|), onLeft, null).Forget(q[|q| - 1]);
            h'.links.Keys + {q[|q| - 1]} == h.links.Keys && q[|q| - 1] !in h'.links
  {
    assert q[|q| - 1] in Set(q);
  }

  lemma PositionOf(h: Heap, q: seq<Node>, n: Node) returns (pos: int)
    requires Shaped(h, q) && n in h.links
    ensures 1 <= pos <= |q| && q[pos - 1] == n
  {
    assert n in Set(q);
    var i :| 0 <= i < |q| && q[i] == n;
    pos := i + 1;
  }

  lemma AppendKeys(h: Heap, x: Node, above: Node?, onLeft: bool)
    requires h.Known(above)
    ensures h.Add(x, Cell(null, null, above)).PutSlot(above, onLeft, x).links.Keys == h.links.Keys + {x}
  {
  }

  lemma LinksAt(h: Heap, q: seq<Node>, p: int)
    requires Shaped(h, q) && 1 <= p <= |q|
    ensures q[p - 1] in h.links && h.links[q[p - 1]] == CellFor(q, p)
    ensures h.Known(At(q, 2 * p)) && h.Known(At(q, 2 * p + 1)) && h.Known(At(q, p / 2))
  {
    assert CellOk(h.links, q, p);
    ShapedKnown(h, q, 2 * p);
    ShapedKnown(h, q, 2 * p + 1);
    ShapedKnown(h, q, p / 2);
  }

  lemma LeastOf(h: Heap, q: seq<Node>)
    requires Shaped(h, q) && Ordered(q)
    ensures h.min == null <==> h.links.Keys == {}
    ensures h.min != null ==> h.min in h.links && forall x :: x in h.links ==> !LessThan(x, h.min)
  {
    if q != [] {
      assert q[0] in Set(q);
      forall x | x in h.links ensures !LessThan(x, q[0]) {
        assert x in Set(q);
        var i :| 0 <= i < |q| && q[i] == x;
        FirstIsLeast(q, i + 1);
      }
    }
  }

  /** The two parts of heap_node_swap, as far as the code needs to know about them. */
  lemma SwapSteps(h: Heap, q: seq<Node>, p: int, c: int, parent: Node, child: Node)
    requires Shaped(h, q) && Link(p, c) && c <= |q| && parent == q[p - 1] && child == q[c - 1]
    ensures h.CanSwap(parent, child)
    ensures var h1 := h.Exchange(parent, child);
            && h1.links.Keys == h.links.Keys
            && h1.Known(h1.links[parent].left) && h1.Known(h1.links[parent].right) && h1.Known(h1.links[child].parent)
            && h1.links[parent].left != child && h1.links[parent].right != child
            && var h2 := h1.Reattach(parent, child, h1.links[parent].left, h1.links[parent].right, h1.links[child].parent);
            h2.links.Keys == h.links.Keys && Shaped(h2, Exchanged(q, p, c))
  {
    SwapShape(h, q, p, c);
    ExchangedNodes(q, p, c);
    AfterExchange(h, q, p, c);
    ShapedKnown(h, q, 2 * c);
    ShapedKnown(h, q, 2 * c + 1);
    ShapedKnown(h, q, p / 2);
  }

  lemma AfterExchange(h: Heap, q: seq<Node>, p: int, c: int)
    requires Shaped(h, q) && Link(p, c) && c <= |q|
    ensures h.CanSwap(q[p - 1], q[c - 1])
    ensures var h1 := h.Exchange(q[p - 1], q[c - 1]);
            && h1.links.Keys == h.links.Keys
            && h1.links[q[p - 1]].left == h.links[q[c - 1]].left == At(q, 2 * c)
            && h1.links[q[p - 1]].right == h.links[q[c - 1]].right == At(q, 2 * c + 1)
            && h1.links[q[c - 1]].parent == h.links[q[p - 1]].parent == At(q, p / 2)
    ensures At(q, 2 * c) != q[c - 1] && At(q, 2 * c + 1) != q[c - 1]
  {
    CanSwapAt(h, q, p, c);
    ApartAt(q, p, c);
    assert CellOk(h.links, q, p) && CellOk(h.links, q, c);
    ExchangeEffect(h, q[p - 1], q[c - 1], c == 2 * p, At(q, Sibling(p, c)), q[p - 1]);
    ExchangeEffect(h, q[p - 1], q[c - 1], c == 2 * p, At(q, Sibling(p, c)), q[c - 1]);
  }
}
