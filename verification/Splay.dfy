/** The splay tree operations on linked nodes. Each mirror-image pair of branches is written once, with the
    side as a parameter, and the two splay loops once, with what they look for as a parameter. */
module Splay {
  import opened Basics
  import opened SplayShape

  /** What a splay looks for: the place of a key, or one of the two ends. */
  datatype Target = Least | Greatest | Key(k: int)

  function Compare(t: Target, n: Node): int {
    match t
    case Least => -1
    case Greatest => 1
    case Key(k) => if k < n.key then -1 else if k > n.key then 1 else 0
  }

  ghost predicate Sorted(q: seq<Node>) {
    forall i, j :: 0 <= i < j < |q| ==> q[i].key < q[j].key
  }

  ghost predicate AllAbove(t: Target, q: seq<Node>) {
    forall i :: 0 <= i < |q| ==> Compare(t, q[i]) < 0
  }

  ghost predicate AllBelow(t: Target, q: seq<Node>) {
    forall i :: 0 <= i < |q| ==> Compare(t, q[i]) > 0
  }

  /** What has been taken off lies on the right sides of the target. */
  ghost predicate Fenced(t: Target, w: Work) {
    AllBelow(t, Flat(false, w.lo)) && AllAbove(t, Flat(true, w.hi))
  }

  /** The root has nothing on the side of the target. */
  ghost predicate AtEnd(t: Target, w: Work)
    requires w.t.T?
  {
    (Compare(t, w.t.n) < 0 ==> w.t.l == E) && (Compare(t, w.t.n) > 0 ==> w.t.r == E)
  }

  lemma SortedParts(a: seq<Node>, b: seq<Node>, c: seq<Node>)
    requires Sorted(a + b + c)
    ensures Sorted(a) && Sorted(b) && Sorted(c)
    ensures forall i, j :: 0 <= i < |a| && 0 <= j < |b| ==> a[i].key < b[j].key
    ensures forall i, j :: 0 <= i < |b| && 0 <= j < |c| ==> b[i].key < c[j].key
  {
    var t := a + b + c;
    assert forall i :: 0 <= i < |a| ==> t[i] == a[i];
    assert forall i :: 0 <= i < |b| ==> t[|a| + i] == b[i];
    assert forall i :: 0 <= i < |c| ==> t[|a| + |b| + i] == c[i];
  }

  /** The target lies beyond the root on side `d`: so does it for everything on the other side. */
  lemma FarSide(t: Target, d: bool, near: Tree, x: Node, far: Tree)
    requires Sorted(InOrder(Join(d, near, x, far)))
    requires if d then Compare(t, x) < 0 else Compare(t, x) > 0
    ensures if d then AllAbove(t, [x] + InOrder(far)) else AllBelow(t, InOrder(far) + [x])
  {
    if d {
      SortedParts(InOrder(near), [x], InOrder(far));
      assert [x][0] == x;
    } else {
      SortedParts(InOrder(far), [x], InOrder(near));
      assert [x][0] == x;
    }
  }

  lemma HangFenced(t: Target, w: Work, d: bool, near: Tree, x: Node, far: Tree)
    requires Fenced(t, w) && w.t == Join(d, near, x, far) && Sorted(InOrder(w.t))
    requires if d then Compare(t, x) < 0 else Compare(t, x) > 0
    ensures Fenced(t, w.Hang(d, x, near, far))
  {
    FarSide(t, d, near, x, far);
    assert !d ==> Flat(false, w.lo) + InOrder(far) + [x] == Flat(false, w.lo) + (InOrder(far) + [x]);
    assert d ==> [x] + InOrder(far) + Flat(true, w.hi) == ([x] + InOrder(far)) + Flat(true, w.hi);
  }

  /** Where the loop stops, the root splits all nodes at the target. */
  lemma StopSplits(t: Target, w: Work)
    requires w.t.T? && Fenced(t, w) && AtEnd(t, w) && Sorted(w.Whole())
    ensures AllBelow(t, InOrder(w.Assembled().l)) && AllAbove(t, InOrder(w.Assembled().r))
  {
    CloseOrder(w.lo, false, w.t.l);
    CloseOrder(w.hi, true, w.t.r);
    SortedParts(Flat(false, w.lo), InOrder(w.t), Flat(true, w.hi));
    SortedParts(InOrder(w.t.l), [w.t.n], InOrder(w.t.r));
    RootSplits(t, InOrder(w.t.l), w.t.n, InOrder(w.t.r));
  }

  lemma RootSplits(t: Target, l: seq<Node>, n: Node, r: seq<Node>)
    requires Sorted(l + [n] + r) && (Compare(t, n) < 0 ==> l == []) && (Compare(t, n) > 0 ==> r == [])
    ensures AllBelow(t, l) && AllAbove(t, r)
  {
    SortedParts(l, [n], r);
    assert [n][0] == n;
  }

  class Head {
    var root: Node?
    /** The value that the root link and the links of the nodes hold. */
    ghost var heap: Heap
    ghost var tree: Tree

    ghost predicate Mirrored()
      reads this`root, this`heap, heap.links.Keys
    {
      && root == heap.root
      && forall n :: n in heap.links.Keys ==> n.left == heap.links[n].left && n.right == heap.links[n].right
    }

    ghost predicate Valid()
      reads this, heap.links.Keys
    {
      Mirrored() && Shaped(heap, tree) && Sorted(InOrder(tree))
    }

    /** The member nodes in ascending order. */
    ghost function Members(): seq<Node>
      reads this`tree
    {
      InOrder(tree)
    }

    constructor ()
      ensures Valid() && Members() == []
    {
      root := null;
      heap := Heap(null, map[]);
      tree := E;
    }

    method PutChild(n: Node, onLeft: bool, v: Node?)
      requires Mirrored() && n in heap.links
      modifies this`heap, n
      ensures Mirrored() && heap == old(heap).SetChild(n, onLeft, v)
    {
      if onLeft {
        n.left := v;
      } else {
        n.right := v;
      }
      heap := heap.SetChild(n, onLeft, v);
    }

    method PutRoot(n: Node?)
      requires Mirrored()
      modifies this`root, this`heap
      ensures Mirrored() && heap == old(heap).(root := n)
    {
      root := n;
      heap := heap.(root := n);
    }

    /** SPLAY_ROTATE_RIGHT or, with `d` false, SPLAY_ROTATE_LEFT. */
    method Rotate(d: bool, tmp: Node)
      requires Mirrored() && root != null && root in heap.links && tmp in heap.links
      modifies this`root, this`heap, heap.links.Keys
      ensures Mirrored() && heap == old(heap.Rotate(d, root, tmp))
    {
      PutChild(root, d, tmp.Child(!d));
      PutChild(tmp, !d, root);
      PutRoot(tmp);
    }

    /** SPLAY_LINKLEFT or, with `d` false, SPLAY_LINKRIGHT: the end of the chain is then the old root. */
    method Hang(d: bool, tip: Node) returns (tip': Node)
      requires Mirrored() && root != null && root in heap.links && tip in heap.links && tip != root
      modifies this`root, this`heap, heap.links.Keys
      ensures Mirrored() && heap == old(heap.Hang(d, tip, root)) && tip' == old(root)
    {
      PutChild(tip, d, root);
      tip' := root;
      PutRoot(root.Child(d));
    }

    /** SPLAY_ASSEMBLE. */
    method Assemble(node: Node, left: Node, right: Node)
      requires Mirrored() && root != null && root in heap.links
      requires node in heap.links && left in heap.links && right in heap.links
      requires left != root && right != root && node != root
      modifies this`heap, heap.links.Keys
      ensures Mirrored() && heap == old(heap.Assemble(node, left, right, root))
    {
      PutChild(left, false, root.left);
      PutChild(right, true, root.right);
      PutChild(root, true, node.right);
      PutChild(root, false, node.left);
    }

    ghost predicate InLoop(t: Target, node: Node, w: Work)
      reads this, heap.links.Keys
    {
      && Mirrored() && WorkAt(heap, w, node) && w.t.T? && root == w.t.n
      && Fenced(t, w) && Sorted(w.Whole())
    }

    method RotateStep(d: bool, tmp: Node, ghost t: Target, ghost node: Node, ghost w: Work) returns (ghost w': Work)
      requires InLoop(t, node, w) && root != null && tmp == root.Child(d)
      modifies this`root, this`heap, heap.links.Keys
      ensures InLoop(t, node, w') && root == tmp && heap.links.Keys == old(heap.links.Keys)
      ensures w'.lo == w.lo && w'.hi == w.hi && w'.Whole() == w.Whole() && Size(w'.t) == Size(w.t)
    {
      ghost var near, far := if d then w.t.l else w.t.r, if d then w.t.r else w.t.l;
      ghost var a, b := if d then near.l else near.r, if d then near.r else near.l;
      assert w.t == Join(d, Join(d, a, tmp, b), root, far);
      RotateWork(heap, w, node, d, a, tmp, b, root, far);
      RotateTree(d, a, tmp, b, root, far);
      w' := w.(t := Join(d, a, tmp, Join(d, b, root, far)));
      assert heap.Rotate(d, root, tmp).links.Keys == heap.links.Keys;
      Rotate(d, tmp);
    }

    method HangStep(d: bool, tip: Node, ghost t: Target, ghost node: Node, ghost w: Work)
      returns (tip': Node, ghost w': Work)
      requires InLoop(t, node, w) && root != null && root.Child(d) != null && tip == Tip(w.Side(d), node)
      requires if d then Compare(t, root) < 0 else Compare(t, root) > 0
      modifies this`root, this`heap, heap.links.Keys
      ensures InLoop(t, node, w') && tip' == Tip(w'.Side(d), node) && heap.links.Keys == old(heap.links.Keys)
      ensures w'.Side(!d) == w.Side(!d) && w'.Whole() == w.Whole() && Size(w'.t) < Size(w.t)
    {
      ghost var near, far := if d then w.t.l else w.t.r, if d then w.t.r else w.t.l;
      TipApart(heap, w, node, d);
      HangWork(heap, w, node, d, near, root, far);
      SortedParts(Flat(false, w.lo), InOrder(w.t), Flat(true, w.hi));
      HangFenced(t, w, d, near, root, far);
      w' := w.Hang(d, root, near, far);
      assert heap.Hang(d, tip, root).links.Keys == heap.links.Keys;
      tip' := Hang(d, tip);
    }

    /** One pass of the loop, towards side `d`. */
    method Pass(d: bool, t: Target, ghost node: Node, tip: Node, ghost w: Work)
      returns (more: bool, tip': Node, ghost w': Work)
      requires InLoop(t, node, w) && root != null && tip == Tip(w.Side(d), node)
      requires if d then Compare(t, root) < 0 else Compare(t, root) > 0
      modifies this`root, this`heap, heap.links.Keys
      ensures InLoop(t, node, w') && tip' == Tip(w'.Side(d), node) && heap.links.Keys == old(heap.links.Keys)
      ensures w'.Side(!d) == w.Side(!d) && w'.Whole() == w.Whole()
      ensures if more then Size(w'.t) < Size(w.t) else AtEnd(t, w')
    {
      more, tip', w' := false, tip, w;
      var tmp := root.Child(d);
      if tmp == null {
        return;
      }
      if if d then Compare(t, tmp) < 0 else Compare(t, tmp) > 0 {
        w' := RotateStep(d, tmp, t, node, w);
        if root.Child(d) == null {
          return;
        }
      }
      more := true;
      tip', w' := HangStep(d, tip, t, node, w');
    }

    /** Brings the target, or a neighbour of where it would be, to the root; the members keep their order. */
    method Splay(t: Target)
      requires Valid() && root != null
      modifies this, heap.links.Keys
      ensures Valid() && Members() == old(Members()) && heap.links.Keys == old(heap.links.Keys)
      ensures tree.T? && root == tree.n && AllBelow(t, InOrder(tree.l)) && AllAbove(t, InOrder(tree.r))
    {
      var node := new Node(0);
      StartWork(heap, tree, node);
      Enter(node);
      ghost var w := Work(tree, End, End);
      var left, right := node, node;
      var comp, more := Compare(t, root), true;
      while more && comp != 0
        invariant InLoop(t, node, w) && left == Tip(w.lo, node) && right == Tip(w.hi, node)
        invariant comp == Compare(t, w.t.n) && (!more ==> AtEnd(t, w)) && w.Whole() == old(InOrder(tree)) && fresh(node)
        invariant heap.links.Keys == old(heap.links.Keys) + {node}
        decreases more, Size(w.t)
      {
        if comp < 0 {
          more, right, w := Pass(true, t, node, right, w);
        } else {
          more, left, w := Pass(false, t, node, left, w);
        }
        comp := Compare(t, root);
      }
      Finish(t, node, left, right, w);
    }

    /** The dummy node joins the nodes. */
    ghost method Enter(node: Node)
      requires Mirrored() && node.left == null && node.right == null
      modifies this`heap
      ensures Mirrored() && heap == old(heap).(links := old(heap).links[node := Cell(null, null)])
    {
      heap := heap.(links := heap.links[node := Cell(null, null)]);
    }

    /** SPLAY_ASSEMBLE at the end of the loop, and the dummy node goes. */
    method Finish(ghost t: Target, node: Node, left: Node, right: Node, ghost w: Work)
      requires InLoop(t, node, w) && left == Tip(w.lo, node) && right == Tip(w.hi, node) && AtEnd(t, w)
      modifies this, heap.links.Keys
      ensures Valid() && Members() == w.Whole() && heap.links.Keys + {node} == old(heap.links.Keys)
      ensures tree.T? && root == tree.n && AllBelow(t, InOrder(tree.l)) && AllAbove(t, InOrder(tree.r))
    {
      StopSplits(t, w);
      AssembledOrder(w);
      ReadyToAssemble(heap, w, node);
      AssembleAll(node, left, right, w.Assembled());
    }

    method AssembleAll(node: Node, left: Node, right: Node, ghost t: Tree)
      requires Mirrored() && root != null && root in heap.links
      requires node in heap.links && left in heap.links && right in heap.links
      requires left != root && right != root && node != root
      requires Shaped(Forget(heap.Assemble(node, left, right, root), node), t)
      modifies this`heap, this`tree, heap.links.Keys
      ensures Mirrored() && heap == Forget(old(heap.Assemble(node, left, right, root)), node) && tree == t
    {
      Assemble(node, left, right);
      Leave(node);
      tree := t;
    }

    /** The dummy node goes. */
    ghost method Leave(node: Node)
      requires Mirrored()
      modifies this`heap
      ensures Mirrored() && heap == Forget(old(heap), node)
    {
      heap := Forget(heap, node);
    }

    /** SPLAY_INSERT: a member with an equal key is returned and stays the only one. */
    method Insert(elm: Node) returns (r: Node?)
      requires Valid()
      modifies this, elm, heap.links.Keys
      ensures Valid() && (r == null <==> forall x :: x in old(heap.links) ==> x.key != elm.key)
      ensures r != null ==> r in old(heap.links) && r.key == elm.key && Members() == old(Members())
      ensures Set(Members()) == old(Set(Members())) + if r == null then {elm} else {}
    {
      if root == null {
        InsertFirst(elm);
        return null;
      }
      Splay(Key(elm.key));
      var comp := Compare(Key(elm.key), root);
      RootOnly(tree, elm.key);
      if comp == 0 {
        return root;
      }
      InsertTop(comp < 0, elm);
      return null;
    }

    method InsertFirst(elm: Node)
      requires Valid() && root == null
      modifies this, elm
      ensures Valid() && Members() == [elm]
    {
      elm.left, elm.right := null, null;
      root := elm;
      heap := Heap(elm, map[elm := Cell(null, null)]);
      tree := T(E, elm, E);
      assert InOrder(tree) == [elm];
      assert heap.links.Keys == Set([elm]);
      assert TreeAt(heap.links, E);
    }

    /** The new node goes on top of the root, on the far side of which is everything beyond it. */
    method InsertTop(d: bool, elm: Node)
      requires Valid() && tree.T? && elm !in heap.links && root == tree.n
      requires if d then elm.key < root.key else elm.key > root.key
      requires AllBelow(Key(elm.key), InOrder(tree.l)) && AllAbove(Key(elm.key), InOrder(tree.r))
      modifies this, elm, heap.links.Keys
      ensures Valid() && Set(Members()) == old(Set(Members())) + {elm}
    {
      OnTopWhole(heap, d, tree, elm);
      tree := TopTree(d, tree, elm);
      PutOnTop(d, elm);
    }

    method PutOnTop(d: bool, elm: Node)
      requires Mirrored() && root != null && root in heap.links && elm !in heap.links
      modifies this`root, this`heap, elm, root
      ensures Mirrored() && heap == old(OnTop(heap, d, elm, root))
    {
      ghost var h := heap;
      if d {
        elm.left, elm.right := root.left, root;
        root.left := null;
      } else {
        elm.right, elm.left := root.right, root;
        root.right := null;
      }
      heap := OnTop(h, d, elm, root);
      root := elm;
    }

    /** SPLAY_FIND. */
    method Find(elm: Node) returns (r: Node?)
      requires Valid()
      modifies this, heap.links.Keys
      ensures Valid() && Members() == old(Members())
      ensures r == null <==> forall x :: x in heap.links ==> x.key != elm.key
      ensures r != null ==> r in heap.links && r.key == elm.key
    {
      if root == null {
        return null;
      }
      Splay(Key(elm.key));
      RootOnly(tree, elm.key);
      if Compare(Key(elm.key), root) == 0 {
        return root;
      }
      return null;
    }

    /** SPLAY_REMOVE: the member with the key of `elm` goes, and `elm` itself is returned. */
    method Remove(elm: Node) returns (r: Node?)
      requires Valid()
      modifies this, heap.links.Keys
      ensures Valid() && (r == null <==> forall x :: x in old(heap.links) ==> x.key != elm.key)
      ensures r != null ==> r == elm
      ensures Set(Members()) == set x | x in old(Set(Members())) && x.key != elm.key
    {
      if root == null {
        return null;
      }
      Splay(Key(elm.key));
      RootOnly(tree, elm.key);
      if Compare(Key(elm.key), root) == 0 {
        RemovedSet(tree, elm.key);
        TakeRoot(Key(elm.key));
        return elm;
      }
      return null;
    }

    /** The root goes. */
    method TakeRoot(t: Target)
      requires Valid() && tree.T? && root == tree.n && AllBelow(t, InOrder(tree.l))
      modifies this, heap.links.Keys
      ensures Valid() && Members() == old(InOrder(tree.l) + InOrder(tree.r))
    {
      if root.left == null {
        NothingBefore(InOrder(tree.r));
        DropRoot();
      } else {
        RemoveTop(t);
      }
    }

    /** The root has no left child: its right child takes its place. */
    method DropRoot()
      requires Valid() && tree.T? && tree.l == E && root == tree.n
      modifies this
      ensures Valid() && Members() == old(InOrder(tree.r))
    {
      PartShape(heap, tree, tree.r);
      SortedParts([], [root], InOrder(tree.r));
      assert InOrder(tree) == [] + [root] + InOrder(tree.r);
      root := root.right;
      heap := Heap(RootOf(tree.r), Only(heap.links, InOrder(tree.r)));
      tree := tree.r;
    }

    ghost predicate Holds(m: Links)
      reads m.Keys
    {
      forall n :: n in m.Keys ==> n.left == m[n].left && n.right == m[n].right
    }

    /** The greatest node of the left subtree becomes the root and takes the right subtree. */
    method RemoveTop(t: Target)
      requires Valid() && tree.T? && tree.l != E && root == tree.n && AllBelow(t, InOrder(tree.l))
      modifies this, heap.links.Keys
      ensures Valid() && Members() == old(InOrder(tree.l) + InOrder(tree.r))
    {
      var tmp := root.right;
      ghost var l, r := tree.l, tree.r;
      ghost var links := Only(heap.links, InOrder(r));
      RightPart(heap, tree);
      SplayLeft(t);
      Attach(tmp, r, links);
    }

    /** The left subtree alone, its greatest node at the root. */
    method SplayLeft(t: Target)
      requires Valid() && tree.T? && tree.l != E && root == tree.n && AllBelow(t, InOrder(tree.l))
      modifies this, Set(InOrder(tree.l))
      ensures Valid() && Members() == old(InOrder(tree.l)) && tree.T? && tree.r == E && root == tree.n
    {
      ghost var l := tree.l;
      Detach();
      Splay(t);
      NothingAbove(t, tree, InOrder(l));
    }

    /** The left subtree alone. */
    method Detach()
      requires Valid() && tree.T? && tree.l != E && root == tree.n
      modifies this
      ensures Valid() && tree == old(tree.l) && heap.links.Keys == Set(InOrder(tree)) <= old(heap.links.Keys)
    {
      PartShape(heap, tree, tree.l);
      SortedParts(InOrder(tree.l), [root], InOrder(tree.r));
      root := root.left;
      heap := Heap(RootOf(tree.l), Only(heap.links, InOrder(tree.l)));
      tree := tree.l;
    }

    /** The right subtree back again. */
    method Attach(tmp: Node?, ghost r: Tree, ghost links: Links)
      requires Valid() && tree.T? && tree.r == E && root == tree.n && tmp == RootOf(r)
      requires Holds(links) && TreeAt(links, r) && links.Keys == Set(InOrder(r)) && Sorted(InOrder(tree) + InOrder(r))
      modifies this, root
      ensures Valid() && Members() == old(Members()) + InOrder(r)
    {
      assert InOrder(tree) == InOrder(tree.l) + [root];
      SortedNoDup(InOrder(tree) + InOrder(r));
      TogetherShape(heap, tree.l, root, links, r);
      tree := T(tree.l, root, r);
      PutRight(tmp, links);
    }

    method PutRight(tmp: Node?, ghost links: Links)
      requires Mirrored() && Holds(links) && root != null && root in heap.links
      modifies this`heap, root
      ensures Mirrored() && root == old(root)
      ensures heap == old(Heap(root, (heap.links + links)[root := heap.links[root].SetChild(false, tmp)]))
    {
      root.right := tmp;
      heap := Heap(root, (heap.links + links)[root := heap.links[root].SetChild(false, tmp)]);
    }

    /** SPLAY_NEXT: the next member in ascending order. */
    method Next(elm: Node) returns (r: Node?)
      requires Valid() && elm in heap.links
      modifies this, heap.links.Keys
      ensures Valid() && Members() == old(Members())
      ensures r == null <==> forall x :: x in heap.links ==> x.key <= elm.key
      ensures r != null ==> r in heap.links && r.key > elm.key
      ensures r != null ==> forall x :: x in heap.links && x.key > elm.key ==> r.key <= x.key
    {
      assert elm in Set(InOrder(tree)) && root != null;
      Splay(Key(elm.key));
      RootOnly(tree, elm.key);
      r := LeftmostOf(elm.right, tree.r);
      NextAfter(tree, r);
    }

    /** The loop along the left children. */
    method LeftmostOf(elm: Node?, ghost t: Tree) returns (r: Node?)
      requires Mirrored() && TreeAt(heap.links, t) && elm == RootOf(t)
      ensures if t == E then r == null else InOrder(t) != [] && r == InOrder(t)[0]
    {
      r := elm;
      if r != null {
        ghost var s := t;
        while r.left != null
          invariant r != null && s.T? && r == s.n && TreeAt(heap.links, s)
          invariant InOrder(s) != [] && InOrder(t) != [] && InOrder(s)[0] == InOrder(t)[0]
          decreases s
        {
          r, s := r.left, s.l;
        }
      }
    }

    /** SPLAY_MIN and SPLAY_MAX. */
    method MinMax(greatest: bool) returns (r: Node?)
      requires Valid()
      modifies this, heap.links.Keys
      ensures Valid() && Members() == old(Members())
      ensures if Members() == [] then r == null
              else r == if greatest then Members()[|Members()| - 1] else Members()[0]
    {
      if root == null {
        return null;
      }
      Splay(if greatest then Greatest else Least);
      r := root;
      EndRoot(tree, greatest);
    }
  }

  lemma SortedNoDup(q: seq<Node>)
    requires Sorted(q)
    ensures NoDup(q)
  {
  }

  /** The right subtree has its links to itself, and what is left without the root is still in order. */
  lemma RightPart(h: Heap, t: Tree)
    requires Shaped(h, t) && t.T? && Sorted(InOrder(t))
    ensures var links := Only(h.links, InOrder(t.r));
            && TreeAt(links, t.r) && links.Keys == Set(InOrder(t.r))
            && forall n :: n in links ==> n in h.links && links[n] == h.links[n]
    ensures Sorted(InOrder(t.l) + InOrder(t.r)) && h.links[t.n].right == RootOf(t.r)
    ensures Set(InOrder(t.l)) !! Set(InOrder(t.r))
  {
    TreeParts(t);
    PartShape(h, t, t.r);
    SortedParts(InOrder(t.l), [t.n], InOrder(t.r));
    assert [t.n][0] == t.n;
  }

  lemma NothingBefore(q: seq<Node>)
    ensures InOrder(E) + q == q
  {
  }

  lemma NextAfter(t: Tree, r: Node?)
    requires t.T? && Sorted(InOrder(t)) && (if t.r == E then r == null else InOrder(t.r) != [] && r == InOrder(t.r)[0])
    ensures r == null <==> forall x :: x in InOrder(t) ==> x.key <= t.n.key
    ensures r != null ==> r in InOrder(t) && r.key > t.n.key
    ensures r != null ==> forall x :: x in InOrder(t) && x.key > t.n.key ==> r.key <= x.key
  {
    HasNodes(t.r);
    FirstBehind(InOrder(t.l), t.n, InOrder(t.r));
  }

  /** In ascending order the first behind a node is the least one above it. */
  lemma FirstBehind(a: seq<Node>, n: Node, b: seq<Node>)
    requires Sorted(a + [n] + b)
    ensures b == [] ==> forall x :: x in a + [n] + b ==> x.key <= n.key
    ensures b != [] ==> b[0] in a + [n] + b && b[0].key > n.key
    ensures b != [] ==> forall x :: x in a + [n] + b && x.key > n.key ==> b[0].key <= x.key
  {
    SortedParts(a, [n], b);
    assert [n][0] == n;
    assert forall x :: x in a + [n] + b <==> x in a || x == n || x in b;
    assert forall x :: x in a ==> x.key < n.key;
  }

  lemma EndRoot(t: Tree, greatest: bool)
    requires t.T? && var goal := if greatest then Greatest else Least;
                     AllBelow(goal, InOrder(t.l)) && AllAbove(goal, InOrder(t.r))
    ensures InOrder(t) != [] && t.n == if greatest then InOrder(t)[|InOrder(t)| - 1] else InOrder(t)[0]
  {
  }

  lemma NothingAbove(t: Target, tree: Tree, all: seq<Node>)
    requires tree.T? && InOrder(tree) == all && AllBelow(t, all) && AllAbove(t, InOrder(tree.r))
    ensures tree.r == E && InOrder(tree) == InOrder(tree.l) + [tree.n]
  {
    HasNodes(tree.r);
    var k := |InOrder(tree.l)| + 1;
    assert forall i :: 0 <= i < |InOrder(tree.r)| ==> all[k + i] == InOrder(tree.r)[i];
    NotBoth(t, InOrder(tree.r));
  }

  lemma NotBoth(t: Target, q: seq<Node>)
    requires AllAbove(t, q)
    ensures q != [] ==> !AllBelow(t, q)
  {
    if q != [] {
      assert Compare(t, q[0]) < 0;
    }
  }

  lemma HasNodes(t: Tree)
    ensures InOrder(t) == [] <==> t == E
  {
  }

  lemma RemovedSet(t: Tree, k: int)
    requires t.T? && t.n.key == k && forall x :: x in InOrder(t) && x.key == k ==> x == t.n
    requires Sorted(InOrder(t))
    ensures Set(InOrder(t.l) + InOrder(t.r)) == set x | x in Set(InOrder(t)) && x.key != k
  {
    SortedParts(InOrder(t.l), [t.n], InOrder(t.r));
    assert [t.n][0] == t.n;
    assert forall x :: x in InOrder(t.l) + InOrder(t.r) ==> x in InOrder(t);
    assert forall x :: x in InOrder(t.l) || x in InOrder(t.r) ==> x.key != k;
  }

  /** After a splay only the root can have the key looked for. */
  lemma RootOnly(t: Tree, k: int)
    requires t.T? && AllBelow(Key(k), InOrder(t.l)) && AllAbove(Key(k), InOrder(t.r))
    ensures t.n in InOrder(t) && forall x :: x in InOrder(t) && x.key == k ==> x == t.n
  {
    assert forall x :: x in InOrder(t.l) ==> Compare(Key(k), x) > 0;
    assert forall x :: x in InOrder(t.r) ==> Compare(Key(k), x) < 0;
  }

  ghost function TopTree(d: bool, t: Tree, elm: Node): Tree
    requires t.T?
  {
    Join(d, if d then t.l else t.r, elm, Join(d, E, t.n, if d then t.r else t.l))
  }

  /** A node put on top of the root leaves a search tree with one node more. */
  lemma OnTopWhole(h: Heap, d: bool, t: Tree, elm: Node)
    requires Shaped(h, t) && t.T? && Sorted(InOrder(t)) && elm !in h.links
    requires if d then elm.key < t.n.key else elm.key > t.n.key
    requires AllBelow(Key(elm.key), InOrder(t.l)) && AllAbove(Key(elm.key), InOrder(t.r))
    ensures t.n in h.links && Shaped(OnTop(h, d, elm, t.n), TopTree(d, t, elm)) && Sorted(InOrder(TopTree(d, t, elm)))
    ensures Set(InOrder(TopTree(d, t, elm))) == Set(InOrder(t)) + {elm}
  {
    var near, far := if d then t.l else t.r, if d then t.r else t.l;
    OnTopShape(h, d, near, t.n, far, elm);
    assert elm !in InOrder(t) by {
      assert elm !in Set(InOrder(t));
    }
    OnTopNodes(d, near, t.n, far, elm);
    OnTopSorted(d, near, t.n, far, elm);
  }

  lemma OnTopSorted(d: bool, near: Tree, x: Node, far: Tree, elm: Node)
    requires Sorted(InOrder(Join(d, near, x, far))) && (if d then elm.key < x.key else elm.key > x.key)
    requires if d then AllBelow(Key(elm.key), InOrder(near)) else AllAbove(Key(elm.key), InOrder(near))
    ensures Sorted(InOrder(Join(d, near, elm, Join(d, E, x, far))))
  {
    OnTopOrder(d, near, x, far, elm);
    if d {
      SortedBetween(InOrder(near), elm, x, InOrder(far));
    } else {
      SortedBehind(InOrder(far), x, elm, InOrder(near));
    }
  }

  lemma SortedBehind(a: seq<Node>, x: Node, elm: Node, b: seq<Node>)
    requires Sorted(a + [x] + b) && x.key < elm.key && AllAbove(Key(elm.key), b)
    ensures Sorted(a + [x] + [elm] + b)
  {
    SortedParts(a, [x], b);
    assert [x][0] == x;
  }

  lemma SortedBetween(a: seq<Node>, elm: Node, x: Node, b: seq<Node>)
    requires Sorted(a + [x] + b) && elm.key < x.key && AllBelow(Key(elm.key), a)
    ensures Sorted(a + [elm] + ([x] + b))
  {
    SortedParts(a, [x], b);
    assert [x][0] == x;
  }

  lemma ReadyToAssemble(h: Heap, w: Work, dummy: Node)
    requires WorkAt(h, w, dummy) && w.t.T?
    ensures var lo, hi, x := Tip(w.lo, dummy), Tip(w.hi, dummy), w.t.n;
            && lo in h.links && hi in h.links && x in h.links && dummy in h.links && lo != x && hi != x && dummy != x
            && var h' := Forget(h.Assemble(dummy, lo, hi, x), dummy);
            Shaped(h', w.Assembled()) && h'.links.Keys + {dummy} == h.links.Keys
    ensures InOrder(w.Assembled()) == w.Whole()
  {
    AssembleWork(h, w, dummy);
    TipApart(h, w, dummy, true);
    TipApart(h, w, dummy, false);
  }

  lemma TipApart(h: Heap, w: Work, dummy: Node, d: bool)
    requires WorkAt(h, w, dummy) && w.t.T?
    ensures Tip(w.Side(d), dummy) != w.t.n && dummy != w.t.n
  {
    Parts(h, w, dummy);
    assert w.t.n in InOrder(w.t);
    assert w.Side(d).Link? ==> w.Side(d).n in Flat(d, w.Side(d));
  }

  lemma StartWork(h: Heap, t: Tree, dummy: Node)
    requires Shaped(h, t) && dummy !in h.links
    ensures WorkAt(h.(links := h.links[dummy := Cell(null, null)]), Work(t, End, End), dummy)
    ensures Work(t, End, End).Whole() == InOrder(t)
  {
    var m := h.links[dummy := Cell(null, null)];
    StartOrder(t);
    assert dummy !in InOrder(t) by {
      assert dummy !in Set(InOrder(t));
    }
    TreeKept(h.links, m, t);
    assert m.Keys == h.links.Keys + {dummy};
  }

  lemma StartOrder(t: Tree)
    ensures Work(t, End, End).Whole() == InOrder(t)
  {
    assert [] + InOrder(t) + [] == InOrder(t);
  }
}
