/** Circular doubly linked lists with a head node that is not an element. */
module Queue {
  import opened Basics

  class Node {
    var next: Node
    var prev: Node
    const internal: bool      // the flag of the handle the node is embedded in

    /** A node before it is linked anywhere: its fields hold something. */
    constructor (i: bool)
      ensures internal == i
    {
      next, prev, internal := this, this, i;
    }
  }

  /** Position 0 and the one behind the last element are the head. */
  ghost function At(h: Node, s: seq<Node>, i: int): Node
    requires 0 <= i <= |s| + 1
  {
    if 1 <= i <= |s| then s[i - 1] else h
  }

  ghost predicate Linked(h: Node, s: seq<Node>, i: int)
    requires 0 <= i <= |s|
    reads h, s
  {
    At(h, s, i).next == At(h, s, i + 1) && At(h, s, i + 1).prev == At(h, s, i)
  }

  /** `h` is the head of a list with exactly the elements `s`, in this order. */
  ghost predicate List(h: Node, s: seq<Node>)
    reads h, s
  {
    h !in s && NoDup(s) && forall i :: 0 <= i <= |s| ==> Linked(h, s, i)
  }

  /** QUEUE_EMPTY */
  method Empty(h: Node, ghost s: seq<Node>) returns (r: bool)
    requires List(h, s)
    ensures r <==> s == []
  {
    assert Linked(h, s, 0);
    r := h == h.next;
  }

  /** QUEUE_HEAD */
  method First(h: Node, ghost s: seq<Node>) returns (r: Node)
    requires List(h, s) && s != []
    ensures r == s[0]
  {
    assert Linked(h, s, 0);
    r := h.next;
  }

  /** QUEUE_INIT */
  method Init(q: Node)
    modifies q
    ensures List(q, [])
  {
    q.next := q;
    q.prev := q;
  }

  /** QUEUE_INSERT_TAIL */
  method InsertTail(h: Node, q: Node, ghost s: seq<Node>)
    requires List(h, s) && q != h && q !in s
    modifies h, q, s
    ensures List(h, s + [q])
  {
    assert Linked(h, s, |s|);
    q.next := h;
    q.prev := h.prev;
    q.prev.next := q;
    h.prev := q;
    forall i | 0 <= i <= |s| + 1 ensures Linked(h, s + [q], i) {
      if i < |s| {
        assert old(Linked(h, s, i));
      }
    }
  }

  /** QUEUE_INSERT_HEAD */
  method InsertHead(h: Node, q: Node, ghost s: seq<Node>)
    requires List(h, s) && q != h && q !in s
    modifies h, q, s
    ensures List(h, [q] + s)
  {
    assert Linked(h, s, 0);
    q.next := h.next;
    q.prev := h;
    q.next.prev := q;
    h.next := q;
    forall i | 0 <= i <= |s| + 1 ensures Linked(h, [q] + s, i) {
      if i >= 2 {
        assert old(Linked(h, s, i - 1));
      }
    }
  }

  ghost function Without(s: seq<Node>, k: int): seq<Node>
    requires 0 <= k < |s|
  {
    s[..k] + s[k + 1..]
  }

  /** QUEUE_REMOVE: the element goes, wherever it is; its own links stay as they are. */
  method Remove(q: Node, ghost h: Node, ghost s: seq<Node>, ghost k: int)
    requires List(h, s) && 0 <= k < |s| && s[k] == q
    modifies h, s
    ensures List(h, Without(s, k)) && q.next == old(q.next) && q.prev == old(q.prev)
  {
    assert Linked(h, s, k) && Linked(h, s, k + 1);
    q.prev.next := q.next;
    q.next.prev := q.prev;
    forall i | 0 <= i <= |s| - 1 ensures Linked(h, Without(s, k), i) {
      assert old(Linked(h, s, if i <= k then i else i + 1));
    }
  }

  /** QUEUE_ADD: all elements of another list are appended. What the other head points to afterwards is of
      no use. */
  method Add(h: Node, n: Node, ghost s: seq<Node>, ghost t: seq<Node>)
    requires List(h, s) && List(n, t) && h != n && h !in t && n !in s && forall x :: x in s ==> x !in t
    modifies h, n, s, t
    ensures List(h, s + t)
  {
    assert Linked(h, s, |s|) && Linked(n, t, 0) && Linked(n, t, |t|);
    h.prev.next := n.next;
    n.next.prev := h.prev;
    h.prev := n.prev;
    h.prev.next := h;
    Added(h, n, s, t);
    forall i | 0 <= i <= |s| + |t| ensures Linked(h, s + t, i) {
      assert i < |s| ==> old(Linked(h, s, i));
      assert |s| < i ==> old(Linked(n, t, i - |s|));
    }
  }

  lemma Added(h: Node, n: Node, s: seq<Node>, t: seq<Node>)
    requires NoDup(s) && NoDup(t) && forall x :: x in s ==> x !in t
    ensures NoDup(s + t)
  {
    forall i, j | 0 <= i < |s| && 0 <= j < |t| ensures s[i] != t[j] {
      assert s[i] in s && t[j] in t;
    }
  }

  /** QUEUE_SPLIT: the elements from `q` on become the list of the head `n`. */
  method Split(h: Node, q: Node, n: Node, ghost s: seq<Node>, ghost k: int)
    requires List(h, s) && 0 <= k < |s| && s[k] == q && n != h && n !in s
    modifies h, n, s
    ensures List(h, s[..k]) && List(n, s[k..])
  {
    assert Linked(h, s, |s|) && Linked(h, s, k);
    n.prev := h.prev;
    n.prev.next := n;
    n.next := q;
    h.prev := q.prev;
    h.prev.next := h;
    q.prev := n;
    forall i | 0 <= i <= k ensures Linked(h, s[..k], i) {
      assert i < k ==> old(Linked(h, s, i));
    }
    forall i | 0 <= i <= |s| - k ensures Linked(n, s[k..], i) {
      assert 0 < i ==> old(Linked(h, s, k + i));
    }
  }

  /** QUEUE_MOVE: all elements move over to another head. */
  method Move(h: Node, n: Node, ghost s: seq<Node>)
    requires List(h, s) && n != h && n !in s
    modifies h, n, s
    ensures List(h, []) && List(n, s)
  {
    var empty := Empty(h, s);
    if empty {
      Init(n);
    } else {
      var q := First(h, s);
      Split(h, q, n, s, 0);
      assert s[..0] == [] && s[0..] == s;
    }
  }
}
