/** The value-level picture of a red-black tree: the shape a set of linked nodes has, the context
    (the path back to the root) of a position inside it, and what every link field must hold for the
    nodes in memory to have that shape. */
module RbShape {

  datatype Color = Red | Black

  /** One element with its tree entry: three links and a colour. The user's comparison function is
      modelled by the order of an integer key. */
  class Node {
    const key: int
    var left: Node?
    var right: Node?
    var parent: Node?
    var color: Color

    constructor (k: int)
      ensures key == k
    {
      key := k;
    }

    function Child(onLeft: bool): Node?
      reads this
    {
      if onLeft then left else right
    }
  }

  datatype Tree = E | T(l: Tree, n: Node, c: Color, r: Tree)

  /** A position in a tree, innermost enclosing node first. `left` says on which side of `n` the
      position lies; `sib` is the subtree on the other side. */
  datatype Zip = Top | In(left: bool, n: Node, c: Color, sib: Tree, up: Zip)

  /** The node `n` with `t` on its left or right side and `sib` on the other. */
  ghost function Join(left: bool, t: Tree, n: Node, c: Color, sib: Tree): Tree {
    if left then T(t, n, c, sib) else T(sib, n, c, t)
  }

  ghost function Plug(z: Zip, t: Tree): Tree {
    match z
    case Top => t
    case In(left, n, c, sib, up) => Plug(up, Join(left, t, n, c, sib))
  }

  ghost function Depth(z: Zip): nat {
    match z
    case Top => 0
    case In(_, _, _, _, up) => 1 + Depth(up)
  }

  /** The context `inner` placed inside the context `outer`. */
  ghost function Nest(inner: Zip, outer: Zip): Zip {
    match inner
    case Top => outer
    case In(left, n, c, sib, up) => In(left, n, c, sib, Nest(up, outer))
  }

  // ---------- order and membership ----------

  ghost function InOrder(t: Tree): seq<Node> {
    match t
    case E => []
    case T(l, n, _, r) => InOrder(l) + [n] + InOrder(r)
  }

  ghost function Before(z: Zip): seq<Node> {
    match z
    case Top => []
    case In(left, n, _, sib, up) => if left then Before(up) else Before(up) + InOrder(sib) + [n]
  }

  ghost function After(z: Zip): seq<Node> {
    match z
    case Top => []
    case In(left, n, _, sib, up) => if left then [n] + InOrder(sib) + After(up) else After(up)
  }

  ghost predicate Sorted(s: seq<Node>) {
    forall i, j :: 0 <= i < j < |s| ==> s[i].key < s[j].key
  }

  ghost function Nodes(t: Tree): set<Node> {
    match t
    case E => {}
    case T(l, n, _, r) => Nodes(l) + {n} + Nodes(r)
  }

  ghost function ZipNodes(z: Zip): set<Node> {
    match z
    case Top => {}
    case In(_, n, _, sib, up) => {n} + Nodes(sib) + ZipNodes(up)
  }

  lemma {:induction false} InOrderPlug(z: Zip, t: Tree)
    ensures InOrder(Plug(z, t)) == Before(z) + InOrder(t) + After(z)
  {
    match z
    case Top =>
    case In(left, n, c, sib, up) =>
      InOrderPlug(up, Join(left, t, n, c, sib));
  }

  lemma {:induction false} NodesPlug(z: Zip, t: Tree)
    ensures Nodes(Plug(z, t)) == ZipNodes(z) + Nodes(t)
  {
    match z
    case Top =>
    case In(left, n, c, sib, up) =>
      NodesPlug(up, Join(left, t, n, c, sib));
  }

  lemma {:induction false} InOrderNodes(t: Tree, x: Node)
    ensures x in InOrder(t) <==> x in Nodes(t)
  {
    match t
    case E =>
    case T(l, n, c, r) =>
      InOrderNodes(l, x);
      InOrderNodes(r, x);
  }

  // ---------- every node occurs once ----------

  ghost predicate Distinct(t: Tree) {
    match t
    case E => true
    case T(l, n, _, r) =>
      Distinct(l) && Distinct(r) && n !in Nodes(l) && n !in Nodes(r) && Nodes(l) !! Nodes(r)
  }

  ghost predicate ZipDistinct(z: Zip) {
    match z
    case Top => true
    case In(_, n, _, sib, up) =>
      Distinct(sib) && n !in Nodes(sib) && n !in ZipNodes(up) && Nodes(sib) !! ZipNodes(up) && ZipDistinct(up)
  }

  lemma SortedParts(a: seq<Node>, n: Node, b: seq<Node>)
    ensures Sorted(a + [n] + b) <==>
            Sorted(a) && Sorted(b) && (forall x :: x in a ==> x.key < n.key) && (forall y :: y in b ==> n.key < y.key)
  {
    var s := a + [n] + b;
    if Sorted(s) {
      assert forall i :: 0 <= i < |a| ==> s[i] == a[i] && s[i].key < s[|a|].key;
      assert forall i :: 0 <= i < |b| ==> s[|a| + 1 + i] == b[i] && s[|a|].key < s[|a| + 1 + i].key;
    }
  }

  lemma {:induction false} SortedDistinct(t: Tree)
    requires Sorted(InOrder(t))
    ensures Distinct(t)
  {
    match t
    case E =>
    case T(l, n, c, r) =>
      SortedParts(InOrder(l), n, InOrder(r));
      SortedDistinct(l);
      SortedDistinct(r);
      forall x | x in Nodes(l) ensures x.key < n.key {
        InOrderNodes(l, x);
      }
      forall x | x in Nodes(r) ensures n.key < x.key {
        InOrderNodes(r, x);
      }
  }

  lemma {:induction false} DistinctPlug(z: Zip, t: Tree)
    ensures Distinct(Plug(z, t)) <==> Distinct(t) && ZipDistinct(z) && Nodes(t) !! ZipNodes(z)
  {
    match z
    case Top =>
    case In(left, n, c, sib, up) =>
      DistinctPlug(up, Join(left, t, n, c, sib));
  }

  ghost function RootOf(t: Tree): Node? {
    if t.E? then null else t.n
  }

  ghost function Par(z: Zip): Node? {
    if z.Top? then null else z.n
  }

  lemma {:induction false} RootPlug(z: Zip, t: Tree, t': Tree)
    ensures RootOf(Plug(z, t)) == if z.Top? then RootOf(t) else RootOf(Plug(z, t'))
  {
    match z
    case Top =>
    case In(left, n, c, sib, up) =>
      RootPlug(up, Join(left, t, n, c, sib), Join(left, t', n, c, sib));
  }
}
