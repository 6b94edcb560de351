/** The sorted sequence of members that a search tree stands for: where a key lies in it, and what it
    becomes when a node enters or leaves. */
module RbOrder {
  import opened RbShape
  import opened RbBalance

  /** `s` with `n` put before the first member whose key is larger. */
  ghost function Inserted(s: seq<Node>, n: Node): (r: seq<Node>)
    ensures n in r && (forall x :: x in s ==> x in r) && (forall x :: x in r ==> x in s || x == n)
  {
    if s == [] then [n] else if n.key < s[0].key then [n] + s else [s[0]] + Inserted(s[1..], n)
  }

  ghost function Removed(s: seq<Node>, n: Node): seq<Node> {
    if s == [] then [] else if s[0] == n then s[1..] else [s[0]] + Removed(s[1..], n)
  }

  ghost predicate AllBelow(s: seq<Node>, k: int) {
    forall x :: x in s ==> x.key < k
  }

  ghost predicate AllAbove(s: seq<Node>, k: int) {
    forall x :: x in s ==> k < x.key
  }

  lemma {:induction false} InsertedBetween(a: seq<Node>, n: Node, b: seq<Node>)
    requires AllBelow(a, n.key) && AllAbove(b, n.key)
    ensures Inserted(a + b, n) == a + [n] + b
  {
    if a == [] {
      assert a + b == b;
      assert b != [] ==> b[0] in b;
    } else {
      assert (a + b)[0] == a[0] && a[0] in a && (a + b)[1..] == a[1..] + b;
      assert forall x :: x in a[1..] ==> x in a;
      InsertedBetween(a[1..], n, b);
    }
  }

  lemma {:induction false} RemovedBetween(a: seq<Node>, n: Node, b: seq<Node>)
    requires n !in a
    ensures Removed(a + [n] + b, n) == a + b
  {
    if a == [] {
      assert a + [n] + b == [n] + b;
      assert a + b == b;
    } else {
      var s := a + [n] + b;
      assert s[0] == a[0] && a[0] in a && s[1..] == a[1..] + [n] + b;
      assert forall x :: x in a[1..] ==> x in a;
      RemovedBetween(a[1..], n, b);
      assert [a[0]] + (a[1..] + b) == a + b;
    }
  }

  lemma {:induction false} InsertedSorted(s: seq<Node>, n: Node)
    requires Sorted(s) && forall x :: x in s ==> x.key != n.key
    ensures Sorted(Inserted(s, n))
  {
    if s != [] {
      FirstIsLeast(s);
      assert s[0] in s;
      if s[0].key < n.key {
        InsertedSorted(s[1..], n);
        SortedCons(s[0], Inserted(s[1..], n));
      } else {
        SortedCons(n, s);
      }
    }
  }

  lemma FirstIsLeast(s: seq<Node>)
    requires Sorted(s) && s != []
    ensures Sorted(s[1..]) && AllAbove(s[1..], s[0].key)
  {
    assert s == [] + [s[0]] + s[1..];
    SortedParts([], s[0], s[1..]);
  }

  lemma SortedCons(x: Node, s: seq<Node>)
    requires Sorted(s) && forall y :: y in s ==> x.key < y.key
    ensures Sorted([x] + s)
  {
    SortedParts([], x, s);
    assert [] + [x] + s == [x] + s;
  }

  /** Two sorted sequences with the same members are equal: the order is fixed by the member set. */
  lemma {:induction false} SortedUnique(s: seq<Node>, r: seq<Node>)
    requires Sorted(s) && Sorted(r) && forall x :: x in s <==> x in r
    ensures s == r
  {
    if s == [] {
      assert forall i :: 0 <= i < |r| ==> r[i] in r;
    } else {
      assert s[0] in r;
      assert r[0] in s;
      var i :| 0 <= i < |r| && r[i] == s[0];
      var j :| 0 <= j < |s| && s[j] == r[0];
      assert i == 0;
      forall x ensures x in s[1..] <==> x in r[1..] {
        if x in s[1..] {
          assert x in r && x != r[0];
        }
        if x in r[1..] {
          assert x in s && x != s[0];
        }
      }
      SortedUnique(s[1..], r[1..]);
    }
  }

  /** The keys on either side of a position. */
  lemma SortedAround(z: Zip, t: Tree)
    requires Sorted(InOrder(Plug(z, t))) && t.T?
    ensures AllBelow(Before(z) + InOrder(t.l), t.n.key) && AllAbove(InOrder(t.r) + After(z), t.n.key)
    ensures InOrder(Plug(z, t)) == (Before(z) + InOrder(t.l)) + [t.n] + (InOrder(t.r) + After(z))
  {
    InOrderPlug(z, t);
    var a, b := Before(z) + InOrder(t.l), InOrder(t.r) + After(z);
    Regroup(Before(z), InOrder(t.l), [t.n], InOrder(t.r), After(z));
    SortedParts(a, t.n, b);
  }

  lemma Regroup<X>(a: seq<X>, l: seq<X>, x: seq<X>, r: seq<X>, b: seq<X>)
    ensures a + (l + x + r) + b == (a + l) + x + (r + b)
  {
  }

  lemma Regroup2<X>(a: seq<X>, l: seq<X>, x: seq<X>, r: seq<X>, b: seq<X>)
    ensures a + (l + x + r) + b == a + l + (x + r) + b
    ensures (a + l) + (r + b) == a + l + r + b
    ensures [] + (x + r) + b == x + (r + b) && [] + r + b == r + b
  {
  }

  lemma RemovedStaysSorted(a: seq<Node>, n: Node, b: seq<Node>)
    requires Sorted(a + [n] + b)
    ensures Sorted(a + b) && n !in a && n !in b
  {
    SortedParts(a, n, b);
    var s := a + [n] + b;
    assert forall i :: 0 <= i < |a| ==> (a + b)[i] == s[i];
    assert forall i :: |a| <= i < |a + b| ==> (a + b)[i] == s[i + 1];
  }

  /** Every member occupies a position. */
  lemma {:induction false} Locate(t: Tree, n: Node) returns (z: Zip, s: Tree)
    requires n in InOrder(t)
    ensures s.T? && s.n == n && Plug(z, s) == t
  {
    if t.n == n {
      z, s := Top, t;
    } else if n in InOrder(t.l) {
      z, s := Locate(t.l, n);
      PlugNest(z, In(true, t.n, t.c, t.r, Top), s);
      z := Nest(z, In(true, t.n, t.c, t.r, Top));
    } else {
      z, s := Locate(t.r, n);
      PlugNest(z, In(false, t.n, t.c, t.l, Top), s);
      z := Nest(z, In(false, t.n, t.c, t.l, Top));
    }
  }

  lemma {:induction false} PlugNest(inner: Zip, outer: Zip, t: Tree)
    ensures Plug(Nest(inner, outer), t) == Plug(outer, Plug(inner, t))
  {
    match inner
    case Top =>
    case In(left, n, c, sib, up) =>
      PlugNest(up, outer, Join(left, t, n, c, sib));
  }

  lemma AllAboveLeast(a: seq<Node>, n: Node, b: seq<Node>)
    requires AllBelow(a, n.key) && AllAbove(b, n.key)
    ensures forall x :: x in a + [n] + b && n.key <= x.key ==> x == n || n.key < x.key
  {
  }

  lemma LeastAfter(a: seq<Node>, b: seq<Node>, k: int)
    requires Sorted(a + b) && AllBelow(a, k) && AllAbove(b, k)
    ensures forall x :: x in a + b && k <= x.key ==> b != [] && b[0].key <= x.key
  {
    forall x | x in a + b && k <= x.key ensures b != [] && b[0].key <= x.key {
      assert x in b;
      var i :| 0 <= i < |b| && b[i] == x;
      assert (a + b)[|a|] == b[0] && (a + b)[|a| + i] == b[i];
    }
  }

  lemma InsertedAt(z: Zip, n: Node)
    requires Sorted(InOrder(Plug(z, E))) && AllBelow(Before(z), n.key) && AllAbove(After(z), n.key)
    ensures var s, r := InOrder(Plug(z, E)), InOrder(Plug(z, T(E, n, Red, E)));
      r == Inserted(s, n) && Sorted(r) && forall x :: x in s ==> x.key != n.key
  {
    PlugEnds(z, n);
    InsertedBetween(Before(z), n, After(z));
    InsertedSorted(Before(z) + After(z), n);
  }

  lemma PlugEnds(z: Zip, n: Node)
    ensures InOrder(Plug(z, E)) == Before(z) + After(z)
    ensures InOrder(Plug(z, T(E, n, Red, E))) == Before(z) + [n] + After(z)
  {
    InOrderPlug(z, E);
    InOrderPlug(z, T(E, n, Red, E));
    assert [] + [n] + [] == [n] && Before(z) + [] == Before(z);
  }

  lemma RemovedAt(z: Zip, t: Tree)
    requires Sorted(InOrder(Plug(z, t))) && t.T?
    ensures var r := Before(z) + InOrder(t.l) + InOrder(t.r) + After(z);
      r == Removed(InOrder(Plug(z, t)), t.n) && Sorted(r)
  {
    SortedAround(z, t);
    var a, b := Before(z) + InOrder(t.l), InOrder(t.r) + After(z);
    RemovedStaysSorted(a, t.n, b);
    RemovedBetween(a, t.n, b);
    Regroup2(Before(z), InOrder(t.l), [t.n], InOrder(t.r), After(z));
  }

  lemma RemovedOuterOrder(z: Zip, x: Node, c: Color, t: Tree, onLeft: bool)
    ensures var s := Join(onLeft, t, x, c, E);
      InOrder(Plug(z, t)) == Before(z) + InOrder(s.l) + InOrder(s.r) + After(z)
  {
    InOrderPlug(z, t);
    var s := Join(onLeft, t, x, c, E);
    assert Before(z) + InOrder(s.l) + InOrder(s.r) == Before(z) + InOrder(t);
  }

  /** A position reached by going left only. */
  ghost predicate LeftSpine(z: Zip) {
    z.In? ==> z.left && LeftSpine(z.up)
  }

  lemma {:induction false} NothingBefore(z: Zip)
    requires LeftSpine(z)
    ensures Before(z) == []
  {
    if z.In? {
      NothingBefore(z.up);
    }
  }

  lemma RemovedInnerOrder(zs: Zip, n: Node, c: Color, l: Tree, z: Zip, u: Tree)
    requires LeftSpine(zs) && u.T? && u.l.E? && u.n == n
    ensures InOrder(Plug(Nest(zs, In(false, n, c, l, z)), u.r)) ==
            Before(z) + InOrder(l) + InOrder(Plug(zs, u)) + After(z)
  {
    var r := InOrder(u.r) + After(zs);
    PlugNest(zs, In(false, n, c, l, z), u.r);
    SpineOrder(zs, n, u);
    InOrderPlug(z, T(l, n, c, Plug(zs, u.r)));
    Regroup2(Before(z), InOrder(l), [n], r, After(z));
  }

  lemma SpineOrder(zs: Zip, n: Node, u: Tree)
    requires LeftSpine(zs) && u.T? && u.l.E? && u.n == n
    ensures InOrder(Plug(zs, u)) == [n] + (InOrder(u.r) + After(zs))
    ensures InOrder(Plug(zs, u.r)) == InOrder(u.r) + After(zs)
  {
    NothingBefore(zs);
    InOrderPlug(zs, u);
    InOrderPlug(zs, u.r);
    assert InOrder(u) == [n] + InOrder(u.r);
    Regroup2([], [], [n], InOrder(u.r), After(zs));
  }

  /** Taking out what was just put in gives the old members back. */
  lemma {:induction false} RemovedUndoesInserted(s: seq<Node>, n: Node)
    requires n !in s
    ensures Removed(Inserted(s, n), n) == s
  {
    if s != [] {
      var x, rest := s[0], s[1..];
      assert x in s && n !in rest;
      RemovedUndoesInserted(rest, n);
      UndoneStep(x, rest, n);
      assert [x] + rest == s;
    }
  }

  lemma UndoneStep(x: Node, rest: seq<Node>, n: Node)
    requires x != n && Removed(Inserted(rest, n), n) == rest
    ensures Removed(Inserted([x] + rest, n), n) == [x] + rest
  {
    Opened(x, rest);
    if n.key < x.key {
      Opened(n, [x] + rest);
    } else {
      Opened(x, Inserted(rest, n));
    }
  }

  lemma Opened(x: Node, rest: seq<Node>)
    ensures ([x] + rest)[0] == x && ([x] + rest)[1..] == rest
  {
  }

  /** Removal takes out exactly the given node. */
  lemma {:induction false} RemovedMembers(s: seq<Node>, n: Node)
    requires Sorted(s)
    ensures forall x :: x in Removed(s, n) <==> x in s && x != n
    ensures n in s ==> |Removed(s, n)| == |s| - 1
  {
    if s != [] {
      assert forall i :: 0 < i < |s| ==> s[0].key < s[i].key;
      if s[0] == n {
        assert n !in s[1..];
      } else {
        RemovedMembers(s[1..], n);
      }
      forall x ensures x in Removed(s, n) <==> x in s && x != n {
        assert x in s <==> x == s[0] || x in s[1..];
      }
    }
  }

  // ---------- walking along the order ----------

  ghost function EndOf(first: bool, s: seq<Node>): Node? {
    if s == [] then null else if first then s[0] else s[|s| - 1]
  }

  ghost function Neighbour(forward: bool, s: seq<Node>, i: int): Node?
    requires 0 <= i < |s|
  {
    if forward then EndOf(true, s[i + 1..]) else EndOf(false, s[..i])
  }

  ghost function Beyond(forward: bool, z: Zip): seq<Node> {
    if forward then After(z) else Before(z)
  }

  /** Where the neighbour of the node at a position is to be found. */
  lemma NeighbourAt(forward: bool, z: Zip, t: Tree)
    requires Sorted(InOrder(Plug(z, t))) && t.T?
    ensures var s := InOrder(Plug(z, t));
      forall i :: 0 <= i < |s| && s[i] == t.n ==>
        Neighbour(forward, s, i) ==
          var below := if forward then t.r else t.l;
          if below.T? then EndOf(forward, InOrder(below)) else EndOf(forward, Beyond(forward, z))
  {
    SortedAround(z, t);
    var s, a, b := InOrder(Plug(z, t)), Before(z) + InOrder(t.l), InOrder(t.r) + After(z);
    forall i | 0 <= i < |s| && s[i] == t.n ensures i == |a| {
      assert s[|a|] == t.n;
    }
    assert s[..|a|] == a && s[|a| + 1..] == b;
  }

  /** Every step down to the position went to the same side. */
  ghost predicate Outermost(left: bool, z: Zip) {
    z.In? ==> z.left == left && Outermost(left, z.up)
  }

  lemma {:induction false} OutermostEnd(left: bool, z: Zip)
    requires Outermost(left, z)
    ensures Par(z) == EndOf(left, InOrder(Plug(z, E))) && Beyond(!left, z) == []
  {
    if z.In? {
      OutermostEnd(left, z.up);
      InOrderPlug(z, E);
    } else {
      assert InOrder(E) == [];
    }
  }
}
