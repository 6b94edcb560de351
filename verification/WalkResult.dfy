/** What a walk leaves: which handles are in the loop's list afterwards, and in what order. */
module WalkResult {
  import opened Basics
  import opened Queue
  import opened Walk

  /** The actions that are performed: those of the calls that take place. */
  ghost function Performed(l: Lists, script: seq<seq<Act>>): seq<Act> {
    Joined(script, |Visits(l, script)|)
  }

  /** The actions of the first `n` calls. */
  ghost function Joined(script: seq<seq<Act>>, n: nat): seq<Act>
    decreases n
  {
    if n == 0 then [] else FirstActs(script) + Joined(LaterActs(script), n - 1)
  }

  /** Whether a handle is there after some actions. */
  ghost function There(x: Node, before: bool, acts: seq<Act>): bool
    decreases |acts|
  {
    if acts == [] then before
    else There(x, if acts[0] == Add(x) then true else if acts[0] == Remove(x) then false else before, acts[1..])
  }

  /** The elements of `q` that are in `u`, in their order. */
  ghost function Only(q: seq<Node>, u: set<Node>): seq<Node> {
    if q == [] then [] else if q[0] in u then [q[0]] + Only(q[1..], u) else Only(q[1..], u)
  }

  ghost predicate Ahead(q: seq<Node>, x: Node, y: Node) {
    x != y && Only(q, {x, y}) == [x, y]
  }

  ghost function Order(l: Lists): seq<Node> {
    l.loop + l.aside
  }

  // ---------- which handles are left ----------

  lemma {:induction false} ThereTwice(x: Node, before: bool, a: seq<Act>, b: seq<Act>)
    ensures There(x, before, a + b) == There(x, There(x, before, a), b)
    decreases |a|
  {
    if a == [] {
      assert a + b == b;
    } else {
      var now := if a[0] == Add(x) then true else if a[0] == Remove(x) then false else before;
      assert (a + b)[0] == a[0] && (a + b)[1..] == a[1..] + b;
      ThereTwice(x, now, a[1..], b);
    }
  }

  lemma ActHolds(l: Lists, a: Act, heads: set<Node>, x: Node)
    requires Separate(l) && ActOk(l, a, heads)
    ensures Held(Apply(l, a), x) <==> if a == Add(x) then true else if a == Remove(x) then false else Held(l, x)
  {
    if a.Remove? {
      TakeAt(l.loop, a.n);
      TakeAt(l.aside, a.n);
    }
  }

  lemma {:induction false} ActsHold(l: Lists, acts: seq<Act>, heads: set<Node>, x: Node)
    requires Separate(l) && ActsOk(l, acts, heads)
    ensures Held(ApplyAll(l, acts), x) <==> There(x, Held(l, x), acts)
    decreases |acts|
  {
    if acts != [] {
      ActSeparate(l, acts[0], heads);
      ActHolds(l, acts[0], heads, x);
      ActsHold(Apply(l, acts[0]), acts[1..], heads, x);
    }
  }

  lemma NextHolds(l: Lists, x: Node)
    requires l.aside != []
    ensures Held(Next(l), x) <==> Held(l, x)
  {
    assert l.aside == [l.aside[0]] + l.aside[1..];
  }

  lemma {:induction false} AfterHolds(l: Lists, script: seq<seq<Act>>, heads: set<Node>, x: Node)
    requires Separate(l) && WalkOk(l, script, heads)
    ensures x in After(l, script) <==> There(x, Held(l, x), Performed(l, script))
    decreases |l.aside|
  {
    if l.aside != [] {
      var l1, acts := Next(l), FirstActs(script);
      NextSeparate(l);
      NextHolds(l, x);
      if l.aside[0].internal {
        AfterHolds(l1, script, heads, x);
      } else {
        var l2 := ApplyAll(l1, acts);
        ApplyAllShrinks(l1, acts);
        ActsSeparate(l1, acts, heads);
        ActsHold(l1, acts, heads, x);
        AfterHolds(l2, LaterActs(script), heads, x);
        ThereTwice(x, Held(l1, x), acts, Performed(l2, LaterActs(script)));
      }
    }
  }

  /** A handle is in the list afterwards exactly when the last performed action about it adds it, or when there is
      none and it was there at the start. */
  lemma WhatIsLeft(s: seq<Node>, script: seq<seq<Act>>, heads: set<Node>, x: Node)
    requires NoDup(s) && WalkOk(Lists([], s), script, heads)
    ensures x in After(Lists([], s), script) <==> There(x, x in s, Performed(Lists([], s), script))
  {
    AfterHolds(Lists([], s), script, heads, x);
  }

  /** So a handle that no performed action removes is there if it was there at the start or if one adds it, and a
      handle that none adds is there only if it was there at the start. */
  lemma {:induction false} ThereMeans(x: Node, before: bool, acts: seq<Act>)
    ensures Remove(x) !in acts ==> (There(x, before, acts) <==> before || Add(x) in acts)
    ensures Add(x) !in acts && There(x, before, acts) ==> before && Remove(x) !in acts
    decreases |acts|
  {
    if acts != [] {
      assert forall a :: a in acts <==> a == acts[0] || a in acts[1..];
      ThereMeans(x, if acts[0] == Add(x) then true else if acts[0] == Remove(x) then false else before, acts[1..]);
    }
  }

  // ---------- in what order ----------

  lemma {:induction false} OnlyAppend(a: seq<Node>, b: seq<Node>, u: set<Node>)
    ensures Only(a + b, u) == Only(a, u) + Only(b, u)
  {
    if a == [] {
      assert a + b == b;
    } else {
      assert (a + b)[0] == a[0] && (a + b)[1..] == a[1..] + b;
      OnlyAppend(a[1..], b, u);
      Associates([a[0]], Only(a[1..], u), Only(b, u));
    }
  }

  lemma {:induction false} OnlyTake(q: seq<Node>, n: Node, u: set<Node>)
    requires n !in u
    ensures Only(Take(q, n), u) == Only(q, u)
  {
    if q != [] && q[0] != n {
      OnlyTake(q[1..], n, u);
      assert ([q[0]] + Take(q[1..], n))[1..] == Take(q[1..], n);
    }
  }

  lemma {:induction false} OnlyAll(q: seq<Node>, u: set<Node>)
    requires forall x :: x in q ==> x in u
    ensures Only(q, u) == q
  {
    if q != [] {
      OnlyAll(q[1..], u);
    }
  }

  lemma {:induction false} OnlyNone(q: seq<Node>, u: set<Node>)
    requires forall x :: x in q ==> x !in u
    ensures Only(q, u) == []
  {
    if q != [] {
      OnlyNone(q[1..], u);
    }
  }

  lemma {:induction false} OnlyOne(q: seq<Node>, x: Node, u: set<Node>)
    requires NoDup(q) && x in q && x in u && forall z :: z in q && z in u ==> z == x
    ensures Only(q, u) == [x]
  {
    if q[0] == x {
      OnlyNone(q[1..], u);
    } else {
      OnlyOne(q[1..], x, u);
    }
  }

  lemma AheadOf(a: seq<Node>, b: seq<Node>, x: Node, y: Node)
    requires NoDup(a) && NoDup(b) && x in a && x !in b && y in b && y !in a
    ensures Ahead(a + b, x, y)
  {
    OnlyAppend(a, b, {x, y});
    OnlyOne(a, x, {x, y});
    OnlyOne(b, y, {x, y});
  }

  lemma ActOrder(l: Lists, a: Act, u: set<Node>)
    requires a.n !in u
    ensures Only(Order(Apply(l, a)), u) == Only(Order(l), u)
  {
    OnlyAppend(l.loop, l.aside, u);
    match a
    case Add(n) =>
      OnlyAppend(l.loop + [n], l.aside, u);
      OnlyAppend(l.loop, [n], u);
    case Remove(n) =>
      OnlyAppend(Take(l.loop, n), Take(l.aside, n), u);
      OnlyTake(l.loop, n, u);
      OnlyTake(l.aside, n, u);
  }

  ghost predicate AllHeld(l: Lists, u: set<Node>, acts: seq<Act>) {
    forall x :: x in u ==> Held(l, x) && Remove(x) !in acts
  }

  /** Handles that are there and are not removed keep their order. */
  lemma {:induction false} ActsOrder(l: Lists, acts: seq<Act>, heads: set<Node>, u: set<Node>)
    requires Separate(l) && ActsOk(l, acts, heads) && AllHeld(l, u, acts)
    ensures Only(Order(ApplyAll(l, acts)), u) == Only(Order(l), u) && AllHeld(ApplyAll(l, acts), u, [])
    decreases |acts|
  {
    if acts != [] {
      var l1 := Apply(l, acts[0]);
      ActSeparate(l, acts[0], heads);
      ActOrder(l, acts[0], u);
      forall x | x in u ensures Held(l1, x) {
        ActHolds(l, acts[0], heads, x);
      }
      ActsOrder(l1, acts[1..], heads, u);
    }
  }

  lemma NextOrder(l: Lists)
    requires l.aside != []
    ensures Order(Next(l)) == Order(l)
  {
    assert l.aside == [l.aside[0]] + l.aside[1..];
    Associates(l.loop, [l.aside[0]], l.aside[1..]);
  }

  lemma {:induction false} AfterOrder(l: Lists, script: seq<seq<Act>>, heads: set<Node>, u: set<Node>)
    requires Separate(l) && WalkOk(l, script, heads) && AllHeld(l, u, Performed(l, script))
    ensures Only(After(l, script), u) == Only(Order(l), u) && NoDup(After(l, script))
    decreases |l.aside|
  {
    if l.aside == [] {
      assert l.loop + [] == l.loop;
    } else {
      var l1, acts := Next(l), FirstActs(script);
      NextSeparate(l);
      NextOrder(l);
      forall x | x in u ensures Held(l1, x) {
        NextHolds(l, x);
      }
      if l.aside[0].internal {
        AfterOrder(l1, script, heads, u);
      } else {
        var l2 := ApplyAll(l1, acts);
        ApplyAllShrinks(l1, acts);
        ActsSeparate(l1, acts, heads);
        ActsOrder(l1, acts, heads, u);
        AfterOrder(l2, LaterActs(script), heads, u);
      }
    }
  }

  /** The handles that were there at the start and are not removed keep their order. */
  lemma OrderIsKept(s: seq<Node>, script: seq<seq<Act>>, heads: set<Node>, u: set<Node>)
    requires NoDup(s) && WalkOk(Lists([], s), script, heads)
    requires forall x :: x in u ==> x in s && Remove(x) !in Performed(Lists([], s), script)
    ensures Only(After(Lists([], s), script), u) == Only(s, u) && NoDup(After(Lists([], s), script))
  {
    AfterOrder(Lists([], s), script, heads, u);
    assert [] + s == s;
  }

  /** A walk whose calls do nothing leaves the list as it was. */
  lemma NothingDone(s: seq<Node>, script: seq<seq<Act>>, heads: set<Node>)
    requires NoDup(s) && WalkOk(Lists([], s), script, heads) && Performed(Lists([], s), script) == []
    ensures After(Lists([], s), script) == s
  {
    var t := After(Lists([], s), script);
    OrderIsKept(s, script, heads, Set(s));
    forall x | x in t ensures x in Set(s) {
      WhatIsLeft(s, script, heads, x);
      assert There(x, x in s, []) == (x in s);
    }
    OnlyAll(s, Set(s));
    OnlyAll(t, Set(s));
  }

  // ---------- where added handles go ----------

  /** Put back before the handle `q` is visited, or just then. */
  ghost predicate PutBackBy(q: seq<Node>, y: Node, at: Node) {
    y == at || Ahead(q, y, at)
  }

  /** Of the handles that are there, those that have been put back are ahead of a handle that is added now, and it is
      ahead of those still to be visited. */
  lemma AddGoesBetween(l: Lists, x: Node, y: Node, heads: set<Node>)
    requires Separate(l) && ActOk(l, Add(x), heads) && Held(l, y)
    ensures if y in l.loop then Ahead(Order(Apply(l, Add(x))), y, x) else Ahead(Order(Apply(l, Add(x))), x, y)
  {
    var l1 := Apply(l, Add(x));
    ActSeparate(l, Add(x), heads);
    OnlyAppend(l1.loop, l1.aside, {x, y});
    if y in l.loop {
      AheadOf(l.loop, [x], y, x);
      OnlyNone(l.aside, {x, y});
      assert {y, x} == {x, y} && [y, x] + [] == [y, x];
    } else {
      OnlyOne(l1.loop, x, {x, y});
      OnlyOne(l1.aside, y, {x, y});
    }
  }

  lemma {:induction false} StaysInLoop(l: Lists, acts: seq<Act>, heads: set<Node>, y: Node)
    requires Separate(l) && ActsOk(l, acts, heads) && Held(l, y) && Remove(y) !in acts
    ensures y in ApplyAll(l, acts).loop <==> y in l.loop
    ensures Held(ApplyAll(l, acts), y)
    decreases |acts|
  {
    if acts != [] {
      ActSeparate(l, acts[0], heads);
      if acts[0].Remove? {
        TakeAt(l.loop, acts[0].n);
      }
      ActHolds(l, acts[0], heads, y);
      StaysInLoop(Apply(l, acts[0]), acts[1..], heads, y);
    }
  }

  lemma {:induction false} ActsSplit(l: Lists, a: seq<Act>, b: seq<Act>, heads: set<Node>)
    requires ActsOk(l, a + b, heads)
    ensures ActsOk(l, a, heads) && ActsOk(ApplyAll(l, a), b, heads) && ApplyAll(l, a + b) == ApplyAll(ApplyAll(l, a), b)
    decreases |a|
  {
    if a == [] {
      assert a + b == b;
    } else {
      assert (a + b)[0] == a[0] && (a + b)[1..] == a[1..] + b;
      ActsSplit(Apply(l, a[0]), a[1..], b, heads);
    }
  }

  /** Within one call: the added handle goes behind what has been put back and ahead of what has not. */
  lemma ActsAdd(l: Lists, acts: seq<Act>, heads: set<Node>, i: nat, x: Node, y: Node)
    requires Separate(l) && ActsOk(l, acts, heads) && i < |acts| && acts[i] == Add(x) && Remove(x) !in acts[i + 1..]
    requires Held(l, y) && Remove(y) !in acts
    ensures var l' := ApplyAll(l, acts);
            && (if y in l.loop then Ahead(Order(l'), y, x) else Ahead(Order(l'), x, y))
            && Held(l', x) && Held(l', y)
  {
    var a, b := acts[..i], acts[i + 1..];
    assert acts == a + ([Add(x)] + b);
    ActsSplit(l, a, [Add(x)] + b, heads);
    ActsSeparate(l, a, heads);
    StaysInLoop(l, a, heads, y);
    FirstAdd(ApplyAll(l, a), b, heads, x, y);
  }

  lemma FirstAdd(l: Lists, b: seq<Act>, heads: set<Node>, x: Node, y: Node)
    requires Separate(l) && ActsOk(l, [Add(x)] + b, heads) && Remove(x) !in b && Held(l, y) && Remove(y) !in b
    ensures var l' := ApplyAll(l, [Add(x)] + b);
            && (if y in l.loop then Ahead(Order(l'), y, x) else Ahead(Order(l'), x, y))
            && Held(l', x) && Held(l', y)
  {
    assert ([Add(x)] + b)[0] == Add(x) && ([Add(x)] + b)[1..] == b;
    AddGoesBetween(l, x, y, heads);
    var l2 := Apply(l, Add(x));
    ActSeparate(l, Add(x), heads);
    ActHolds(l, Add(x), heads, x);
    ActHolds(l, Add(x), heads, y);
    ActsOrder(l2, b, heads, {x, y});
    assert {y, x} == {x, y} && x in {x, y};
  }

  lemma {:induction false} NotJoined(script: seq<seq<Act>>, n: nat, a: Act)
    requires forall k :: 0 <= k < n && k < |script| ==> a !in script[k]
    ensures a !in Joined(script, n)
    decreases n
  {
    if n > 0 {
      forall k | 0 <= k < n - 1 && k < |LaterActs(script)| ensures a !in LaterActs(script)[k] {
        assert LaterActs(script)[k] == script[k + 1];
      }
      NotJoined(LaterActs(script), n - 1, a);
    }
  }

  /** No call after the j-th removes the handle. */
  ghost predicate KeptAfter(script: seq<seq<Act>>, j: nat, n: nat, x: Node) {
    forall k :: j < k < n && k < |script| ==> Remove(x) !in script[k]
  }

  lemma FrontIsNext(l: Lists, y: Node)
    requires Separate(l) && l.aside != [] && Held(l, y)
    ensures y in Next(l).loop <==> PutBackBy(Order(l), y, l.aside[0])
  {
    var q := l.aside[0];
    NextSeparate(l);
    NextOrder(l);
    assert l.aside == [q] + l.aside[1..];
    if y != q {
      if y in l.loop {
        AheadOf(l.loop, l.aside, y, q);
      } else {
        AheadOf(Next(l).loop, l.aside[1..], q, y);
        assert {q, y} == {y, q};
      }
    }
  }

  /** A handle that is to be visited after a call keeps its place among those that are not removed. */
  lemma LaterVisit(l1: Lists, acts: seq<Act>, l2: Lists, later: seq<seq<Act>>, heads: set<Node>, y: Node, z: Node)
    requires Separate(l1) && ActsOk(l1, acts, heads) && l2 == ApplyAll(l1, acts) && WalkOk(l2, later, heads)
    requires Held(l1, y) && Remove(y) !in acts && z in Visits(l2, later)
    ensures PutBackBy(Order(l2), y, z) <==> PutBackBy(Order(l1), y, z)
    ensures Held(l2, y)
  {
    ActsSeparate(l1, acts, heads);
    VisitsInOrder(l2, later, heads);
    ActsOrder(l1, acts, heads, {y, z});
    assert y in {y, z};
  }

  /** Where `x` is when the walk is over, seen from `y`. */
  ghost predicate Between(t: seq<Node>, x: Node, y: Node, behind: bool) {
    if behind then Ahead(t, y, x) else Ahead(t, x, y)
  }

  lemma SameBetween(q: seq<Node>, t: seq<Node>, x: Node, y: Node, behind: bool)
    requires Only(q, {x, y}) == Only(t, {x, y})
    ensures Between(q, x, y, behind) <==> Between(t, x, y, behind)
  {
    assert {x, y} == {y, x};
  }

  /** The call in which the handle is added is the first. */
  lemma AddedFirst(l: Lists, script: seq<seq<Act>>, heads: set<Node>, i: nat, x: Node, y: Node)
    requires Separate(l) && WalkOk(l, script, heads) && l.aside != [] && !l.aside[0].internal
    requires script != [] && i < |script[0]| && script[0][i] == Add(x) && Remove(x) !in script[0][i + 1..]
    requires KeptAfter(script, 0, |Visits(l, script)|, x) && Held(l, y) && Remove(y) !in Performed(l, script)
    ensures Between(After(l, script), x, y, PutBackBy(Order(l), y, l.aside[0]))
  {
    var l1, acts, later := Next(l), script[0], LaterActs(script);
    var l2 := ApplyAll(l1, acts);
    NextSeparate(l);
    NextHolds(l, y);
    FrontIsNext(l, y);
    ApplyAllShrinks(l1, acts);
    ActsSeparate(l1, acts, heads);
    ActsAdd(l1, acts, heads, i, x, y);
    AddedStays(l2, later, heads, script, x, y);
    SameBetween(Order(l2), After(l2, later), x, y, y in l1.loop);
  }

  lemma {:induction false} AddedInWalk(l: Lists, script: seq<seq<Act>>, heads: set<Node>, j: nat, i: nat, x: Node, y: Node)
    requires Separate(l) && WalkOk(l, script, heads) && j < |Visits(l, script)|
    requires j < |script| && i < |script[j]| && script[j][i] == Add(x) && Remove(x) !in script[j][i + 1..]
    requires KeptAfter(script, j, |Visits(l, script)|, x)
    requires Held(l, y) && Remove(y) !in Performed(l, script)
    ensures Between(After(l, script), x, y, PutBackBy(Order(l), y, Visits(l, script)[j]))
    decreases |l.aside|
  {
    var l1, acts, later := Next(l), FirstActs(script), LaterActs(script);
    if l.aside[0].internal {
      NextSeparate(l);
      NextOrder(l);
      NextHolds(l, y);
      AddedInWalk(l1, script, heads, j, i, x, y);
    } else if j == 0 {
      AddedFirst(l, script, heads, i, x, y);
    } else {
      var l2 := ApplyAll(l1, acts);
      ApplyAllShrinks(l1, acts);
      AfterFirst(l, script, heads, j, y);
      AddedInWalk(l2, later, heads, j - 1, i, x, y);
    }
  }

  /** What the first call leaves for the later ones. */
  lemma AfterFirst(l: Lists, script: seq<seq<Act>>, heads: set<Node>, j: nat, y: Node)
    requires Separate(l) && WalkOk(l, script, heads) && l.aside != [] && !l.aside[0].internal
    requires 0 < j < |Visits(l, script)| && Held(l, y) && Remove(y) !in Performed(l, script)
    ensures var l2, v := ApplyAll(Next(l), FirstActs(script)), Visits(l, script);
            && Separate(l2) && Held(l2, y) && v[1..] == Visits(l2, LaterActs(script))
            && (PutBackBy(Order(l2), y, v[j]) <==> PutBackBy(Order(l), y, v[j]))
  {
    var l1, acts, later := Next(l), FirstActs(script), LaterActs(script);
    var l2 := ApplyAll(l1, acts);
    NextSeparate(l);
    NextOrder(l);
    NextHolds(l, y);
    ApplyAllShrinks(l1, acts);
    ActsSeparate(l1, acts, heads);
    assert Visits(l, script)[j] == Visits(l2, later)[j - 1];
    LaterVisit(l1, acts, l2, later, heads, y, Visits(l, script)[j]);
  }

  lemma AddedStays(l2: Lists, later: seq<seq<Act>>, heads: set<Node>, script: seq<seq<Act>>, x: Node, y: Node)
    requires Separate(l2) && WalkOk(l2, later, heads) && later == LaterActs(script)
    requires KeptAfter(script, 0, |Visits(l2, later)| + 1, x) && Held(l2, x)
    requires Held(l2, y) && Remove(y) !in Performed(l2, later)
    ensures Only(After(l2, later), {x, y}) == Only(Order(l2), {x, y})
  {
    forall k | 0 <= k < |Visits(l2, later)| && k < |later| ensures Remove(x) !in later[k] {
      assert later[k] == script[k + 1];
    }
    NotJoined(later, |Visits(l2, later)|, Remove(x));
    AfterOrder(l2, later, heads, {x, y});
  }

  /** A handle added in the j-th call and not removed afterwards is in the list behind the handles put back by then
      and ahead of those put back later, as far as those were there at the start and are not removed. */
  lemma AddedGoes(s: seq<Node>, script: seq<seq<Act>>, heads: set<Node>, j: nat, i: nat, x: Node, y: Node)
    requires NoDup(s) && WalkOk(Lists([], s), script, heads) && j < |Visits(Lists([], s), script)|
    requires j < |script| && i < |script[j]| && script[j][i] == Add(x) && Remove(x) !in script[j][i + 1..]
    requires KeptAfter(script, j, |Visits(Lists([], s), script)|, x)
    requires y in s && Remove(y) !in Performed(Lists([], s), script)
    ensures var t, v := After(Lists([], s), script), Visits(Lists([], s), script);
            if PutBackBy(s, y, v[j]) then Ahead(t, y, x) else Ahead(t, x, y)
  {
    assert KeptAfter(script, j, |Visits(Lists([], s), script)|, x);
    AddedInWalk(Lists([], s), script, heads, j, i, x, y);
    assert [] + s == s;
  }
}
