/** uv_walk: every handle of the loop is visited, although the callback may add and remove handles. */
module Walk {
  import opened Basics
  import opened Queue

  /** What one call of the callback does to the loop's handles. */
  datatype Act = Add(n: Node) | Remove(n: Node)

  /** The loop's handles, and those moved aside that the walk has still to visit. */
  datatype Lists = Lists(loop: seq<Node>, aside: seq<Node>)

  ghost predicate Held(l: Lists, n: Node) {
    n in l.loop || n in l.aside
  }

  ghost predicate ActOk(l: Lists, a: Act, heads: set<Node>) {
    match a
    case Add(n) => !Held(l, n) && n !in heads
    case Remove(n) => Held(l, n)
  }

  ghost function Take(s: seq<Node>, n: Node): (r: seq<Node>)
    ensures n !in s ==> r == s
  {
    if s == [] then [] else if s[0] == n then s[1..] else [s[0]] + Take(s[1..], n)
  }

  ghost function Apply(l: Lists, a: Act): Lists {
    match a
    case Add(n) => l.(loop := l.loop + [n])
    case Remove(n) => Lists(Take(l.loop, n), Take(l.aside, n))
  }

  ghost predicate ActsOk(l: Lists, acts: seq<Act>, heads: set<Node>)
    decreases |acts|
  {
    acts == [] || (ActOk(l, acts[0], heads) && ActsOk(Apply(l, acts[0]), acts[1..], heads))
  }

  ghost function ApplyAll(l: Lists, acts: seq<Act>): Lists
    decreases |acts|
  {
    if acts == [] then l else ApplyAll(Apply(l, acts[0]), acts[1..])
  }

  // ---------- the walk on lists ----------

  lemma {:induction false} TakeShrinks(s: seq<Node>, n: Node)
    ensures |Take(s, n)| <= |s|
  {
    if s != [] {
      TakeShrinks(s[1..], n);
    }
  }

  lemma {:induction false} ApplyAllShrinks(l: Lists, acts: seq<Act>)
    ensures |ApplyAll(l, acts).aside| <= |l.aside|
    decreases |acts|
  {
    if acts != [] {
      if acts[0].Remove? {
        TakeShrinks(l.aside, acts[0].n);
      }
      ApplyAllShrinks(Apply(l, acts[0]), acts[1..]);
    }
  }

  ghost function FirstActs(script: seq<seq<Act>>): seq<Act> {
    if script == [] then [] else script[0]
  }

  ghost function LaterActs(script: seq<seq<Act>>): seq<seq<Act>> {
    if script == [] then [] else script[1..]
  }

  /** The handle in front goes back to the loop's handles before it is visited. */
  ghost function Next(l: Lists): Lists
    requires l.aside != []
  {
    Lists(l.loop + [l.aside[0]], l.aside[1..])
  }

  ghost predicate WalkOk(l: Lists, script: seq<seq<Act>>, heads: set<Node>)
    decreases |l.aside|
  {
    if l.aside == [] then true
    else if l.aside[0].internal then WalkOk(Next(l), script, heads)
    else
      ApplyAllShrinks(Next(l), FirstActs(script));
      ActsOk(Next(l), FirstActs(script), heads) &&
      WalkOk(ApplyAll(Next(l), FirstActs(script)), LaterActs(script), heads)
  }

  /** The handles the callback is called for, when its calls do what the script says. */
  ghost function Visits(l: Lists, script: seq<seq<Act>>): seq<Node>
    decreases |l.aside|
  {
    if l.aside == [] then []
    else if l.aside[0].internal then Visits(Next(l), script)
    else
      ApplyAllShrinks(Next(l), FirstActs(script));
      [l.aside[0]] + Visits(ApplyAll(Next(l), FirstActs(script)), LaterActs(script))
  }

  ghost function After(l: Lists, script: seq<seq<Act>>): seq<Node>
    decreases |l.aside|
  {
    if l.aside == [] then l.loop
    else if l.aside[0].internal then After(Next(l), script)
    else
      ApplyAllShrinks(Next(l), FirstActs(script));
      After(ApplyAll(Next(l), FirstActs(script)), LaterActs(script))
  }

  // ---------- what is visited ----------

  /** A subsequence: the elements of `s` that are in `t`, in their order. */
  ghost function Keep(s: seq<Node>, t: seq<Node>): seq<Node> {
    if s == [] then [] else (if s[0] in t then [s[0]] else []) + Keep(s[1..], t)
  }

  ghost predicate Separate(l: Lists) {
    NoDup(l.loop) && NoDup(l.aside) && forall x :: x in l.loop ==> x !in l.aside
  }

  ghost predicate RemovedBefore(script: seq<seq<Act>>, n: Node, k: int) {
    exists j :: 0 <= j < k && j < |script| && Remove(n) in script[j]
  }

  lemma {:induction false} TakeAt(s: seq<Node>, n: Node)
    requires NoDup(s)
    ensures NoDup(Take(s, n)) && forall x :: x in Take(s, n) <==> x in s && x != n
  {
    if s != [] {
      assert NoDup(s[1..]);
      TakeAt(s[1..], n);
      assert forall x :: x in s <==> x == s[0] || x in s[1..];
      if s[0] != n {
        assert s[0] !in s[1..];
      }
    }
  }

  lemma {:induction false} KeepAll(s: seq<Node>, t: seq<Node>)
    requires forall x :: x in s ==> x in t
    ensures Keep(s, t) == s
  {
    if s != [] {
      KeepAll(s[1..], t);
    }
  }

  lemma {:induction false} KeepSame(s: seq<Node>, t: seq<Node>, u: seq<Node>)
    requires forall x :: x in s ==> (x in t <==> x in u)
    ensures Keep(s, t) == Keep(s, u)
  {
    if s != [] {
      KeepSame(s[1..], t, u);
    }
  }

  lemma {:induction false} KeepTwice(s: seq<Node>, t: seq<Node>, u: seq<Node>)
    requires forall x :: x in u ==> x in t
    ensures Keep(Keep(s, t), u) == Keep(s, u)
  {
    if s != [] {
      KeepTwice(s[1..], t, u);
      var rest := Keep(s[1..], t);
      assert ([s[0]] + rest)[1..] == rest && [] + rest == rest;
    }
  }

  lemma {:induction false} TakeKeeps(s: seq<Node>, n: Node)
    requires NoDup(s)
    ensures Keep(s, Take(s, n)) == Take(s, n)
  {
    if s != [] {
      TakeAt(s, n);
      TakeAt(s[1..], n);
      assert s[0] !in s[1..];
      if s[0] == n {
        KeepAll(s[1..], s[1..]);
      } else {
        TakeKeeps(s[1..], n);
        KeepSame(s[1..], Take(s, n), Take(s[1..], n));
      }
    }
  }

  lemma ActSeparate(l: Lists, a: Act, heads: set<Node>)
    requires Separate(l) && ActOk(l, a, heads)
    ensures Separate(Apply(l, a)) && Keep(l.aside, Apply(l, a).aside) == Apply(l, a).aside
    ensures forall x :: x in Apply(l, a).aside <==> x in l.aside && a != Remove(x)
  {
    match a
    case Add(n) => KeepAll(l.aside, l.aside);
    case Remove(n) =>
      TakeAt(l.loop, n);
      TakeAt(l.aside, n);
      TakeKeeps(l.aside, n);
  }

  ghost predicate StillAside(before: seq<Node>, acts: seq<Act>, after: seq<Node>) {
    && (forall x :: x in after ==> x in before && Remove(x) !in acts)
    && (forall x :: x in before && Remove(x) !in acts ==> x in after)
  }

  lemma StillAsideToo(before: seq<Node>, acts: seq<Act>, between: seq<Node>, after: seq<Node>)
    requires acts != [] && StillAside(between, acts[1..], after)
    requires forall x :: x in between <==> x in before && acts[0] != Remove(x)
    ensures StillAside(before, acts, after) && Keep(Keep(before, between), after) == Keep(before, after)
  {
    assert forall x :: Remove(x) in acts <==> acts[0] == Remove(x) || Remove(x) in acts[1..];
    KeepTwice(before, between, after);
  }

  /** Of the handles still to be visited, exactly those that the callback removes go. */
  lemma {:induction false} ActsSeparate(l: Lists, acts: seq<Act>, heads: set<Node>)
    requires Separate(l) && ActsOk(l, acts, heads)
    ensures Separate(ApplyAll(l, acts)) && Keep(l.aside, ApplyAll(l, acts).aside) == ApplyAll(l, acts).aside
    ensures StillAside(l.aside, acts, ApplyAll(l, acts).aside)
    decreases |acts|
  {
    if acts == [] {
      KeepAll(l.aside, l.aside);
    } else {
      var l1 := Apply(l, acts[0]);
      ActSeparate(l, acts[0], heads);
      ActsSeparate(l1, acts[1..], heads);
      StillAsideToo(l.aside, acts, l1.aside, ApplyAll(l1, acts[1..]).aside);
    }
  }

  lemma NextSeparate(l: Lists)
    requires Separate(l) && l.aside != []
    ensures Separate(Next(l)) && l.aside[0] !in Next(l).aside
  {
    var q := l.aside[0];
    assert q in l.aside;
    assert forall x :: x in l.aside[1..] ==> x in l.aside;
    assert forall i :: 0 <= i < |l.loop| ==> l.loop[i] in l.loop;
  }

  /** What is visited, whatever the callback does: handles that were there at the start and are not internal,
      each once, in their order, ... */
  lemma {:induction false} VisitsInOrder(l: Lists, script: seq<seq<Act>>, heads: set<Node>)
    requires Separate(l) && WalkOk(l, script, heads)
    ensures var v := Visits(l, script);
            Keep(l.aside, v) == v && NoDup(v) && forall x :: x in v ==> x in l.aside && !x.internal
    decreases |l.aside|
  {
    if l.aside != [] {
      var q, rest, l1 := l.aside[0], l.aside[1..], Next(l);
      NextSeparate(l);
      if q.internal {
        VisitsInOrder(l1, script, heads);
      } else {
        var acts := FirstActs(script);
        var l2, v := ApplyAll(l1, acts), Visits(l, script);
        ApplyAllShrinks(l1, acts);
        ActsSeparate(l1, acts, heads);
        VisitsInOrder(l2, LaterActs(script), heads);
        var v2 := Visits(l2, LaterActs(script));
        KeepTwice(rest, l2.aside, v2);
        KeepSame(rest, v, v2);
      }
    }
  }

  /** ... and of those exactly the ones that no earlier call of the callback has removed. */
  lemma {:induction false} VisitsUnlessRemoved(l: Lists, script: seq<seq<Act>>, heads: set<Node>)
    requires Separate(l) && WalkOk(l, script, heads)
    ensures var v := Visits(l, script);
            && (forall k :: 0 <= k < |v| ==> !RemovedBefore(script, v[k], k))
            && (forall x :: x in l.aside && !x.internal && x !in v ==> RemovedBefore(script, x, |v|))
    decreases |l.aside|
  {
    if l.aside != [] {
      var q, l1 := l.aside[0], Next(l);
      NextSeparate(l);
      if q.internal {
        VisitsUnlessRemoved(l1, script, heads);
      } else {
        var acts := FirstActs(script);
        var l2 := ApplyAll(l1, acts);
        ApplyAllShrinks(l1, acts);
        ActsSeparate(l1, acts, heads);
        VisitsInOrder(l2, LaterActs(script), heads);
        VisitsUnlessRemoved(l2, LaterActs(script), heads);
        LaterRemovals(l, l2, script);
      }
    }
  }

  lemma LaterRemovals(l: Lists, l2: Lists, script: seq<seq<Act>>)
    requires l.aside != [] && !l.aside[0].internal && l2 == ApplyAll(Next(l), FirstActs(script))
    requires StillAside(Next(l).aside, FirstActs(script), l2.aside)
    requires var v2 := Visits(l2, LaterActs(script));
             && (forall x :: x in v2 ==> x in l2.aside)
             && (forall k :: 0 <= k < |v2| ==> !RemovedBefore(LaterActs(script), v2[k], k))
             && (forall x :: x in l2.aside && !x.internal && x !in v2 ==> RemovedBefore(LaterActs(script), x, |v2|))
    ensures var v := Visits(l, script);
            && (forall k :: 0 <= k < |v| ==> !RemovedBefore(script, v[k], k))
            && (forall x :: x in l.aside && !x.internal && x !in v ==> RemovedBefore(script, x, |v|))
  {
    var v, v2 := Visits(l, script), Visits(l2, LaterActs(script));
    forall k | 0 <= k < |v| ensures !RemovedBefore(script, v[k], k) {
      if k > 0 {
        assert v[k] == v2[k - 1] && v2[k - 1] in v2;
        RemovedShift(script, v[k], k);
      }
    }
    forall x | x in l.aside && !x.internal && x !in v ensures RemovedBefore(script, x, |v|) {
      assert x in Next(l).aside && x !in v2;
      RemovedShift(script, x, |v|);
    }
  }

  lemma RemovedShift(script: seq<seq<Act>>, x: Node, k: int)
    requires k > 0
    ensures RemovedBefore(script, x, k) <==>
            Remove(x) in FirstActs(script) || RemovedBefore(LaterActs(script), x, k - 1)
  {
    if RemovedBefore(LaterActs(script), x, k - 1) {
      var j :| 0 <= j < k - 1 && j < |LaterActs(script)| && Remove(x) in LaterActs(script)[j];
      assert Remove(x) in script[j + 1];
    }
    if RemovedBefore(script, x, k) {
      var j :| 0 <= j < k && j < |script| && Remove(x) in script[j];
      assert j > 0 ==> Remove(x) in LaterActs(script)[j - 1];
    }
    if Remove(x) in FirstActs(script) {
      assert Remove(x) in script[0];
    }
  }

  // ---------- the walk on the linked lists ----------

  lemma {:induction false} TakeIsWithout(s: seq<Node>, k: int)
    requires NoDup(s) && 0 <= k < |s|
    ensures Take(s, s[k]) == Without(s, k)
  {
    if k > 0 {
      TakeIsWithout(s[1..], k - 1);
      assert Without(s, k) == [s[0]] + Without(s[1..], k - 1);
    }
  }

  ghost function Reach(head: Node, queue: Node, l: Lists): set<Node> {
    {head, queue} + (set x | x in l.loop) + (set x | x in l.aside)
  }

  /** The two lists as the nodes have them. */
  ghost predicate Holds(head: Node, queue: Node, l: Lists)
    reads Reach(head, queue, l)
  {
    && List(head, l.loop) && List(queue, l.aside) && Separate(l)
    && head != queue && head !in l.aside && queue !in l.loop
  }

  /** One action of a callback, with the queue operations that the handle functions use. */
  method Perform(head: Node, a: Act, ghost queue: Node, ghost l: Lists)
    requires Holds(head, queue, l) && ActOk(l, a, {head, queue})
    modifies Reach(head, queue, l), a.n
    ensures Holds(head, queue, Apply(l, a))
  {
    ActSeparate(l, a, {head, queue});
    match a
    case Add(n) => AddTo(n, head, l.loop, queue, l.aside);
    case Remove(n) =>
      TakeAt(l.loop, n);
      TakeAt(l.aside, n);
      ghost var inLoop := n in l.loop;
      ghost var h, r := if inLoop then head else queue, if inLoop then l.loop else l.aside;
      ghost var h2, r2 := if inLoop then queue else head, if inLoop then l.aside else l.loop;
      RemoveFrom(n, h, r, h2, r2);
  }

  /** The element goes to the end of a list, and the other list stays as it is. */
  method AddTo(n: Node, h: Node, ghost s: seq<Node>, ghost h2: Node, ghost s2: seq<Node>)
    requires List(h, s) && List(h2, s2) && n !in s && n != h && n !in s2 && n != h2
    requires h2 != h && h2 !in s && h !in s2 && forall x :: x in s2 ==> x !in s
    modifies h, s, n
    ensures List(h, s + [n]) && List(h2, s2)
  {
    InsertTail(h, n, s);
    forall i | 0 <= i <= |s2| ensures Linked(h2, s2, i) {
      assert old(Linked(h2, s2, i)) && At(h2, s2, i) !in s && At(h2, s2, i + 1) !in s;
    }
  }

  /** The element goes from its list, and the other list stays as it is. */
  method RemoveFrom(n: Node, ghost h: Node, ghost s: seq<Node>, ghost h2: Node, ghost s2: seq<Node>)
    requires List(h, s) && List(h2, s2) && n in s && h2 != h && h2 !in s && h !in s2
    requires forall x :: x in s2 ==> x !in s
    modifies h, s
    ensures List(h, Take(s, n)) && List(h2, s2)
  {
    ghost var k :| 0 <= k < |s| && s[k] == n;
    TakeIsWithout(s, k);
    Queue.Remove(n, h, s, k);
    forall i | 0 <= i <= |s2| ensures Linked(h2, s2, i) {
      assert old(Linked(h2, s2, i)) && At(h2, s2, i) !in s && At(h2, s2, i + 1) !in s;
    }
  }

  /** One call of the callback. */
  method Callback(head: Node, acts: seq<Act>, ghost queue: Node, ghost l: Lists, ghost all: set<Node>)
    requires Holds(head, queue, l) && ActsOk(l, acts, {head, queue})
    requires Reach(head, queue, l) <= all && forall a :: a in acts ==> a.n in all
    modifies all
    ensures Holds(head, queue, ApplyAll(l, acts)) && Reach(head, queue, ApplyAll(l, acts)) <= all
    decreases |acts|
  {
    if acts != [] {
      ApplyReach(l, acts[0], head, queue, all);
      Perform(head, acts[0], queue, l);
      Callback(head, acts[1..], queue, Apply(l, acts[0]), all);
    }
  }

  lemma {:induction false} TakeWithin(s: seq<Node>, n: Node, all: set<Node>)
    requires forall x :: x in s ==> x in all
    ensures forall x :: x in Take(s, n) ==> x in all
  {
    if s != [] {
      TakeWithin(s[1..], n, all);
    }
  }

  lemma ApplyReach(l: Lists, a: Act, head: Node, queue: Node, all: set<Node>)
    requires Reach(head, queue, l) <= all && a.n in all
    ensures Reach(head, queue, Apply(l, a)) <= all
  {
    assert forall x :: x in l.loop || x in l.aside ==> x in Reach(head, queue, l);
    TakeWithin(l.loop, a.n, all);
    TakeWithin(l.aside, a.n, all);
  }

  ghost predicate Within(script: seq<seq<Act>>, all: set<Node>) {
    forall i, k :: 0 <= i < |script| && 0 <= k < |script[i]| ==> script[i][k].n in all
  }

  lemma {:induction false} ActsOkToo(l: Lists, acts: seq<Act>, heads: set<Node>, queue: Node)
    requires ActsOk(l, acts, heads) && forall k :: 0 <= k < |acts| ==> acts[k].n != queue
    ensures ActsOk(l, acts, heads + {queue})
    decreases |acts|
  {
    if acts != [] {
      ActsOkToo(Apply(l, acts[0]), acts[1..], heads, queue);
    }
  }

  /** uv_walk: calls back for the handles that the specification says, and leaves the loop's list intact. */
  method Walk(head: Node, script: seq<seq<Act>>, ghost s: seq<Node>, ghost all: set<Node>)
    returns (visited: seq<Node>, ghost after: seq<Node>)
    requires List(head, s) && head in all && (forall x :: x in s ==> x in all)
    requires Within(script, all)
    requires WalkOk(Lists([], s), script, {head})
    modifies all
    ensures visited == Visits(Lists([], s), script)
    ensures after == After(Lists([], s), script) && List(head, after)
  {
    var queue := new Node(false);
    Move(head, queue, s);
    ghost var l := Lists([], s);
    var left := script;
    visited := [];
    while true
      invariant Holds(head, queue, l) && Reach(head, queue, l) <= all + {queue} && fresh(queue)
      invariant WalkOk(l, left, {head})
      invariant Within(left, all)
      invariant Visits(Lists([], s), script) == visited + Visits(l, left)
      invariant After(Lists([], s), script) == After(l, left)
      decreases |l.aside|
    {
      var empty := Empty(queue, l.aside);
      if empty {
        break;
      }
      var called;
      called, l, left := VisitOne(head, queue, l, left, all);
      Associates(visited, called, Visits(l, left));
      visited := visited + called;
    }
    after := l.loop;
  }

  /** One pass of the loop: the handle in front is put back, and the callback called unless it is internal. */
  method VisitOne(head: Node, queue: Node, ghost l: Lists, left: seq<seq<Act>>, ghost all: set<Node>)
    returns (called: seq<Node>, ghost l': Lists, left': seq<seq<Act>>)
    requires l.aside != [] && WalkOk(l, left, {head}) && Within(left, all) && queue !in all
    requires Holds(head, queue, l) && Reach(head, queue, l) <= all + {queue}
    modifies all, queue
    ensures Holds(head, queue, l') && Reach(head, queue, l') <= all + {queue}
    ensures WalkOk(l', left', {head}) && Within(left', all) && |l'.aside| < |l.aside|
    ensures Visits(l, left) == called + Visits(l', left') && After(l, left) == After(l', left')
  {
    var q := StepForward(head, queue, l);
    if q.internal {
      called, l', left' := [], Next(l), left;
      assert [] + Visits(l', left') == Visits(l', left');
    } else {
      called := [q];
      l', left' := CallFor(head, queue, l, left, all);
    }
  }

  /** The callback for the handle that has just been put back. */
  method CallFor(head: Node, ghost queue: Node, ghost l: Lists, left: seq<seq<Act>>, ghost all: set<Node>)
    returns (ghost l': Lists, left': seq<seq<Act>>)
    requires l.aside != [] && !l.aside[0].internal && WalkOk(l, left, {head}) && Within(left, all) && queue !in all
    requires Holds(head, queue, Next(l)) && Reach(head, queue, Next(l)) <= all + {queue}
    modifies all, queue
    ensures Holds(head, queue, l') && Reach(head, queue, l') <= all + {queue}
    ensures WalkOk(l', left', {head}) && Within(left', all) && |l'.aside| < |l.aside|
    ensures Visits(l, left) == [l.aside[0]] + Visits(l', left') && After(l, left) == After(l', left')
  {
    ApplyAllShrinks(Next(l), FirstActs(left));
    l', left' := Next(l), left;
    if left != [] {
      ActsOkToo(Next(l), left[0], {head}, queue);
      assert {head} + {queue} == {head, queue};
      Callback(head, left[0], queue, Next(l), all + {queue});
      l', left' := ApplyAll(Next(l), left[0]), left[1..];
    }
  }

  /** The first handle of those moved aside goes back to the loop's list. */
  method StepForward(head: Node, queue: Node, ghost l: Lists) returns (q: Node)
    requires Holds(head, queue, l) && l.aside != []
    modifies Reach(head, queue, l)
    ensures q == l.aside[0] && Holds(head, queue, Next(l)) && Reach(head, queue, Next(l)) <= Reach(head, queue, l)
  {
    NextSeparate(l);
    q := First(queue, l.aside);
    RemoveFrom(q, queue, l.aside, head, l.loop);
    AddTo(q, head, l.loop, queue, l.aside[1..]);
  }
}
