/** What a stat poller reports: the changes in a sequence of observations. */
module FsPollSpec {
  datatype Time = Time(sec: int, nsec: int)

  datatype Stat = Stat(
    dev: int, mode: int, nlink: int, uid: int, gid: int, rdev: int, ino: int, size: int, blksize: int, blocks: int,
    flags: int, gen: int, atim: Time, mtim: Time, ctim: Time, birthtim: Time)

  const ZERO := Stat(0, 0, 0, 0, 0, 0, 0, 0, 0, 0, 0, 0, Time(0, 0), Time(0, 0), Time(0, 0), Time(0, 0))

  /** statbuf_eq */
  predicate StatEq(a: Stat, b: Stat) {
    && a.ctim.nsec == b.ctim.nsec
    && a.mtim.nsec == b.mtim.nsec
    && a.birthtim.nsec == b.birthtim.nsec
    && a.ctim.sec == b.ctim.sec
    && a.mtim.sec == b.mtim.sec
    && a.birthtim.sec == b.birthtim.sec
    && a.size == b.size
    && a.mode == b.mode
    && a.uid == b.uid
    && a.gid == b.gid
    && a.ino == b.ino
    && a.dev == b.dev
    && a.flags == b.flags
    && a.gen == b.gen
  }

  /** What the poller does not look at. */
  function Blank(s: Stat): Stat {
    s.(atim := Time(0, 0), nlink := 0, rdev := 0, blksize := 0, blocks := 0)
  }

  lemma StatEqMeans(a: Stat, b: Stat)
    ensures StatEq(a, b) <==> Blank(a) == Blank(b)
  {
    assert forall t: Time, u: Time :: t == u <==> t.sec == u.sec && t.nsec == u.nsec;
  }

  /** The outcome of one stat: an error code below zero, or a result. */
  datatype Obs = Err(code: int) | Got(stat: Stat)

  predicate ObsOk(o: Obs) {
    o.Err? ==> o.code < 0
  }

  predicate Same(a: Obs, b: Obs) {
    match (a, b)
    case (Err(x), Err(y)) => x == y
    case (Got(x), Got(y)) => StatEq(x, y)
    case _ => false
  }

  /** One call of the user's callback. */
  datatype Event = Event(status: int, prev: Stat, curr: Stat)

  /** The last result, or all zeros when there has been none. */
  function LastStat(seen: seq<Obs>): Stat {
    if seen == [] then ZERO
    else if seen[|seen| - 1].Got? then seen[|seen| - 1].stat
    else LastStat(seen[..|seen| - 1])
  }

  function Report(before: seq<Obs>, o: Obs): Event {
    match o case Err(code) => Event(code, LastStat(before), ZERO) case Got(s) => Event(0, LastStat(before), s)
  }

  /** Whether the last of some observations is news: a first error, or something other than the one before. */
  predicate IsNews(seen: seq<Obs>)
    requires seen != []
  {
    var n := |seen|;
    if n == 1 then seen[0].Err? else !Same(seen[n - 2], seen[n - 1])
  }

  /** A report for each observation that is news when it is made, and for no other. */
  function Changes(seen: seq<Obs>): seq<Event> {
    if seen == [] then []
    else
      var n := |seen| - 1;
      var c := Changes(seen[..n]);
      if IsNews(seen) then c + [Report(seen[..n], seen[n])] else c
  }

  // ---------- without repetitions ----------

  /** The observations with repetitions left out. */
  function Distinct(seen: seq<Obs>): seq<Obs> {
    if seen == [] then []
    else
      var n := |seen| - 1;
      var d := Distinct(seen[..n]);
      if n > 0 && Same(seen[n - 1], seen[n]) then d else d + [seen[n]]
  }

  /** What a report says, as an observation. */
  function ObsOf(e: Event): Obs {
    if e.status == 0 then Got(e.curr) else Err(e.status)
  }

  /** A success in front is passed over in silence. */
  function Silent(seen: seq<Obs>): nat {
    if seen != [] && seen[0].Got? then 1 else 0
  }

  ghost predicate NoRepetition(q: seq<Obs>) {
    forall i :: 0 < i < |q| ==> !Same(q[i - 1], q[i])
  }

  /** No two neighbours among them are the same, and the last of them is the same as the last observation. */
  lemma {:induction false} DistinctIsDistinct(seen: seq<Obs>)
    ensures NoRepetition(Distinct(seen)) && (Distinct(seen) == [] <==> seen == [])
    ensures seen != [] ==> Distinct(seen)[0] == seen[0]
    ensures seen != [] ==> Same(Distinct(seen)[|Distinct(seen)| - 1], seen[|seen| - 1])
  {
    if seen != [] {
      var n := |seen| - 1;
      DistinctIsDistinct(seen[..n]);
      SameIsEquivalence(Distinct(seen[..n]), seen[n]);
    }
  }

  lemma SameIsEquivalence(q: seq<Obs>, o: Obs)
    ensures Same(o, o) && forall x :: q != [] && Same(q[|q| - 1], x) ==> (Same(q[|q| - 1], o) <==> Same(x, o))
  {
  }

  /** The last result is the last one without repetitions, but for what the poller does not look at. */
  lemma {:induction false} LastStatDistinct(seen: seq<Obs>)
    ensures StatEq(LastStat(seen), LastStat(Distinct(seen)))
  {
    if seen != [] {
      var n := |seen| - 1;
      var d := Distinct(seen[..n]);
      LastStatDistinct(seen[..n]);
      if n > 0 && Same(seen[n - 1], seen[n]) {
        DistinctIsDistinct(seen[..n]);
        SameIsEquivalence(d, seen[n]);
        assert d + [] == d;
      } else {
        assert (d + [seen[n]])[..|d|] == d;
      }
    }
  }

  /** The reports are the observations without repetitions, a success in front left out; and each compares with the
      last success before it, reported or passed over. */
  ghost predicate ReportsAll(d: seq<Obs>, skip: nat, q: seq<Event>) {
    && |d| == skip + |q|
    && forall i :: 0 <= i < |q| ==> ObsOf(q[i]) == d[skip + i] && StatEq(q[i].prev, LastStat(d[..skip + i]))
  }

  ghost predicate AllOk(seen: seq<Obs>) {
    forall i :: 0 <= i < |seen| ==> ObsOk(seen[i])
  }

  lemma {:induction false} ReportsWithoutRepetition(seen: seq<Obs>)
    requires AllOk(seen)
    ensures ReportsAll(Distinct(seen), Silent(seen), Changes(seen))
  {
    if seen != [] {
      var before, o := seen[..|seen| - 1], seen[|seen| - 1];
      ReportsWithoutRepetition(before);
      OneMore(before, o);
      assert before + [o] == seen;
    }
  }

  lemma OneMore(before: seq<Obs>, o: Obs)
    requires ObsOk(o) && ReportsAll(Distinct(before), Silent(before), Changes(before))
    ensures ReportsAll(Distinct(before + [o]), Silent(before + [o]), Changes(before + [o]))
  {
    if before == [] {
      assert before + [o] == [o];
      FirstReport(o);
    } else {
      NextSnoc(before, o);
      assert Silent(before + [o]) == Silent(before);
      if !Same(before[|before| - 1], o) {
        NewsReport(before, o);
      }
    }
  }

  lemma FirstReport(o: Obs)
    requires ObsOk(o)
    ensures ReportsAll(Distinct([o]), Silent([o]), Changes([o]))
  {
    assert [o][..0] == [];
  }

  lemma NewsReport(before: seq<Obs>, o: Obs)
    requires ObsOk(o) && ReportsAll(Distinct(before), Silent(before), Changes(before))
    ensures ReportsAll(Distinct(before) + [o], Silent(before), Changes(before) + [Report(before, o)])
  {
    LastStatDistinct(before);
    NextReport(Distinct(before), Silent(before), Changes(before), Report(before, o));
  }

  lemma NextSnoc(before: seq<Obs>, o: Obs)
    requires before != []
    ensures Distinct(before + [o]) ==
            if Same(before[|before| - 1], o) then Distinct(before) else Distinct(before) + [o]
    ensures Changes(before + [o]) ==
            if Same(before[|before| - 1], o) then Changes(before) else Changes(before) + [Report(before, o)]
  {
    var t := before + [o];
    assert t[..|before|] == before && t[|before|] == o;
    assert t[|before| - 1] == before[|before| - 1];
  }

  lemma NextReport(d: seq<Obs>, skip: nat, q: seq<Event>, e: Event)
    requires ReportsAll(d, skip, q) && StatEq(e.prev, LastStat(d))
    ensures ReportsAll(d + [ObsOf(e)], skip, q + [e])
  {
    var d', q' := d + [ObsOf(e)], q + [e];
    forall i | 0 <= i < |q'| ensures ObsOf(q'[i]) == d'[skip + i] && StatEq(q'[i].prev, LastStat(d'[..skip + i])) {
      assert d'[..skip + i] == d[..skip + i];
      assert i == |q| ==> d[..skip + i] == d;
    }
  }

  // ---------- what the poller keeps of the past ----------

  /** `busy` is 0 before the first observation, an error code after an error, and 1 after a result, and the
      stat buffer holds the last result. */
  predicate Remembers(seen: seq<Obs>, busy: int, buf: Stat) {
    && buf == LastStat(seen)
    && (if seen == [] then busy == 0
        else var o := seen[|seen| - 1]; ObsOk(o) && busy == if o.Err? then o.code else 1)
  }

  /** The poller's test is the test for news. */
  lemma NewsTest(seen: seq<Obs>, busy: int, buf: Stat, o: Obs)
    requires Remembers(seen, busy, buf) && ObsOk(o)
    ensures IsNews(seen + [o]) <==>
            if o.Err? then busy != o.code else busy != 0 && (busy < 0 || !StatEq(buf, o.stat))
    ensures Report(seen, o) == if o.Err? then Event(o.code, buf, ZERO) else Event(0, buf, o.stat)
    ensures Changes(seen + [o]) == Changes(seen) + (if IsNews(seen + [o]) then [Report(seen, o)] else [])
    ensures Remembers(seen + [o], if o.Err? then o.code else 1, if o.Err? then buf else o.stat)
  {
    var t, n := seen + [o], |seen|;
    assert t[..n] == seen && t[n] == o;
    if n > 0 {
      assert t[n - 1] == seen[n - 1];
    }
  }

  lemma MulAtLeast(n: nat, d: nat)
    requires d > 0
    ensures n * d >= n
  {
    assert n * d == n * (d - 1) + n;
  }

  lemma NoRemainder(n: nat, m: int, q: int, r: nat)
    requires n * m == n * q + r && r < n
    ensures r == 0
  {
    assert n * (m - q) == r;
    if m > q {
      MulAtLeast(n, m - q);
    } else if m < q {
      MulAtLeast(n, q - m);
    }
  }

  /** The delay until the next stat ends at the first point after `now` of the grid of `interval` that starts at
      `start`. */
  lemma OnTheGrid(interval: nat, start: nat, now: nat)
    requires interval > 0 && start <= now
    ensures var d := interval - (now - start) % interval;
            && 1 <= d <= interval && now + d == start + interval * ((now - start) / interval + 1)
            && (now + d - start) % interval == 0
  {
    var x, d := now - start, interval - (now - start) % interval;
    assert x == interval * (x / interval) + x % interval;
    assert interval * (x / interval + 1) == interval * (x / interval) + interval;
    NoRemainder(interval, x / interval + 1, (x + d) / interval, (x + d) % interval);
  }
}
