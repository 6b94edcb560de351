/** A poller as a value, its steps, and what holds of all its runs. */
module FsPollRuns {
  import opened Basics
  import opened FsPollSpec

  datatype Timer = Idle | Armed(due: nat) | Closing | Closed

  type Interval = i: nat | i > 0 witness 1

  /** One poll: what its context holds, the observations made while it was not stopped, what the user has been
      told, and how often the context has been freed. */
  datatype Poll = Poll(
    live: bool, busy: int, interval: Interval, start: nat, statbuf: Stat, timer: Timer, inFlight: bool,
    seen: seq<Obs>, calls: seq<Event>, frees: nat)

  datatype Current = Nobody | At(k: nat)

  /** All polls there have been, in the order of their starts, and the one the handle belongs to. */
  datatype Poller = Poller(polls: seq<Poll>, cur: Current)

  /** What the user's callback may do with the handle. */
  datatype Act = DoStop | DoStart(interval: nat, now: nat, err: int)

  datatype Step =
    | Start(interval: nat, now: nat, err: int)
    | Stop
    | TimerCb(k: nat, now: nat)
    | PollCb(k: nat, now: nat, o: Obs, acts: seq<Act>)
    | CloseCb(k: nat)

  const INIT := Poller([], Nobody)

  function NewPoll(interval: nat, now: nat): Poll {
    Poll(true, 0, if interval != 0 then interval else 1, now, ZERO, Idle, true, [], [], 0)
  }

  function Put(s: Poller, k: nat, p: Poll): Poller
    requires k < |s.polls|
  {
    s.(polls := s.polls[k := p])
  }

  function Started(s: Poller, interval: nat, now: nat, err: int): Poller {
    if s.cur.At? || err < 0 then s else Poller(s.polls + [NewPoll(interval, now)], At(|s.polls|))
  }

  predicate CurOk(s: Poller) {
    s.cur.At? ==> s.cur.k < |s.polls|
  }

  function Cut(p: Poll): Poll {
    p.(live := false, timer := if p.timer.Armed? then Closing else p.timer)
  }

  function Stopped(s: Poller): Poller
    requires CurOk(s)
  {
    if s.cur.Nobody? then s else Put(s, s.cur.k, Cut(s.polls[s.cur.k])).(cur := Nobody)
  }

  ghost predicate SamePlans(s: Poller, t: Poller) {
    && CurOk(t) && |t.polls| >= |s.polls|
    && forall k :: 0 <= k < |s.polls| ==>
         t.polls[k].interval == s.polls[k].interval && t.polls[k].start == s.polls[k].start
  }

  function Acted(s: Poller, acts: seq<Act>): (t: Poller)
    requires CurOk(s)
    ensures SamePlans(s, t)
    decreases |acts|
  {
    if acts == [] then s
    else match acts[0]
      case DoStop => Acted(Stopped(s), acts[1..])
      case DoStart(interval, now, err) => Acted(Started(s, interval, now, err), acts[1..])
  }

  /** What the user is told of an observation. */
  function News(p: Poll, o: Obs): seq<Event> {
    match o
    case Err(code) => if p.busy != code then [Event(code, p.statbuf, ZERO)] else []
    case Got(stat) =>
      if p.busy != 0 && (p.busy < 0 || !StatEq(p.statbuf, stat)) then [Event(0, p.statbuf, stat)] else []
  }

  function Tell(s: Poller, k: nat, e: seq<Event>): Poller
    requires k < |s.polls|
  {
    Put(s, k, s.polls[k].(calls := s.polls[k].calls + e))
  }

  /** Telling the user, who may then act on the handle. */
  function Called(s: Poller, k: nat, e: seq<Event>, acts: seq<Act>): (t: Poller)
    requires CurOk(s) && k < |s.polls|
    ensures SamePlans(s, t)
  {
    if e == [] then s else Acted(Tell(s, k, e), acts)
  }

  function Remembered(p: Poll, o: Obs): Poll {
    p.(busy := if o.Err? then o.code else 1, statbuf := if o.Err? then p.statbuf else o.stat, seen := p.seen + [o])
  }

  function Observed(s: Poller, k: nat, o: Obs, acts: seq<Act>): (t: Poller)
    requires CurOk(s) && k < |s.polls|
    ensures SamePlans(s, t)
  {
    var u := Called(s, k, News(s.polls[k], o), acts);
    Put(u, k, Remembered(u.polls[k], o))
  }

  /** After a stat: the timer is armed again, or closed if the poll has been stopped. */
  function Settled(p: Poll, now: nat): Poll
    requires p.start <= now
  {
    p.(inFlight := false,
       timer := if p.live then Armed(now + (p.interval - (now - p.start) % p.interval)) else Closing)
  }

  ghost predicate Enabled(s: Poller, step: Step) {
    match step
    case Start(interval, now, err) => true
    case Stop => true
    case TimerCb(k, now) => k < |s.polls| && s.polls[k].timer.Armed? && s.polls[k].timer.due <= now
    case PollCb(k, now, o, acts) => k < |s.polls| && s.polls[k].inFlight && s.polls[k].start <= now && ObsOk(o)
    case CloseCb(k) => k < |s.polls| && s.polls[k].timer.Closing?
  }

  ghost function Apply(s: Poller, step: Step): (t: Poller)
    requires CurOk(s) && Enabled(s, step)
    ensures CurOk(t)
  {
    match step
    case Start(interval, now, err) => Started(s, interval, now, err)
    case Stop => Stopped(s)
    case TimerCb(k, now) => Put(s, k, s.polls[k].(start := now, timer := Idle, inFlight := true))
    case PollCb(k, now, o, acts) =>
      var u := if s.polls[k].live then Observed(s, k, o, acts) else s;
      Put(u, k, Settled(u.polls[k], now))
    case CloseCb(k) => Put(s, k, s.polls[k].(timer := Closed, frees := s.polls[k].frees + 1))
  }

  // ---------- the invariant ----------

  /** Either a stat is under way, or the timer runs, or it is being closed, or all is over. Only the first two
      are possible while the poll is not stopped, and the second only then. */
  ghost predicate Phase(p: Poll) {
    && (p.inFlight <==> p.timer.Idle?) && (p.timer.Armed? ==> p.live)
    && (p.live ==> p.timer.Idle? || p.timer.Armed?) && p.frees == if p.timer.Closed? then 1 else 0
  }

  /** The user has been told exactly the changes. */
  ghost predicate History(p: Poll) {
    p.calls == Changes(p.seen) && Remembers(p.seen, p.busy, p.statbuf) && AllOk(p.seen)
  }

  ghost predicate OnGrid(p: Poll) {
    p.timer.Armed? ==> p.start < p.timer.due && (p.timer.due - p.start) % p.interval == 0
  }

  ghost predicate Phases(s: Poller) {
    CurOk(s) && forall k :: 0 <= k < |s.polls| ==> Phase(s.polls[k]) && (s.polls[k].live <==> s.cur == At(k))
  }

  ghost predicate Inv(s: Poller) {
    Phases(s) && forall k :: 0 <= k < |s.polls| ==> History(s.polls[k]) && OnGrid(s.polls[k])
  }

  /** All that the user can do to a poll is to stop it. */
  ghost predicate OnlyCut(s: Poller, t: Poller) {
    && |t.polls| >= |s.polls|
    && (forall k :: 0 <= k < |s.polls| ==> t.polls[k] == s.polls[k] || t.polls[k] == Cut(s.polls[k]))
    && (forall k :: 0 <= k < |s.polls| && !s.polls[k].live ==> t.polls[k] == s.polls[k])
    && forall k :: |s.polls| <= k < |t.polls| ==> t.polls[k].seen == [] && History(t.polls[k]) && OnGrid(t.polls[k])
  }

  lemma NewIsOk(interval: nat, now: nat)
    ensures Phase(NewPoll(interval, now)) && History(NewPoll(interval, now)) && OnGrid(NewPoll(interval, now))
  {
  }

  lemma StartedOk(s: Poller, interval: nat, now: nat, err: int)
    requires Phases(s)
    ensures var t := Started(s, interval, now, err); Phases(t) && OnlyCut(s, t)
  {
    NewIsOk(interval, now);
  }

  lemma StoppedOk(s: Poller)
    requires Phases(s)
    ensures Phases(Stopped(s)) && OnlyCut(s, Stopped(s))
  {
  }

  lemma CutTwice(s: Poller, t: Poller, u: Poller)
    requires OnlyCut(s, t) && OnlyCut(t, u) && Phases(t)
    ensures OnlyCut(s, u)
  {
    forall k | 0 <= k < |s.polls| ensures u.polls[k] == s.polls[k] || u.polls[k] == Cut(s.polls[k]) {
      assert Phase(t.polls[k]);
    }
    forall k | |s.polls| <= k < |u.polls| ensures History(u.polls[k]) && OnGrid(u.polls[k]) {
      if k < |t.polls| {
        assert u.polls[k] == t.polls[k] || u.polls[k] == Cut(t.polls[k]);
      }
    }
  }

  lemma {:induction false} ActedOk(s: Poller, acts: seq<Act>)
    requires Phases(s)
    ensures Phases(Acted(s, acts)) && OnlyCut(s, Acted(s, acts))
    decreases |acts|
  {
    if acts != [] {
      var t := match acts[0]
        case DoStop => Stopped(s)
        case DoStart(interval, now, err) => Started(s, interval, now, err);
      match acts[0] {
        case DoStop => StoppedOk(s);
        case DoStart(interval, now, err) => StartedOk(s, interval, now, err);
      }
      ActedOk(t, acts[1..]);
      CutTwice(s, t, Acted(t, acts[1..]));
    }
  }

  lemma CalledOk(s: Poller, k: nat, e: seq<Event>, acts: seq<Act>)
    requires Inv(s) && k < |s.polls| && s.polls[k].inFlight
    ensures Phases(Called(s, k, e, acts))
    ensures OnlyCut(Tell(s, k, e), Called(s, k, e, acts))
  {
    var u := Tell(s, k, e);
    assert s.polls[k].calls + [] == s.polls[k].calls;
    assert Phase(s.polls[k]);
    assert Phases(u);
    ActedOk(u, acts);
  }

  /** The poller's test for news tells the user the changes. */
  lemma NewsOk(p: Poll, o: Obs, q: Poll)
    requires History(p) && ObsOk(o) && p.timer.Idle?
    requires var r := p.(calls := p.calls + News(p, o)); q == r || q == Cut(r)
    ensures History(Remembered(q, o))
  {
    NewsTest(p.seen, p.busy, p.statbuf, o);
  }

  lemma ObservedOk(s: Poller, k: nat, o: Obs, acts: seq<Act>)
    requires Inv(s) && k < |s.polls| && s.polls[k].inFlight && s.polls[k].live && ObsOk(o)
    ensures Inv(Observed(s, k, o, acts)) && Later(s, Observed(s, k, o, acts))
    ensures var p, q := s.polls[k], Observed(s, k, o, acts).polls[k];
            q.inFlight && q.timer.Idle? && q.seen == p.seen + [o] && q.calls == p.calls + News(p, o)
  {
    var p, u := s.polls[k], Called(s, k, News(s.polls[k], o), acts);
    CalledOk(s, k, News(p, o), acts);
    assert Phase(p) && History(p);
    NewsOk(p, o, u.polls[k]);
    ObservedInv(s, k, o, u);
  }

  lemma ObservedSees(s: Poller, j: nat, o: Obs, acts: seq<Act>, k: nat)
    requires Inv(s) && j < |s.polls| && s.polls[j].inFlight && s.polls[j].live && ObsOk(o)
    ensures SeenOf(Observed(s, j, o, acts), k) == if k == j then SeenOf(s, k) + [o] else SeenOf(s, k)
  {
    CalledOk(s, j, News(s.polls[j], o), acts);
  }

  /** A poll that has been stopped is not touched by a report about another. */
  lemma ObservedSpares(s: Poller, j: nat, o: Obs, acts: seq<Act>, k: nat)
    requires Inv(s) && j < |s.polls| && s.polls[j].inFlight && s.polls[j].live && ObsOk(o)
    requires k < |s.polls| && !s.polls[k].live
    ensures Observed(s, j, o, acts).polls[k] == s.polls[k]
  {
    CalledOk(s, j, News(s.polls[j], o), acts);
  }

  lemma CutOk(p: Poll, q: Poll)
    requires History(p) && OnGrid(p) && Phase(p) && (q == p || (p.live && q == Cut(p)))
    ensures History(q) && OnGrid(q) && Onward(p, q)
  {
  }

  lemma ObservedInv(s: Poller, k: nat, o: Obs, u: Poller)
    requires Inv(s) && k < |s.polls| && s.polls[k].inFlight && s.polls[k].live && Phases(u)
    requires OnlyCut(Tell(s, k, News(s.polls[k], o)), u)
    requires History(Remembered(u.polls[k], o))
    ensures Inv(Put(u, k, Remembered(u.polls[k], o))) && Later(s, Put(u, k, Remembered(u.polls[k], o)))
  {
    var t := Tell(s, k, News(s.polls[k], o));
    forall i | 0 <= i < |s.polls| && i != k
      ensures History(u.polls[i]) && OnGrid(u.polls[i]) && Onward(s.polls[i], u.polls[i])
    {
      assert t.polls[i] == s.polls[i] && Phase(s.polls[i]);
      CutOk(s.polls[i], u.polls[i]);
    }
    assert Phase(s.polls[k]) && Phase(u.polls[k]);
    assert t.polls[k].live;
  }

  // ---------- steps and runs ----------

  /** What can become of a poll: what has been seen and told stays, nothing is added once it has been stopped, and
      after it has been freed it is not touched. */
  ghost predicate Onward(p: Poll, q: Poll) {
    && q.interval == p.interval && p.seen <= q.seen && p.calls <= q.calls && p.frees <= q.frees
    && (!p.live ==> !q.live && q.seen == p.seen && q.calls == p.calls)
    && (p.frees > 0 ==> q == p)
  }

  ghost predicate Later(s: Poller, t: Poller) {
    |s.polls| <= |t.polls| && forall k :: 0 <= k < |s.polls| ==> Onward(s.polls[k], t.polls[k])
  }

  lemma SettledOk(s: Poller, k: nat, now: nat)
    requires Inv(s) && k < |s.polls| && s.polls[k].inFlight && s.polls[k].start <= now
    ensures Phase(s.polls[k]) && Inv(Put(s, k, Settled(s.polls[k], now))) && Later(s, Put(s, k, Settled(s.polls[k], now)))
  {
    var p := s.polls[k];
    assert Phase(p) && History(p);
    OnTheGrid(p.interval, p.start, now);
  }

  lemma StepKeepsInv(s: Poller, step: Step)
    requires Inv(s) && Enabled(s, step)
    ensures Inv(Apply(s, step)) && Later(s, Apply(s, step))
  {
    match step
    case Start(interval, now, err) =>
      StartedOk(s, interval, now, err);
      CutsOk(s, Apply(s, step));
    case Stop =>
      StoppedOk(s);
      CutsOk(s, Apply(s, step));
    case TimerCb(k, now) => OwnStepOk(s, k, s.polls[k].(start := now, timer := Idle, inFlight := true));
    case PollCb(k, now, o, acts) => PollCbOk(s, k, now, o, acts);
    case CloseCb(k) => OwnStepOk(s, k, s.polls[k].(timer := Closed, frees := s.polls[k].frees + 1));
  }

  lemma PollCbOk(s: Poller, k: nat, now: nat, o: Obs, acts: seq<Act>)
    requires Inv(s) && Enabled(s, PollCb(k, now, o, acts))
    ensures var t := Apply(s, PollCb(k, now, o, acts)); Inv(t) && Later(s, t)
  {
    if s.polls[k].live {
      ObservedOk(s, k, o, acts);
      var u := Observed(s, k, o, acts);
      SettledOk(u, k, now);
      LaterTwice(s, u, Put(u, k, Settled(u.polls[k], now)));
    } else {
      SettledOk(s, k, now);
    }
  }

  /** A callback of the timer: the poll starts another stat, or its context is freed. */
  lemma OwnStepOk(s: Poller, k: nat, q: Poll)
    requires Inv(s) && k < |s.polls| && !s.polls[k].timer.Closed? && !q.timer.Armed?
    requires Phase(s.polls[k]) ==> Phase(q)
    requires var p := s.polls[k]; q == p.(start := q.start, timer := q.timer, inFlight := q.inFlight, frees := q.frees)
    requires q.frees >= s.polls[k].frees
    ensures Inv(Put(s, k, q)) && Later(s, Put(s, k, q))
  {
    assert Phase(s.polls[k]) && History(s.polls[k]);
  }

  lemma StartKeeps(s: Poller, interval: nat, now: nat, err: int)
    requires CurOk(s)
    ensures Inv(s) ==> Inv(Started(s, interval, now, err))
  {
    if Inv(s) {
      StepKeepsInv(s, Start(interval, now, err));
    }
  }

  lemma StopKeeps(s: Poller)
    requires CurOk(s)
    ensures Inv(s) ==> Inv(Stopped(s))
  {
    if Inv(s) {
      StepKeepsInv(s, Stop);
    }
  }

  /** What the assertions of timer_cb say. */
  lemma ArmedIsCurrent(s: Poller, k: nat)
    requires Inv(s) && k < |s.polls| && s.polls[k].timer.Armed?
    ensures s.polls[k].live && s.cur == At(k)
  {
    assert Phase(s.polls[k]);
  }

  /** What poll_cb starts from, and what it finds after it has called the user. */
  lemma StatUnderWay(s: Poller, k: nat, o: Obs, acts: seq<Act>)
    requires Inv(s) && k < |s.polls| && s.polls[k].inFlight && ObsOk(o)
    ensures s.polls[k].timer.Idle?
    ensures s.polls[k].live ==> Phases(Tell(s, k, News(s.polls[k], o))) && Observed(s, k, o, acts).polls[k].timer.Idle?
  {
    assert Phase(s.polls[k]);
    if s.polls[k].live {
      ObservedOk(s, k, o, acts);
    }
  }

  lemma CutsOk(s: Poller, t: Poller)
    requires Inv(s) && Phases(t) && OnlyCut(s, t)
    ensures Inv(t) && Later(s, t)
  {
    forall k | 0 <= k < |s.polls| ensures History(t.polls[k]) && OnGrid(t.polls[k]) && Onward(s.polls[k], t.polls[k]) {
      assert Phase(s.polls[k]);
      CutOk(s.polls[k], t.polls[k]);
    }
  }

  lemma LaterTwice(s: Poller, t: Poller, u: Poller)
    requires Later(s, t) && Later(t, u)
    ensures Later(s, u)
  {
    forall k | 0 <= k < |s.polls| ensures Onward(s.polls[k], u.polls[k]) {
      assert Onward(s.polls[k], t.polls[k]) && Onward(t.polls[k], u.polls[k]);
    }
  }

  ghost predicate IsRun(s: Poller, steps: seq<Step>)
    requires CurOk(s)
    decreases |steps|
  {
    steps == [] || (Enabled(s, steps[0]) && IsRun(Apply(s, steps[0]), steps[1..]))
  }

  ghost function After(s: Poller, steps: seq<Step>): (t: Poller)
    requires CurOk(s) && IsRun(s, steps)
    ensures CurOk(t)
    decreases |steps|
  {
    if steps == [] then s else After(Apply(s, steps[0]), steps[1..])
  }

  lemma {:induction false} RunKeepsInv(s: Poller, steps: seq<Step>)
    requires Inv(s) && IsRun(s, steps)
    ensures Inv(After(s, steps)) && Later(s, After(s, steps))
    decreases |steps|
  {
    if steps != [] {
      var t := Apply(s, steps[0]);
      StepKeepsInv(s, steps[0]);
      RunKeepsInv(t, steps[1..]);
      LaterTwice(s, t, After(t, steps[1..]));
    }
  }

  // ---------- what the user is told ----------

  ghost function Sight(s: Poller, step: Step, k: nat): seq<Obs>
    requires Enabled(s, step)
  {
    if step.PollCb? && step.k == k && s.polls[k].live then [step.o] else []
  }

  /** The observations a run makes for the poll `k` while that is not stopped. */
  ghost function Delivered(s: Poller, steps: seq<Step>, k: nat): seq<Obs>
    requires CurOk(s) && IsRun(s, steps)
    decreases |steps|
  {
    if steps == [] then []
    else Sight(s, steps[0], k) + Delivered(Apply(s, steps[0]), steps[1..], k)
  }

  ghost function SeenOf(s: Poller, k: nat): seq<Obs> {
    if k < |s.polls| then s.polls[k].seen else []
  }

  lemma StepSees(s: Poller, step: Step, k: nat)
    requires Inv(s) && Enabled(s, step)
    ensures SeenOf(Apply(s, step), k) == SeenOf(s, k) + Sight(s, step, k)
  {
    assert SeenOf(s, k) + [] == SeenOf(s, k);
    match step
    case Start(interval, now, err) => StartedOk(s, interval, now, err);
    case Stop => StoppedOk(s);
    case TimerCb(j, now) =>
    case PollCb(j, now, o, acts) =>
      if s.polls[j].live {
        ObservedSees(s, j, o, acts, k);
      }
    case CloseCb(j) =>
  }

  lemma {:induction false} RunSees(s: Poller, steps: seq<Step>, k: nat)
    requires Inv(s) && IsRun(s, steps)
    ensures SeenOf(After(s, steps), k) == SeenOf(s, k) + Delivered(s, steps, k)
    decreases |steps|
  {
    if steps != [] {
      StepKeepsInv(s, steps[0]);
      StepSees(s, steps[0], k);
      RunSees(Apply(s, steps[0]), steps[1..], k);
      Associates(SeenOf(s, k), Sight(s, steps[0], k), Delivered(Apply(s, steps[0]), steps[1..], k));
    } else {
      assert SeenOf(s, k) + [] == SeenOf(s, k);
    }
  }

  /** In every run, the user has been told of a poll exactly the changes in the observations made before it was
      stopped: report by report the observations without repetitions, a success in front left out; and no context is
      ever freed twice. */
  lemma EveryRunReportsChanges(steps: seq<Step>, k: nat)
    requires IsRun(INIT, steps) && k < |After(INIT, steps).polls|
    ensures var p, d := After(INIT, steps).polls[k], Delivered(INIT, steps, k);
            && p.calls == Changes(d)
            && ReportsAll(Distinct(d), Silent(d), p.calls) && NoRepetition(Distinct(d)) && p.frees <= 1
  {
    FromStart(INIT, steps, k);
    HistoryReports(After(INIT, steps).polls[k]);
  }

  lemma FromStart(s: Poller, steps: seq<Step>, k: nat)
    requires Inv(s) && s.polls == [] && IsRun(s, steps) && k < |After(s, steps).polls|
    ensures var p := After(s, steps).polls[k]; p.seen == Delivered(s, steps, k) && History(p) && Phase(p)
  {
    RunKeepsInv(s, steps);
    RunSees(s, steps, k);
    assert [] + Delivered(s, steps, k) == Delivered(s, steps, k);
  }

  lemma HistoryReports(p: Poll)
    requires History(p)
    ensures ReportsAll(Distinct(p.seen), Silent(p.seen), p.calls) && NoRepetition(Distinct(p.seen))
  {
    ReportsWithoutRepetition(p.seen);
    DistinctIsDistinct(p.seen);
  }

  /** Wherever a timer is armed, the delay is between 1 and the interval, and ends on the grid of the start time. */
  lemma RearmedOnGrid(s: Poller, k: nat, now: nat, o: Obs, acts: seq<Act>)
    requires Inv(s) && Enabled(s, PollCb(k, now, o, acts))
    ensures var q := Apply(s, PollCb(k, now, o, acts)).polls[k];
            && (if q.live then q.timer.Armed? else q.timer.Closing?)
            && (q.live ==> 1 <= q.timer.due - now <= q.interval && (q.timer.due - q.start) % q.interval == 0)
  {
    var u := if s.polls[k].live then Observed(s, k, o, acts) else s;
    OnTheGrid(u.polls[k].interval, u.polls[k].start, now);
  }

  // ---------- what the user asked for ----------

  /** What a start was called with. */
  datatype Order = Order(interval: nat, now: nat)

  /** The starts among the user's actions that start a poll: those of an inactive handle that do not fail. */
  ghost function OrdersOf(active: bool, acts: seq<Act>): seq<Order>
    decreases |acts|
  {
    if acts == [] then []
    else match acts[0]
      case DoStop => OrdersOf(false, acts[1..])
      case DoStart(interval, now, err) =>
        if active || err < 0 then OrdersOf(active, acts[1..])
        else [Order(interval, now)] + OrdersOf(true, acts[1..])
  }

  ghost function OrdersIn(s: Poller, step: Step): seq<Order>
    requires Enabled(s, step)
  {
    match step
    case Start(interval, now, err) => if s.cur.At? || err < 0 then [] else [Order(interval, now)]
    case PollCb(k, now, o, acts) =>
      if s.polls[k].live && News(s.polls[k], o) != [] then OrdersOf(s.cur.At?, acts) else []
    case _ => []
  }

  /** The starts of a run that started a poll, in order. */
  ghost function Orders(s: Poller, steps: seq<Step>): seq<Order>
    requires CurOk(s) && IsRun(s, steps)
    decreases |steps|
  {
    if steps == [] then [] else OrdersIn(s, steps[0]) + Orders(Apply(s, steps[0]), steps[1..])
  }

  /** When the last stat of the poll `k` was started: by its timer, or with the poll. */
  ghost function LastStarted(steps: seq<Step>, k: nat, first: nat): nat
    decreases |steps|
  {
    if steps == [] then first
    else LastStarted(steps[1..], k, if steps[0].TimerCb? && steps[0].k == k then steps[0].now else first)
  }

  /** The polls are those of the starts, each with its interval, or 1 for 0. */
  ghost predicate AsOrdered(s: Poller, t: Poller, orders: seq<Order>) {
    && |t.polls| == |s.polls| + |orders|
    && (forall k :: 0 <= k < |s.polls| ==> t.polls[k].interval == s.polls[k].interval)
    && (forall k :: 0 <= k < |orders| ==>
          t.polls[|s.polls| + k].interval == if orders[k].interval == 0 then 1 else orders[k].interval)
  }

  lemma OrderedTwice(s: Poller, t: Poller, u: Poller, a: seq<Order>, b: seq<Order>)
    requires AsOrdered(s, t, a) && AsOrdered(t, u, b)
    ensures AsOrdered(s, u, a + b)
  {
    forall k | 0 <= k < |a + b|
      ensures u.polls[|s.polls| + k].interval == if (a + b)[k].interval == 0 then 1 else (a + b)[k].interval
    {
      if k >= |a| {
        assert u.polls[|t.polls| + (k - |a|)].interval == if b[k - |a|].interval == 0 then 1 else b[k - |a|].interval;
      }
    }
  }

  lemma {:induction false} ActedOrdered(s: Poller, acts: seq<Act>)
    requires CurOk(s)
    ensures AsOrdered(s, Acted(s, acts), OrdersOf(s.cur.At?, acts))
    decreases |acts|
  {
    if acts != [] {
      var a := match acts[0]
        case DoStop => []
        case DoStart(interval, now, err) => if s.cur.At? || err < 0 then [] else [Order(interval, now)];
      var t := match acts[0]
        case DoStop => Stopped(s)
        case DoStart(interval, now, err) => Started(s, interval, now, err);
      ActedOrdered(t, acts[1..]);
      OrderedTwice(s, t, Acted(t, acts[1..]), a, OrdersOf(t.cur.At?, acts[1..]));
      assert [] + OrdersOf(t.cur.At?, acts[1..]) == OrdersOf(t.cur.At?, acts[1..]);
    }
  }

  lemma StepOrdered(s: Poller, step: Step)
    requires CurOk(s) && Enabled(s, step)
    ensures AsOrdered(s, Apply(s, step), OrdersIn(s, step))
  {
    if step.PollCb? && s.polls[step.k].live {
      var e := News(s.polls[step.k], step.o);
      if e != [] {
        ActedOrdered(Tell(s, step.k, e), step.acts);
      }
    }
  }

  lemma {:induction false} RunOrdered(s: Poller, steps: seq<Step>)
    requires CurOk(s) && IsRun(s, steps)
    ensures AsOrdered(s, After(s, steps), Orders(s, steps))
    decreases |steps|
  {
    if steps != [] {
      var t := Apply(s, steps[0]);
      StepOrdered(s, steps[0]);
      RunOrdered(t, steps[1..]);
      OrderedTwice(s, t, After(t, steps[1..]), OrdersIn(s, steps[0]), Orders(t, steps[1..]));
    }
  }

  /** The polls that are new start at the times of the starts, and the others did not start again. */
  ghost predicate AsStarted(s: Poller, t: Poller, orders: seq<Order>) {
    && |t.polls| == |s.polls| + |orders|
    && (forall k :: 0 <= k < |s.polls| ==> t.polls[k].start == s.polls[k].start)
    && (forall k :: 0 <= k < |orders| ==> t.polls[|s.polls| + k].start == orders[k].now)
  }

  lemma {:induction false} ActedStarted(s: Poller, acts: seq<Act>)
    requires CurOk(s)
    ensures AsStarted(s, Acted(s, acts), OrdersOf(s.cur.At?, acts))
    decreases |acts|
  {
    if acts != [] {
      var a := match acts[0]
        case DoStop => []
        case DoStart(interval, now, err) => if s.cur.At? || err < 0 then [] else [Order(interval, now)];
      var t := match acts[0]
        case DoStop => Stopped(s)
        case DoStart(interval, now, err) => Started(s, interval, now, err);
      ActedStarted(t, acts[1..]);
      StartedTwice(s, t, Acted(t, acts[1..]), a, OrdersOf(t.cur.At?, acts[1..]));
      assert [] + OrdersOf(t.cur.At?, acts[1..]) == OrdersOf(t.cur.At?, acts[1..]);
    }
  }

  lemma StartedTwice(s: Poller, t: Poller, u: Poller, a: seq<Order>, b: seq<Order>)
    requires AsStarted(s, t, a) && AsStarted(t, u, b)
    ensures AsStarted(s, u, a + b)
  {
    forall k | 0 <= k < |a + b| ensures u.polls[|s.polls| + k].start == (a + b)[k].now {
      if k >= |a| {
        assert u.polls[|t.polls| + (k - |a|)].start == b[k - |a|].now;
      }
    }
  }

  lemma StepStarted(s: Poller, step: Step)
    requires CurOk(s) && Enabled(s, step) && !step.TimerCb?
    ensures AsStarted(s, Apply(s, step), OrdersIn(s, step))
  {
    if step.PollCb? && s.polls[step.k].live {
      var e := News(s.polls[step.k], step.o);
      if e != [] {
        ActedStarted(Tell(s, step.k, e), step.acts);
      }
    }
  }

  ghost function FirstStart(s: Poller, steps: seq<Step>, k: nat): nat
    requires CurOk(s) && IsRun(s, steps) && k < |s.polls| + |Orders(s, steps)|
  {
    if k < |s.polls| then s.polls[k].start else Orders(s, steps)[k - |s.polls|].now
  }

  lemma {:induction false} RunStarted(s: Poller, steps: seq<Step>, k: nat)
    requires CurOk(s) && IsRun(s, steps) && k < |After(s, steps).polls|
    ensures k < |s.polls| + |Orders(s, steps)|
    ensures After(s, steps).polls[k].start == LastStarted(steps, k, FirstStart(s, steps, k))
    decreases |steps|
  {
    RunOrdered(s, steps);
    if steps != [] {
      var t := Apply(s, steps[0]);
      RunStarted(t, steps[1..], k);
      StepOrdered(s, steps[0]);
      if !steps[0].TimerCb? {
        StepStarted(s, steps[0]);
      }
    }
  }

  /** In every run, a poll has the interval that its start was called with, or 1 for 0, and wherever its timer is
      armed after a stat, the delay is between 1 and that interval and ends a multiple of it after the time at which
      the stat was started. */
  lemma EveryRunKeepsInterval(steps: seq<Step>, k: nat, now: nat, o: Obs, acts: seq<Act>)
    requires IsRun(INIT, steps) && Enabled(After(INIT, steps), PollCb(k, now, o, acts))
    ensures k < |Orders(INIT, steps)|
    ensures var q := Apply(After(INIT, steps), PollCb(k, now, o, acts)).polls[k];
            var order := Orders(INIT, steps)[k];
            var interval := if order.interval == 0 then 1 else order.interval;
            && q.interval == interval && q.start == LastStarted(steps, k, order.now)
            && (q.live ==> q.timer.Armed? && 1 <= q.timer.due - now <= interval && (q.timer.due - q.start) % interval == 0)
  {
    var s := After(INIT, steps);
    RunKeepsInv(INIT, steps);
    RunOrdered(INIT, steps);
    RunStarted(INIT, steps, k);
    RearmedOnGrid(s, k, now, o, acts);
    StepStarted(s, PollCb(k, now, o, acts));
    StepOrdered(s, PollCb(k, now, o, acts));
  }

  // ---------- the end of a poll ----------

  ghost predicate Names(step: Step, k: nat) {
    (step.PollCb? || step.CloseCb? || step.TimerCb?) && step.k == k
  }

  /** How many of the steps are callbacks of the poll `k`. */
  ghost function Callbacks(steps: seq<Step>, k: nat): nat {
    if steps == [] then 0 else (if Names(steps[0], k) then 1 else 0) + Callbacks(steps[1..], k)
  }

  /** The callbacks a stopped poll is still owed. */
  ghost function Owed(p: Poll): nat {
    if p.inFlight then 2 else if p.timer.Closing? then 1 else 0
  }

  lemma StepPays(s: Poller, step: Step, k: nat)
    requires Inv(s) && Enabled(s, step) && k < |s.polls| && !s.polls[k].live
    ensures Owed(Apply(s, step).polls[k]) == Owed(s.polls[k]) - if Names(step, k) then 1 else 0
  {
    assert Phase(s.polls[k]);
    match step
    case Start(interval, now, err) => StartedOk(s, interval, now, err);
    case Stop => StoppedOk(s);
    case TimerCb(j, now) =>
    case PollCb(j, now, o, acts) =>
      if s.polls[j].live {
        ObservedSpares(s, j, o, acts, k);
      }
    case CloseCb(j) =>
  }

  lemma {:induction false} RunPays(s: Poller, steps: seq<Step>, k: nat)
    requires Inv(s) && IsRun(s, steps) && k < |s.polls| && !s.polls[k].live
    ensures k < |After(s, steps).polls| && Owed(After(s, steps).polls[k]) == Owed(s.polls[k]) - Callbacks(steps, k)
    decreases |steps|
  {
    if steps != [] {
      StepKeepsInv(s, steps[0]);
      StepPays(s, steps[0], k);
      assert Onward(s.polls[k], Apply(s, steps[0]).polls[k]);
      RunPays(Apply(s, steps[0]), steps[1..], k);
    }
  }

  /** From the moment a poll is stopped, in every run: it stays stopped, the user is told nothing more of it, and its
      context is freed once, exactly when its last callback has come: the one of its closed timer, and before that
      the one of a stat under way. */
  lemma StoppedForGood(steps: seq<Step>, more: seq<Step>, k: nat)
    requires IsRun(INIT, steps) && k < |After(INIT, steps).polls| && !After(INIT, steps).polls[k].live
    requires IsRun(After(INIT, steps), more)
    ensures var p, t := After(INIT, steps).polls[k], After(After(INIT, steps), more);
            && k < |t.polls| && !t.polls[k].live && t.polls[k].calls == p.calls
            && Callbacks(more, k) <= Owed(p) && (t.polls[k].frees == 1 <==> Callbacks(more, k) == Owed(p))
            && (p.frees == 1 ==> t.polls[k] == p)
  {
    var s := After(INIT, steps);
    RunKeepsInv(INIT, steps);
    RunKeepsInv(s, more);
    RunPays(s, more, k);
    assert Onward(s.polls[k], After(s, more).polls[k]);
    assert Phase(s.polls[k]) && Phase(After(s, more).polls[k]);
  }

  /** When no stat is under way and no timer is being closed, every poll that was stopped has been freed. */
  lemma RestFreesAll(steps: seq<Step>, k: nat)
    requires IsRun(INIT, steps) && k < |After(INIT, steps).polls|
    ensures var p := After(INIT, steps).polls[k];
            p.frees == 1 <==> !p.live && !p.inFlight && !p.timer.Closing?
  {
    RunKeepsInv(INIT, steps);
    assert Phase(After(INIT, steps).polls[k]);
  }
}
