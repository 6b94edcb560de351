/** The stat poller: a handle and the contexts of its polls, each of which lives until its timer is closed. */
module FsPoll {
  import opened Basics
  import opened FsPollSpec
  import opened FsPollRuns

  class PollCtx {
    var parent: Handle?       // null once the handle has been stopped
    var busy: int
    const interval: Interval
    var start: nat
    var statbuf: Stat
    var timer: Timer
    var inFlight: bool        // the stat request is in use
    /** The calls of the user's callback, and how often the context has been freed. */
    ghost var calls: seq<Event>
    ghost var frees: nat

    constructor (handle: Handle, i: nat, now: nat)
      ensures parent == handle && Shows(NewPoll(i, now))
    {
      parent, busy, interval, start := handle, 0, if i != 0 then i else 1, now;
      statbuf, timer, inFlight := ZERO, Idle, true;
      calls, frees := [], 0;
    }

    ghost predicate Shows(p: Poll)
      reads this
    {
      && (parent != null <==> p.live) && busy == p.busy && interval == p.interval && start == p.start
      && statbuf == p.statbuf && timer == p.timer && inFlight == p.inFlight && calls == p.calls && frees == p.frees
    }

    /** uv_close of the timer, which must not be closed already. */
    method CloseTimer()
      requires !timer.Closing? && !timer.Closed?
      modifies this`timer
      ensures timer == Closing
    {
      timer := Closing;
    }
  }

  class Handle {
    var active: bool
    var ctx: PollCtx?
    /** All contexts there have been, and the handle with them as one value. */
    ghost var list: seq<PollCtx>
    ghost var poller: Poller

    ghost predicate Shown()
      reads this, list
    {
      && |list| == |poller.polls| && NoDup(list) && CurOk(poller)
      && (forall k :: 0 <= k < |list| ==>
            list[k].Shows(poller.polls[k]) && (list[k].parent == null || list[k].parent == this))
      && (active <==> poller.cur.At?) && (active <==> ctx != null) && (active ==> ctx == list[poller.cur.k])
    }

    ghost predicate Valid()
      reads this, list
    {
      Shown() && Inv(poller)
    }

    constructor ()
      ensures Valid() && poller == INIT
    {
      active, ctx, list, poller := false, null, [], INIT;
    }

    /** uv_fs_poll_start. `err` is what setting up the timer and the first stat returns. */
    method Start(interval: nat, now: nat, err: int) returns (r: int)
      requires Shown()
      modifies this
      ensures Shown() && poller == Started(old(poller), interval, now, err) && (old(Valid()) ==> Valid())
      ensures r == (if old(active) || err >= 0 then 0 else err)
      ensures old(list) <= list && fresh(Set(list) - old(Set(list)))
    {
      StartKeeps(poller, interval, now, err);
      if active {
        return 0;
      }
      var c := new PollCtx(this, interval, now);
      if err < 0 {
        return err;
      }
      ctx := c;
      active := true;
      list, poller := list + [c], Started(poller, interval, now, err);
      return 0;
    }

    /** uv_fs_poll_stop: the context is on its own from here on. */
    method Stop()
      requires Shown() && Phases(poller)
      modifies this`active, this`ctx, this`poller, list
      ensures Shown() && poller == Stopped(old(poller)) && (old(Valid()) ==> Valid())
    {
      StopKeeps(poller);
      if !active {
        return;
      }
      assert Phase(poller.polls[poller.cur.k]);
      assert ctx.parent != null;
      Detach(ctx);
    }

    method Detach(c: PollCtx)
      requires Shown() && active && c == ctx
      modifies this`active, this`ctx, this`poller, c
      ensures Shown() && poller == Stopped(old(poller))
    {
      c.parent := null;
      ctx := null;
      if c.timer.Armed? {
        c.CloseTimer();
      }
      active := false;
      poller := Stopped(poller);
    }

    /** timer_cb: the next stat is started. */
    method TimerCb(c: PollCtx, ghost k: nat, now: nat)
      requires Valid() && k < |list| && c == list[k] && c.timer.Armed? && c.timer.due <= now
      modifies this`poller, c
      ensures Valid() && poller == Apply(old(poller), Step.TimerCb(k, now))
    {
      StepKeepsInv(poller, Step.TimerCb(k, now));
      ArmedIsCurrent(poller, k);
      assert c.parent != null && c.parent.ctx == c;
      Restart(c, k, now);
    }

    method Restart(c: PollCtx, ghost k: nat, now: nat)
      requires Shown() && k < |list| && c == list[k]
      modifies this`poller, c
      ensures Shown() && poller == Put(old(poller), k, old(poller).polls[k].(start := now, timer := Idle, inFlight := true))
    {
      c.start := now;
      c.timer := Idle;
      c.inFlight := true;
      poller := Put(poller, k, poller.polls[k].(start := now, timer := Idle, inFlight := true));
    }

    /** timer_close_cb: the context is freed. */
    method TimerCloseCb(c: PollCtx, ghost k: nat)
      requires Valid() && k < |list| && c == list[k] && c.timer.Closing?
      modifies this`poller, c
      ensures Valid() && poller == Apply(old(poller), CloseCb(k))
    {
      StepKeepsInv(poller, CloseCb(k));
      Free(c, k);
    }

    method Free(c: PollCtx, ghost k: nat)
      requires Shown() && k < |list| && c == list[k]
      modifies this`poller, c
      ensures Shown()
      ensures poller == Put(old(poller), k, old(poller).polls[k].(timer := Closed, frees := old(poller).polls[k].frees + 1))
    {
      c.timer, c.frees := Closed, c.frees + 1;
      poller := Put(poller, k, poller.polls[k].(timer := Closed, frees := poller.polls[k].frees + 1));
    }

    /** What the user does in the callback. */
    method Act(acts: seq<Act>)
      requires Shown() && Phases(poller)
      modifies this, list
      ensures Shown() && poller == Acted(old(poller), acts)
      ensures old(list) <= list && fresh(Set(list) - old(Set(list)))
      decreases |acts|
    {
      if acts != [] {
        match acts[0] {
          case DoStop =>
            StoppedOk(poller);
            Stop();
          case DoStart(interval, now, err) =>
            StartedOk(poller, interval, now, err);
            var r := Start(interval, now, err);
        }
        Act(acts[1..]);
      }
    }

    /** A call of the user's callback. */
    method Report(c: PollCtx, ghost k: nat, e: Event, acts: seq<Act>)
      requires Shown() && k < |list| && c == list[k] && Phases(FsPollRuns.Tell(poller, k, [e]))
      modifies this, list
      ensures Shown() && poller == Called(old(poller), k, [e], acts)
      ensures old(list) <= list && fresh(Set(list) - old(Set(list)))
    {
      Tell(c, k, e);
      Act(acts);
    }

    ghost method Tell(c: PollCtx, k: nat, e: Event)
      requires Shown() && k < |list| && c == list[k]
      modifies this`poller, c`calls
      ensures Shown() && poller == FsPollRuns.Tell(old(poller), k, [e])
    {
      c.calls := c.calls + [e];
      poller := FsPollRuns.Tell(poller, k, [e]);
    }

    /** poll_cb: a stat has been completed. `acts` is what the user's callback does if it is called. */
    method PollCb(c: PollCtx, ghost k: nat, now: nat, o: Obs, acts: seq<Act>)
      requires Valid() && k < |list| && c == list[k] && c.inFlight && c.start <= now && ObsOk(o)
      modifies this, list
      ensures Valid() && poller == Apply(old(poller), Step.PollCb(k, now, o, acts))
      ensures old(list) <= list && fresh(Set(list) - old(Set(list)))
    {
      StepKeepsInv(poller, Step.PollCb(k, now, o, acts));
      StatUnderWay(poller, k, o, acts);
      if c.parent == null {
        Settle(c, k, now);
        return;
      }
      Observe(c, k, o, acts);
      Settle(c, k, now);
    }

    /** The poll that has been stopped has nothing under way any more: its timer is closed. Otherwise the timer is
        armed again, with the time the stat took subtracted. */
    method Settle(c: PollCtx, ghost k: nat, now: nat)
      requires Shown() && k < |list| && c == list[k] && c.timer.Idle? && c.start <= now
      modifies this`poller, c
      ensures Shown() && poller == Put(old(poller), k, Settled(old(poller).polls[k], now))
    {
      if c.parent == null {
        c.CloseTimer();
      } else {
        c.timer := Armed(now + (c.interval - (now - c.start) % c.interval));
      }
      c.inFlight := false;
      poller := Put(poller, k, Settled(poller.polls[k], now));
    }

    /** The comparison with the observation before, and the call of the user's callback. */
    method Observe(c: PollCtx, ghost k: nat, o: Obs, acts: seq<Act>)
      requires Shown() && k < |list| && c == list[k] && Phases(FsPollRuns.Tell(poller, k, News(poller.polls[k], o)))
      modifies this, list
      ensures Shown() && poller == Observed(old(poller), k, o, acts)
      ensures old(list) <= list && fresh(Set(list) - old(Set(list)))
    {
      if o.Err? {
        if c.busy != o.code {
          Report(c, k, Event(o.code, c.statbuf, ZERO), acts);
        }
        Remember(c, k, o.code, c.statbuf, o);
      } else {
        if c.busy != 0 {
          if c.busy < 0 || !StatEq(c.statbuf, o.stat) {
            Report(c, k, Event(0, c.statbuf, o.stat), acts);
          }
        }
        Remember(c, k, 1, o.stat, o);
      }
    }

    /** The observation becomes the one before. */
    method Remember(c: PollCtx, ghost k: nat, busy: int, statbuf: Stat, ghost o: Obs)
      requires Shown() && k < |list| && c == list[k]
      requires var p := poller.polls[k]; p.(busy := busy, statbuf := statbuf, seen := p.seen + [o]) == Remembered(p, o)
      modifies this`poller, c
      ensures Shown() && poller == Put(old(poller), k, Remembered(old(poller).polls[k], o))
    {
      c.busy := busy;
      c.statbuf := statbuf;
      poller := Put(poller, k, Remembered(poller.polls[k], o));
    }
  }
}
