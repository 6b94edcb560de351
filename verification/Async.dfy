/** Async handles: any number of threads send to any number of handles of one loop. The descriptor is a
    bit that says whether it is readable; each step is one atomic operation of the source. */
module Async {

  /** A send is before its cheap read, before its compare-and-swap, or before its write. */
  datatype Sender = Out | AtRead(h: nat) | AtSwap(h: nat) | AtWrite

  /** The loop waits in the poll, or walks over the handles it has not visited in this pass. */
  datatype LoopPc = Poll | Pass(rest: seq<nat>)

  /** `begun[h]` counts the sends to `h` that have been called; `seen[h]` is what that count was when the
      last callback of `h` started, and `calls[h]` counts these callbacks. */
  datatype State = State(
    pending: seq<bool>,
    begun: seq<nat>,
    seen: seq<nat>,
    calls: seq<nat>,
    handles: seq<nat>,      // the loop's handle queue, rotated by every visit
    readable: bool,
    pc: LoopPc,
    senders: seq<Sender>)

  ghost predicate Init(s: State) {
    && |s.begun| == |s.pending| == |s.seen| == |s.calls| && s.pc == Poll && !s.readable
    && (forall h :: 0 <= h < |s.pending| ==> !s.pending[h] && s.begun[h] == 0 && s.seen[h] == 0 && s.calls[h] == 0)
    && (forall h :: 0 <= h < |s.pending| ==> h in s.handles) && (forall h :: h in s.handles ==> h < |s.pending|)
    && (forall t :: 0 <= t < |s.senders| ==> s.senders[t] == Out)
  }

  datatype Step = Begin(t: nat, h: nat) | Send(t: nat) | Wake | Visit | EndPass

  ghost predicate Enabled(s: State, step: Step) {
    match step
    case Begin(t, h) => t < |s.senders| && s.senders[t] == Out && h < |s.begun|
    case Send(t) =>
      t < |s.senders| && s.senders[t] != Out &&
      (s.senders[t].AtRead? || s.senders[t].AtSwap? ==> s.senders[t].h < |s.pending|)
    case Wake => s.pc == Poll && s.readable
    case Visit =>
      s.pc.Pass? && s.pc.rest != [] && s.pc.rest[0] < |s.pending| && |s.begun| == |s.pending| == |s.seen| == |s.calls|
    case EndPass => s.pc == Pass([])
  }

  ghost function Apply(s: State, step: Step): State
    requires Enabled(s, step)
  {
    match step
    case Begin(t, h) => s.(senders := s.senders[t := AtRead(h)], begun := s.begun[h := s.begun[h] + 1])
    case Send(t) =>
      (match s.senders[t]
       case AtRead(h) => s.(senders := s.senders[t := if s.pending[h] then Out else AtSwap(h)])
       case AtSwap(h) =>
         if s.pending[h] then s.(senders := s.senders[t := Out])
         else s.(senders := s.senders[t := AtWrite], pending := s.pending[h := true])
       case AtWrite => s.(senders := s.senders[t := Out], readable := true))
    case Wake => s.(readable := false, pc := Pass(s.handles), handles := [])
    case Visit =>
      var h := s.pc.rest[0];
      var s1 := s.(pc := Pass(s.pc.rest[1..]), handles := s.handles + [h]);
      if s.pending[h] then
        s1.(pending := s.pending[h := false], seen := s.seen[h := s.begun[h]], calls := s.calls[h := s.calls[h] + 1])
      else s1
    case EndPass => s.(pc := Poll)
  }

  // ---------- the invariant ----------

  ghost predicate Asking(s: State, h: nat) {
    exists t :: 0 <= t < |s.senders| && (s.senders[t] == AtRead(h) || s.senders[t] == AtSwap(h))
  }

  ghost predicate Writing(s: State) {
    exists t :: 0 <= t < |s.senders| && s.senders[t] == AtWrite
  }

  ghost predicate ToVisit(s: State, h: nat) {
    s.pc.Pass? && h in s.pc.rest
  }

  ghost predicate HandleOk(s: State, h: nat)
    requires h < |s.pending| == |s.begun| == |s.seen|
  {
    && s.seen[h] <= s.begun[h]
    && (s.seen[h] < s.begun[h] ==> s.pending[h] || Asking(s, h))
    && (s.pending[h] ==> s.readable || Writing(s) || ToVisit(s, h))
    && (h in s.handles || ToVisit(s, h))
  }

  ghost predicate Inv(s: State) {
    && |s.begun| == |s.pending| == |s.seen| == |s.calls|
    && (forall h :: 0 <= h < |s.pending| ==> HandleOk(s, h))
    && (forall h :: h in s.handles ==> h < |s.pending|)
    && (s.pc.Pass? ==> forall h :: h in s.pc.rest ==> h < |s.pending|)
    && (forall t :: 0 <= t < |s.senders| && (s.senders[t].AtRead? || s.senders[t].AtSwap?) ==> s.senders[t].h < |s.pending|)
  }

  lemma StillAsking(s: State, s': State, h: nat, t: nat)
    requires Asking(s, h) && t < |s.senders| == |s'.senders| && s'.senders == s.senders[t := s'.senders[t]]
    requires s.senders[t] == AtRead(h) || s.senders[t] == AtSwap(h) ==> s'.senders[t] == AtSwap(h)
    ensures Asking(s', h)
  {
    var k :| 0 <= k < |s.senders| && (s.senders[k] == AtRead(h) || s.senders[k] == AtSwap(h));
    assert s'.senders[k] == AtRead(h) || s'.senders[k] == AtSwap(h);
  }

  lemma SenderKeepsInv(s: State, t: nat, step: Step)
    requires Inv(s) && Enabled(s, step) && (step == Send(t) || (step.Begin? && step.t == t))
    ensures Inv(Apply(s, step))
  {
    var s' := Apply(s, step);
    forall h | 0 <= h < |s'.pending| ensures HandleOk(s', h) {
      assert HandleOk(s, h);
      assert s'.senders[t].AtRead? ==> Asking(s', s'.senders[t].h);
      assert s'.senders[t].AtWrite? ==> Writing(s');
      if Asking(s, h) && !((s.senders[t] == AtRead(h) || s.senders[t] == AtSwap(h)) && s'.senders[t] != AtSwap(h)) {
        StillAsking(s, s', h, t);
      }
      if Writing(s) && s.senders[t] != AtWrite {
        var k :| 0 <= k < |s.senders| && s.senders[k] == AtWrite;
        assert s'.senders[k] == AtWrite;
      }
    }
  }

  lemma LoopKeepsInv(s: State, step: Step)
    requires Inv(s) && Enabled(s, step) && (step.Wake? || step.Visit? || step.EndPass?)
    ensures Inv(Apply(s, step))
  {
    var s' := Apply(s, step);
    assert step.Visit? ==> forall h :: h in s.pc.rest <==> h == s.pc.rest[0] || h in s.pc.rest[1..];
    forall h | 0 <= h < |s'.pending| ensures HandleOk(s', h) {
      assert HandleOk(s, h);
      assert Asking(s, h) ==> Asking(s', h);
      assert Writing(s) ==> Writing(s');
    }
  }

  // ---------- progress ----------

  /** A bound on the steps that are left once no more sends begin. */
  ghost function SenderRank(n: nat, p: Sender): nat {
    match p
    case Out => 0
    case AtRead(_) => n + 6
    case AtSwap(_) => n + 5
    case AtWrite => n + 4
  }

  ghost function SendersRank(n: nat, ps: seq<Sender>): nat {
    if ps == [] then 0 else SenderRank(n, ps[0]) + SendersRank(n, ps[1..])
  }

  ghost function Handles(s: State): nat {
    |s.handles| + if s.pc.Pass? then |s.pc.rest| else 0
  }

  ghost function Rank(s: State): nat {
    SendersRank(Handles(s), s.senders) + (if s.readable then Handles(s) + 3 else 0) +
    if s.pc.Pass? then |s.pc.rest| + 1 else 0
  }

  lemma {:induction false} SendersRankUpdate(n: nat, ps: seq<Sender>, t: nat, p: Sender)
    requires t < |ps|
    ensures SendersRank(n, ps[t := p]) == SendersRank(n, ps) - SenderRank(n, ps[t]) + SenderRank(n, p)
  {
    if t > 0 {
      assert ps[t := p][1..] == ps[1..][t - 1 := p];
      SendersRankUpdate(n, ps[1..], t - 1, p);
    }
  }

  lemma StepDescends(s: State, step: Step)
    requires Enabled(s, step) && !step.Begin?
    ensures Rank(Apply(s, step)) < Rank(s)
  {
    var s' := Apply(s, step);
    if step.Send? {
      SendersRankUpdate(Handles(s), s.senders, step.t, s'.senders[step.t]);
    }
  }

  lemma StepKeepsInv(s: State, step: Step)
    requires Inv(s) && Enabled(s, step)
    ensures Inv(Apply(s, step))
  {
    match step
    case Begin(t, h) => SenderKeepsInv(s, t, step);
    case Send(t) => SenderKeepsInv(s, t, step);
    case _ => LoopKeepsInv(s, step);
  }

  // ---------- runs ----------

  ghost predicate IsRun(s: State, steps: seq<Step>)
    decreases |steps|
  {
    steps == [] || (Enabled(s, steps[0]) && IsRun(Apply(s, steps[0]), steps[1..]))
  }

  ghost function End(s: State, steps: seq<Step>): State
    requires IsRun(s, steps)
    decreases |steps|
  {
    if steps == [] then s else End(Apply(s, steps[0]), steps[1..])
  }

  lemma {:induction false} RunKeepsInv(s: State, steps: seq<Step>)
    requires Inv(s) && IsRun(s, steps)
    ensures Inv(End(s, steps))
    ensures (forall k :: 0 <= k < |steps| ==> !steps[k].Begin?) ==> |steps| <= Rank(s)
    decreases |steps|
  {
    if steps != [] {
      StepKeepsInv(s, steps[0]);
      RunKeepsInv(Apply(s, steps[0]), steps[1..]);
      if forall k :: 0 <= k < |steps| ==> !steps[k].Begin? {
        StepDescends(s, steps[0]);
        assert forall k :: 0 <= k < |steps[1..]| ==> !steps[1..][k].Begin?;
      }
    }
  }

  /** From any reachable state, once no more sends begin, the system comes to rest after boundedly many
      steps, and then every send ever called has been followed by a callback of its handle that started
      after the call. */
  lemma EverySendIsSeen(s0: State, steps: seq<Step>, more: seq<Step>)
    requires Init(s0) && IsRun(s0, steps) && IsRun(End(s0, steps), more)
    requires forall k :: 0 <= k < |more| ==> !more[k].Begin?
    ensures |more| <= Rank(End(s0, steps))
    ensures var s := End(End(s0, steps), more);
      (forall step: Step :: !step.Begin? ==> !Enabled(s, step)) ==> s.seen == s.begun
  {
    RunKeepsInv(s0, steps);
    RunKeepsInv(End(s0, steps), more);
    var s := End(End(s0, steps), more);
    if forall step: Step :: !step.Begin? ==> !Enabled(s, step) {
      AtRest(s);
    }
  }

  lemma AtRest(s: State)
    requires Inv(s) && forall step: Step :: !step.Begin? ==> !Enabled(s, step)
    ensures s.seen == s.begun
  {
    assert s.pc.Pass? ==> forall k :: 0 <= k < |s.pc.rest| ==> s.pc.rest[k] in s.pc.rest;
    assert !Enabled(s, Wake) && !Enabled(s, Visit) && !Enabled(s, EndPass);
    forall t | 0 <= t < |s.senders| ensures s.senders[t] == Out {
      assert !Enabled(s, Send(t));
    }
    forall h | 0 <= h < |s.seen| ensures s.seen[h] == s.begun[h] {
      assert HandleOk(s, h);
    }
  }

  // ---------- no callback without a send ----------

  ghost function Asks(p: Sender, h: nat): nat {
    if p == AtRead(h) || p == AtSwap(h) then 1 else 0
  }

  /** The sends to a handle that may still set its flag. */
  ghost function CountAsking(ps: seq<Sender>, h: nat): nat {
    if ps == [] then 0 else Asks(ps[0], h) + CountAsking(ps[1..], h)
  }

  lemma {:induction false} CountAskingUpdate(ps: seq<Sender>, t: nat, p: Sender, h: nat)
    requires t < |ps|
    ensures CountAsking(ps[t := p], h) == CountAsking(ps, h) - Asks(ps[t], h) + Asks(p, h)
  {
    if t > 0 {
      assert ps[t := p][1..] == ps[1..][t - 1 := p];
      CountAskingUpdate(ps[1..], t - 1, p, h);
    }
  }

  lemma {:induction false} CountAskingNone(ps: seq<Sender>, h: nat)
    requires forall t :: 0 <= t < |ps| ==> ps[t] == Out
    ensures CountAsking(ps, h) == 0
  {
    if ps != [] {
      assert forall t :: 0 <= t < |ps| - 1 ==> ps[1..][t] == ps[t + 1];
      CountAskingNone(ps[1..], h);
    }
  }

  /** Each send sets the flag at most once, and each callback clears it. */
  ghost predicate Paid(s: State, n: nat, h: nat) {
    && h < n == |s.calls| == |s.pending| == |s.begun| == |s.seen|
    && s.calls[h] + (if s.pending[h] then 1 else 0) + CountAsking(s.senders, h) <= s.begun[h]
  }

  lemma StepKeepsPaid(s: State, step: Step, n: nat, h: nat)
    requires Paid(s, n, h) && Enabled(s, step)
    ensures Paid(Apply(s, step), n, h)
  {
    var s' := Apply(s, step);
    if step.Begin? || step.Send? {
      CountAskingUpdate(s.senders, step.t, s'.senders[step.t], h);
    }
  }

  lemma {:induction false} RunKeepsPaid(s: State, steps: seq<Step>, n: nat, h: nat)
    requires Paid(s, n, h) && IsRun(s, steps)
    ensures Paid(End(s, steps), n, h)
    decreases |steps|
  {
    if steps != [] {
      StepKeepsPaid(s, steps[0], n, h);
      RunKeepsPaid(Apply(s, steps[0]), steps[1..], n, h);
    }
  }

  /** In every run a handle has had no more callbacks than sends to it have been called. */
  lemma CallbacksNeedSends(s0: State, steps: seq<Step>, h: nat)
    requires Init(s0) && IsRun(s0, steps) && h < |s0.pending|
    ensures var s := End(s0, steps);
            |s.calls| == |s.begun| == |s0.pending| && s.calls[h] <= s.begun[h]
  {
    CountAskingNone(s0.senders, h);
    RunKeepsPaid(s0, steps, |s0.pending|, h);
  }
}
