/** What the callbacks of an adapter report: that a body ran when they say so, why they were refused, and that
    nothing but a stop, a closure, a deadline or too many calls keeps a body from running. */
module AdapterReports {
  import opened Common
  import opened AdapterBoundary

  // ---- schedules -------------------------------------------------------------------------------

  ghost predicate TakesStep(s: State, act: Action, s': State) {
    Enabled(s, act) && s' == Step(s, act)
  }

  /** An interleaving with its steps. */
  ghost predicate Schedule(ss: seq<State>, acts: seq<Action>) {
    && |ss| == |acts| + 1 && ss[0] == Start
    && forall k :: 0 <= k < |acts| ==> TakesStep(ss[k], acts[k], ss[k + 1])
  }

  lemma ScheduleInterleaves(ss: seq<State>, acts: seq<Action>)
    requires Schedule(ss, acts)
    ensures Interleaving(ss)
  {
    forall i | 0 < i < |ss| ensures Follows(ss[i - 1], ss[i]) {
      assert TakesStep(ss[i - 1], acts[i - 1], ss[i - 1 + 1]);
    }
  }

  predicate IsCheck(act: Action, id: nat) {
    (act.CheckInLoop? || act.CheckUnderLock?) && act.id == id
  }

  /** Not checked under the lock yet. */
  predicate Early(pc: CallbackPc) {
    pc.Looping? || pc.Trying? || pc.Guarded?
  }

  predicate Ends(pc: CallbackPc, how: Ending) {
    (pc.Leaving? || pc.Dropping? || pc.Returned?) && pc.how == how
  }

  // ---- a body that is said to have run has run ---------------------------------------------------

  lemma EndsAsRan(s: State, act: Action, id: nat)
    requires Enabled(s, act) && id in Step(s, act).callbacks && Ends(Step(s, act).callbacks[id].pc, Ran)
    ensures id in s.callbacks && (At(s, id, Running) || Ends(s.callbacks[id].pc, Ran))
  {
  }

  /** In every interleaving a callback that ends as run was running in an earlier state. */
  lemma {:induction false} RanWasRunning(ss: seq<State>, i: nat, id: nat) returns (j: nat)
    requires Interleaving(ss) && i < |ss| && id in ss[i].callbacks && Ends(ss[i].callbacks[id].pc, Ran)
    ensures j < i && At(ss[j], id, Running)
  {
    assert i > 0;
    assert Follows(ss[i - 1], ss[i]);
    var act :| Enabled(ss[i - 1], act) && ss[i] == Step(ss[i - 1], act);
    EndsAsRan(ss[i - 1], act, id);
    if At(ss[i - 1], id, Running) {
      j := i - 1;
    } else {
      j := RanWasRunning(ss, i - 1, id);
    }
  }

  // ---- what a check decides ----------------------------------------------------------------------

  /** No stop, no closure, no outcome yet and time left. */
  predicate MayGoOn(s: State, c: Call, closed: Option<int>, now: int) {
    s.stopped.None? && closed.None? && c.terminal.None? && now < c.deadline
  }

  /** In every state reached, a callback goes on from a check exactly when nothing has cancelled it: from the
      check in the loop to the lock, and from the check under the lock to its body. */
  lemma CheckDecides(s: State, act: Action)
    requires CallsFresh(s) && Enabled(s, act) && (act.CheckInLoop? || act.CheckUnderLock?)
    ensures var pc := Step(s, act).callbacks[act.id].pc;
            if MayGoOn(s, s.callbacks[act.id].call, act.closed, act.now)
            then pc == if act.CheckInLoop? then Trying else Running
            else (if act.CheckInLoop? then pc.Dropping? else pc.Leaving?) && pc.how.Refused?
  {
  }

  /** A body starts at the check under the lock and nowhere else. */
  lemma StartsAtTheCheck(s: State, act: Action, id: nat)
    requires CallsFresh(s) && Enabled(s, act) && At(Step(s, act), id, Running) && !At(s, id, Running)
    ensures act.CheckUnderLock? && act.id == id && MayGoOn(s, s.callbacks[id].call, act.closed, act.now)
  {
  }

  /** A call is admitted exactly when fewer than 64 are; one more is refused as timed out. */
  lemma InvokeAdmits(s: State, id: nat, now: int, bound: int)
    requires PendingExact(s) && Enabled(s, Invoke(id, now, bound))
    ensures var call := Step(s, Invoke(id, now, bound)).callbacks[id].call;
            && (call.admitted <==> |set t | t in s.callbacks && s.callbacks[t].call.admitted| < 64)
            && call.terminal == (if call.admitted then None else Some(TimedOut)) && call.deadline == now + bound
  {
    assert Admitted(s.callbacks) == set t | t in s.callbacks && s.callbacks[t].call.admitted;
  }

  /** A callback that nothing cancels, with the lock free of writers, runs its body after four steps. */
  lemma CallbackRuns(s: State, id: nat, now: int, bound: int)
    requires CallsFresh(s) && PendingExact(s) && s.pending < 64 && s.stopped.None? && s.writer.None?
    requires id !in s.callbacks && bound > 0
    ensures var a := Step(s, Invoke(id, now, bound));
            && Enabled(a, CheckInLoop(id, now, None))
            && var b := Step(a, CheckInLoop(id, now, None));
               && Enabled(b, TryRead(id, true))
               && var c := Step(b, TryRead(id, true));
                  Enabled(c, CheckUnderLock(id, now, None)) && At(Step(c, CheckUnderLock(id, now, None)), id, Running)
  {
  }

  // ---- why a callback is refused -----------------------------------------------------------------

  /** The call was made at step `j`; before its last check it has no outcome, unless it was one too many. */
  ghost predicate InvokedAt(ss: seq<State>, acts: seq<Action>, i: nat, id: nat, j: nat)
    requires Schedule(ss, acts) && i < |ss|
  {
    && j < i && acts[j].Invoke? && acts[j].id == id && id in ss[i].callbacks
    && var c := ss[i].callbacks[id];
       && c.call.deadline == acts[j].now + acts[j].bound
       && (Early(c.pc) ==> c.call.terminal == if ss[j].pending < 64 then None else Some(TimedOut))
  }

  lemma StepKeepsCall(s: State, act: Action, id: nat)
    requires CallsFresh(s) && Enabled(s, act) && id in s.callbacks
    ensures id in Step(s, act).callbacks
    ensures var (c, c') := (s.callbacks[id], Step(s, act).callbacks[id]);
            c'.call.deadline == c.call.deadline && (Early(c'.pc) ==> Early(c.pc) && c'.call.terminal == c.call.terminal)
  {
  }

  lemma {:induction false} WasInvoked(ss: seq<State>, acts: seq<Action>, i: nat, id: nat) returns (j: nat)
    requires Schedule(ss, acts) && i < |ss| && id in ss[i].callbacks
    ensures InvokedAt(ss, acts, i, id, j)
  {
    assert i > 0;
    var k := i - 1;
    assert TakesStep(ss[k], acts[k], ss[k + 1]);
    if id in ss[k].callbacks {
      j := WasInvoked(ss, acts, k, id);
      ScheduleInterleaves(ss, acts);
      EveryInterleaving(ss, k);
      StepKeepsCall(ss[k], acts[k], id);
    } else {
      j := k;
    }
  }

  /** Why a check refuses: the adapter has stopped, the attachment has closed, or time is up for a call made
      for `bound` at `at`, or made when 64 were pending. */
  predicate Because(s: State, check: Action, why: Terminal, entry: State, at: int, bound: int)
    requires check.CheckInLoop? || check.CheckUnderLock?
  {
    match why
    case ShuttingDown => s.stopped.Some?
    case Closed => check.closed.Some?
    case TimedOut => check.now >= at + bound || entry.pending >= 64
  }

  lemma CheckRefuses(s: State, act: Action, id: nat, why: Terminal)
    requires Enabled(s, act) && id in Step(s, act).callbacks && Ends(Step(s, act).callbacks[id].pc, Refused(why))
    requires id !in s.callbacks || !Ends(s.callbacks[id].pc, Refused(why))
    ensures IsCheck(act, id) && id in s.callbacks && Early(s.callbacks[id].pc)
    ensures why == ShuttingDown ==> s.stopped.Some? || s.callbacks[id].call.terminal == Some(why)
    ensures why == Closed ==> act.closed.Some? || s.callbacks[id].call.terminal == Some(why)
    ensures why == TimedOut ==> act.now >= s.callbacks[id].call.deadline || s.callbacks[id].call.terminal == Some(why)
  {
  }

  /** In every schedule a refused callback was refused at one of its own checks, for a reason that held then. */
  lemma {:induction false} RefusalExplained(ss: seq<State>, acts: seq<Action>, i: nat, id: nat, why: Terminal)
    returns (j: nat, k: nat)
    requires Schedule(ss, acts) && i < |ss| && id in ss[i].callbacks && Ends(ss[i].callbacks[id].pc, Refused(why))
    ensures j < k < i && acts[j].Invoke? && acts[j].id == id && IsCheck(acts[k], id)
    ensures Because(ss[k], acts[k], why, ss[j], acts[j].now, acts[j].bound)
  {
    assert i > 0;
    k := i - 1;
    assert TakesStep(ss[k], acts[k], ss[k + 1]);
    if id in ss[k].callbacks && Ends(ss[k].callbacks[id].pc, Refused(why)) {
      j, k := RefusalExplained(ss, acts, i - 1, id, why);
    } else {
      CheckRefuses(ss[k], acts[k], id, why);
      j := WasInvoked(ss, acts, k, id);
    }
  }

  // ---- the stop ----------------------------------------------------------------------------------

  /** The adapter stops at the first stop, for good, and keeps that instant. */
  lemma StopIsFirst(s: State, act: Action)
    requires Enabled(s, act)
    ensures Step(s, act).stopped == if s.stopped.None? && act.Stop? then Some(act.now) else s.stopped
  {
  }

  /** A shutdown whose adapter is down returns as soon as no callback is inside the barrier and no other
      shutdown holds the lock. */
  lemma ShutdownReturns(s: State, id: nat)
    requires LockExact(s) && ShutdownAt(s, id, AdapterDown) && s.writer.None?
    requires forall t :: t in s.callbacks ==> !HoldsRead(s.callbacks[t].pc)
    ensures Enabled(s, TakeWrite(id)) && Enabled(Step(s, TakeWrite(id)), DropWrite(id))
    ensures ShutdownAt(Step(Step(s, TakeWrite(id)), DropWrite(id)), id, ShutDown)
  {
    assert s.readers == {};
  }
}
