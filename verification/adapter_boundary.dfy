/** Callback admission and the adapter shutdown barrier: every interleaving of callbacks with
    shutdowns, over the reader/writer lock the barrier drains. */
module AdapterBoundary {
  import opened Common

  const MAX_PENDING_CALLS := 64

  // ---- the call context --------------------------------------------------------------------

  /** A terminal outcome of a local call. */
  datatype Terminal = Closed | ShuttingDown | TimedOut

  datatype Call = Call(deadline: int, committed: bool, terminal: Option<Terminal>, finalReport: bool, admitted: bool)

  /** The earlier of two transitions, the first when they fell together. */
  function Earlier(a: Option<(int, Terminal)>, b: Option<(int, Terminal)>): Option<(int, Terminal)> {
    if a.None? then b else if b.None? || a.value.0 <= b.value.0 then a else b
  }

  function Transition(c: Call, stopped: Option<int>, closed: Option<int>, now: int): Option<(int, Terminal)> {
    var byClose := if !c.finalReport && closed.Some? then Some((closed.value, Closed)) else None;
    var byStop := if !c.finalReport && stopped.Some? then Some((stopped.value, ShuttingDown)) else None;
    var byTime := if now >= c.deadline then Some((c.deadline, TimedOut)) else None;
    Earlier(Earlier(byClose, byStop), byTime)
  }

  function Cancellation(c: Call, stopped: Option<int>, closed: Option<int>, now: int): (Call, Option<Terminal>) {
    if c.committed then (c, None)
    else if c.terminal.Some? then (c, c.terminal)
    else
      var t := Transition(c, stopped, closed, now);
      var v := if t.Some? then Some(t.value.1) else None;
      (c.(terminal := v), v)
  }

  /** A call that is neither committed nor a final report is cancelled once the adapter has stopped. */
  lemma StopCancels(c: Call, stopped: Option<int>, closed: Option<int>, now: int)
    requires stopped.Some? && !c.committed && !c.finalReport
    ensures Cancellation(c, stopped, closed, now).1.Some?
  {
  }

  /** Cancellation is sticky: whatever happens later, the first terminal outcome is the answer. */
  lemma CancellationIsSticky(c: Call, stopped: Option<int>, closed: Option<int>, now: int,
                             stopped': Option<int>, closed': Option<int>, now': int)
    requires Cancellation(c, stopped, closed, now).1.Some?
    ensures var (c', v) := Cancellation(c, stopped, closed, now);
            Cancellation(c', stopped', closed', now') == (c', v)
  {
  }

  /** The outcome is the transition that came first. */
  lemma EarliestTransitionWins(c: Call, stopped: Option<int>, closed: Option<int>, now: int)
    requires !c.committed && c.terminal.None?
    ensures var v := Cancellation(c, stopped, closed, now).1;
            && (v == Some(ShuttingDown) ==> stopped.Some? && (closed.Some? ==> stopped.value < closed.value)
                                            && (now >= c.deadline ==> stopped.value <= c.deadline))
            && (v == Some(Closed) ==> closed.Some? && (stopped.Some? ==> closed.value <= stopped.value)
                                      && (now >= c.deadline ==> closed.value <= c.deadline))
            && (v == Some(TimedOut) ==> now >= c.deadline
                                        && (!c.finalReport && stopped.Some? ==> c.deadline < stopped.value)
                                        && (!c.finalReport && closed.Some? ==> c.deadline < closed.value))
            && (v == None <==> now < c.deadline && (c.finalReport || (stopped.None? && closed.None?)))
  {
  }

  // ---- the transition system -----------------------------------------------------------------

  datatype Ending = Ran | Refused(why: Terminal)

  /** Where a callback is. `Trying` has passed the check of the loop and not yet taken the read lock;
      `Guarded` holds it and has not yet checked again; `Leaving` still holds it. */
  datatype CallbackPc =
    Looping | Trying | Guarded | Running | Leaving(how: Ending) | Dropping(how: Ending) | Returned(how: Ending)

  datatype Callback = Callback(call: Call, pc: CallbackPc)

  datatype ShutdownPc = Entered | Stopped | AdapterDown | Writing | ShutDown

  datatype State = State(
    stopped: Option<int>,
    pending: int,
    readers: set<nat>,
    writer: Option<nat>,
    callbacks: map<nat, Callback>,
    shutdowns: map<nat, ShutdownPc>)

  const Start := State(None, 0, {}, None, map[], map[])

  datatype Action =
    | Invoke(id: nat, now: int, bound: int)
    | CheckInLoop(id: nat, now: int, closed: Option<int>)
    | TryRead(id: nat, granted: bool)
    | CheckUnderLock(id: nat, now: int, closed: Option<int>)
    | BodyEnds(id: nat, committed: bool)
    | DropGuard(id: nat)
    | DropCall(id: nat)
    | CallShutdown(id: nat)
    | Stop(id: nat, now: int)
    | AdapterShutsDown(id: nat)
    | TakeWrite(id: nat)
    | DropWrite(id: nat)

  predicate At(s: State, id: nat, pc: CallbackPc) {
    id in s.callbacks && s.callbacks[id].pc == pc
  }

  predicate ShutdownAt(s: State, id: nat, pc: ShutdownPc) {
    id in s.shutdowns && s.shutdowns[id] == pc
  }

  /** A read lock is granted only while no writer holds the lock (it may be refused at any time), a write
      lock only while nobody does. */
  predicate Enabled(s: State, act: Action) {
    match act
    case Invoke(id, _, bound) => id !in s.callbacks && bound > 0
    case CheckInLoop(id, _, _) => At(s, id, Looping)
    case TryRead(id, granted) => At(s, id, Trying) && (granted ==> s.writer.None?)
    case CheckUnderLock(id, _, _) => At(s, id, Guarded)
    case BodyEnds(id, _) => At(s, id, Running)
    case DropGuard(id) => id in s.callbacks && s.callbacks[id].pc.Leaving?
    case DropCall(id) => id in s.callbacks && s.callbacks[id].pc.Dropping?
    case CallShutdown(id) => id !in s.shutdowns
    case Stop(id, _) => ShutdownAt(s, id, Entered)
    case AdapterShutsDown(id) => ShutdownAt(s, id, Stopped)
    case TakeWrite(id) => ShutdownAt(s, id, AdapterDown) && s.writer.None? && s.readers == {}
    case DropWrite(id) => ShutdownAt(s, id, Writing)
  }

  function SetCallback(s: State, id: nat, call: Call, pc: CallbackPc): State {
    s.(callbacks := s.callbacks[id := Callback(call, pc)])
  }

  function SetShutdown(s: State, id: nat, pc: ShutdownPc): State {
    s.(shutdowns := s.shutdowns[id := pc])
  }

  function Step(s: State, act: Action): State
    requires Enabled(s, act)
  {
    match act
    case Invoke(id, now, bound) =>
      var admitted := s.pending < MAX_PENDING_CALLS;
      var call := Call(now + bound, false, if admitted then None else Some(TimedOut), false, admitted);
      SetCallback(s.(pending := if admitted then s.pending + 1 else s.pending), id, call, Looping)
    case CheckInLoop(id, now, closed) =>
      var (call, v) := Cancellation(s.callbacks[id].call, s.stopped, closed, now);
      SetCallback(s, id, call, if v.Some? then Dropping(Refused(v.value)) else Trying)
    case TryRead(id, granted) =>
      if granted then SetCallback(s.(readers := s.readers + {id}), id, s.callbacks[id].call, Guarded)
      else SetCallback(s, id, s.callbacks[id].call, Looping)
    case CheckUnderLock(id, now, closed) =>
      var (call, v) := Cancellation(s.callbacks[id].call, s.stopped, closed, now);
      SetCallback(s, id, call, if v.Some? then Leaving(Refused(v.value)) else Running)
    case BodyEnds(id, committed) =>
      SetCallback(s, id, s.callbacks[id].call.(committed := committed), Leaving(Ran))
    case DropGuard(id) =>
      SetCallback(s.(readers := s.readers - {id}), id, s.callbacks[id].call, Dropping(s.callbacks[id].pc.how))
    case DropCall(id) =>
      var call := s.callbacks[id].call;
      SetCallback(s.(pending := if call.admitted then s.pending - 1 else s.pending), id,
                  call.(admitted := false), Returned(s.callbacks[id].pc.how))
    case CallShutdown(id) => SetShutdown(s, id, Entered)
    case Stop(id, now) =>
      SetShutdown(s.(stopped := if s.stopped.Some? then s.stopped else Some(now)), id, Stopped)
    case AdapterShutsDown(id) => SetShutdown(s, id, AdapterDown)
    case TakeWrite(id) => SetShutdown(s.(writer := Some(id)), id, Writing)
    case DropWrite(id) => SetShutdown(s.(writer := None), id, ShutDown)
  }

  ghost predicate Follows(s: State, s': State) {
    exists act: Action :: Enabled(s, act) && s' == Step(s, act)
  }

  ghost predicate Interleaving(ss: seq<State>) {
    ss != [] && ss[0] == Start && forall i :: 0 < i < |ss| ==> Follows(ss[i - 1], ss[i])
  }

  // ---- the invariant ---------------------------------------------------------------------------

  predicate HoldsRead(pc: CallbackPc) {
    pc.Guarded? || pc.Running? || pc.Leaving?
  }

  /** The read guards are held by exactly the callbacks between taking and dropping one, and no writer
      holds the lock beside them. */
  ghost predicate LockExact(s: State) {
    && (forall id :: id in s.readers <==> id in s.callbacks && HoldsRead(s.callbacks[id].pc))
    && (s.writer.Some? ==> s.readers == {} && ShutdownAt(s, s.writer.value, Writing))
  }

  /** A call that has not run is neither committed nor a final report. */
  ghost predicate CallsFresh(s: State) {
    forall id :: id in s.callbacks &&
                 (s.callbacks[id].pc.Looping? || s.callbacks[id].pc.Trying? || s.callbacks[id].pc.Guarded?) ==>
      !s.callbacks[id].call.committed && !s.callbacks[id].call.finalReport
  }

  predicate PastStop(pc: ShutdownPc) {
    !pc.Entered?
  }

  predicate PastWrite(pc: ShutdownPc) {
    pc.Writing? || pc.ShutDown?
  }

  ghost predicate NoneRunning(s: State) {
    forall id :: id in s.callbacks ==> !s.callbacks[id].pc.Running?
  }

  /** A shutdown that has had the lock has seen every body end. */
  ghost predicate Drained(s: State) {
    && (forall id :: id in s.shutdowns && PastStop(s.shutdowns[id]) ==> s.stopped.Some?)
    && (forall id :: id in s.shutdowns && PastWrite(s.shutdowns[id]) ==> NoneRunning(s))
  }

  ghost predicate Inv(s: State) {
    LockExact(s) && CallsFresh(s) && Drained(s)
  }

  lemma StepKeepsLock(s: State, act: Action)
    requires LockExact(s) && Enabled(s, act)
    ensures LockExact(Step(s, act))
  {
  }

  lemma StepKeepsFresh(s: State, act: Action)
    requires CallsFresh(s) && Enabled(s, act)
    ensures CallsFresh(Step(s, act))
  {
  }

  /** Once the adapter has stopped no further body starts, wherever its callback is: not even one that
      was descheduled between its check in the loop and taking the read lock. */
  lemma StoppedStartsNothing(s: State, act: Action, id: nat)
    requires CallsFresh(s) && Enabled(s, act) && s.stopped.Some?
    requires At(Step(s, act), id, Running)
    ensures At(s, id, Running)
  {
    if act.CheckUnderLock? {
      StopCancels(s.callbacks[act.id].call, s.stopped, act.closed, act.now);
    }
  }

  lemma StepKeepsDrained(s: State, act: Action)
    requires Inv(s) && Enabled(s, act)
    ensures Drained(Step(s, act))
  {
    var s' := Step(s, act);
    forall t | t in s'.shutdowns && PastWrite(s'.shutdowns[t])
      ensures NoneRunning(s')
    {
      if act.TakeWrite? && act.id == t {
        assert forall id :: id in s.callbacks ==> !HoldsRead(s.callbacks[id].pc);
      } else {
        assert NoneRunning(s) && s.stopped.Some?;
        forall id | id in s'.callbacks ensures !s'.callbacks[id].pc.Running? {
          if At(s', id, Running) {
            StoppedStartsNothing(s, act, id);
          }
        }
      }
    }
  }

  lemma {:induction false} EveryInterleaving(ss: seq<State>, i: nat)
    requires Interleaving(ss) && i < |ss|
    ensures Inv(ss[i])
  {
    if i > 0 {
      EveryInterleaving(ss, i - 1);
      assert Follows(ss[i - 1], ss[i]);
      var act :| Enabled(ss[i - 1], act) && ss[i] == Step(ss[i - 1], act);
      StepKeepsLock(ss[i - 1], act);
      StepKeepsFresh(ss[i - 1], act);
      StepKeepsDrained(ss[i - 1], act);
    }
  }

  lemma {:induction false} ShutdownIsFinal(ss: seq<State>, i: nat, j: nat, id: nat)
    requires Interleaving(ss) && i <= j < |ss| && ShutdownAt(ss[i], id, ShutDown)
    ensures ShutdownAt(ss[j], id, ShutDown)
    decreases j
  {
    if i < j {
      ShutdownIsFinal(ss, i, j - 1, id);
      assert Follows(ss[j - 1], ss[j]);
    }
  }

  /** When a shutdown has returned, every callback body that started has finished, and none starts
      afterwards. */
  lemma NoCallbackAfterShutdown(ss: seq<State>, i: nat, j: nat, shutdown: nat, callback: nat)
    requires Interleaving(ss) && i <= j < |ss| && ShutdownAt(ss[i], shutdown, ShutDown)
    ensures !At(ss[j], callback, Running)
  {
    ShutdownIsFinal(ss, i, j, shutdown);
    EveryInterleaving(ss, j);
    assert NoneRunning(ss[j]);
  }

  /** While a shutdown holds the write lock no callback is inside the barrier at all. */
  lemma WriteLockExcludesCallbacks(ss: seq<State>, i: nat, shutdown: nat, callback: nat)
    requires Interleaving(ss) && i < |ss| && ss[i].writer == Some(shutdown) && callback in ss[i].callbacks
    ensures !HoldsRead(ss[i].callbacks[callback].pc)
  {
    EveryInterleaving(ss, i);
    assert callback !in ss[i].readers;
  }

  // ---- the pending calls -----------------------------------------------------------------------

  function Admitted(callbacks: map<nat, Callback>): set<nat> {
    set id | id in callbacks && callbacks[id].call.admitted
  }

  ghost predicate PendingExact(s: State) {
    && s.pending == |Admitted(s.callbacks)| <= MAX_PENDING_CALLS
    && (forall id :: id in s.callbacks && s.callbacks[id].pc.Returned? ==> !s.callbacks[id].call.admitted)
  }

  lemma UpdateAdmitted(callbacks: map<nat, Callback>, id: nat, c: Callback)
    ensures |Admitted(callbacks[id := c])|
         == |Admitted(callbacks)| + (if c.call.admitted then 1 else 0)
            - (if id in callbacks && callbacks[id].call.admitted then 1 else 0)
  {
    var others := Admitted(callbacks) - {id};
    assert Admitted(callbacks[id := c]) == if c.call.admitted then others + {id} else others;
    assert Admitted(callbacks) == if id in callbacks && callbacks[id].call.admitted then others + {id} else others;
  }

  lemma StepKeepsPending(s: State, act: Action)
    requires PendingExact(s) && Enabled(s, act)
    ensures PendingExact(Step(s, act))
  {
    var s' := Step(s, act);
    if act.Invoke? || act.CheckInLoop? || act.TryRead? || act.CheckUnderLock? || act.BodyEnds? || act.DropGuard?
       || act.DropCall? {
      assert s'.callbacks == s.callbacks[act.id := s'.callbacks[act.id]];
      UpdateAdmitted(s.callbacks, act.id, s'.callbacks[act.id]);
    }
  }

  /** The admission count is the number of admitted calls not yet dropped, and never passes 64. */
  lemma {:induction false} PendingAlwaysExact(ss: seq<State>, i: nat)
    requires Interleaving(ss) && i < |ss|
    ensures PendingExact(ss[i])
  {
    if i > 0 {
      PendingAlwaysExact(ss, i - 1);
      assert Follows(ss[i - 1], ss[i]);
      var act :| Enabled(ss[i - 1], act) && ss[i] == Step(ss[i - 1], act);
      StepKeepsPending(ss[i - 1], act);
    } else {
      assert Admitted(Start.callbacks) == {};
    }
  }
}
