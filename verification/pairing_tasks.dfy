/** The tasks of a daemon's device pairing: pairings, unpairs and the save retry, the count of running
    tasks that `close` waits for, the one pairing slot, and the flag that keeps one retry loop. Each step
    is one locked section or one atomic operation. */
module PairingTasks {
  import opened Common

  // ---- the locked sections -----------------------------------------------------------------------

  datatype Tracking = Tracking(closed: bool, active: nat)

  /** What the tasks of one daemon share: the count of running tasks, the slot and the retry flag. */
  datatype Pairing = Pairing(tracking: Tracking, slot: bool, retrying: bool)

  /** A place in the count of running tasks, unless the daemon is closing. */
  function Begun(p: Pairing): (Pairing, bool) {
    if p.tracking.closed then (p, false) else (p.(tracking := p.tracking.(active := p.tracking.active + 1)), true)
  }

  /** A place is given back; the last one wakes a close that waits. */
  function Dropped(p: Pairing): (Pairing, bool) {
    var active := if p.tracking.active > 0 then p.tracking.active - 1 else 0;
    (p.(tracking := p.tracking.(active := active)), active == 0)
  }

  function Closed(p: Pairing): Pairing {
    p.(tracking := p.tracking.(closed := true))
  }

  /** Compare and exchange: the slot, unless it is taken. */
  function SlotTaken(p: Pairing): (Pairing, bool) {
    (p.(slot := true), !p.slot)
  }

  function SlotFreed(p: Pairing): Pairing {
    p.(slot := false)
  }

  /** Atomic swap: the flag, unless it is set. */
  function FlagTaken(p: Pairing): (Pairing, bool) {
    (p.(retrying := true), !p.retrying)
  }

  function FlagCleared(p: Pairing): Pairing {
    p.(retrying := false)
  }

  /** The same state as the object that holds it; each method is one locked section or one atomic operation,
      and a step of a task makes one of them. */
  class DevicePairing {
    var closed: bool
    var active: nat
    var slot: bool
    var retrying: bool

    function View(): Pairing
      reads this
    {
      Pairing(Tracking(closed, active), slot, retrying)
    }

    constructor ()
      ensures View() == IDLE
    {
      closed, active, slot, retrying := false, 0, false, false;
    }

    method Begin() returns (ok: bool)
      modifies this
      ensures (View(), ok) == Begun(old(View()))
    {
      if closed {
        return false;
      }
      active := active + 1;
      ok := true;
    }

    method DropActive() returns (idle: bool)
      requires active > 0
      modifies this
      ensures (View(), idle) == Dropped(old(View()))
    {
      active := active - 1;
      idle := active == 0;
    }

    method BeginClose()
      modifies this
      ensures View() == Closed(old(View()))
    {
      closed := true;
    }

    method TakeSlot() returns (ok: bool)
      modifies this
      ensures (View(), ok) == SlotTaken(old(View()))
    {
      ok := !slot;
      if ok {
        slot := true;
      }
    }

    method DropSlot()
      modifies this
      ensures View() == SlotFreed(old(View()))
    {
      slot := false;
    }

    method SwapRetrying() returns (was: bool)
      modifies this
      ensures (View(), !was) == FlagTaken(old(View()))
    {
      was, retrying := retrying, true;
    }

    method ClearRetrying()
      modifies this
      ensures View() == FlagCleared(old(View()))
    {
      retrying := false;
    }
  }

  const IDLE := Pairing(Tracking(false, 0), false, false)

  // ---- tasks -------------------------------------------------------------------------------------

  /** Where a task is. `Ended` has dropped its place in the count. */
  datatype Task =
    | PairCalled | PairActive | PairSlot | PairReleased
    | UnpairCalled | UnpairActive | UnpairArming | UnpairOwning | UnpairDisowning | UnpairDone
    | RetryLoop | RetryWaiting | RetrySaving | RetryEnding | RetryClearing | RetryLooking | RetryTaking | RetryDone
    | CloseCalled | CloseWaiting | CloseReturned
    | Ended

  /** `unsaved`, `stopped` and `coreClosed` are the trust store's unsaved change, the daemon's stop signal and
      the core's closing. */
  datatype Shared = Shared(pairing: Pairing, unsaved: bool, stopped: bool, coreClosed: bool)

  datatype State = State(shared: Shared, tasks: map<nat, Task>)

  /** What the environment decides at a step: whether a save succeeds, an unpair removes a key, a sleep
      ends. */
  datatype Choice = Choice(saves: bool, removes: bool)

  datatype Turn = Turn(shared: Shared, task: Task, spawned: bool)

  /** A step that tries for something: where it leads with it, and where without. */
  function Tries(sh: Shared, r: (Pairing, bool), granted: Task, refused: Task): Turn {
    Turn(sh.(pairing := r.0), if r.1 then granted else refused, false)
  }

  function Drop(sh: Shared): Turn {
    Turn(sh.(pairing := Dropped(sh.pairing).0), Ended, false)
  }

  function Clear(sh: Shared, task: Task): Turn {
    Turn(sh.(pairing := FlagCleared(sh.pairing)), task, false)
  }

  /** One step of a task. */
  function Next(sh: Shared, t: Task, c: Choice): Turn {
    match t
    case PairCalled => Tries(sh, Begun(sh.pairing), PairActive, Ended)
    case PairActive => Tries(sh, SlotTaken(sh.pairing), PairSlot, PairReleased)
    case PairSlot =>
      // The pairing ends; one that was confirmed and saved leaves nothing unsaved.
      var saved := if c.saves && !sh.coreClosed then sh.(unsaved := false) else sh;
      Turn(saved.(pairing := SlotFreed(sh.pairing)), PairReleased, false)
    case PairReleased => Drop(sh)
    case UnpairCalled => Tries(sh, Begun(sh.pairing), UnpairActive, Ended)
    case UnpairActive =>
      if sh.coreClosed || !c.removes then Turn(sh, UnpairDone, false)
      else if c.saves then Turn(sh.(unsaved := false), UnpairDone, false)
      else Turn(sh.(unsaved := true), UnpairArming, false)
    case UnpairArming => Tries(sh, FlagTaken(sh.pairing), UnpairOwning, UnpairDone)
    case UnpairOwning =>
      var (p, ok) := Begun(sh.pairing);
      if ok then Turn(sh.(pairing := p), UnpairDone, true) else Turn(sh, UnpairDisowning, false)
    case UnpairDisowning => Clear(sh, UnpairDone)
    case UnpairDone => Drop(sh)
    case RetryLoop => Turn(sh, if sh.unsaved then RetryWaiting else RetryClearing, false)
    case RetryWaiting => Turn(sh, if sh.stopped then RetryEnding else RetrySaving, false)
    case RetrySaving =>
      if sh.coreClosed then Turn(sh, RetryEnding, false)
      else Turn(if c.saves then sh.(unsaved := false) else sh, RetryLoop, false)
    case RetryEnding => Clear(sh, RetryDone)
    case RetryClearing => Clear(sh, RetryLooking)
    case RetryLooking => Turn(sh, if sh.unsaved then RetryTaking else RetryDone, false)
    case RetryTaking => Tries(sh, FlagTaken(sh.pairing), RetryLoop, RetryDone)
    case RetryDone => Drop(sh)
    case CloseCalled => Turn(sh.(pairing := Closed(sh.pairing)), CloseWaiting, false)
    case CloseWaiting => Turn(sh, if sh.pairing.tracking.active == 0 then CloseReturned else CloseWaiting, false)
    case CloseReturned => Turn(sh, CloseReturned, false)
    case Ended => Turn(sh, Ended, false)
  }

  datatype Action =
    | Call(id: nat, task: Task)
    | Advance(id: nat, choice: Choice, spawn: nat)
    | SignalStop
    | CloseCore

  predicate Enabled(s: State, a: Action) {
    match a
    case Call(id, task) => id !in s.tasks && (task == PairCalled || task == UnpairCalled || task == CloseCalled)
    case Advance(id, _, spawn) => id in s.tasks && spawn !in s.tasks
    case _ => true
  }

  function Step(s: State, a: Action): State
    requires Enabled(s, a)
  {
    match a
    case Call(id, task) => s.(tasks := s.tasks[id := task])
    case Advance(id, choice, spawn) =>
      var turn := Next(s.shared, s.tasks[id], choice);
      var tasks := s.tasks[id := turn.task];
      State(turn.shared, if turn.spawned then tasks[spawn := RetryLoop] else tasks)
    case SignalStop => s.(shared := s.shared.(stopped := true))
    case CloseCore => s.(shared := s.shared.(coreClosed := true))
  }

  ghost predicate Follows(s: State, t: State) {
    exists a :: Enabled(s, a) && t == Step(s, a)
  }

  const START := State(Shared(IDLE, false, false, false), map[])

  ghost predicate Interleaving(ss: seq<State>) {
    && ss != [] && ss[0] == START
    && forall i :: 0 <= i < |ss| - 1 ==> Follows(ss[i], ss[i + 1])
  }

  // ---- what tasks hold ---------------------------------------------------------------------------

  /** In the count of running tasks. */
  predicate Runs(t: Task) {
    !t.PairCalled? && !t.UnpairCalled? && !t.CloseCalled? && !t.CloseWaiting? && !t.CloseReturned? && !t.Ended?
  }

  predicate HoldsSlot(t: Task) {
    t.PairSlot?
  }

  /** Owns the retry flag. */
  predicate Owns(t: Task) {
    || t.UnpairOwning? || t.UnpairDisowning?
    || t.RetryLoop? || t.RetryWaiting? || t.RetrySaving? || t.RetryEnding? || t.RetryClearing?
  }

  /** Will look at what is unsaved and take the flag if nobody has it. */
  predicate WillTake(t: Task) {
    t.UnpairArming? || t.RetryLooking? || t.RetryTaking?
  }

  ghost function Those(tasks: map<nat, Task>, p: Task -> bool): set<nat> {
    set id | id in tasks && p(tasks[id])
  }

  function One(b: bool): nat {
    if b then 1 else 0
  }

  lemma Replaced(tasks: map<nat, Task>, id: nat, t: Task, p: Task -> bool)
    requires id in tasks
    ensures |Those(tasks[id := t], p)| + One(p(tasks[id])) == |Those(tasks, p)| + One(p(t))
  {
    var before, after := Those(tasks, p), Those(tasks[id := t], p);
    assert after - {id} == before - {id};
    assert |before - {id}| == |before| - One(id in before);
    assert |after - {id}| == |after| - One(id in after);
  }

  lemma Added(tasks: map<nat, Task>, id: nat, t: Task, p: Task -> bool)
    requires id !in tasks
    ensures |Those(tasks[id := t], p)| == |Those(tasks, p)| + One(p(t))
  {
    assert Those(tasks[id := t], p) == Those(tasks, p) + if p(t) then {id} else {};
  }

  lemma HasOne(tasks: map<nat, Task>, id: nat, p: Task -> bool)
    requires id in tasks && p(tasks[id])
    ensures |Those(tasks, p)| >= 1
  {
    assert id in Those(tasks, p);
  }

  // ---- what every interleaving keeps -------------------------------------------------------------

  ghost predicate Counted(s: State) {
    && s.shared.pairing.tracking.active == |Those(s.tasks, Runs)|
    && One(s.shared.pairing.slot) == |Those(s.tasks, HoldsSlot)|
    && One(s.shared.pairing.retrying) == |Those(s.tasks, Owns)|
  }

  predicate Closing(sh: Shared) {
    sh.pairing.tracking.closed || sh.stopped || sh.coreClosed
  }

  /** What is unsaved has an owner of the flag, or a task that will take it. */
  ghost predicate Watched(s: State) {
    s.shared.unsaved && !Closing(s.shared) ==> s.shared.pairing.retrying || |Those(s.tasks, WillTake)| >= 1
  }

  /** Gives up the retry flag although something may be unsaved. */
  predicate Leaving(t: Task) {
    t.UnpairDisowning? || t.RetryEnding?
  }

  /** A close that returned found the count at zero, and it stays there. The flag is given up for nothing
      but the daemon's closing. */
  predicate CloseWaited(sh: Shared, t: Task) {
    && (Leaving(t) ==> Closing(sh))
    && (t.CloseWaiting? || t.CloseReturned? ==> sh.pairing.tracking.closed)
    && (t.CloseReturned? ==> sh.pairing.tracking.active == 0)
  }

  ghost predicate ClosesWaited(s: State) {
    forall id :: id in s.tasks ==> CloseWaited(s.shared, s.tasks[id])
  }

  /** What a step of one task does to each count, when its own share of it is there. */
  lemma NextActive(sh: Shared, t: Task, c: Choice)
    requires Runs(t) ==> sh.pairing.tracking.active > 0
    ensures var n := Next(sh, t, c);
            n.shared.pairing.tracking.active + One(Runs(t))
            == sh.pairing.tracking.active + One(Runs(n.task)) + One(n.spawned)
  {
    match t
    case PairCalled => case PairActive => case PairSlot => case PairReleased =>
    case UnpairCalled => case UnpairActive => case UnpairArming => case UnpairOwning => case UnpairDisowning =>
    case UnpairDone => case RetryLoop => case RetryWaiting => case RetrySaving => case RetryEnding =>
    case RetryClearing => case RetryLooking => case RetryTaking => case RetryDone =>
    case CloseCalled => case CloseWaiting => case CloseReturned => case Ended =>
  }

  lemma NextSlot(sh: Shared, t: Task, c: Choice)
    requires HoldsSlot(t) ==> sh.pairing.slot
    ensures var n := Next(sh, t, c);
            One(n.shared.pairing.slot) + One(HoldsSlot(t)) == One(sh.pairing.slot) + One(HoldsSlot(n.task))
  {
    match t
    case PairCalled => case PairActive => case PairSlot => case PairReleased =>
    case UnpairCalled => case UnpairActive => case UnpairArming => case UnpairOwning => case UnpairDisowning =>
    case UnpairDone => case RetryLoop => case RetryWaiting => case RetrySaving => case RetryEnding =>
    case RetryClearing => case RetryLooking => case RetryTaking => case RetryDone =>
    case CloseCalled => case CloseWaiting => case CloseReturned => case Ended =>
  }

  lemma NextFlag(sh: Shared, t: Task, c: Choice)
    requires Owns(t) ==> sh.pairing.retrying
    ensures var n := Next(sh, t, c);
            One(n.shared.pairing.retrying) + One(Owns(t))
            == One(sh.pairing.retrying) + One(Owns(n.task)) + One(n.spawned)
  {
    match t
    case PairCalled => case PairActive => case PairSlot => case PairReleased =>
    case UnpairCalled => case UnpairActive => case UnpairArming => case UnpairOwning => case UnpairDisowning =>
    case UnpairDone => case RetryLoop => case RetryWaiting => case RetrySaving => case RetryEnding =>
    case RetryClearing => case RetryLooking => case RetryTaking => case RetryDone =>
    case CloseCalled => case CloseWaiting => case CloseReturned => case Ended =>
  }

  lemma AdvanceCounts(tasks: map<nat, Task>, id: nat, t: Task, spawned: bool, spawn: nat, p: Task -> bool)
    requires id in tasks && spawn !in tasks
    ensures var after := if spawned then tasks[id := t][spawn := RetryLoop] else tasks[id := t];
            |Those(after, p)| + One(p(tasks[id])) == |Those(tasks, p)| + One(p(t)) + One(spawned && p(RetryLoop))
  {
    Replaced(tasks, id, t, p);
    if spawned {
      Added(tasks[id := t], spawn, RetryLoop, p);
    }
  }

  lemma OwnShare(s: State, id: nat)
    requires Counted(s) && id in s.tasks
    ensures Runs(s.tasks[id]) ==> s.shared.pairing.tracking.active > 0
    ensures (HoldsSlot(s.tasks[id]) ==> s.shared.pairing.slot) && (Owns(s.tasks[id]) ==> s.shared.pairing.retrying)
  {
    if Runs(s.tasks[id]) {
      HasOne(s.tasks, id, Runs);
    }
    if HoldsSlot(s.tasks[id]) {
      HasOne(s.tasks, id, HoldsSlot);
    }
    if Owns(s.tasks[id]) {
      HasOne(s.tasks, id, Owns);
    }
  }

  lemma StepKeepsCounted(s: State, a: Action)
    requires Counted(s) && Enabled(s, a)
    ensures Counted(Step(s, a))
  {
    match a
    case Call(id, task) =>
      Added(s.tasks, id, task, Runs);
      Added(s.tasks, id, task, HoldsSlot);
      Added(s.tasks, id, task, Owns);
    case Advance(id, choice, spawn) =>
      OwnShare(s, id);
      NextActive(s.shared, s.tasks[id], choice);
      NextSlot(s.shared, s.tasks[id], choice);
      NextFlag(s.shared, s.tasks[id], choice);
      var n := Next(s.shared, s.tasks[id], choice);
      AdvanceCounts(s.tasks, id, n.task, n.spawned, spawn, Runs);
      AdvanceCounts(s.tasks, id, n.task, n.spawned, spawn, HoldsSlot);
      AdvanceCounts(s.tasks, id, n.task, n.spawned, spawn, Owns);
    case SignalStop =>
    case CloseCore =>
  }

  /** A step leaves what is unsaved watched, by the flag or by a task that will take it. */
  lemma NextWatches(sh: Shared, t: Task, c: Choice)
    requires !Closing(sh) && !Leaving(t)
    ensures var n := Next(sh, t, c);
            n.shared.unsaved && !Closing(n.shared) ==>
              n.shared.pairing.retrying || WillTake(n.task) || (sh.unsaved && !sh.pairing.retrying && !WillTake(t))
  {
  }

  lemma NextStaysClosing(sh: Shared, t: Task, c: Choice)
    ensures Closing(sh) ==> Closing(Next(sh, t, c).shared)
    ensures sh.pairing.tracking.closed ==> Next(sh, t, c).shared.pairing.tracking.closed && !Next(sh, t, c).spawned
    ensures sh.pairing.tracking.closed ==> Next(sh, t, c).shared.pairing.tracking.active <= sh.pairing.tracking.active
  {
  }

  lemma StepKeepsWatched(s: State, a: Action)
    requires Watched(s) && ClosesWaited(s) && Enabled(s, a)
    ensures Watched(Step(s, a))
  {
    match a
    case Call(id, task) => Added(s.tasks, id, task, WillTake);
    case Advance(id, choice, spawn) =>
      var n := Next(s.shared, s.tasks[id], choice);
      AdvanceCounts(s.tasks, id, n.task, n.spawned, spawn, WillTake);
      NextStaysClosing(s.shared, s.tasks[id], choice);
      assert CloseWaited(s.shared, s.tasks[id]);
      if !Closing(s.shared) {
        NextWatches(s.shared, s.tasks[id], choice);
      }
    case SignalStop =>
    case CloseCore =>
  }

  lemma NextCloses(sh: Shared, t: Task, c: Choice, other: Task)
    requires CloseWaited(sh, t) && CloseWaited(sh, other)
    ensures CloseWaited(Next(sh, t, c).shared, Next(sh, t, c).task) && CloseWaited(Next(sh, t, c).shared, other)
  {
    NextStaysClosing(sh, t, c);
  }

  lemma StepKeepsCloses(s: State, a: Action)
    requires ClosesWaited(s) && Enabled(s, a)
    ensures ClosesWaited(Step(s, a))
  {
    if a.Advance? {
      var s' := Step(s, a);
      forall id | id in s.tasks
        ensures CloseWaited(s'.shared, s.tasks[id]) && CloseWaited(s'.shared, s'.tasks[a.id])
      {
        NextCloses(s.shared, s.tasks[a.id], a.choice, s.tasks[id]);
      }
    }
  }

  ghost predicate Inv(s: State) {
    Counted(s) && Watched(s) && ClosesWaited(s)
  }

  lemma StepKeepsInv(s: State, a: Action)
    requires Inv(s) && Enabled(s, a)
    ensures Inv(Step(s, a))
  {
    StepKeepsCounted(s, a);
    StepKeepsWatched(s, a);
    StepKeepsCloses(s, a);
  }

  lemma {:induction false} EveryInterleaving(ss: seq<State>, i: nat)
    requires Interleaving(ss) && i < |ss|
    ensures Inv(ss[i])
  {
    if i == 0 {
      assert Those(START.tasks, Runs) == {} && Those(START.tasks, HoldsSlot) == {} && Those(START.tasks, Owns) == {};
    } else {
      EveryInterleaving(ss, i - 1);
      assert Follows(ss[i - 1], ss[i - 1 + 1]);
      var a :| Enabled(ss[i - 1], a) && ss[i] == Step(ss[i - 1], a);
      StepKeepsInv(ss[i - 1], a);
    }
  }

  lemma {:induction false} Later(ss: seq<State>, i: nat, j: nat)
    requires Interleaving(ss) && i <= j < |ss|
    ensures forall id :: id in ss[i].tasks && ss[i].tasks[id].CloseReturned? ==>
              id in ss[j].tasks && ss[j].tasks[id].CloseReturned?
  {
    if i < j {
      Later(ss, i, j - 1);
      assert Follows(ss[j - 1], ss[j - 1 + 1]);
    }
  }

  /** Once a close has returned, no pairing, unpair or retry task runs, then or ever after, and one that is
      called does not begin. */
  lemma NothingRunsAfterClose(ss: seq<State>, i: nat, j: nat, closer: nat, id: nat, c: Choice)
    requires Interleaving(ss) && i <= j < |ss|
    requires closer in ss[i].tasks && ss[i].tasks[closer].CloseReturned? && id in ss[j].tasks
    ensures var n := Next(ss[j].shared, ss[j].tasks[id], c);
            !Runs(ss[j].tasks[id]) && !Runs(n.task) && !n.spawned
  {
    Later(ss, i, j);
    EveryInterleaving(ss, j);
    assert CloseWaited(ss[j].shared, ss[j].tasks[closer]);
    if Runs(ss[j].tasks[id]) {
      HasOne(ss[j].tasks, id, Runs);
    }
    NextActive(ss[j].shared, ss[j].tasks[id], c);
    NextStaysClosing(ss[j].shared, ss[j].tasks[id], c);
  }

  lemma AtMostOne(tasks: map<nat, Task>, p: Task -> bool, a: nat, b: nat)
    requires |Those(tasks, p)| <= 1 && a in tasks && p(tasks[a]) && b in tasks && p(tasks[b])
    ensures a == b
  {
    var those := Those(tasks, p);
    assert a in those && b in those;
    assert |those - {a}| == |those| - 1;
    assert b !in those - {a};
  }

  /** In every state at most one task holds the pairing slot, and at most one owns the retry flag. */
  lemma OneSlotOneOwner(ss: seq<State>, i: nat, a: nat, b: nat)
    requires Interleaving(ss) && i < |ss| && a in ss[i].tasks && b in ss[i].tasks
    ensures HoldsSlot(ss[i].tasks[a]) && HoldsSlot(ss[i].tasks[b]) ==> a == b
    ensures Owns(ss[i].tasks[a]) && Owns(ss[i].tasks[b]) ==> a == b
  {
    EveryInterleaving(ss, i);
    if HoldsSlot(ss[i].tasks[a]) && HoldsSlot(ss[i].tasks[b]) {
      AtMostOne(ss[i].tasks, HoldsSlot, a, b);
    }
    if Owns(ss[i].tasks[a]) && Owns(ss[i].tasks[b]) {
      AtMostOne(ss[i].tasks, Owns, a, b);
    }
  }

  /** No wakeup is lost: until the daemon closes, a removal that is not saved has a task that owns the retry
      flag, or one that will take it. */
  lemma UnsavedIsWatched(ss: seq<State>, i: nat)
    requires Interleaving(ss) && i < |ss| && ss[i].shared.unsaved && !Closing(ss[i].shared)
    ensures exists id :: id in ss[i].tasks && (Owns(ss[i].tasks[id]) || WillTake(ss[i].tasks[id]))
  {
    EveryInterleaving(ss, i);
    var s := ss[i];
    if s.shared.pairing.retrying {
      var id :| id in Those(s.tasks, Owns);
    } else {
      var id :| id in Those(s.tasks, WillTake);
    }
  }

  /** The count of running tasks is exact in every state. */
  lemma RunningTasksCounted(ss: seq<State>, i: nat)
    requires Interleaving(ss) && i < |ss|
    ensures ss[i].shared.pairing.tracking.active == |set id | id in ss[i].tasks && Runs(ss[i].tasks[id])|
  {
    EveryInterleaving(ss, i);
    assert Those(ss[i].tasks, Runs) == set id | id in ss[i].tasks && Runs(ss[i].tasks[id]);
  }

  // ---- tasks end ---------------------------------------------------------------------------------

  /** The turns a task still takes by itself once the daemon is closing and has signalled the stop. */
  function TurnsLeft(t: Task, unsaved: bool): nat {
    match t
    case PairActive => 3
    case PairSlot => 2
    case PairReleased => 1
    case UnpairActive => 5
    case UnpairArming => 4
    case UnpairOwning => 3
    case UnpairDisowning => 2
    case UnpairDone => 1
    case RetryClearing => if unsaved then 7 else 3
    case RetryLooking => if unsaved then 6 else 2
    case RetryTaking => 5
    case RetrySaving => 5
    case RetryLoop => 4
    case RetryWaiting => 3
    case RetryEnding => 2
    case RetryDone => 1
    case PairCalled => 0 case UnpairCalled => 0 case CloseCalled => 0 case CloseWaiting => 0 case CloseReturned => 0
    case Ended => 0
  }

  lemma TurnEnds(sh: Shared, t: Task, c: Choice)
    requires sh.pairing.tracking.closed && sh.stopped && Runs(t)
    ensures var n := Next(sh, t, c);
            && n.shared.pairing.tracking.closed && n.shared.stopped && !n.spawned && (Runs(n.task) || n.task.Ended?)
            && TurnsLeft(n.task, n.shared.unsaved) < TurnsLeft(t, sh.unsaved) <= 7
  {
  }

  /** Turns of one task, with what the environment chooses at each. */
  function Own(sh: Shared, t: Task, cs: seq<Choice>): (Shared, Task)
    decreases |cs|
  {
    if cs == [] then (sh, t)
    else
      var n := Next(sh, t, cs[0]);
      Own(n.shared, n.task, cs[1..])
  }

  lemma {:induction false} StaysEnded(sh: Shared, cs: seq<Choice>)
    ensures Own(sh, Ended, cs).1 == Ended
    decreases |cs|
  {
    if cs != [] {
      StaysEnded(sh, cs[1..]);
    }
  }

  /** Once the daemon is closing and has signalled the stop, every running task ends by itself within seven
      turns, whatever fails or succeeds. */
  lemma {:induction false} TaskEnds(sh: Shared, t: Task, cs: seq<Choice>)
    requires sh.pairing.tracking.closed && sh.stopped && Runs(t) && |cs| >= TurnsLeft(t, sh.unsaved)
    ensures Own(sh, t, cs).1 == Ended
    decreases |cs|
  {
    TurnEnds(sh, t, cs[0]);
    var n := Next(sh, t, cs[0]);
    if n.task.Ended? {
      StaysEnded(n.shared, cs[1..]);
    } else {
      TaskEnds(n.shared, n.task, cs[1..]);
    }
  }

  /** A close that waits returns at its next turn once no task runs. */
  lemma CloseReturns(s: State, closer: nat, c: Choice)
    requires Counted(s) && closer in s.tasks && s.tasks[closer].CloseWaiting?
    requires forall id :: id in s.tasks ==> !Runs(s.tasks[id])
    ensures Next(s.shared, s.tasks[closer], c).task.CloseReturned?
  {
    assert Those(s.tasks, Runs) == {};
  }
}
