/** The properties of every run of the pairing windows, read off its log. */
module PairingRuns {
  import opened Common
  import opened PairingWindows
  import opened PairingLedger

  /** `e` opened a window of `a` with value `v` at `at`. */
  predicate Opening(e: Event, a: Attachment, v: Value, at: int) {
    e.Issued? && e.a == a && e.at == at && e.drew == Some(v)
  }

  ghost predicate OpenedIn(log: seq<Event>, a: Attachment, v: Value, at: int) {
    exists k :: 0 <= k < |log| && Opening(log[k], a, v, at)
  }

  lemma OpenedInMore(log: seq<Event>, e: Event, a: Attachment, v: Value, at: int)
    requires OpenedIn(log, a, v, at) || Opening(e, a, v, at)
    ensures OpenedIn(log + [e], a, v, at)
  {
    if OpenedIn(log, a, v, at) {
      var k :| 0 <= k < |log| && Opening(log[k], a, v, at);
      assert Opening((log + [e])[k], a, v, at);
    } else {
      assert Opening((log + [e])[|log|], a, v, at);
    }
  }

  predicate IsFresh(e: Event) {
    e.Revealed? && e.outcome.Fresh?
  }

  // ---- what each step adds to the log ------------------------------------------------------

  /** Every entry of the ledger is a window the log shows opening, in the past. */
  ghost predicate EntriesLogged(s: System) {
    forall v :: v in s.ledger.entries ==>
      && OpenedIn(s.log, s.ledger.entries[v].owner, v, s.ledger.entries[v].openedAt)
      && s.ledger.entries[v].openedAt <= s.clock
  }

  /** A value that was fresh once was drawn, and can be fresh no more. */
  ghost predicate FreshSpent(log: seq<Event>, entries: map<Value, Entry>, drawn: set<Value>) {
    forall k :: 0 <= k < |log| && IsFresh(log[k]) ==>
      && log[k].value in drawn
      && (log[k].value in entries ==> entries[log[k].value].state.Paired?)
  }

  lemma {:induction false} EntriesAlwaysLogged(window: int, clock: int, acts: seq<Action>)
    requires Legal(Start(window, clock), acts)
    ensures EntriesLogged(Run(Start(window, clock), acts))
  {
    if acts != [] {
      var before, act := Run(Start(window, clock), acts[..|acts| - 1]), acts[|acts| - 1];
      EntriesAlwaysLogged(window, clock, acts[..|acts| - 1]);
      EveryRunKeepsInv(window, clock, acts[..|acts| - 1]);
      StepLogsEntries(before, act);
    }
  }

  /** The ledger gains exactly the window the store opens. */
  lemma IssueEntries(s: System, a: Attachment, now: int, random: Option<Value>)
    requires Inv(s) && Enabled(s, DoIssue(a, now, random))
    ensures LedgerIssue(s.ledger, a, now, random).0.entries
         == if Opens(s.store, a, now, random) then s.ledger.entries[random.value := Entry(a, now, Open)]
            else s.ledger.entries
    ensures Opens(s.store, a, now, random) ==> random.Some?
  {
    IssueAnswers(s.store, s.ledger, s.clock, a, now, random);
    if Opens(s.store, a, now, random) {
      LedgerOpens(s.store, s.ledger, s.clock, a, now, random.value);
    }
  }

  lemma IssueLogsEntries(s: System, a: Attachment, now: int, random: Option<Value>)
    requires Inv(s) && Enabled(s, DoIssue(a, now, random)) && EntriesLogged(s)
    ensures EntriesLogged(Step(s, DoIssue(a, now, random)))
  {
    var s' := Step(s, DoIssue(a, now, random));
    IssueEntries(s, a, now, random);
    assert s'.log == s.log + [s'.log[|s.log|]];
    forall v | v in s'.ledger.entries
      ensures OpenedIn(s'.log, s'.ledger.entries[v].owner, v, s'.ledger.entries[v].openedAt)
      ensures s'.ledger.entries[v].openedAt <= s'.clock
    {
      OpenedInMore(s.log, s'.log[|s.log|], s'.ledger.entries[v].owner, v, s'.ledger.entries[v].openedAt);
    }
  }

  /** The other steps add no entry and move none. */
  lemma OtherStepLogsEntries(s: System, act: Action)
    requires Enabled(s, act) && EntriesLogged(s) && !act.DoIssue?
    ensures EntriesLogged(Step(s, act))
  {
    var s' := Step(s, act);
    assert s'.log == s.log + [s'.log[|s.log|]];
    forall v | v in s'.ledger.entries
      ensures OpenedIn(s'.log, s'.ledger.entries[v].owner, v, s'.ledger.entries[v].openedAt)
      ensures s'.ledger.entries[v].openedAt <= s'.clock
    {
      assert v in s.ledger.entries && s'.ledger.entries[v] == s.ledger.entries[v].(state := s'.ledger.entries[v].state);
      OpenedInMore(s.log, s'.log[|s.log|], s'.ledger.entries[v].owner, v, s'.ledger.entries[v].openedAt);
    }
  }

  lemma StepLogsEntries(s: System, act: Action)
    requires Inv(s) && Enabled(s, act) && EntriesLogged(s)
    ensures EntriesLogged(Step(s, act))
  {
    if act.DoIssue? {
      IssueLogsEntries(s, act.a, act.now, act.random);
    } else {
      OtherStepLogsEntries(s, act);
    }
  }

  /** The value of a fresh reveal is an open entry of the ledger, on its own attachment, in its window. */
  lemma FreshIsPairable(s: System, value: Value, nativeId: string, now: int, acceptable: Attachment -> bool)
    requires Inv(s) && s.clock <= now && Reveal(s.store, value, nativeId, now, acceptable).1.Fresh?
    ensures value in s.ledger.entries && Pairable(s.ledger, value, now)
    ensures Reveal(s.store, value, nativeId, now, acceptable).1.on == s.ledger.entries[value].owner
    ensures LedgerReveal(s.ledger, value, nativeId, now, acceptable).0 == LedgerUse(s.ledger, value, nativeId)
  {
    FreshEntry(s.store, s.ledger, s.clock, value, nativeId, now, acceptable);
  }

  lemma FreshEntry(s: Store, l: Ledger, clock: int, value: Value, nativeId: string, now: int,
                   acceptable: Attachment -> bool)
    requires MutuallyInverse(s) && Refines(s, l, clock) && Reveal(s, value, nativeId, now, acceptable).1.Fresh?
    ensures value in l.entries && Pairable(l, value, now)
    ensures Reveal(s, value, nativeId, now, acceptable).1.on == l.entries[value].owner
    ensures LedgerReveal(l, value, nativeId, now, acceptable).0 == LedgerUse(l, value, nativeId)
  {
    var a, i, outcome := RevealRecorded(s, l, clock, value, nativeId, now, acceptable);
  }

  lemma FreshSpentMore(log: seq<Event>, e: Event, entries: map<Value, Entry>, entries': map<Value, Entry>,
                       drawn: set<Value>, drawn': set<Value>)
    requires FreshSpent(log, entries, drawn) && drawn <= drawn'
    requires forall v :: v in entries' && v in drawn ==>
               v in entries && (entries[v].state.Paired? ==> entries'[v].state.Paired?)
    requires IsFresh(e) ==> e.value in drawn' && (e.value in entries' ==> entries'[e.value].state.Paired?)
    ensures FreshSpent(log + [e], entries', drawn')
  {
  }

  lemma RevealSpends(s: System, value: Value, nativeId: string, now: int, acceptable: Attachment -> bool)
    requires Inv(s) && s.clock <= now && FreshSpent(s.log, s.ledger.entries, s.drawn)
    ensures var s' := Step(s, DoReveal(value, nativeId, now, acceptable));
            FreshSpent(s'.log, s'.ledger.entries, s'.drawn)
  {
    var outcome := Reveal(s.store, value, nativeId, now, acceptable).1;
    var (ledger, byLedger) := LedgerReveal(s.ledger, value, nativeId, now, acceptable);
    if outcome.Fresh? {
      FreshIsPairable(s, value, nativeId, now, acceptable);
    }
    LedgerRevealKeeps(s.ledger, value, nativeId, now, acceptable);
    FreshSpentMore(s.log, Revealed(value, now, outcome, byLedger), s.ledger.entries, ledger.entries, s.drawn, s.drawn);
  }

  /** A reveal adds no entry and makes none pairable again. */
  lemma LedgerRevealKeeps(l: Ledger, value: Value, nativeId: string, now: int, acceptable: Attachment -> bool)
    ensures var entries := LedgerReveal(l, value, nativeId, now, acceptable).0.entries;
            forall v :: v in entries ==> v in l.entries && (l.entries[v].state.Paired? ==> entries[v].state.Paired?)
  {
  }

  lemma StepSpends(s: System, act: Action)
    requires Inv(s) && Enabled(s, act) && FreshSpent(s.log, s.ledger.entries, s.drawn)
    ensures var s' := Step(s, act); FreshSpent(s'.log, s'.ledger.entries, s'.drawn)
  {
    if act.DoReveal? {
      RevealSpends(s, act.value, act.nativeId, act.now, act.acceptable);
    } else {
      var s' := Step(s, act);
      FreshSpentMore(s.log, s'.log[|s.log|], s.ledger.entries, s'.ledger.entries, s.drawn, s'.drawn);
    }
  }

  lemma {:induction false} FreshAlwaysSpent(window: int, clock: int, acts: seq<Action>)
    requires Legal(Start(window, clock), acts)
    ensures var s := Run(Start(window, clock), acts); FreshSpent(s.log, s.ledger.entries, s.drawn)
  {
    if acts != [] {
      FreshAlwaysSpent(window, clock, acts[..|acts| - 1]);
      EveryRunKeepsInv(window, clock, acts[..|acts| - 1]);
      StepSpends(Run(Start(window, clock), acts[..|acts| - 1]), acts[|acts| - 1]);
    }
  }

  // ---- the theorems --------------------------------------------------------------------------

  lemma LogGrows(start: System, acts: seq<Action>)
    requires acts != []
    ensures var before := Run(start, acts[..|acts| - 1]).log;
            var after := Run(start, acts).log;
            |after| == |before| + 1 && after[..|before|] == before
  {
  }

  /** Bounding the history changes no pairing: the store gives the ledger's answer to every issue,
      and to every reveal but those of a value the ledger remembers as ended or used and the store
      has dropped, which it calls unknown. */
  lemma {:induction false} BoundedHistoryChangesNoPairing(window: int, clock: int, acts: seq<Action>, k: nat)
    requires Legal(Start(window, clock), acts)
    requires k < |Run(Start(window, clock), acts).log|
    ensures var e := Run(Start(window, clock), acts).log[k];
            && (e.Issued? ==> e.answer == e.byLedger)
            && (e.Revealed? ==> SameReveal(e.outcome, e.byLedgerOutcome))
  {
    if acts != [] {
      var before, act := Run(Start(window, clock), acts[..|acts| - 1]), acts[|acts| - 1];
      LogGrows(Start(window, clock), acts);
      if k < |before.log| {
        BoundedHistoryChangesNoPairing(window, clock, acts[..|acts| - 1], k);
      } else {
        EveryRunKeepsInv(window, clock, acts[..|acts| - 1]);
        if act.DoIssue? {
          IssueKeepsInv(before, act.a, act.now, act.random);
        } else if act.DoReveal? {
          RevealAnswers(before.store, before.ledger, before.clock, act.value, act.nativeId, act.now, act.acceptable);
        }
      }
    }
  }

  /** A value is fresh at most once in a run. */
  lemma {:induction false} FreshAtMostOnce(window: int, clock: int, acts: seq<Action>, j: nat, k: nat)
    requires Legal(Start(window, clock), acts)
    requires j < k < |Run(Start(window, clock), acts).log|
    requires IsFresh(Run(Start(window, clock), acts).log[j]) && IsFresh(Run(Start(window, clock), acts).log[k])
    ensures Run(Start(window, clock), acts).log[j].value != Run(Start(window, clock), acts).log[k].value
  {
    var before, act := Run(Start(window, clock), acts[..|acts| - 1]), acts[|acts| - 1];
    LogGrows(Start(window, clock), acts);
    if k < |before.log| {
      FreshAtMostOnce(window, clock, acts[..|acts| - 1], j, k);
    } else {
      EveryRunKeepsInv(window, clock, acts[..|acts| - 1]);
      FreshAlwaysSpent(window, clock, acts[..|acts| - 1]);
      assert IsFresh(before.log[j]);
      FreshIsPairable(before, act.value, act.nativeId, act.now, act.acceptable);
    }
  }

  /** A fresh reveal is of a window the log shows opening on the very attachment it narrows to, less
      than 60 seconds before. */
  lemma {:induction false} FreshOnlyInItsWindow(window: int, clock: int, acts: seq<Action>, k: nat) returns (j: nat)
    requires Legal(Start(window, clock), acts)
    requires k < |Run(Start(window, clock), acts).log| && IsFresh(Run(Start(window, clock), acts).log[k])
    ensures var log := Run(Start(window, clock), acts).log;
            && j < k && log[j].Issued? && Opening(log[j], log[k].outcome.on, log[k].value, log[j].at)
            && log[j].at <= log[k].at < log[j].at + Clamped(window)
            && log[k].at < log[j].at + MAX_WINDOW
  {
    var before, act := Run(Start(window, clock), acts[..|acts| - 1]), acts[|acts| - 1];
    LogGrows(Start(window, clock), acts);
    if k < |before.log| {
      j := FreshOnlyInItsWindow(window, clock, acts[..|acts| - 1], k);
    } else {
      EveryRunKeepsInv(window, clock, acts[..|acts| - 1]);
      EntriesAlwaysLogged(window, clock, acts[..|acts| - 1]);
      WindowNeverChanges(window, clock, acts[..|acts| - 1]);
      FreshIsPairable(before, act.value, act.nativeId, act.now, act.acceptable);
      var e := before.ledger.entries[act.value];
      assert OpenedIn(before.log, e.owner, act.value, e.openedAt);
      j :| 0 <= j < |before.log| && Opening(before.log[j], e.owner, act.value, e.openedAt);
    }
  }

  lemma {:induction false} WindowNeverChanges(window: int, clock: int, acts: seq<Action>)
    ensures Run(Start(window, clock), acts).ledger.window == Clamped(window)
  {
    if acts != [] {
      WindowNeverChanges(window, clock, acts[..|acts| - 1]);
    }
  }

  // ---- the quota -----------------------------------------------------------------------------

  /** Whether `e` starts the count of `a` again: a reveal paired on it, or it ended. */
  predicate Resets(e: Event, a: Attachment) {
    (e.WasPaired? || e.Forgot?) && e.a == a
  }

  predicate Opened(e: Event, a: Attachment) {
    e.Issued? && e.a == a && e.drew.Some?
  }

  function CountOpened(log: seq<Event>, a: Attachment): nat {
    if log == [] then 0 else CountOpened(log[..|log| - 1], a) + if Opened(log[|log| - 1], a) then 1 else 0
  }

  /** The windows `a` has opened since its count last started again. */
  function OpenedSince(log: seq<Event>, a: Attachment): nat {
    if log == [] || Resets(log[|log| - 1], a) then 0
    else OpenedSince(log[..|log| - 1], a) + if Opened(log[|log| - 1], a) then 1 else 0
  }

  lemma StepCounts(s: System, act: Action, a: Attachment)
    requires WindowsOf(s.store, a).sincePaired <= MAX_WINDOWS
    ensures var s' := Step(s, act);
            var e := s'.log[|s.log|];
            && s'.log == s.log + [e]
            && WindowsOf(s'.store, a).sincePaired
               == (if Resets(e, a) then 0 else WindowsOf(s.store, a).sincePaired + if Opened(e, a) then 1 else 0)
            && WindowsOf(s'.store, a).sincePaired <= MAX_WINDOWS
  {
    match act
    case DoIssue(_, _, _) =>
    case DoReveal(value, nativeId, now, acceptable) =>
      assert WindowsOf(Reveal(s.store, value, nativeId, now, acceptable).0, a).sincePaired
          == WindowsOf(s.store, a).sincePaired;
    case DoPaired(_) =>
    case DoForget(_) =>
  }

  lemma {:induction false} CountIsExact(window: int, clock: int, acts: seq<Action>, a: Attachment)
    requires Legal(Start(window, clock), acts)
    ensures var s := Run(Start(window, clock), acts);
            OpenedSince(s.log, a) == WindowsOf(s.store, a).sincePaired <= MAX_WINDOWS
  {
    if acts != [] {
      var before, act := Run(Start(window, clock), acts[..|acts| - 1]), acts[|acts| - 1];
      CountIsExact(window, clock, acts[..|acts| - 1], a);
      StepCounts(before, act, a);
      var after := Run(Start(window, clock), acts);
      assert after.log[..|after.log| - 1] == before.log;
    }
  }

  lemma {:induction false} SegmentWithinCount(log: seq<Event>, a: Attachment, i: nat)
    requires i <= |log| && forall k :: i <= k < |log| ==> !Resets(log[k], a)
    ensures CountOpened(log[i..], a) <= OpenedSince(log, a)
  {
    if i < |log| {
      assert log[i..][..|log[i..]| - 1] == log[..|log| - 1][i..];
      SegmentWithinCount(log[..|log| - 1], a, i);
    }
  }

  /** At most three windows open on an attachment between two calls that start its count again. */
  lemma {:induction false} AtMostThreeWindows(window: int, clock: int, acts: seq<Action>, a: Attachment, i: nat, j: nat)
    requires Legal(Start(window, clock), acts)
    requires i <= j <= |Run(Start(window, clock), acts).log|
    requires forall k :: i <= k < j ==> !Resets(Run(Start(window, clock), acts).log[k], a)
    ensures CountOpened(Run(Start(window, clock), acts).log[i..j], a) <= MAX_WINDOWS
  {
    var log := Run(Start(window, clock), acts).log;
    if j == |log| {
      assert log[i..j] == log[i..];
      SegmentWithinCount(log, a, i);
      CountIsExact(window, clock, acts, a);
    } else {
      LogGrows(Start(window, clock), acts);
      var before := Run(Start(window, clock), acts[..|acts| - 1]).log;
      assert log[i..j] == before[i..j];
      AtMostThreeWindows(window, clock, acts[..|acts| - 1], a, i, j);
    }
  }

  /** In every run at most one record of an attachment, its newest, is live. */
  lemma OneLiveWindow(window: int, clock: int, acts: seq<Action>, a: Attachment, i: nat)
    requires Legal(Start(window, clock), acts)
    requires var s := Run(Start(window, clock), acts);
             && a in s.store.byAttachment && i < |s.store.byAttachment[a].records|
             && Live(s.store.window, s.store.byAttachment[a].records[i], s.clock)
    ensures i == |Run(Start(window, clock), acts).store.byAttachment[a].records| - 1
  {
    EveryRunKeepsInv(window, clock, acts);
    var s := Run(Start(window, clock), acts);
    assert NonNewestDead(s.store.window, s.store.byAttachment[a].records, s.clock);
  }
}
