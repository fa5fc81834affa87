/** What the pairing windows mean: an unbounded ledger of every value ever issued, a run of both
    side by side, and the properties of every run. */
module PairingLedger {
  import opened Common
  import opened PairingWindows

  /** One issued value. */
  datatype Entry = Entry(owner: Attachment, openedAt: int, state: RecordState)

  /** The newest value of an attachment, and the windows it has opened since a reveal last paired. */
  datatype Head = Head(newest: Value, opens: nat)

  /** Nothing is evicted: every value issued on an attachment that has not ended. */
  datatype Ledger = Ledger(window: int, entries: map<Value, Entry>, heads: map<Attachment, Head>)

  predicate Pairable(l: Ledger, v: Value, now: int) {
    v in l.entries && l.entries[v].state.Open? && now < l.entries[v].openedAt + l.window
  }

  function LedgerIssue(l: Ledger, a: Attachment, now: int, random: Option<Value>): (Ledger, Option<Value>) {
    if a in l.heads && Pairable(l, l.heads[a].newest, now) then (l, Some(l.heads[a].newest))
    else
      var count := if a in l.heads then l.heads[a].opens else 0;
      if count >= MAX_WINDOWS || random.None? || random.value in l.entries then (l, None)
      else
        (l.(entries := l.entries[random.value := Entry(a, now, Open)],
            heads := l.heads[a := Head(random.value, count + 1)]),
         random)
  }

  function LedgerReveal(l: Ledger, v: Value, nativeId: string, now: int, acceptable: Attachment -> bool)
    : (Ledger, RevealOutcome)
  {
    if v !in l.entries then (l, Unknown)
    else
      var outcome := EntryAnswer(l.window, l.entries[v], nativeId, now, acceptable);
      (if outcome.Fresh? then LedgerUse(l, v, nativeId) else l, outcome)
  }

  /** A value pairs once, while its window is open, on an attachment the caller accepts; a second reveal by
      the same native id is a replay. */
  function EntryAnswer(window: int, e: Entry, nativeId: string, now: int, acceptable: Attachment -> bool)
    : RevealOutcome
  {
    match e.state
    case Paired(n) => if n == nativeId then Replayed(e.owner) else Conflict(e.owner)
    case Open =>
      if now < e.openedAt + window then if acceptable(e.owner) then Fresh(e.owner) else Refused(e.owner)
      else Ended(e.owner)
  }

  function LedgerUse(l: Ledger, v: Value, nativeId: string): Ledger
    requires v in l.entries
  {
    l.(entries := l.entries[v := l.entries[v].(state := Paired(nativeId))])
  }

  function LedgerPaired(l: Ledger, a: Attachment): Ledger {
    if a in l.heads then l.(heads := l.heads[a := l.heads[a].(opens := 0)]) else l
  }

  function LedgerForget(l: Ledger, a: Attachment): Ledger {
    l.(entries := map v | v in l.entries && l.entries[v].owner != a :: l.entries[v],
       heads := l.heads - {a})
  }

  // ---- runs ------------------------------------------------------------------------------

  datatype Action =
    | DoIssue(a: Attachment, now: int, random: Option<Value>)
    | DoReveal(value: Value, nativeId: string, now: int, acceptable: Attachment -> bool)
    | DoPaired(a: Attachment)
    | DoForget(a: Attachment)

  /** What the store answered, with what the ledger answered to the same call. */
  datatype Event =
    | Issued(a: Attachment, at: int, drew: Option<Value>, answer: Option<Value>, byLedger: Option<Value>)
    | Revealed(value: Value, at: int, outcome: RevealOutcome, byLedgerOutcome: RevealOutcome)
    | WasPaired(a: Attachment)
    | Forgot(a: Attachment)

  datatype System = System(store: Store, ledger: Ledger, clock: int, drawn: set<Value>, log: seq<Event>)

  function Start(window: int, clock: int): System {
    System(Empty(window), Ledger(Clamped(window), map[], map[]), clock, {}, [])
  }

  /** Time does not go back, and the random source never repeats a value it has given. */
  predicate Enabled(s: System, act: Action) {
    match act
    case DoIssue(_, now, random) => s.clock <= now && (random.Some? ==> random.value !in s.drawn)
    case DoReveal(_, _, now, _) => s.clock <= now
    case _ => true
  }

  /** Whether an issue opened a new window, and so drew from the random source. */
  predicate Opens(s: Store, a: Attachment, now: int, random: Option<Value>) {
    !HasLiveWindow(s, a, now) && Issue(s, a, now, random).1.Some?
  }

  function Step(s: System, act: Action): System {
    match act
    case DoIssue(a, now, random) =>
      var (store, answer) := Issue(s.store, a, now, random);
      var (ledger, byLedger) := LedgerIssue(s.ledger, a, now, random);
      var drew := if Opens(s.store, a, now, random) then random else None;
      System(store, ledger, now, if drew.Some? then s.drawn + {drew.value} else s.drawn,
             s.log + [Issued(a, now, drew, answer, byLedger)])
    case DoReveal(value, nativeId, now, acceptable) =>
      var (store, outcome) := Reveal(s.store, value, nativeId, now, acceptable);
      var (ledger, byLedger) := LedgerReveal(s.ledger, value, nativeId, now, acceptable);
      System(store, ledger, now, s.drawn, s.log + [Revealed(value, now, outcome, byLedger)])
    case DoPaired(a) =>
      s.(store := PairedWith(s.store, a), ledger := LedgerPaired(s.ledger, a), log := s.log + [WasPaired(a)])
    case DoForget(a) =>
      s.(store := Forget(s.store, a), ledger := LedgerForget(s.ledger, a), log := s.log + [Forgot(a)])
  }

  function Run(start: System, acts: seq<Action>): System {
    if acts == [] then start else Step(Run(start, acts[..|acts| - 1]), acts[|acts| - 1])
  }

  predicate Legal(start: System, acts: seq<Action>) {
    acts == [] ||
    (Legal(start, acts[..|acts| - 1]) && Enabled(Run(start, acts[..|acts| - 1]), acts[|acts| - 1]))
  }

  // ---- the invariant ---------------------------------------------------------------------

  predicate Holds(records: seq<Record>, v: Value) {
    exists i :: 0 <= i < |records| && records[i].value == v
  }

  predicate Distinct(records: seq<Record>) {
    forall i, j :: 0 <= i < j < |records| ==> records[i].value != records[j].value
  }

  /** The records of `a`: at most 16, each value once, and `byValue` leads back from each. */
  ghost predicate Owned(a: Attachment, records: seq<Record>, byValue: map<Value, Attachment>) {
    && 1 <= |records| <= MAX_RECORDS
    && Distinct(records)
    && (forall i :: 0 <= i < |records| ==> records[i].value in byValue && byValue[records[i].value] == a)
  }

  ghost predicate Located(s: Store, v: Value)
    requires v in s.byValue
  {
    s.byValue[v] in s.byAttachment && Holds(s.byAttachment[s.byValue[v]].records, v)
  }

  /** `byValue` and the records are inverse to each other, and the history is bounded. */
  ghost predicate MutuallyInverse(s: Store) {
    && (forall a :: a in s.byAttachment ==> Owned(a, s.byAttachment[a].records, s.byValue))
    && (forall v :: v in s.byValue ==> Located(s, v))
  }

  ghost predicate NonNewestDead(window: int, records: seq<Record>, clock: int) {
    forall i :: 0 <= i < |records| - 1 ==> !Live(window, records[i], clock)
  }

  /** From `clock` on, only the newest record of an attachment can be live. */
  ghost predicate OnlyNewestLive(s: Store, clock: int) {
    forall a :: a in s.byAttachment ==> NonNewestDead(s.window, s.byAttachment[a].records, clock)
  }

  function EntryOf(a: Attachment, r: Record): Entry {
    Entry(a, r.openedAt, r.state)
  }

  ghost predicate Mirrored(a: Attachment, records: seq<Record>, entries: map<Value, Entry>) {
    forall i :: 0 <= i < |records| ==>
      records[i].value in entries && entries[records[i].value] == EntryOf(a, records[i])
  }

  /** What the ledger holds of `a` besides its entries. */
  ghost predicate SameHead(a: Attachment, w: Windows, heads: map<Attachment, Head>) {
    a in heads && w.records != [] && heads[a] == Head(Last(w.records).value, w.sincePaired)
  }

  /** An entry belongs to a known attachment, and one with no record can never pair again. */
  ghost predicate Covered(s: Store, l: Ledger, clock: int, v: Value)
    requires v in l.entries
  {
    l.entries[v].owner in s.byAttachment && (v !in s.byValue ==> !Pairable(l, v, clock))
  }

  ghost predicate AllMirrored(s: Store, l: Ledger) {
    forall a :: a in s.byAttachment ==> Mirrored(a, s.byAttachment[a].records, l.entries)
  }

  ghost predicate AllCounted(s: Store, l: Ledger) {
    && s.window == l.window
    && (forall a :: a in s.byAttachment ==> SameHead(a, s.byAttachment[a], l.heads))
    && (forall a :: a in l.heads ==> a in s.byAttachment)
  }

  ghost predicate AllCovered(s: Store, l: Ledger, clock: int) {
    forall v :: v in l.entries ==> Covered(s, l, clock, v)
  }

  /** Every record is an entry of the ledger, and every entry is covered. */
  ghost predicate Refines(s: Store, l: Ledger, clock: int) {
    AllMirrored(s, l) && AllCounted(s, l) && AllCovered(s, l, clock)
  }

  ghost predicate Linked(s: Store, l: Ledger, clock: int) {
    MutuallyInverse(s) && OnlyNewestLive(s, clock) && Refines(s, l, clock)
  }

  ghost predicate Inv(s: System) {
    && MIN_WINDOW <= s.store.window <= MAX_WINDOW
    && Linked(s.store, s.ledger, s.clock)
    && s.ledger.entries.Keys <= s.drawn
  }

  lemma EvictAtMostOne(records: seq<Record>, byValue: map<Value, Attachment>)
    requires |records| <= MAX_RECORDS + 1
    ensures Evict(records, byValue)
         == if |records| == MAX_RECORDS + 1 then (records[1..], byValue - {records[0].value}) else (records, byValue)
  {
    if |records| == MAX_RECORDS + 1 {
      assert Evict(records[1..], byValue - {records[0].value}) == (records[1..], byValue - {records[0].value});
    }
  }

  /** A value's record is found, and is the one that holds it. */
  lemma RecordOf(s: Store, v: Value) returns (a: Attachment, i: nat)
    requires MutuallyInverse(s) && v in s.byValue
    ensures a == s.byValue[v] && a in s.byAttachment
    ensures i < |s.byAttachment[a].records| && s.byAttachment[a].records[i].value == v
    ensures i == IndexOf(s.byAttachment[a].records, v)
  {
    assert Located(s, v);
    a := s.byValue[v];
    i := IndexOf(s.byAttachment[a].records, v);
  }

  lemma MirroredValue(s: Store, l: Ledger, clock: int, v: Value) returns (a: Attachment, i: nat)
    requires MutuallyInverse(s) && Refines(s, l, clock) && v in s.byValue
    ensures a == s.byValue[v] && a in s.byAttachment
    ensures i == IndexOf(s.byAttachment[a].records, v) && i < |s.byAttachment[a].records|
    ensures v in l.entries && l.entries[v] == EntryOf(a, s.byAttachment[a].records[i])
  {
    a, i := RecordOf(s, v);
    assert Mirrored(a, s.byAttachment[a].records, l.entries);
  }

  /** The store and the ledger see the same live window. */
  lemma SameLiveWindow(s: Store, l: Ledger, clock: int, a: Attachment, now: int)
    requires Refines(s, l, clock)
    ensures HasLiveWindow(s, a, now) <==> a in l.heads && Pairable(l, l.heads[a].newest, now)
    ensures HasLiveWindow(s, a, now) ==> l.heads[a].newest == Last(s.byAttachment[a].records).value
    ensures WindowsOf(s, a).sincePaired == if a in l.heads then l.heads[a].opens else 0
  {
    if a in s.byAttachment {
      assert Mirrored(a, s.byAttachment[a].records, l.entries);
      assert SameHead(a, s.byAttachment[a], l.heads);
    }
  }

  /** The new record list of an attachment that opens a window. */
  lemma OpenRecords(s: Store, a: Attachment, now: int, v: Value) returns (records: seq<Record>, gone: set<Value>)
    requires MutuallyInverse(s) && Opens(s, a, now, Some(v)) && v !in s.byValue
    ensures var s' := Issue(s, a, now, Some(v)).0;
            && s'.byAttachment == s.byAttachment[a := Windows(WindowsOf(s, a).sincePaired + 1, records)]
            && s'.byValue == (s.byValue - gone)[v := a]
            && s'.window == s.window
    ensures var kept := WindowsOf(s, a).records;
            || (gone == {} && records == kept + [Record(v, now, Open)])
            || (|kept| == MAX_RECORDS && gone == {kept[0].value} && records == kept[1..] + [Record(v, now, Open)])
    ensures |WindowsOf(s, a).records| <= MAX_RECORDS && Distinct(WindowsOf(s, a).records)
    ensures 1 <= |records| <= MAX_RECORDS
  {
    var kept := WindowsOf(s, a).records;
    assert a in s.byAttachment ==> Owned(a, kept, s.byValue);
    var pushed := kept + [Record(v, now, Open)];
    EvictAtMostOne(pushed, s.byValue);
    if |pushed| == MAX_RECORDS + 1 {
      records, gone := pushed[1..], {kept[0].value};
    } else {
      records, gone := pushed, {};
      assert s.byValue - {} == s.byValue;
    }
  }

  lemma OpenKeepsOwned(s: Store, a: Attachment, now: int, v: Value, b: Attachment)
    requires MutuallyInverse(s) && Opens(s, a, now, Some(v)) && v !in s.byValue
    requires b in Issue(s, a, now, Some(v)).0.byAttachment
    ensures var s' := Issue(s, a, now, Some(v)).0; Owned(b, s'.byAttachment[b].records, s'.byValue)
  {
    var records, gone := OpenRecords(s, a, now, v);
    if b in s.byAttachment {
      assert Owned(b, s.byAttachment[b].records, s.byValue);
    }
    if a in s.byAttachment {
      assert Owned(a, s.byAttachment[a].records, s.byValue);
    }
  }

  lemma OpenKeepsInverse(s: Store, a: Attachment, now: int, v: Value)
    requires MutuallyInverse(s) && Opens(s, a, now, Some(v)) && v !in s.byValue
    ensures MutuallyInverse(Issue(s, a, now, Some(v)).0)
  {
    var records, gone := OpenRecords(s, a, now, v);
    var kept := WindowsOf(s, a).records;
    var s' := Issue(s, a, now, Some(v)).0;
    forall b | b in s'.byAttachment
      ensures Owned(b, s'.byAttachment[b].records, s'.byValue)
    {
      OpenKeepsOwned(s, a, now, v, b);
    }
    forall u | u in s'.byValue
      ensures Located(s', u)
    {
      if u == v {
        assert records[|records| - 1].value == v;
      } else {
        var b, i := RecordOf(s, u);
        assert b == a ==> records[if gone == {} then i else i - 1].value == u;
      }
    }
  }

  lemma OpenKeepsOnlyNewestLive(s: Store, clock: int, a: Attachment, now: int, v: Value)
    requires MutuallyInverse(s) && OnlyNewestLive(s, clock) && clock <= now
    requires Opens(s, a, now, Some(v)) && v !in s.byValue
    ensures OnlyNewestLive(Issue(s, a, now, Some(v)).0, now)
    ensures a in s.byAttachment ==> forall r :: r in s.byAttachment[a].records ==> !Live(s.window, r, now)
  {
    var records, gone := OpenRecords(s, a, now, v);
    var s' := Issue(s, a, now, Some(v)).0;
    forall b | b in s.byAttachment
      ensures NonNewestDead(s.window, s.byAttachment[b].records, now)
    {
      assert NonNewestDead(s.window, s.byAttachment[b].records, clock);
    }
    if a in s.byAttachment {
      assert Owned(a, s.byAttachment[a].records, s.byValue);
    }
    forall b | b in s'.byAttachment
      ensures NonNewestDead(s.window, s'.byAttachment[b].records, now)
    {
    }
  }

  /** The records of an attachment once a window may have been opened on it. */
  lemma MirroredWithMore(b: Attachment, records: seq<Record>, entries: map<Value, Entry>, v: Value, e: Entry)
    requires Mirrored(b, records, entries) && v !in entries
    ensures Mirrored(b, records, entries[v := e])
  {
  }

  lemma MirroredWhenOpened(a: Attachment, kept: seq<Record>, from: nat, entries: map<Value, Entry>, v: Value, now: int)
    requires Mirrored(a, kept, entries) && v !in entries && from <= |kept|
    ensures Mirrored(a, kept[from..] + [Record(v, now, Open)], entries[v := Entry(a, now, Open)])
  {
    MirroredWithMore(a, kept, entries, v, Entry(a, now, Open));
  }

  lemma OpenMirrors(s: Store, l: Ledger, a: Attachment, now: int, v: Value, b: Attachment)
    requires MutuallyInverse(s) && AllMirrored(s, l)
    requires Opens(s, a, now, Some(v)) && v !in s.byValue && v !in l.entries
    requires b in Issue(s, a, now, Some(v)).0.byAttachment
    ensures Mirrored(b, Issue(s, a, now, Some(v)).0.byAttachment[b].records, l.entries[v := Entry(a, now, Open)])
  {
    var records, gone := OpenRecords(s, a, now, v);
    if b == a {
      var kept := WindowsOf(s, a).records;
      MirroredWhenOpened(a, kept, if gone == {} then 0 else 1, l.entries, v, now);
    } else {
      MirroredWithMore(b, s.byAttachment[b].records, l.entries, v, Entry(a, now, Open));
    }
  }

  lemma OpenKeepsMirrored(s: Store, l: Ledger, a: Attachment, now: int, v: Value)
    requires MutuallyInverse(s) && AllMirrored(s, l)
    requires Opens(s, a, now, Some(v)) && v !in s.byValue && v !in l.entries
    ensures AllMirrored(Issue(s, a, now, Some(v)).0, l.(entries := l.entries[v := Entry(a, now, Open)]))
  {
    var s', entries := Issue(s, a, now, Some(v)).0, l.entries[v := Entry(a, now, Open)];
    forall b | b in s'.byAttachment
      ensures Mirrored(b, s'.byAttachment[b].records, entries)
    {
      OpenMirrors(s, l, a, now, v, b);
    }
  }

  /** The ledger opens the window too. */
  lemma LedgerOpens(s: Store, l: Ledger, clock: int, a: Attachment, now: int, v: Value)
    requires Refines(s, l, clock) && Opens(s, a, now, Some(v)) && v !in l.entries
    ensures LedgerIssue(l, a, now, Some(v)).1 == Some(v)
    ensures LedgerIssue(l, a, now, Some(v)).0
         == l.(entries := l.entries[v := Entry(a, now, Open)],
               heads := l.heads[a := Head(v, WindowsOf(s, a).sincePaired + 1)])
  {
    SameLiveWindow(s, l, clock, a, now);
  }

  lemma OpenCounts(s: Store, l: Ledger, a: Attachment, now: int, v: Value, b: Attachment)
    requires MutuallyInverse(s) && AllCounted(s, l) && Opens(s, a, now, Some(v)) && v !in s.byValue
    requires b in Issue(s, a, now, Some(v)).0.byAttachment
    ensures SameHead(b, Issue(s, a, now, Some(v)).0.byAttachment[b],
                     l.heads[a := Head(v, WindowsOf(s, a).sincePaired + 1)])
  {
    var records, gone := OpenRecords(s, a, now, v);
    if b != a {
      assert SameHead(b, s.byAttachment[b], l.heads);
    }
  }

  lemma OpenKeepsCounted(s: Store, l: Ledger, clock: int, a: Attachment, now: int, v: Value)
    requires MutuallyInverse(s) && Refines(s, l, clock)
    requires Opens(s, a, now, Some(v)) && v !in s.byValue && v !in l.entries
    ensures LedgerIssue(l, a, now, Some(v)).1 == Some(v)
    ensures LedgerIssue(l, a, now, Some(v)).0.entries == l.entries[v := Entry(a, now, Open)]
    ensures AllCounted(Issue(s, a, now, Some(v)).0, LedgerIssue(l, a, now, Some(v)).0)
  {
    LedgerOpens(s, l, clock, a, now, v);
    var s', l' := Issue(s, a, now, Some(v)).0, LedgerIssue(l, a, now, Some(v)).0;
    forall b | b in s'.byAttachment
      ensures SameHead(b, s'.byAttachment[b], l'.heads)
    {
      OpenCounts(s, l, a, now, v, b);
    }
  }

  lemma OpenCovers(s: Store, l: Ledger, clock: int, a: Attachment, now: int, v: Value, u: Value)
    requires MutuallyInverse(s) && OnlyNewestLive(s, clock) && Refines(s, l, clock) && clock <= now
    requires Opens(s, a, now, Some(v)) && v !in s.byValue && v !in l.entries && (u in l.entries || u == v)
    ensures Covered(Issue(s, a, now, Some(v)).0, l.(entries := l.entries[v := Entry(a, now, Open)]), now, u)
  {
    var records, gone := OpenRecords(s, a, now, v);
    if u != v {
      assert Covered(s, l, clock, u);
      if u in gone {
        // The evicted value: the oldest of 16 records, none of which is live.
        OpenKeepsOnlyNewestLive(s, clock, a, now, v);
        var oldest := s.byAttachment[a].records[0];
        assert Mirrored(a, s.byAttachment[a].records, l.entries);
        assert oldest in s.byAttachment[a].records && oldest.value == u;
      }
    }
  }

  lemma OpenKeepsRefinement(s: Store, l: Ledger, clock: int, a: Attachment, now: int, v: Value)
    requires MutuallyInverse(s) && OnlyNewestLive(s, clock) && Refines(s, l, clock) && clock <= now
    requires Opens(s, a, now, Some(v)) && v !in s.byValue && v !in l.entries
    ensures LedgerIssue(l, a, now, Some(v)).1 == Some(v)
    ensures LedgerIssue(l, a, now, Some(v)).0.entries == l.entries[v := Entry(a, now, Open)]
    ensures Refines(Issue(s, a, now, Some(v)).0, LedgerIssue(l, a, now, Some(v)).0, now)
  {
    OpenKeepsCounted(s, l, clock, a, now, v);
    OpenKeepsMirrored(s, l, a, now, v);
    var s', l' := Issue(s, a, now, Some(v)).0, LedgerIssue(l, a, now, Some(v)).0;
    assert AllMirrored(s', l');
    forall u | u in l'.entries
      ensures Covered(s', l', now, u)
    {
      OpenCovers(s, l, clock, a, now, v, u);
    }
  }

  /** Both sides answer an issue alike, and a ledger that opens no window is as it was. */
  lemma IssueAnswers(s: Store, l: Ledger, clock: int, a: Attachment, now: int, random: Option<Value>)
    requires MutuallyInverse(s) && Refines(s, l, clock)
    requires random.Some? && random.value in l.entries ==> random.value in s.byValue
    ensures Issue(s, a, now, random).1 == LedgerIssue(l, a, now, random).1
    ensures !Opens(s, a, now, random) ==> LedgerIssue(l, a, now, random).0 == l && Issue(s, a, now, random).0 == s
  {
    SameLiveWindow(s, l, clock, a, now);
    if random.Some? && random.value in s.byValue {
      var b, i := MirroredValue(s, l, clock, random.value);
    }
  }

  lemma IssueKeepsInv(s: System, a: Attachment, now: int, random: Option<Value>)
    requires Inv(s) && Enabled(s, DoIssue(a, now, random))
    ensures Inv(Step(s, DoIssue(a, now, random)))
    ensures Issue(s.store, a, now, random).1 == LedgerIssue(s.ledger, a, now, random).1
  {
    IssueAnswers(s.store, s.ledger, s.clock, a, now, random);
    if Opens(s.store, a, now, random) {
      assert Linked(Issue(s.store, a, now, random).0, LedgerIssue(s.ledger, a, now, random).0, now) by {
        OpenKeepsInverse(s.store, a, now, random.value);
        OpenKeepsOnlyNewestLive(s.store, s.clock, a, now, random.value);
        OpenKeepsRefinement(s.store, s.ledger, s.clock, a, now, random.value);
      }
      LedgerOpens(s.store, s.ledger, s.clock, a, now, random.value);
    } else {
      LaterKeeps(s.store, s.ledger, s.clock, now);
    }
  }

  /** Time alone changes nothing. */
  lemma LaterKeeps(s: Store, l: Ledger, clock: int, now: int)
    requires Linked(s, l, clock) && clock <= now
    ensures Linked(s, l, now)
  {
    forall a | a in s.byAttachment
      ensures NonNewestDead(s.window, s.byAttachment[a].records, now)
    {
      assert NonNewestDead(s.window, s.byAttachment[a].records, clock);
    }
    forall v | v in l.entries
      ensures Covered(s, l, now, v)
    {
      assert Covered(s, l, clock, v);
    }
  }

  /** The bounded store gives the ledger's answer to a reveal, or calls unknown a value the ledger
      remembers as ended or used. */
  predicate SameReveal(byStore: RevealOutcome, byLedger: RevealOutcome) {
    byStore == byLedger || (byStore.Unknown? && (byLedger.Ended? || byLedger.Replayed? || byLedger.Conflict?))
  }

  lemma UseKeepsStore(s: Store, clock: int, a: Attachment, i: nat, nativeId: string)
    requires MutuallyInverse(s) && OnlyNewestLive(s, clock)
    requires a in s.byAttachment && i < |s.byAttachment[a].records|
    ensures MutuallyInverse(Use(s, a, i, nativeId)) && OnlyNewestLive(Use(s, a, i, nativeId), clock)
  {
    var s' := Use(s, a, i, nativeId);
    forall b | b in s'.byAttachment
      ensures Owned(b, s'.byAttachment[b].records, s'.byValue)
      ensures NonNewestDead(s.window, s'.byAttachment[b].records, clock)
    {
      assert Owned(b, s.byAttachment[b].records, s.byValue);
      assert NonNewestDead(s.window, s.byAttachment[b].records, clock);
    }
    forall v | v in s'.byValue
      ensures Located(s', v)
    {
      var b, j := RecordOf(s, v);
      assert s'.byAttachment[b].records[j].value == v;
    }
  }

  lemma UseKeepsMirrored(s: Store, l: Ledger, a: Attachment, i: nat, nativeId: string)
    requires AllMirrored(s, l) && a in s.byAttachment && i < |s.byAttachment[a].records|
    requires forall b :: b in s.byAttachment ==> Owned(b, s.byAttachment[b].records, s.byValue)
    requires s.byAttachment[a].records[i].value in l.entries
    ensures AllMirrored(Use(s, a, i, nativeId), LedgerUse(l, s.byAttachment[a].records[i].value, nativeId))
  {
    var v := s.byAttachment[a].records[i].value;
    var s', entries := Use(s, a, i, nativeId), LedgerUse(l, v, nativeId).entries;
    assert Owned(a, s.byAttachment[a].records, s.byValue);
    forall b | b in s'.byAttachment
      ensures Mirrored(b, s'.byAttachment[b].records, entries)
    {
      assert Owned(b, s.byAttachment[b].records, s.byValue);
      assert Mirrored(b, s.byAttachment[b].records, l.entries);
    }
  }

  lemma UseKeepsCounted(s: Store, l: Ledger, a: Attachment, i: nat, nativeId: string)
    requires AllCounted(s, l) && a in s.byAttachment && i < |s.byAttachment[a].records|
    ensures AllCounted(Use(s, a, i, nativeId), l)
  {
    var s' := Use(s, a, i, nativeId);
    forall b | b in s'.byAttachment
      ensures SameHead(b, s'.byAttachment[b], l.heads)
    {
      assert SameHead(b, s.byAttachment[b], l.heads);
    }
  }

  lemma UseKeepsCovered(s: Store, l: Ledger, clock: int, a: Attachment, i: nat, nativeId: string)
    requires AllCovered(s, l, clock) && a in s.byAttachment && i < |s.byAttachment[a].records|
    requires s.byAttachment[a].records[i].value in l.entries
    ensures AllCovered(Use(s, a, i, nativeId), LedgerUse(l, s.byAttachment[a].records[i].value, nativeId), clock)
  {
    var s', l' := Use(s, a, i, nativeId), LedgerUse(l, s.byAttachment[a].records[i].value, nativeId);
    forall v | v in l'.entries
      ensures Covered(s', l', clock, v)
    {
      assert Covered(s, l, clock, v);
    }
  }

  predicate Recorded(s: Store, value: Value) {
    && value in s.byValue && s.byValue[value] in s.byAttachment
    && IndexOf(s.byAttachment[s.byValue[value]].records, value) < |s.byAttachment[s.byValue[value]].records|
  }

  function UseValue(s: Store, value: Value, nativeId: string): Store
    requires Recorded(s, value)
  {
    Use(s, s.byValue[value], IndexOf(s.byAttachment[s.byValue[value]].records, value), nativeId)
  }

  lemma UseKeepsRefinement(s: Store, l: Ledger, clock: int, a: Attachment, i: nat, nativeId: string)
    requires MutuallyInverse(s) && Refines(s, l, clock) && a in s.byAttachment && i < |s.byAttachment[a].records|
    requires s.byAttachment[a].records[i].value in l.entries
    ensures Refines(Use(s, a, i, nativeId), LedgerUse(l, s.byAttachment[a].records[i].value, nativeId), clock)
  {
    UseKeepsMirrored(s, l, a, i, nativeId);
    UseKeepsCounted(s, l, a, i, nativeId);
    UseKeepsCovered(s, l, clock, a, i, nativeId);
  }

  lemma UseKeepsLinked(s: Store, l: Ledger, clock: int, value: Value, nativeId: string)
    requires Linked(s, l, clock) && Recorded(s, value) && value in l.entries
    ensures Linked(UseValue(s, value, nativeId), LedgerUse(l, value, nativeId), clock)
    ensures UseValue(s, value, nativeId).window == s.window
  {
    var a, i := RecordOf(s, value);
    UseKeepsStore(s, clock, a, i, nativeId);
    UseKeepsRefinement(s, l, clock, a, i, nativeId);
  }

  /** A record and the entry that mirrors it answer alike. */
  lemma SameAnswer(window: int, a: Attachment, r: Record, nativeId: string, now: int, acceptable: Attachment -> bool)
    ensures Answer(window, a, r, nativeId, now, acceptable)
         == EntryAnswer(window, EntryOf(a, r), nativeId, now, acceptable)
  {
  }

  /** A value with a record: both sides answer alike, and a fresh answer uses it up on both. */
  lemma RevealRecorded(s: Store, l: Ledger, clock: int, value: Value, nativeId: string, now: int,
                       acceptable: Attachment -> bool)
    returns (a: Attachment, i: nat, outcome: RevealOutcome)
    requires MutuallyInverse(s) && Refines(s, l, clock) && value in s.byValue
    ensures a == s.byValue[value] && a in s.byAttachment
    ensures i == IndexOf(s.byAttachment[a].records, value) < |s.byAttachment[a].records| && value in l.entries
    ensures Reveal(s, value, nativeId, now, acceptable)
         == (if outcome.Fresh? then Use(s, a, i, nativeId) else s, outcome)
    ensures LedgerReveal(l, value, nativeId, now, acceptable)
         == (if outcome.Fresh? then LedgerUse(l, value, nativeId) else l, outcome)
  {
    a, i := MirroredValue(s, l, clock, value);
    outcome := Answer(s.window, a, s.byAttachment[a].records[i], nativeId, now, acceptable);
    SameAnswer(s.window, a, s.byAttachment[a].records[i], nativeId, now, acceptable);
  }

  /** A value without a record: the store knows nothing of it, and the ledger nothing that could pair. */
  lemma RevealUnrecorded(s: Store, l: Ledger, clock: int, value: Value, nativeId: string, now: int,
                         acceptable: Attachment -> bool)
    requires Refines(s, l, clock) && clock <= now && value !in s.byValue
    ensures Reveal(s, value, nativeId, now, acceptable) == (s, Unknown)
    ensures LedgerReveal(l, value, nativeId, now, acceptable).0 == l
    ensures SameReveal(Unknown, LedgerReveal(l, value, nativeId, now, acceptable).1)
    ensures value !in l.entries ==> LedgerReveal(l, value, nativeId, now, acceptable).1 == Unknown
  {
    if value in l.entries {
      assert Covered(s, l, clock, value);
    }
  }

  lemma RevealAnswers(s: Store, l: Ledger, clock: int, value: Value, nativeId: string, now: int,
                      acceptable: Attachment -> bool)
    requires MutuallyInverse(s) && Refines(s, l, clock) && clock <= now
    ensures var byStore := Reveal(s, value, nativeId, now, acceptable).1;
            var byLedger := LedgerReveal(l, value, nativeId, now, acceptable).1;
            && SameReveal(byStore, byLedger)
            && (byStore != byLedger ==> value in l.entries && value !in s.byValue)
    ensures LedgerReveal(l, value, nativeId, now, acceptable).0
         == if Reveal(s, value, nativeId, now, acceptable).1.Fresh? && value in l.entries
            then LedgerUse(l, value, nativeId) else l
  {
    if value in s.byValue {
      var a, i, outcome := RevealRecorded(s, l, clock, value, nativeId, now, acceptable);
    } else {
      RevealUnrecorded(s, l, clock, value, nativeId, now, acceptable);
    }
  }

  /** What a reveal does to both sides: it uses the value up, or changes nothing. */
  lemma RevealEffect(s: Store, l: Ledger, clock: int, value: Value, nativeId: string, now: int,
                     acceptable: Attachment -> bool) returns (used: bool)
    requires MutuallyInverse(s) && Refines(s, l, clock) && clock <= now
    ensures !used ==> Reveal(s, value, nativeId, now, acceptable).0 == s
    ensures !used ==> LedgerReveal(l, value, nativeId, now, acceptable).0 == l
    ensures used ==>
              value in l.entries && LedgerReveal(l, value, nativeId, now, acceptable).0 == LedgerUse(l, value, nativeId)
    ensures used ==> value in s.byValue && Recorded(s, value)
    ensures used ==> Reveal(s, value, nativeId, now, acceptable).0 == UseValue(s, value, nativeId)
  {
    if value in s.byValue {
      var a, i, outcome := RevealRecorded(s, l, clock, value, nativeId, now, acceptable);
      used := outcome.Fresh?;
    } else {
      RevealUnrecorded(s, l, clock, value, nativeId, now, acceptable);
      used := false;
    }
  }

  lemma RevealKeepsLinked(s: Store, l: Ledger, clock: int, value: Value, nativeId: string, now: int,
                          acceptable: Attachment -> bool)
    requires Linked(s, l, clock) && clock <= now
    ensures Linked(Reveal(s, value, nativeId, now, acceptable).0,
                   LedgerReveal(l, value, nativeId, now, acceptable).0, now)
    ensures LedgerReveal(l, value, nativeId, now, acceptable).0.entries.Keys == l.entries.Keys
    ensures Reveal(s, value, nativeId, now, acceptable).0.window == s.window
  {
    var used := RevealEffect(s, l, clock, value, nativeId, now, acceptable);
    LaterKeeps(s, l, clock, now);
    if used {
      UseKeepsLinked(s, l, now, value, nativeId);
    }
  }

  lemma PairedKeepsStore(s: Store, clock: int, a: Attachment)
    requires MutuallyInverse(s) && OnlyNewestLive(s, clock)
    ensures MutuallyInverse(PairedWith(s, a)) && OnlyNewestLive(PairedWith(s, a), clock)
  {
    var s' := PairedWith(s, a);
    forall b | b in s'.byAttachment
      ensures Owned(b, s'.byAttachment[b].records, s'.byValue)
      ensures NonNewestDead(s.window, s'.byAttachment[b].records, clock)
    {
      assert Owned(b, s.byAttachment[b].records, s.byValue);
      assert NonNewestDead(s.window, s.byAttachment[b].records, clock);
    }
    forall v | v in s'.byValue
      ensures Located(s', v)
    {
      assert Located(s, v);
    }
  }

  lemma PairedKeepsRefinement(s: Store, l: Ledger, clock: int, a: Attachment)
    requires Refines(s, l, clock)
    ensures Refines(PairedWith(s, a), LedgerPaired(l, a), clock)
  {
    var s', l' := PairedWith(s, a), LedgerPaired(l, a);
    assert AllMirrored(s', l') by {
      forall b | b in s'.byAttachment
        ensures Mirrored(b, s'.byAttachment[b].records, l'.entries)
      {
        assert Mirrored(b, s.byAttachment[b].records, l.entries);
      }
    }
    assert AllCounted(s', l') by {
      forall b | b in s'.byAttachment
        ensures SameHead(b, s'.byAttachment[b], l'.heads)
      {
        assert SameHead(b, s.byAttachment[b], l.heads);
      }
    }
    assert AllCovered(s', l', clock) by {
      forall v | v in l'.entries
        ensures Covered(s', l', clock, v)
      {
        assert Covered(s, l, clock, v);
      }
    }
  }

  lemma ForgetKeepsInverse(s: Store, a: Attachment)
    requires MutuallyInverse(s) && a in s.byAttachment
    ensures MutuallyInverse(Forget(s, a))
    ensures forall v :: v in Forget(s, a).byValue <==> v in s.byValue && s.byValue[v] != a
  {
    var s' := Forget(s, a);
    var records := s.byAttachment[a].records;
    assert Owned(a, records, s.byValue);
    forall v | v in s.byValue
      ensures v in Values(records) <==> s.byValue[v] == a
    {
      var b, i := RecordOf(s, v);
      if b == a {
        assert records[i].value in Values(records);
      }
    }
    forall b | b in s'.byAttachment
      ensures Owned(b, s'.byAttachment[b].records, s'.byValue)
    {
      assert Owned(b, s.byAttachment[b].records, s.byValue);
    }
    forall v | v in s'.byValue
      ensures Located(s', v)
    {
      assert Located(s, v);
    }
  }

  lemma ForgetKeepsMirrored(s: Store, l: Ledger, a: Attachment)
    requires AllMirrored(s, l)
    ensures AllMirrored(Forget(s, a), LedgerForget(l, a))
  {
    var s', l' := Forget(s, a), LedgerForget(l, a);
    forall b | b in s'.byAttachment
      ensures Mirrored(b, s'.byAttachment[b].records, l'.entries)
    {
      assert Mirrored(b, s.byAttachment[b].records, l.entries);
    }
  }

  lemma ForgetKeepsCounted(s: Store, l: Ledger, a: Attachment)
    requires AllCounted(s, l)
    ensures AllCounted(Forget(s, a), LedgerForget(l, a))
  {
    var s', l' := Forget(s, a), LedgerForget(l, a);
    forall b | b in s'.byAttachment
      ensures SameHead(b, s'.byAttachment[b], l'.heads)
    {
      assert SameHead(b, s.byAttachment[b], l.heads);
    }
  }

  lemma ForgetKeepsCovered(s: Store, l: Ledger, clock: int, a: Attachment)
    requires AllCovered(s, l, clock)
    requires forall v :: v in Forget(s, a).byValue <==> v in s.byValue && s.byValue[v] != a
    requires forall v :: v in s.byValue && v in l.entries ==> l.entries[v].owner == s.byValue[v]
    ensures AllCovered(Forget(s, a), LedgerForget(l, a), clock)
  {
    var s', l' := Forget(s, a), LedgerForget(l, a);
    forall v | v in l'.entries
      ensures Covered(s', l', clock, v)
    {
      assert Covered(s, l, clock, v);
    }
  }

  lemma OwnersAgree(s: Store, l: Ledger, clock: int)
    requires MutuallyInverse(s) && Refines(s, l, clock)
    ensures forall v :: v in s.byValue && v in l.entries ==> l.entries[v].owner == s.byValue[v]
  {
    forall v | v in s.byValue && v in l.entries
      ensures l.entries[v].owner == s.byValue[v]
    {
      var b, i := MirroredValue(s, l, clock, v);
    }
  }

  lemma ForgetKeepsLinked(s: Store, l: Ledger, clock: int, a: Attachment)
    requires Linked(s, l, clock)
    ensures Linked(Forget(s, a), LedgerForget(l, a), clock)
  {
    ForgetKeepsMirrored(s, l, a);
    ForgetKeepsCounted(s, l, a);
    if a in s.byAttachment {
      ForgetKeepsInverse(s, a);
      OwnersAgree(s, l, clock);
      ForgetKeepsCovered(s, l, clock, a);
    } else {
      assert LedgerForget(l, a).entries == l.entries by {
        forall v | v in l.entries
          ensures l.entries[v].owner != a
        {
          assert Covered(s, l, clock, v);
        }
      }
      assert AllCovered(Forget(s, a), LedgerForget(l, a), clock) by {
        forall v | v in l.entries
          ensures Covered(s, LedgerForget(l, a), clock, v)
        {
          assert Covered(s, l, clock, v);
        }
      }
    }
  }

  lemma PairedKeepsLinked(s: Store, l: Ledger, clock: int, a: Attachment)
    requires Linked(s, l, clock)
    ensures Linked(PairedWith(s, a), LedgerPaired(l, a), clock)
  {
    PairedKeepsStore(s, clock, a);
    PairedKeepsRefinement(s, l, clock, a);
  }

  lemma RevealKeepsInv(s: System, value: Value, nativeId: string, now: int, acceptable: Attachment -> bool)
    requires Inv(s) && s.clock <= now
    ensures Inv(Step(s, DoReveal(value, nativeId, now, acceptable)))
  {
    RevealKeepsLinked(s.store, s.ledger, s.clock, value, nativeId, now, acceptable);
    var s' := Step(s, DoReveal(value, nativeId, now, acceptable));
    assert s'.store == Reveal(s.store, value, nativeId, now, acceptable).0;
    assert s'.ledger == LedgerReveal(s.ledger, value, nativeId, now, acceptable).0;
    assert s'.clock == now && s'.drawn == s.drawn;
  }

  lemma StepKeepsInv(s: System, act: Action)
    requires Inv(s) && Enabled(s, act)
    ensures Inv(Step(s, act))
  {
    match act
    case DoIssue(a, now, random) => IssueKeepsInv(s, a, now, random);
    case DoReveal(value, nativeId, now, acceptable) => RevealKeepsInv(s, value, nativeId, now, acceptable);
    case DoPaired(a) => PairedKeepsLinked(s.store, s.ledger, s.clock, a);
    case DoForget(a) => ForgetKeepsLinked(s.store, s.ledger, s.clock, a);
  }

  /** Over every run: the two maps stay mutually inverse, at most the newest record of an attachment
      is live, and the store refines the ledger. */
  lemma {:induction false} EveryRunKeepsInv(window: int, clock: int, acts: seq<Action>)
    requires Legal(Start(window, clock), acts)
    ensures Inv(Run(Start(window, clock), acts))
  {
    if acts != [] {
      EveryRunKeepsInv(window, clock, acts[..|acts| - 1]);
      StepKeepsInv(Run(Start(window, clock), acts[..|acts| - 1]), acts[|acts| - 1]);
    }
  }
}
