/** The agreement sequence count kept in two files: the sealed agreement file and the floor in the trust
    file, which is written first. A device's counts survive failures and stops between the two writes, and
    the return of an older agreement file. */
module SeqFloor {
  import opened Common
  import R = AtRest
  import S = TrustStore
  import F = TrustFormat

  const MAX_SEQ: nat := F.MAX_STATEMENT_SEQ

  // ---- loading -----------------------------------------------------------------------------------

  datatype LoadError = CorruptState | StoreFailed

  function EmptyAt(floor: nat): R.State {
    R.State([], Some(floor))
  }

  /** What a load gives for an agreement file and a floor. Keys with no count are a damaged file; a file
      that is missing or below the floor gives the floor and no keys. */
  function Merge(file: Option<R.State>, floor: Option<nat>): Result<Option<R.State>, LoadError> {
    if file.Some? && file.value.highest.None? && file.value.keys != [] then Err(CorruptState)
    else if floor.None? then Ok(file)
    else if file.Some? && file.value.highest.Some? && file.value.highest.value >= floor.value then Ok(file)
    else Ok(Some(EmptyAt(floor.value)))
  }

  /** Keys are given only as the file has them, and only from a file at or above the floor. */
  lemma KeysOnlyFromAboveTheFloor(file: Option<R.State>, floor: Option<nat>)
    requires Merge(file, floor).Ok? && Merge(file, floor).value.Some? && Merge(file, floor).value.value.keys != []
    ensures file == Merge(file, floor).value && file.value.highest.Some?
    ensures floor.Some? ==> file.value.highest.value >= floor.value
  {
  }

  /** A loaded count is the larger of the file's and the floor's. */
  lemma LoadedCount(file: Option<R.State>, floor: Option<nat>)
    requires floor.Some? && Merge(file, floor).Ok?
    ensures var state := Merge(file, floor).value;
            && state.Some? && state.value.highest.Some?
            && state.value.highest.value
               == if file.Some? && file.value.highest.Some? then Max(file.value.highest.value, floor.value)
                  else floor.value
  {
  }

  // ---- recording ---------------------------------------------------------------------------------

  /** The floor of one key after recording `n` for it. */
  function Raise(floor: Option<nat>, n: nat): nat {
    if floor.Some? && floor.value > n && floor.value < MAX_SEQ then floor.value else n
  }

  /** This is what the trust store records for the key. */
  lemma RaiseIsRaised(current: Option<F.SeqFloor>, keyId: string, n: nat)
    ensures S.NumberFor(Some(S.Raised(current, keyId, n)), keyId) == Some(Raise(S.NumberFor(current, keyId), n))
  {
  }

  // ---- runs --------------------------------------------------------------------------------------

  /** The two files, the count a running daemon holds, and the counts saved and the sequence numbers of the
      statements issued since the count last restarted. */
  datatype World = World(
    file: Option<R.State>, floor: Option<nat>, memory: Option<nat>, saved: seq<nat>, issued: seq<nat>)

  /** How far a save got: the floor write may fail, the file write may fail or the machine stop before it,
      and the state may not be read back. */
  datatype Reach = Nothing | FloorOnly | BothFiles | ReadBack

  datatype Action =
    | Start(reach: Reach, key: R.StoredKey)
    | Replace(reach: Reach, keys: seq<R.StoredKey>)
    | EraseReplaced(reach: Reach, keys: seq<R.StoredKey>)
    | EnsureFloor
    | Stop
    | ReturnFile(older: Option<R.State>)
    | RestartCount(reach: Reach, key: R.StoredKey)

  /** The floor first, then the file. */
  function Save(w: World, state: R.State, reach: Reach): World
    requires state.highest.Some?
  {
    var n := state.highest.value;
    match reach
    case Nothing => w
    case FloorOnly => w.(floor := Some(Raise(w.floor, n)))
    case _ => w.(floor := Some(Raise(w.floor, n)), file := Some(state), saved := w.saved + [n])
  }

  predicate ReadsBack(w: World, state: R.State, reach: Reach) {
    reach == ReadBack && Merge(w.file, w.floor) == Ok(Some(state))
  }

  /** Save a state and, once it reads back, hold its count; a new count is a new statement. */
  function SaveChecked(w: World, state: R.State, reach: Reach, isNew: bool): World
    requires state.highest.Some?
  {
    var saved := Save(w, state, reach);
    if !ReadsBack(saved, state, reach) then saved
    else
      var n := state.highest.value;
      saved.(memory := Some(n), issued := if isNew then saved.issued + [n] else saved.issued)
  }

  function NextSeq(highest: Option<nat>): Option<nat> {
    if highest.None? then Some(0) else if highest.value >= MAX_SEQ then None else Some(highest.value + 1)
  }

  /** A fresh key numbered `n`, before the keys still held. */
  function Generate(w: World, key: R.StoredKey, keys: seq<R.StoredKey>, n: nat, reach: Reach): World {
    SaveChecked(w, R.State([key.(number := n)] + keys, Some(n)), reach, true)
  }

  /** The keys a daemon starts with need a count that covers them. */
  predicate Usable(state: R.State) {
    state.highest.Some? && R.AllCovered(state)
  }

  function StartWith(w: World, loaded: Option<R.State>, key: R.StoredKey, reach: Reach): World {
    if loaded.None? then Generate(w, key, [], 0, reach)
    else if loaded.value.keys != [] then
      if Usable(loaded.value) then w.(memory := loaded.value.highest) else w
    else
      var n := NextSeq(loaded.value.highest);
      if n.None? then w else Generate(w, key, [], n.value, reach)
  }

  predicate MayRestart(loaded: Option<R.State>) {
    loaded.None? || loaded.value.highest.None? || loaded.value.highest.value >= MAX_SEQ
  }

  function Step(w: World, a: Action): World {
    match a
    case Start(reach, key) =>
      var loaded := Merge(w.file, w.floor);
      if loaded.Err? then w else StartWith(w, loaded.value, key, reach)
    case Replace(reach, keys) =>
      if w.memory.None? || NextSeq(w.memory).None? || keys == [] then w
      else Generate(w, keys[0], keys[1..], NextSeq(w.memory).value, reach)
    case EraseReplaced(reach, keys) =>
      if w.memory.None? then w else SaveChecked(w, R.State(keys, w.memory), reach, false)
    case EnsureFloor =>
      if w.memory.None? || (w.floor.Some? && w.floor.value >= w.memory.value) then w
      else w.(floor := Some(Raise(w.floor, w.memory.value)))
    case Stop => w.(memory := None)
    case ReturnFile(older) => w.(file := older)
    case RestartCount(reach, key) =>
      var loaded := Merge(w.file, w.floor);
      if loaded.Err? || !MayRestart(loaded.value) || reach == Nothing then w
      else Generate(w.(memory := None, saved := [], issued := []), key, [], 0, reach)
  }

  predicate BelowMax(floor: Option<nat>) {
    floor.Some? ==> floor.value < MAX_SEQ
  }

  /** The count that a running daemon's action saves, if it gets as far as the floor. */
  function SavedBy(w: World, a: Action): Option<nat> {
    if w.memory.None? then None
    else if a.Replace? && a.keys != [] && a.reach != Nothing then NextSeq(w.memory)
    else if a.EraseReplaced? && a.reach != Nothing then w.memory
    else None
  }

  predicate AtLeast(n: Option<nat>, counts: seq<nat>) {
    forall i :: 0 <= i < |counts| ==> n.Some? && counts[i] <= n.value
  }

  /** Saving `n` leaves the floor at least every saved count when the floor is below the largest sequence
      number or `n` is itself at least every saved count. */
  predicate SafeToSave(w: World, n: nat) {
    BelowMax(w.floor) || AtLeast(Some(n), w.saved)
  }

  /** Starting needs a stopped daemon. */
  predicate Startable(w: World, a: Action) {
    a.Start? || a.RestartCount? ==> w.memory.None?
  }

  /** And a running daemon saves only what is safe to save. */
  predicate Enabled(w: World, a: Action) {
    Startable(w, a) && (SavedBy(w, a).Some? ==> SafeToSave(w, SavedBy(w, a).value))
  }

  function Run(w: World, acts: seq<Action>): World
    decreases |acts|
  {
    if acts == [] then w else Step(Run(w, acts[..|acts| - 1]), acts[|acts| - 1])
  }

  /** A run the daemon can make. */
  predicate Possible(w: World, acts: seq<Action>)
    decreases |acts|
  {
    acts != [] ==> Possible(w, acts[..|acts| - 1]) && Startable(Run(w, acts[..|acts| - 1]), acts[|acts| - 1])
  }

  /** One in which every save is safe. */
  predicate Legal(w: World, acts: seq<Action>)
    decreases |acts|
  {
    acts != [] ==> Legal(w, acts[..|acts| - 1]) && Enabled(Run(w, acts[..|acts| - 1]), acts[|acts| - 1])
  }

  /** Any file, as an earlier version of the daemon may have left it, and no floor yet. */
  predicate Initial(w: World) {
    w.floor.None? && w.memory.None? && w.saved == [] && w.issued == []
  }

  // ---- what every run keeps ----------------------------------------------------------------------

  predicate Increasing(s: seq<nat>) {
    forall i, j :: 0 <= i < j < |s| ==> s[i] < s[j]
  }

  /** The issued numbers increase, and the floor and the running daemon's count are at least each. */
  predicate IssuedInOrder(w: World) {
    AtLeast(w.floor, w.issued) && Increasing(w.issued) && (w.memory.Some? ==> AtLeast(w.memory, w.issued))
  }

  predicate Inv(w: World) {
    IssuedInOrder(w) && AtLeast(w.floor, w.saved)
  }

  /** A successful load is at least the floor. */
  lemma LoadIsAtLeast(w: World)
    requires Merge(w.file, w.floor).Ok?
    ensures var state := Merge(w.file, w.floor).value;
            if state.None? then w.floor.None?
            else w.floor.Some? ==> state.value.highest.Some? && w.floor.value <= state.value.highest.value
  {
    if w.floor.Some? {
      LoadedCount(w.file, w.floor);
    }
  }

  /** Recording and saving `n` leaves the floor at least every saved count exactly when that is safe. */
  lemma RaiseKeepsExactly(w: World, n: nat)
    requires AtLeast(w.floor, w.saved)
    ensures AtLeast(Some(Raise(w.floor, n)), w.saved) <==> SafeToSave(w, n)
    ensures AtLeast(Some(Raise(w.floor, n)), w.saved + [n]) <==> SafeToSave(w, n)
  {
    var floor := Some(Raise(w.floor, n));
    if AtLeast(floor, w.saved + [n]) {
      forall i | 0 <= i < |w.saved| ensures w.saved[i] <= floor.value {
        assert (w.saved + [n])[i] == w.saved[i];
      }
    }
  }

  /** A new count above every issued one is issued in order; a count already held is only saved again. */
  lemma SaveIssuesInOrder(w: World, state: R.State, reach: Reach, isNew: bool)
    requires IssuedInOrder(w) && state.highest.Some? && AtLeast(state.highest, w.issued)
    requires isNew ==> forall i :: 0 <= i < |w.issued| ==> w.issued[i] < state.highest.value
    ensures IssuedInOrder(SaveChecked(w, state, reach, isNew))
  {
  }

  lemma SaveKeepsCovered(w: World, state: R.State, reach: Reach, isNew: bool)
    requires AtLeast(w.floor, w.saved) && state.highest.Some? && SafeToSave(w, state.highest.value)
    ensures var v := SaveChecked(w, state, reach, isNew); AtLeast(v.floor, v.saved)
  {
    RaiseKeepsExactly(w, state.highest.value);
  }

  lemma GenerateIssuesInOrder(w: World, key: R.StoredKey, keys: seq<R.StoredKey>, n: nat, reach: Reach)
    requires IssuedInOrder(w) && forall i :: 0 <= i < |w.issued| ==> w.issued[i] < n
    ensures IssuedInOrder(Generate(w, key, keys, n, reach))
  {
    SaveIssuesInOrder(w, R.State([key.(number := n)] + keys, Some(n)), reach, true);
  }

  lemma GenerateKeepsCovered(w: World, key: R.StoredKey, keys: seq<R.StoredKey>, n: nat, reach: Reach)
    requires AtLeast(w.floor, w.saved) && SafeToSave(w, n)
    ensures var v := Generate(w, key, keys, n, reach); AtLeast(v.floor, v.saved)
  {
    SaveKeepsCovered(w, R.State([key.(number := n)] + keys, Some(n)), reach, true);
  }

  lemma StartIssuesInOrder(w: World, key: R.StoredKey, reach: Reach)
    requires IssuedInOrder(w) && w.memory.None?
    ensures IssuedInOrder(Step(w, Start(reach, key)))
  {
    var loaded := Merge(w.file, w.floor);
    if loaded.Ok? {
      LoadIsAtLeast(w);
      if loaded.value.None? {
        GenerateIssuesInOrder(w, key, [], 0, reach);
      } else if loaded.value.value.keys == [] && NextSeq(loaded.value.value.highest).Some? {
        GenerateIssuesInOrder(w, key, [], NextSeq(loaded.value.value.highest).value, reach);
      }
    }
  }

  lemma StartKeepsCovered(w: World, key: R.StoredKey, reach: Reach)
    requires AtLeast(w.floor, w.saved)
    ensures var v := Step(w, Start(reach, key)); AtLeast(v.floor, v.saved)
  {
    var loaded := Merge(w.file, w.floor);
    if loaded.Ok? {
      LoadIsAtLeast(w);
      if loaded.value.None? {
        GenerateKeepsCovered(w, key, [], 0, reach);
      } else if loaded.value.value.keys == [] && NextSeq(loaded.value.value.highest).Some? {
        GenerateKeepsCovered(w, key, [], NextSeq(loaded.value.value.highest).value, reach);
      }
    }
  }

  /** Every step issues in order, whatever it saves. */
  lemma StepIssuesInOrder(w: World, a: Action)
    requires IssuedInOrder(w) && Startable(w, a)
    ensures IssuedInOrder(Step(w, a))
  {
    match a
    case Start(reach, key) => StartIssuesInOrder(w, key, reach);
    case Replace(reach, keys) =>
      if w.memory.Some? && NextSeq(w.memory).Some? && keys != [] {
        GenerateIssuesInOrder(w, keys[0], keys[1..], NextSeq(w.memory).value, reach);
      }
    case EraseReplaced(reach, keys) =>
      if w.memory.Some? {
        SaveIssuesInOrder(w, R.State(keys, w.memory), reach, false);
      }
    case EnsureFloor =>
    case Stop =>
    case ReturnFile(_) =>
    case RestartCount(reach, key) =>
      GenerateIssuesInOrder(w.(memory := None, saved := [], issued := []), key, [], 0, reach);
  }

  lemma StepKeepsCovered(w: World, a: Action)
    requires AtLeast(w.floor, w.saved) && Enabled(w, a)
    ensures AtLeast(Step(w, a).floor, Step(w, a).saved)
  {
    match a
    case Start(reach, key) => StartKeepsCovered(w, key, reach);
    case Replace(reach, keys) =>
      if SavedBy(w, a).Some? {
        GenerateKeepsCovered(w, keys[0], keys[1..], NextSeq(w.memory).value, reach);
      }
    case EraseReplaced(reach, keys) =>
      if SavedBy(w, a).Some? {
        SaveKeepsCovered(w, R.State(keys, w.memory), reach, false);
      }
    case EnsureFloor =>
    case Stop =>
    case ReturnFile(_) =>
    case RestartCount(reach, key) =>
      GenerateKeepsCovered(w.(memory := None, saved := [], issued := []), key, [], 0, reach);
  }

  lemma {:induction false} EveryRunIssuesInOrder(w: World, acts: seq<Action>)
    requires Initial(w) && Possible(w, acts)
    ensures IssuedInOrder(Run(w, acts))
    decreases |acts|
  {
    if acts != [] {
      EveryRunIssuesInOrder(w, acts[..|acts| - 1]);
      StepIssuesInOrder(Run(w, acts[..|acts| - 1]), acts[|acts| - 1]);
    }
  }

  lemma {:induction false} EveryRun(w: World, acts: seq<Action>)
    requires Initial(w) && Legal(w, acts)
    ensures Inv(Run(w, acts))
    decreases |acts|
  {
    if acts != [] {
      var before, last := Run(w, acts[..|acts| - 1]), acts[|acts| - 1];
      EveryRun(w, acts[..|acts| - 1]);
      StepIssuesInOrder(before, last);
      StepKeepsCovered(before, last);
    }
  }

  lemma LoadCovers(w: World, i: nat)
    requires Inv(w) && i < |w.saved| && Merge(w.file, w.floor).Ok?
    ensures var state := Merge(w.file, w.floor).value;
            state.Some? && state.value.highest.Some? && w.saved[i] <= state.value.highest.value
  {
    assert w.saved[i] >= 0 && w.floor.Some? && w.saved[i] <= w.floor.value;
    LoadIsAtLeast(w);
  }

  /** In every run, every successful load gives a count at least every count saved since the count last
      restarted. */
  lemma LoadsNeverFallBehind(w: World, acts: seq<Action>, i: nat)
    requires Initial(w) && Legal(w, acts) && i < |Run(w, acts).saved|
    requires Merge(Run(w, acts).file, Run(w, acts).floor).Ok?
    ensures var state := Merge(Run(w, acts).file, Run(w, acts).floor).value;
            state.Some? && state.value.highest.Some? && Run(w, acts).saved[i] <= state.value.highest.value
  {
    EveryRun(w, acts);
    LoadCovers(Run(w, acts), i);
  }

  /** In every run the daemon can make, safe saves or not, no two statements since the count last restarted
      have one sequence number. */
  lemma SequenceNumbersNeverRepeat(w: World, acts: seq<Action>, i: nat, j: nat)
    requires Initial(w) && Possible(w, acts) && i < j < |Run(w, acts).issued|
    ensures Run(w, acts).issued[i] < Run(w, acts).issued[j]
  {
    EveryRunIssuesInOrder(w, acts);
  }

  /** Whatever agreement file is found, a successful load gives at least every saved count. */
  ghost predicate LoadsCover(w: World) {
    forall file :: Merge(file, w.floor).Ok? ==> Covers(Merge(file, w.floor).value, w.saved)
  }

  predicate Covers(state: Option<R.State>, counts: seq<nat>) {
    counts != [] ==> state.Some? && AtLeast(state.value.highest, counts)
  }

  /** That is so exactly when the floor is at least every saved count. */
  lemma LoadsCoverExactly(w: World)
    ensures LoadsCover(w) <==> AtLeast(w.floor, w.saved)
  {
    assert w.floor.None? ==> Merge(None, w.floor) == Ok(None);
    assert w.floor.Some? ==> Merge(None, w.floor) == Ok(Some(EmptyAt(w.floor.value)));
    if AtLeast(w.floor, w.saved) && w.saved != [] {
      forall file | Merge(file, w.floor).Ok? ensures Covers(Merge(file, w.floor).value, w.saved) {
        assert w.saved[0] >= 0 && w.floor.Some?;
        LoadedCount(file, w.floor);
      }
    }
  }

  lemma UnsafeSave(w: World, a: Action)
    requires AtLeast(w.floor, w.saved) && Startable(w, a) && !Enabled(w, a)
    ensures SavedBy(w, a).Some? && Step(w, a).floor == SavedBy(w, a) && !AtLeast(SavedBy(w, a), Step(w, a).saved)
    ensures a.reach != FloorOnly ==> Step(w, a).file.Some? && Step(w, a).file.value.highest == SavedBy(w, a)
  {
    var n, v := SavedBy(w, a).value, Step(w, a);
    RaiseKeepsExactly(w, n);
    assert v.saved == w.saved || v.saved == w.saved + [n];
  }

  /** A step keeps loads from falling behind exactly when what it saves, if anything, is safe to save.
      Otherwise even the file just written falls behind. */
  lemma StepKeepsExactly(w: World, a: Action)
    requires LoadsCover(w) && Startable(w, a)
    ensures LoadsCover(Step(w, a)) <==> Enabled(w, a)
    ensures !Enabled(w, a) ==>
              var v := Step(w, a);
              SavedBy(w, a).Some? && (a.reach != FloorOnly ==>
                Merge(v.file, v.floor).Ok? && !Covers(Merge(v.file, v.floor).value, v.saved))
  {
    LoadsCoverExactly(w);
    LoadsCoverExactly(Step(w, a));
    if Enabled(w, a) {
      StepKeepsCovered(w, a);
    } else {
      UnsafeSave(w, a);
    }
  }

  /** After each action of a run, whatever agreement file is found, a load gives at least every saved count. */
  ghost predicate CoversThroughout(w: World, acts: seq<Action>)
    decreases |acts|
  {
    LoadsCover(Run(w, acts)) && (acts != [] ==> CoversThroughout(w, acts[..|acts| - 1]))
  }

  /** Of the runs the daemon can make, those are exactly the ones in which every save is safe. */
  lemma {:induction false} LegalExactly(w: World, acts: seq<Action>)
    requires Initial(w) && Possible(w, acts)
    ensures Legal(w, acts) <==> CoversThroughout(w, acts)
    decreases |acts|
  {
    if acts == [] {
      LoadsCoverExactly(w);
    } else {
      LegalExactly(w, acts[..|acts| - 1]);
      if LoadsCover(Run(w, acts[..|acts| - 1])) {
        StepKeepsExactly(Run(w, acts[..|acts| - 1]), acts[|acts| - 1]);
      }
    }
  }

  /** A restart of the count happens only where none is known or the largest has been reached. */
  lemma RestartOnlyWhenExhausted(w: World, key: R.StoredKey, reach: Reach)
    requires Step(w, RestartCount(reach, key)) != w
    ensures Merge(w.file, w.floor).Ok?
    ensures w.floor.Some? ==> Merge(w.file, w.floor).value.value.highest.value >= MAX_SEQ
  {
    LoadIsAtLeast(w);
  }

  /** Once a start has made sure of its floor, the loss of the agreement file loses no count. */
  lemma EnsuredFloor(w: World, n: nat)
    requires w.memory == Some(n) && n <= MAX_SEQ && (w.floor.Some? ==> w.floor.value <= MAX_SEQ)
    ensures var v := Step(w, EnsureFloor);
            Merge(None, v.floor) == Ok(Some(EmptyAt(v.floor.value))) && v.floor.value >= n
  {
  }

  /** At the largest sequence number a save of a lower count lowers the floor, and a load then falls behind
      what was saved: a state whose statement was never issued is forgotten. */
  lemma FallsBehindAtTheMaximum(key: R.StoredKey) returns (w: World, acts: seq<Action>)
    requires key.number == 0
    ensures Initial(w) && Possible(w, acts) && MAX_SEQ in Run(w, acts).saved
    ensures Merge(Run(w, acts).file, Run(w, acts).floor) == Ok(Some(R.State([key], Some(MAX_SEQ - 1))))
  {
    var file := R.State([key], Some(MAX_SEQ - 1));
    w := World(Some(file), None, None, [], []);
    var start, replace, erase := Start(Nothing, key), Replace(BothFiles, [key]), EraseReplaced(ReadBack, [key]);
    acts := [start, replace, erase];
    assert acts[..2] == [start, replace] && [start, replace][..1] == [start] && [start][..0] == [];
    assert R.AllCovered(file);
    var one := Step(w, start);
    assert one == w.(memory := Some(MAX_SEQ - 1));
    var two := Step(one, replace);
    assert two.floor == Some(MAX_SEQ) && two.saved == [MAX_SEQ] && two.memory == Some(MAX_SEQ - 1);
    var three := Step(two, erase);
    assert three.floor == Some(MAX_SEQ - 1) && three.saved == [MAX_SEQ, MAX_SEQ - 1];
    assert Run(w, [start]) == one && Run(w, [start, replace]) == two && Run(w, acts) == three;
    assert Possible(w, [start]) && Possible(w, [start, replace]);
  }

  // ---- what is issued ----------------------------------------------------------------------------

  predicate WithinMax(s: seq<nat>) {
    forall i :: 0 <= i < |s| ==> s[i] <= MAX_SEQ
  }

  lemma StepWithinMax(w: World, a: Action)
    requires WithinMax(w.issued)
    ensures WithinMax(Step(w, a).issued)
  {
  }

  /** In every run no statement has a sequence number above the largest. */
  lemma {:induction false} IssuedWithinMax(w: World, acts: seq<Action>)
    requires Initial(w)
    ensures WithinMax(Run(w, acts).issued)
    decreases |acts|
  {
    if acts != [] {
      IssuedWithinMax(w, acts[..|acts| - 1]);
      StepWithinMax(Run(w, acts[..|acts| - 1]), acts[|acts| - 1]);
    }
  }

  /** A state that was saved reads back exactly when the floor is not above its count, or is at the largest
      sequence number, from where recording the count lowers it. */
  lemma ReadsBackExactly(w: World, state: R.State, n: nat)
    requires state.highest == Some(n)
    ensures Merge(Some(state), Some(Raise(w.floor, n))) == Ok(Some(state))
       <==> w.floor.None? || w.floor.value <= n || w.floor.value >= MAX_SEQ
  {
  }

  /** The world once a fresh key numbered `n` is saved, read back and its statement issued. */
  function Issued(w: World, key: R.StoredKey, keys: seq<R.StoredKey>, n: nat): World {
    World(Some(R.State([key.(number := n)] + keys, Some(n))), Some(n), Some(n), w.saved + [n], w.issued + [n])
  }

  /** A running daemon that replaces its key and reads it back issues the next number, and holds it. */
  lemma ReplaceIssues(w: World, keys: seq<R.StoredKey>, n: nat)
    requires w.memory == Some(n) && n < MAX_SEQ && keys != [] && (w.floor.Some? ==> w.floor.value <= n + 1)
    ensures Step(w, Replace(ReadBack, keys)) == Issued(w, keys[0], keys[1..], n + 1)
  {
    ReadsBackExactly(w, R.State([keys[0].(number := n + 1)] + keys[1..], Some(n + 1)), n + 1);
  }

  /** One at the largest sequence number replaces nothing. */
  lemma ExhaustedReplacesNothing(w: World, keys: seq<R.StoredKey>, reach: Reach, n: nat)
    requires w.memory == Some(n) && n >= MAX_SEQ
    ensures Step(w, Replace(reach, keys)) == w
  {
  }

  /** A first start issues number 0, and one that finds no keys the number after the count it loads. */
  lemma StartIssues(w: World, key: R.StoredKey)
    requires Merge(w.file, w.floor).Ok?
    ensures match Merge(w.file, w.floor).value {
              case None => Step(w, Start(ReadBack, key)) == Issued(w, key, [], 0)
              case Some(state) =>
                state.keys == [] ==>
                  match state.highest {
                    case None => Step(w, Start(ReadBack, key)) == Issued(w, key, [], 0)
                    case Some(n) =>
                      Step(w, Start(ReadBack, key)) == if n < MAX_SEQ then Issued(w, key, [], n + 1) else w
                  }
            }
  {
    LoadIsAtLeast(w);
    var state := Merge(w.file, w.floor).value;
    var m := if state.None? || state.value.highest.None? then 0 else state.value.highest.value + 1;
    ReadsBackExactly(w, R.State([key.(number := m)], Some(m)), m);
    assert [key.(number := m)] + [] == [key.(number := m)];
  }

  /** A start holds the keys it finds exactly when their count is known and covers each; otherwise it does
      nothing. */
  lemma StartHolds(w: World, key: R.StoredKey, reach: Reach, state: R.State)
    requires Merge(w.file, w.floor) == Ok(Some(state)) && state.keys != []
    ensures Step(w, Start(reach, key))
         == if state.highest.Some?
               && (forall i :: 0 <= i < |state.keys| ==> state.keys[i].number <= state.highest.value)
            then w.(memory := state.highest) else w
  {
  }

  /** A restart of the count issues number 0, whatever was counted before. */
  lemma RestartIssues(w: World, key: R.StoredKey)
    requires Merge(w.file, w.floor).Ok? && (w.floor.Some? ==> w.floor.value == 0 || w.floor.value >= MAX_SEQ)
    requires MayRestart(Merge(w.file, w.floor).value)
    ensures var v := Step(w, RestartCount(ReadBack, key)); v.issued == [0] && v.memory == Some(0) && v.floor == Some(0)
  {
    ReadsBackExactly(w, R.State([key.(number := 0)], Some(0)), 0);
    assert [key.(number := 0)] + [] == [key.(number := 0)];
  }
}
