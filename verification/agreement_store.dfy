/** The agreement-key store on disk, and the same store with its count also kept as the floor in the trust
    file of the same directory. */
module AgreementStore {
  import opened Common
  import A = AtomicFile
  import R = AtRest
  import S = TrustStore
  import T = Timestamp
  import SeqFloor
  import Ids

  // ---- the sealed file ---------------------------------------------------------------------------

  /** Sealing a state to octets and opening it again; `seal` also takes the randomness of the call. */
  datatype Sealing = Sealing(
    seal: (R.State, nat) -> Option<seq<Byte>>, open: seq<Byte> -> Option<R.State>, proper: R.State -> bool)

  ghost predicate OpensAgain(c: Sealing, s: R.State, randomness: nat) {
    c.proper(s) && c.seal(s, randomness).Some? ==> c.open(c.seal(s, randomness).value) == Some(s)
  }

  ghost predicate Lawful(c: Sealing) {
    forall s, randomness :: OpensAgain(c, s, randomness)
  }

  /** The sealed file format is such a sealing. */
  lemma SealedFileIsLawful(c: Sealing, parse: T.Parser, sealer: R.Sealer, keyId: seq<Byte>)
    requires T.KeepsText(parse) && R.Lawful(sealer) && |keyId| == 64
    requires forall s, randomness :: c.seal(s, randomness) == Opened(R.SealState(sealer, keyId, s, randomness))
    requires forall file :: c.open(file) == Opened(R.OpenState(parse, sealer, keyId, file))
    requires forall s :: c.proper(s) == R.Proper(parse, s)
    ensures Lawful(c)
  {
    forall s, randomness ensures OpensAgain(c, s, randomness) {
      if c.proper(s) && c.seal(s, randomness).Some? {
        R.OpenOfSeal(parse, sealer, keyId, s, randomness);
      }
    }
  }

  function Opened<X, E>(r: Result<X, E>): Option<X> {
    if r.Ok? then Some(r.value) else None
  }

  /** What a directory holds in the agreement file: `None` when it does not open. */
  function Contents(c: Sealing, v: A.View, file: string): Option<Option<R.State>> {
    match A.Entry(v, A.Name(file))
    case None => Some(None)
    case Some(content) => if c.open(content.bytes).None? then None else Some(c.open(content.bytes))
  }

  /** A state that saving `state` passes through: the file holds what it held or the new state. */
  ghost predicate Between(c: Sealing, file: string, base: A.View, state: R.State, v: A.View) {
    && A.Others(file, base, v)
    && (Contents(c, v, file) == Contents(c, base, file) || Contents(c, v, file) == Some(Some(state)))
  }

  class AgreementFileStore {
    const sealing: Sealing
    const store: A.Store

    constructor (sealing: Sealing, store: A.Store)
      ensures this.sealing == sealing && this.store == store
    {
      this.sealing, this.store := sealing, store;
    }

    ghost predicate Valid()
      reads store.disk
    {
      Lawful(sealing) && store.disk.Valid()
    }

    ghost function Held(): Option<Option<R.State>>
      reads store.disk
    {
      Contents(sealing, store.disk.files, store.file)
    }

    /** Load: a missing file is a first start. A step may fail; else the file is corrupt exactly when it does
        not open. */
    method Load() returns (r: Result<Option<R.State>, SeqFloor.LoadError>)
      requires Valid()
      modifies store.disk`faults
      ensures Valid()
      ensures if store.disk.faults == old(store.disk.faults)
              then r == (if Held().None? then Err(SeqFloor.CorruptState) else Ok(Held().value))
              else r == Err(SeqFloor.StoreFailed) && store.disk.faults > old(store.disk.faults)
    {
      var read := store.disk.Read(A.Name(store.file));
      if read.Err? {
        return Err(SeqFloor.StoreFailed);
      }
      if read.value.None? {
        return Ok(None);
      }
      var state := sealing.open(read.value.value);
      r := if state.None? then Err(SeqFloor.CorruptState) else Ok(state);
    }

    /** Save: an error leaves what the file held, success leaves the new state, and a stop after any step
        leaves one or the other. */
    method Save(state: R.State, randomness: nat) returns (ok: bool)
      requires Valid() && sealing.proper(state)
      modifies store.disk
      ensures Valid()
      ensures !ok ==> Held() == old(Held()) && (store.Hindered() || sealing.seal(state, randomness).None?)
      ensures ok ==> Held() == Some(Some(state))
      ensures A.Others(store.file, old(store.disk.files), store.disk.files)
      ensures A.Extends(store.disk.trace, old(store.disk.trace))
      ensures forall k :: |old(store.disk.trace)| <= k < |store.disk.trace| ==>
                Between(sealing, store.file, old(store.disk.files), state, store.disk.trace[k])
    {
      var bytes := sealing.seal(state, randomness);
      if bytes.None? {
        return false;
      }
      assert OpensAgain(sealing, state, randomness);
      var durable;
      ok, durable := store.Save(bytes.value);
    }
  }

  // ---- the floored store -------------------------------------------------------------------------

  /** What the two files hold: the floor of the key, and the agreement state; `None` when a file cannot be
      read. */
  datatype Files = Files(floor: Option<Option<nat>>, file: Option<Option<R.State>>)

  /** A floor above the largest sequence number makes the trust file unreadable, and an unreadable one is
      not written. */
  function Recorded(floor: Option<Option<nat>>, n: nat): Option<Option<nat>> {
    if floor.None? || SeqFloor.Raise(floor.value, n) > SeqFloor.MAX_SEQ then None
    else Some(Some(SeqFloor.Raise(floor.value, n)))
  }

  /** How a save leaves the files when it gets that far. */
  function Saved(fs: Files, state: R.State, reach: SeqFloor.Reach): Files {
    var recorded := if state.highest.None? then fs else fs.(floor := Recorded(fs.floor, state.highest.value));
    match reach
    case Nothing => fs
    case FloorOnly => recorded
    case _ => recorded.(file := Some(Some(state)))
  }

  /** Those are the files of the runs, whose counts are at most the largest sequence number. */
  lemma SavedIsSave(w: SeqFloor.World, state: R.State, reach: SeqFloor.Reach)
    requires state.highest.Some? && SeqFloor.Raise(w.floor, state.highest.value) <= SeqFloor.MAX_SEQ
    ensures var v := SeqFloor.Save(w, state, reach);
            Saved(Files(Some(w.floor), Some(w.file)), state, reach) == Files(Some(v.floor), Some(v.file))
  {
  }

  /** The floor as the trust file of a directory has it. */
  function FloorAt(c: S.Codec, v: A.View, file: string, keyId: string): Option<Option<nat>> {
    var held := S.Contents(c, v, file);
    if held.None? then None else Some(S.NumberFor(S.FloorOf(held.value), keyId))
  }

  lemma RecordedFloor(c: S.Codec, file: string, base: A.View, keyId: string, n: nat, v: A.View)
    requires S.Recording(c, file, base, keyId, n, v)
    ensures var was, now := FloorAt(c, base, file, keyId), FloorAt(c, v, file, keyId);
            now == was || now == Recorded(was, n)
  {
    var was := S.Contents(c, base, file);
    if was.Some? {
      SeqFloor.RaiseIsRaised(S.FloorOf(was.value), keyId, n);
    }
  }

  class FlooredAgreementStore {
    const inner: AgreementFileStore
    const trust: S.FileTrustStore
    const keyId: string

    constructor (inner: AgreementFileStore, trust: S.FileTrustStore, keyId: string)
      ensures this.inner == inner && this.trust == trust && this.keyId == keyId
    {
      this.inner, this.trust, this.keyId := inner, trust, keyId;
    }

    /** Both files are in one directory, under their own names. */
    ghost predicate Valid()
      reads trust, trust.store.disk, inner.store.disk
    {
      && inner.Valid() && trust.Valid() && Ids.IsKeyId(keyId)
      && inner.store.disk == trust.store.disk && Named()
    }

    ghost predicate Named() {
      trust.store.file == A.TRUST_FILE_NAME && inner.store.file == A.AgreementFileName(keyId)
    }

    ghost function FilesAt(v: A.View): Files {
      Files(FloorAt(trust.codec, v, trust.store.file, keyId), Contents(inner.sealing, v, inner.store.file))
    }

    ghost function Now(): Files
      reads trust.store.disk
    {
      FilesAt(trust.store.disk.files)
    }

    /** The larger of the two counts, and keys only from a file at or above the floor. */
    method Load() returns (r: Result<Option<R.State>, SeqFloor.LoadError>)
      requires Valid()
      modifies trust`floor, trust.store.disk`faults
      ensures Valid() && trust.Held() == old(trust.Held()) && inner.Held() == old(inner.Held())
      ensures r.Ok? && Now().floor.Some? ==>
                Now().file.Some? && SeqFloor.Merge(Now().file.value, Now().floor.value) == r
      ensures trust.store.disk.faults == old(trust.store.disk.faults) && Now().floor.Some? ==>
                r == if Now().file.None? then Err(SeqFloor.CorruptState)
                     else SeqFloor.Merge(Now().file.value, Now().floor.value)
    {
      var floor := trust.AgreementSeqFloor(keyId);
      if floor.Err? {
        return Err(SeqFloor.StoreFailed);
      }
      var state := inner.Load();
      if state.Err? {
        return Err(state.error);
      }
      r := SeqFloor.Merge(state.value, floor.value);
    }

    /** The trust file with its floor raised to `n` is larger than the store admits, or has no text. */
    ghost predicate NoRoom(n: nat)
      requires trust.Held().Some?
      reads trust, trust.store.disk
    {
      S.Unwritable(trust.codec, S.WithFloor(trust.Held().value, trust.deviceKeyId, keyId, n))
    }

    /** Raise the floor of this key. A stop after any step leaves the old floor or the raised one, and the
        agreement file as it was. */
    method RecordFloor(n: nat) returns (ok: bool)
      requires Valid()
      modifies trust`floor, trust.store.disk
      ensures Valid() && Now().file == old(Now()).file
      ensures Now().floor == if ok then Recorded(old(Now()).floor, n) else old(Now()).floor
      ensures !ok ==> trust.store.Hindered() || old(trust.Held()).None? || old(NoRoom(n))
      ensures old(trust.store.disk.faults) <= trust.store.disk.faults
      ensures old(trust.store.disk.taken) <= trust.store.disk.taken
      ensures A.Extends(trust.store.disk.trace, old(trust.store.disk.trace))
      ensures forall k :: |old(trust.store.disk.trace)| <= k < |trust.store.disk.trace| ==>
                RecordedOrNot(old(Now()), n, trust.store.disk.trace[k])
    {
      ghost var base := trust.store.disk.files;
      ok := trust.RecordAgreementSeqFloor(keyId, n);
      RecordKeepsFile(base, trust.store.disk.files);
      forall k | |old(trust.store.disk.trace)| <= k < |trust.store.disk.trace|
        ensures RecordedOrNot(old(Now()), n, trust.store.disk.trace[k])
      {
        RecordStep(n, base, trust.store.disk.trace[k]);
      }
      if old(trust.Held()).Some? {
        SeqFloor.RaiseIsRaised(S.FloorOf(old(trust.Held()).value), keyId, n);
      }
    }

    ghost predicate RecordedOrNot(fs: Files, n: nat, v: A.View) {
      FilesAt(v) == fs || FilesAt(v) == fs.(floor := Recorded(fs.floor, n))
    }

    lemma RecordKeepsFile(base: A.View, v: A.View)
      requires Named() && A.Others(trust.store.file, base, v)
      ensures FilesAt(v).file == FilesAt(base).file
    {
      OtherFileKept(trust.store.file, inner.store.file, keyId, base, v);
    }

    lemma RecordStep(n: nat, base: A.View, v: A.View)
      requires Named() && S.Recording(trust.codec, trust.store.file, base, keyId, n, v)
      ensures RecordedOrNot(FilesAt(base), n, v)
    {
      RecordedFloor(trust.codec, trust.store.file, base, keyId, n, v);
      RecordKeepsFile(base, v);
    }

    lemma SaveStep(state: R.State, base: A.View, v: A.View)
      requires Named() && Between(inner.sealing, inner.store.file, base, state, v)
      ensures FilesAt(v) == FilesAt(base) || FilesAt(v) == FilesAt(base).(file := Some(Some(state)))
    {
      TrustFileKept(inner.store.file, keyId, base, v);
    }

    /** The files of a state are as a save leaves them that got that far. */
    ghost predicate Reached(fs: Files, state: R.State, v: A.View) {
      || FilesAt(v) == Saved(fs, state, SeqFloor.Nothing)
      || FilesAt(v) == Saved(fs, state, SeqFloor.FloorOnly)
      || FilesAt(v) == Saved(fs, state, SeqFloor.BothFiles)
    }

    /** The floor is raised first, and the file written only after that succeeded. A stop after any step
        leaves both files as they were, the floor raised, or the floor raised and the new state. */
    method Save(state: R.State, randomness: nat) returns (ok: bool)
      requires Valid() && inner.sealing.proper(state)
      modifies trust`floor, trust.store.disk
      ensures Valid()
      ensures ok ==> Now() == Saved(old(Now()), state, SeqFloor.BothFiles)
      ensures !ok ==> Now() == old(Now()) || Now() == Saved(old(Now()), state, SeqFloor.FloorOnly)
      ensures !ok ==> || trust.store.Hindered() || inner.store.Hindered()
                      || inner.sealing.seal(state, randomness).None?
                      || (state.highest.Some? && (old(trust.Held()).None? || old(NoRoom(state.highest.value))))
      ensures A.Extends(trust.store.disk.trace, old(trust.store.disk.trace))
      ensures forall k :: |old(trust.store.disk.trace)| <= k < |trust.store.disk.trace| ==>
                Reached(old(Now()), state, trust.store.disk.trace[k])
    {
      if state.highest.Some? {
        ok := RecordFloor(state.highest.value);
        if !ok {
          return;
        }
      }
      ghost var recorded, past := trust.store.disk.files, trust.store.disk.trace;
      ok := inner.Save(state, randomness);
      forall k | |old(trust.store.disk.trace)| <= k < |trust.store.disk.trace|
        ensures Reached(old(Now()), state, trust.store.disk.trace[k])
      {
        if k < |past| {
          assert trust.store.disk.trace[k] == past[k];
        } else {
          SaveStep(state, recorded, trust.store.disk.trace[k]);
        }
      }
      TrustFileKept(inner.store.file, keyId, recorded, inner.store.disk.files);
    }

    /** Make sure the floor is at least the count the daemon runs with. */
    method EnsureFloor(highest: nat) returns (ok: bool)
      requires Valid()
      modifies trust`floor, trust.store.disk
      ensures Valid() && Now().file == old(Now()).file
      ensures Now().floor == old(Now()).floor || Now().floor == Recorded(old(Now()).floor, highest)
      ensures ok && Now().floor.Some? ==> Now().floor.value.Some? && Now().floor.value.value >= highest
      ensures !ok ==> trust.store.Hindered() || old(trust.Held()).None? || old(NoRoom(highest))
      ensures old(Now()).floor.Some? && old(Now()).floor.value.Some? && old(Now()).floor.value.value >= highest ==>
                Now() == old(Now())
      ensures forall k :: |old(trust.store.disk.trace)| <= k < |trust.store.disk.trace| ==>
                RecordedOrNot(old(Now()), highest, trust.store.disk.trace[k])
    {
      var current := trust.AgreementSeqFloor(keyId);
      if current.Err? {
        return false;
      }
      if current.value.Some? && current.value.value >= highest {
        return true;
      }
      ok := RecordFloor(highest);
    }
  }

  /** Writing the trust file leaves the agreement file as it was. */
  lemma OtherFileKept(trustFile: string, file: string, keyId: string, before: A.View, after: A.View)
    requires trustFile == A.TRUST_FILE_NAME && file == A.AgreementFileName(keyId) && A.Others(trustFile, before, after)
    ensures A.Entry(after, A.Name(file)) == A.Entry(before, A.Name(file))
  {
    A.StoreNamesAreKept(trustFile, file);
    assert file[0] == 'a' && trustFile[0] == 't';
  }

  /** Writing the agreement file leaves the trust file as it was. */
  lemma TrustFileKept(file: string, keyId: string, before: A.View, after: A.View)
    requires file == A.AgreementFileName(keyId) && A.Others(file, before, after)
    ensures A.Entry(after, A.Name(A.TRUST_FILE_NAME)) == A.Entry(before, A.Name(A.TRUST_FILE_NAME))
  {
    A.StoreNamesAreKept(file, A.TRUST_FILE_NAME);
    assert file[0] == 'a' && A.TRUST_FILE_NAME[0] == 't';
  }
}
