/** The trust store: one file that holds the pairing snapshot and the agreement sequence floor, a cache of
    that floor, and the writes that replace the file whole. */
module TrustStore {
  import opened Common
  import AtomicFile
  import Ids
  import F = TrustFormat

  const MAX_TRUST_FILE_BYTES: nat := 1_048_576
  const MAX_SEQ: nat := F.MAX_STATEMENT_SEQ

  // ---- the format as the store uses it -----------------------------------------------------------

  /** The encoder and the decoder, on octets. `order` puts the lists of a snapshot in the order they are
      written in, and `typed` is what the types promise of a snapshot. */
  datatype Codec = Codec(
    encode: F.TrustFile -> Option<seq<Byte>>, decode: seq<Byte> -> Option<F.TrustFile>,
    order: F.Snapshot -> F.Snapshot, typed: F.Snapshot -> bool)

  const EMPTY := F.Snapshot([], [], [], [])

  function Ordered(c: Codec, f: F.TrustFile): F.TrustFile {
    f.(snapshot := c.order(f.snapshot))
  }

  predicate KeyIdOrNone(id: Option<string>) {
    id.Some? ==> Ids.IsKeyId(id.value)
  }

  predicate Typed(c: Codec, f: F.TrustFile) {
    c.typed(f.snapshot) && KeyIdOrNone(f.deviceKeyId) && (f.floor.Some? ==> Ids.IsKeyId(f.floor.value.keyId))
  }

  ghost predicate ReadsBack(c: Codec, f: F.TrustFile) {
    Typed(c, f) && c.encode(f).Some? ==>
      c.decode(c.encode(f).value) == if F.FloorInRange(f.floor) then Some(Ordered(c, f)) else None
  }

  ghost predicate ReadsTyped(c: Codec, bytes: seq<Byte>) {
    c.decode(bytes).Some? ==> Typed(c, c.decode(bytes).value) && F.FloorInRange(c.decode(bytes).value.floor)
  }

  ghost predicate Lawful(c: Codec) {
    && (forall f :: ReadsBack(c, f))
    && (forall bytes :: ReadsTyped(c, bytes))
    && (forall s :: c.order(c.order(s)) == c.order(s))
    && c.typed(EMPTY)
  }

  /** The trust file format is such a codec, through any encoding of text as octets that can be undone. */
  lemma FormatIsLawful(c: Codec, env: F.Env, bytes: string -> seq<Byte>, text: seq<Byte> -> Option<string>)
    requires F.Lawful(env) && forall s :: text(bytes(s)) == Some(s)
    requires forall f :: c.encode(f) == if F.Encode(env, f).Some? then Some(bytes(F.Encode(env, f).value)) else None
    requires forall b :: c.decode(b) == if text(b).Some? then F.Decode(env, text(b).value) else None
    requires forall f :: Ordered(c, f) == F.Normal(env, f)
    requires forall s :: c.typed(s) == F.TypedSnapshot(env, s)
    ensures Lawful(c)
  {
    forall f ensures ReadsBack(c, f) {
      if Typed(c, f) && c.encode(f).Some? {
        F.TypedAndQuotable(env, f);
        F.DecodeOfEncode(env, f);
      }
    }
    forall b ensures ReadsTyped(c, b) {
      if c.decode(b).Some? {
        F.DecodedIsProper(env, text(b).value);
        F.TypedAndQuotable(env, c.decode(b).value);
      }
    }
    forall s ensures c.order(c.order(s)) == c.order(s) {
      var f := F.TrustFile(None, s, None);
      F.NormalTwice(env, f);
      assert Ordered(c, f).snapshot == c.order(s) && Ordered(c, Ordered(c, f)).snapshot == c.order(c.order(s));
    }
  }

  // ---- floors ------------------------------------------------------------------------------------

  /** The floor after recording `seqNo` for `keyId`: it only rises for that key, except from the largest
      sequence number; another key's floor is replaced. */
  function Raised(current: Option<F.SeqFloor>, keyId: string, seqNo: nat): F.SeqFloor {
    if current.Some? && current.value.keyId == keyId && current.value.number > seqNo && current.value.number < MAX_SEQ
    then current.value
    else F.SeqFloor(keyId, seqNo)
  }

  /** For one key id the floor never decreases, except from the largest sequence number. */
  lemma FloorRises(current: Option<F.SeqFloor>, keyId: string, seqNo: nat)
    ensures Raised(current, keyId, seqNo).keyId == keyId
    ensures current.Some? && current.value.keyId == keyId && current.value.number < MAX_SEQ
            ==> Raised(current, keyId, seqNo).number == Max(current.value.number, seqNo)
    ensures (current.Some? && current.value.keyId == keyId && current.value.number < MAX_SEQ)
            || Raised(current, keyId, seqNo).number == seqNo
  {
  }

  // ---- the store ---------------------------------------------------------------------------------

  datatype StoreError = Corrupt | Failed

  function FloorOf(f: Option<F.TrustFile>): Option<F.SeqFloor> {
    if f.None? then None else f.value.floor
  }

  function SnapshotOf(f: Option<F.TrustFile>): F.Snapshot {
    if f.None? then EMPTY else f.value.snapshot
  }

  /** What a directory holds in the store's file: `None` when it is unreadable. */
  function Contents(c: Codec, v: AtomicFile.View, file: string): Option<Option<F.TrustFile>> {
    match AtomicFile.Entry(v, AtomicFile.Name(file))
    case None => Some(None)
    case Some(content) =>
      if |content.bytes| > MAX_TRUST_FILE_BYTES || c.decode(content.bytes).None? then None
      else Some(c.decode(content.bytes))
  }

  /** What a file that was written holds: a floor out of range makes it unreadable. */
  function Written(c: Codec, f: F.TrustFile): Option<Option<F.TrustFile>> {
    if F.FloorInRange(f.floor) then Some(Some(Ordered(c, f))) else None
  }

  /** A file that was written whole can be read back exactly when its floor is at most the largest sequence
      number, and then holds what was written with its lists in order. */
  lemma ReadableExactly(c: Codec, f: F.TrustFile, v: AtomicFile.View, file: string, bytes: seq<Byte>)
    requires Lawful(c) && Typed(c, f) && c.encode(f) == Some(bytes) && |bytes| <= MAX_TRUST_FILE_BYTES
    ensures var held := Contents(c, v[AtomicFile.Name(file) := AtomicFile.Content(bytes, true)], file);
            && held == Written(c, f)
            && (held.Some? <==> f.floor.None? || f.floor.value.number <= MAX_SEQ)
  {
    assert ReadsBack(c, f);
  }

  /** A known floor is the one the file holds; one out of range goes with a file that cannot be read. */
  predicate Agrees(floor: Option<F.SeqFloor>, held: Option<Option<F.TrustFile>>) {
    if F.FloorInRange(floor) then held.Some? && FloorOf(held.value) == floor else held.None?
  }

  /** A state that writing `f` passes through: the file holds what it held or what is written. */
  ghost predicate Between(c: Codec, file: string, base: AtomicFile.View, f: F.TrustFile, v: AtomicFile.View) {
    && AtomicFile.Others(file, base, v)
    && (Contents(c, v, file) == Contents(c, base, file) || Contents(c, v, file) == Written(c, f))
  }

  /** The format has no text for the file, or one that is too large. */
  predicate Unwritable(c: Codec, f: F.TrustFile) {
    c.encode(f).None? || |c.encode(f).value| > MAX_TRUST_FILE_BYTES
  }

  /** The file with the floor recorded: the snapshot stays, and so does the device key unless one was noted. */
  function WithFloor(was: Option<F.TrustFile>, device: Option<string>, keyId: string, seqNo: nat): F.TrustFile {
    var id := if device.Some? || was.None? then device else was.value.deviceKeyId;
    F.TrustFile(id, SnapshotOf(was), Some(Raised(FloorOf(was), keyId, seqNo)))
  }

  /** What recording a floor makes of a readable file. */
  predicate Records(c: Codec, was: Option<F.TrustFile>, keyId: string, seqNo: nat, now: Option<Option<F.TrustFile>>) {
    var raised := Some(Raised(FloorOf(was), keyId, seqNo));
    if F.FloorInRange(raised) then
      now.Some? && FloorOf(now.value) == raised && SnapshotOf(now.value) == c.order(SnapshotOf(was))
    else now.None?
  }

  /** A state that recording passes through: the file is as it was or records the floor. */
  ghost predicate Recording(c: Codec, file: string, base: AtomicFile.View, keyId: string, seqNo: nat,
                            v: AtomicFile.View) {
    var was, now := Contents(c, base, file), Contents(c, v, file);
    AtomicFile.Others(file, base, v) && (now == was || (was.Some? && Records(c, was.value, keyId, seqNo, now)))
  }

  lemma WritingRecords(c: Codec, file: string, base: AtomicFile.View, f: F.TrustFile, keyId: string, seqNo: nat,
                       v: AtomicFile.View)
    requires Between(c, file, base, f, v) && Contents(c, base, file).Some?
    requires f.snapshot == SnapshotOf(Contents(c, base, file).value)
    requires f.floor == Some(Raised(FloorOf(Contents(c, base, file).value), keyId, seqNo))
    ensures Recording(c, file, base, keyId, seqNo, v)
  {
  }

  class FileTrustStore {
    const codec: Codec
    const store: AtomicFile.Store
    var floor: Option<Option<F.SeqFloor>>
    var deviceKeyId: Option<string>
    var recorded: Option<string>

    constructor (codec: Codec, store: AtomicFile.Store)
      requires Lawful(codec) && store.disk.Valid()
      ensures this.codec == codec && this.store == store && Valid() && floor.None?
    {
      this.codec, this.store := codec, store;
      floor, deviceKeyId, recorded := None, None, None;
    }

    ghost function Held(): Option<Option<F.TrustFile>>
      reads store.disk
    {
      Contents(codec, store.disk.files, store.file)
    }

    /** The cached floor agrees with the file. */
    ghost predicate Valid()
      reads this, store.disk
    {
      && Lawful(codec) && store.disk.Valid() && KeyIdOrNone(deviceKeyId)
      && (floor.Some? ==> Agrees(floor.value, Held()) && (floor.value.Some? ==> Ids.IsKeyId(floor.value.value.keyId)))
    }

    /** Read and check the file; a step may fail, and nothing else makes a readable file an error. */
    method ReadFile() returns (r: Result<Option<F.TrustFile>, StoreError>)
      requires Valid()
      modifies store.disk`faults
      ensures store.disk.faults == old(store.disk.faults) + if r == Err(Failed) then 1 else 0
      ensures r.Ok? ==> Held() == Some(r.value)
      ensures r.Err? && store.disk.faults == old(store.disk.faults) ==> Held().None?
      ensures Held().None? ==> r.Err?
      ensures r.Ok? && r.value.Some? ==> Typed(codec, r.value.value) && F.FloorInRange(r.value.value.floor)
    {
      var read := store.disk.Read(AtomicFile.Name(store.file));
      if read.Err? {
        return Err(Failed);
      }
      if read.value.None? {
        return Ok(None);
      }
      var bytes := read.value.value;
      if |bytes| > MAX_TRUST_FILE_BYTES {
        return Err(Corrupt);
      }
      var f := codec.decode(bytes);
      assert ReadsTyped(codec, bytes);
      r := if f.None? then Err(Corrupt) else Ok(f);
    }

    /** Replace the file whole: an error leaves what it held, success leaves what was written. */
    method WriteFile(f: F.TrustFile) returns (ok: bool)
      requires Lawful(codec) && store.disk.Valid() && Typed(codec, f)
      modifies store.disk
      ensures store.disk.Valid()
      ensures !ok ==> Held() == old(Held()) && (Unwritable(codec, f) || store.Hindered())
      ensures ok ==> Held() == Written(codec, f) && !Unwritable(codec, f)
      ensures old(store.disk.faults) <= store.disk.faults && old(store.disk.taken) <= store.disk.taken
      ensures AtomicFile.Others(store.file, old(store.disk.files), store.disk.files)
      ensures AtomicFile.Extends(store.disk.trace, old(store.disk.trace))
      ensures forall k :: |old(store.disk.trace)| <= k < |store.disk.trace| ==>
                && codec.encode(f).Some?
                && AtomicFile.Safe(store.file, old(store.disk.files), codec.encode(f).value, store.disk.trace[k])
      ensures forall k :: |old(store.disk.trace)| <= k < |store.disk.trace| ==>
                Between(codec, store.file, old(store.disk.files), f, store.disk.trace[k])
    {
      var bytes := codec.encode(f);
      if bytes.None? || |bytes.value| > MAX_TRUST_FILE_BYTES {
        return false;
      }
      assert ReadsBack(codec, f);
      var durable;
      ok, durable := store.Save(bytes.value);
    }

    /** The floor the file holds: the cached one, or read now. */
    method KnownFloor() returns (r: Result<Option<F.SeqFloor>, StoreError>)
      requires Valid()
      modifies this`floor, store.disk`faults
      ensures Valid()
      ensures r.Ok? ==> floor == Some(r.value) && store.disk.faults == old(store.disk.faults)
      ensures r.Err? ==> floor == old(floor)
      ensures r.Err? && store.disk.faults == old(store.disk.faults) ==> Held().None?
      ensures old(store.disk.faults) <= store.disk.faults
      ensures old(floor).Some? ==> r == Ok(old(floor).value)
      ensures r.Ok? && Held().None? ==> !F.FloorInRange(r.value)
    {
      if floor.None? {
        var f := ReadFile();
        if f.Err? {
          return Err(f.error);
        }
        floor := Some(FloorOf(f.value));
      }
      r := Ok(floor.value);
    }

    /** Load: a missing file is the empty snapshot; what is read refreshes the cache. */
    method Load() returns (r: Result<F.Snapshot, StoreError>)
      requires Valid()
      modifies this`floor, this`recorded, store.disk`faults
      ensures Valid() && deviceKeyId == old(deviceKeyId)
      ensures r.Err? ==> floor == old(floor) && recorded == old(recorded)
      ensures r.Err? && store.disk.faults == old(store.disk.faults) ==> Held().None?
      ensures old(store.disk.faults) <= store.disk.faults
      ensures r.Ok? ==> Held().Some? && r.value == SnapshotOf(Held().value) && floor == Some(FloorOf(Held().value))
      ensures r.Ok? ==> recorded == if Held().value.None? then None else Held().value.value.deviceKeyId
    {
      var f := ReadFile();
      if f.Err? {
        return Err(f.error);
      }
      recorded := if f.value.None? then None else f.value.value.deviceKeyId;
      floor := Some(FloorOf(f.value));
      r := Ok(SnapshotOf(f.value));
    }

    /** Save a snapshot: the floor the file holds is carried through. */
    method Save(snapshot: F.Snapshot) returns (ok: bool)
      requires Valid() && codec.typed(snapshot)
      modifies this`floor, store.disk
      ensures Valid()
      ensures !ok ==> Held() == old(Held())
      ensures !ok ==> || store.Hindered() || (old(floor).None? && old(Held()).None?)
                      || (floor.Some? && Unwritable(codec, F.TrustFile(deviceKeyId, snapshot, floor.value)))
      ensures ok ==> floor.Some? && Held() == Written(codec, F.TrustFile(deviceKeyId, snapshot, floor.value))
      ensures ok ==> Agrees(floor.value, old(Held()))
      ensures AtomicFile.Others(store.file, old(store.disk.files), store.disk.files)
      ensures AtomicFile.Extends(store.disk.trace, old(store.disk.trace))
      ensures forall k :: |old(store.disk.trace)| <= k < |store.disk.trace| ==>
                floor.Some? && Between(codec, store.file, old(store.disk.files),
                                       F.TrustFile(deviceKeyId, snapshot, floor.value), store.disk.trace[k])
    {
      var known := KnownFloor();
      if known.Err? {
        return false;
      }
      ok := WriteFile(F.TrustFile(deviceKeyId, snapshot, known.value));
    }

    /** Note the device key; tell of another one the file records. */
    method NoteDeviceKey(keyId: string) returns (other: Option<string>)
      requires Valid() && Ids.IsKeyId(keyId)
      modifies this`deviceKeyId
      ensures Valid() && deviceKeyId == Some(keyId)
      ensures other == if recorded.Some? && recorded.value != keyId then recorded else None
    {
      deviceKeyId := Some(keyId);
      other := if recorded.Some? && recorded.value != keyId then recorded else None;
    }

    /** The floor of one key id; another key's floor is not this one's. */
    method AgreementSeqFloor(keyId: string) returns (r: Result<Option<nat>, StoreError>)
      requires Valid()
      modifies this`floor, store.disk`faults
      ensures Valid()
      ensures r.Ok? ==> floor.Some? && r.value == NumberFor(floor.value, keyId)
      ensures r.Ok? ==> store.disk.faults == old(store.disk.faults)
      ensures r.Err? ==> floor == old(floor)
      ensures r.Err? && store.disk.faults == old(store.disk.faults) ==> Held().None?
      ensures old(store.disk.faults) <= store.disk.faults
      ensures old(floor).Some? ==> floor == old(floor)
    {
      var known := KnownFloor();
      if known.Err? {
        return Err(known.error);
      }
      r := Ok(NumberFor(known.value, keyId));
    }

    /** Record a floor: the snapshot stays, and the floor becomes `Raised`. */
    method RecordAgreementSeqFloor(keyId: string, seqNo: nat) returns (ok: bool)
      requires Valid() && Ids.IsKeyId(keyId)
      modifies this`floor, store.disk
      ensures Valid()
      ensures !ok ==> Held() == old(Held())
      ensures !ok ==> || store.Hindered() || old(Held()).None?
                      || Unwritable(codec, WithFloor(old(Held()).value, deviceKeyId, keyId, seqNo))
      ensures old(store.disk.faults) <= store.disk.faults && old(store.disk.taken) <= store.disk.taken
      ensures ok && old(Held()).Some? ==>
                Held() == if FloorOf(old(Held()).value) == Some(Raised(FloorOf(old(Held()).value), keyId, seqNo))
                          then old(Held())
                          else Written(codec, WithFloor(old(Held()).value, deviceKeyId, keyId, seqNo))
      ensures ok ==> floor.Some? && floor.value.Some? && floor.value.value.keyId == keyId
      ensures AtomicFile.Others(store.file, old(store.disk.files), store.disk.files)
      ensures ok && seqNo <= MAX_SEQ ==> F.FloorInRange(floor.value) && old(Held()).Some?
      ensures ok && seqNo > MAX_SEQ ==> Held().None?
      ensures ok && old(Held()).Some? ==> floor.value == Some(Raised(FloorOf(old(Held()).value), keyId, seqNo))
      ensures ok && old(floor).Some? ==> floor.value == Some(Raised(old(floor).value, keyId, seqNo))
      ensures ok && F.FloorInRange(floor.value) ==> Held().Some? && FloorOf(Held().value) == floor.value
      ensures ok && F.FloorInRange(floor.value) && old(Held()).Some? ==>
                SnapshotOf(Held().value) == SnapshotOf(old(Held()).value)
                || SnapshotOf(Held().value) == codec.order(SnapshotOf(old(Held()).value))
      ensures AtomicFile.Extends(store.disk.trace, old(store.disk.trace))
      ensures forall k :: |old(store.disk.trace)| <= k < |store.disk.trace| ==>
                Recording(codec, store.file, old(store.disk.files), keyId, seqNo, store.disk.trace[k])
    {
      var current := KnownFloor();
      if current.Err? {
        return false;
      }
      var raised := Raised(current.value, keyId, seqNo);
      if current.value == Some(raised) {
        return true;
      }
      var file := ReadFile();
      if file.Err? {
        return false;
      }
      var id := if deviceKeyId.Some? || file.value.None? then deviceKeyId else file.value.value.deviceKeyId;
      var f := F.TrustFile(id, SnapshotOf(file.value), Some(raised));
      ok := WriteFile(f);
      forall k | |old(store.disk.trace)| <= k < |store.disk.trace|
        ensures Recording(codec, store.file, old(store.disk.files), keyId, seqNo, store.disk.trace[k])
      {
        WritingRecords(codec, store.file, old(store.disk.files), f, keyId, seqNo, store.disk.trace[k]);
      }
      if ok {
        floor := Some(Some(raised));
      }
    }
  }

  function NumberFor(floor: Option<F.SeqFloor>, keyId: string): Option<nat> {
    if floor.Some? && floor.value.keyId == keyId then Some(floor.value.number) else None
  }
}
