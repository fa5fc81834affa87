/** The one way the stores replace their file: a temporary file is created, written and synced, then
    renamed over the target. Every step may fail, and the machine may stop after any of them. */
module AtomicFile {
  import opened Common
  import Octets

  // ---- names -------------------------------------------------------------------------------------

  datatype Name = Name(text: string)

  const TMP := ".tmp"

  predicate IsHexDigit(c: char) {
    '0' <= c <= '9' || 'a' <= c <= 'f' || 'A' <= c <= 'F'
  }

  predicate AllHex(s: string) {
    forall i :: 0 <= i < |s| ==> IsHexDigit(s[i])
  }

  function StripPrefix(prefix: string, s: string): Option<string> {
    if prefix <= s then Some(s[|prefix|..]) else None
  }

  function StripSuffix(s: string, suffix: string): Option<string> {
    if |suffix| <= |s| && s[|s| - |suffix|..] == suffix then Some(s[..|s| - |suffix|]) else None
  }

  const LOWER_DIGITS := "0123456789abcdef"
  const UPPER_DIGITS := "0123456789ABCDEF"

  /** The hexadecimal digits, in either case. */
  lemma HexDigitExactly(c: char)
    ensures IsHexDigit(c) <==> c in LOWER_DIGITS || c in UPPER_DIGITS
  {
    if '0' <= c <= '9' {
      assert LOWER_DIGITS[c as int - 48] == c;
    } else if 'a' <= c <= 'f' {
      assert LOWER_DIGITS[c as int - 97 + 10] == c;
    } else if 'A' <= c <= 'F' {
      assert UPPER_DIGITS[c as int - 65 + 10] == c;
    }
  }

  /** What is stripped, put back, is the text; and only what is there is stripped. */
  lemma StripExactly(a: string, s: string, r: string)
    ensures StripPrefix(a, s) == Some(r) <==> s == a + r
    ensures StripSuffix(s, a) == Some(r) <==> s == r + a
  {
    Cut(a, r);
    Cut(r, a);
  }

  /** `<file name>.<32 hexadecimal digits>.tmp`. */
  predicate IsTempName(file: string, name: string) {
    var rest := StripPrefix(file, name);
    if rest.None? then false
    else
      var dotted := StripPrefix(".", rest.value);
      if dotted.None? then false
      else
        var hex := StripSuffix(dotted.value, TMP);
        hex.Some? && |hex.value| == 32 && AllHex(hex.value)
  }

  function TempName(file: string, hex: string): string {
    file + "." + hex + TMP
  }

  /** The test holds of exactly the names of that form. */
  lemma TempNamesExactly(file: string, name: string)
    ensures IsTempName(file, name) <==> exists hex :: |hex| == 32 && AllHex(hex) && name == TempName(file, hex)
  {
    if IsTempName(file, name) {
      var dotted := StripPrefix(".", StripPrefix(file, name).value).value;
      var hex := StripSuffix(dotted, TMP).value;
      assert dotted == hex + TMP;
      assert name == file + ("." + dotted);
      assert name == TempName(file, hex);
    }
    if hex :| |hex| == 32 && AllHex(hex) && name == TempName(file, hex) {
      var dotted := hex + TMP;
      assert name == file + ("." + dotted);
      Cut(file, "." + dotted);
      assert name[..|file|] == file;
      assert ("." + dotted)[1..] == dotted;
      Cut(hex, TMP);
    }
  }

  /** A temporary name belongs to one file. */
  lemma TempNamesApart(file: string, other: string, name: string)
    requires IsTempName(file, name) && IsTempName(other, name)
    ensures file == other
  {
    assert file == name[..|file|] && other == name[..|other|];
    assert |file| == |name| - 37 && |other| == |name| - 37;
  }

  const TRUST_FILE_NAME := "trust.json"

  /** The file of a device key: its id is 64 hexadecimal digits. */
  function AgreementFileName(keyId: string): string {
    "agreement-" + keyId + ".sealed"
  }

  ghost predicate IsStoreName(name: string) {
    name == TRUST_FILE_NAME || exists keyId :: name == AgreementFileName(keyId)
  }

  lemma EndsInTmp(file: string, name: string)
    ensures IsTempName(file, name) ==> |name| > 0 && name[|name| - 1] == 'p'
  {
  }

  /** No store's own file has a name that any store takes for a temporary one. */
  lemma StoreNamesAreKept(file: string, name: string)
    requires IsStoreName(name)
    ensures !IsTempName(file, name)
  {
    EndsInTmp(file, name);
    assert name[|name| - 1] == 'n' || name[|name| - 1] == 'd';
  }

  /** The names the trust store makes are its temporary names, whatever the random octets. */
  lemma RandomNamesMatch(file: string, octets: seq<Byte>)
    requires |octets| == 16
    ensures IsTempName(file, TempName(file, Octets.Hex(octets)))
  {
    assert AllHex(Octets.Hex(octets));
    TempNamesExactly(file, TempName(file, Octets.Hex(octets)));
  }

  // ---- the disk ----------------------------------------------------------------------------------

  /** What a file holds, and whether it was synced since it last changed. */
  datatype Content = Content(bytes: seq<Byte>, synced: bool)

  type View = map<Name, Content>

  function Entry(v: View, n: Name): Option<Content> {
    if n in v then Some(v[n]) else None
  }

  ghost predicate AgreeExcept(v: View, w: View, n: Name) {
    forall m :: m != n ==> Entry(v, m) == Entry(w, m)
  }

  datatype CreateOutcome = Created | AlreadyExists | CreateFailed

  /** A directory. `trace` is every state it has been in, and `settled` the one the last directory sync
      made durable. Whatever the machine does against a save is counted: `faults` the steps that failed,
      `taken` the names that were in use, `stuck` the listings and removals that failed. */
  class Disk {
    var files: View
    ghost var trace: seq<View>
    ghost var settled: nat
    ghost var faults: nat
    ghost var taken: nat
    ghost var stuck: nat

    ghost predicate Valid()
      reads this
    {
      settled < |trace| && files == trace[|trace| - 1]
    }

    constructor (start: View)
      ensures Valid() && files == start && trace == [start] && settled == 0
    {
      files, trace, settled := start, [start], 0;
      faults, taken, stuck := 0, 0, 0;
    }

    /** A step left the directory in a new state. */
    ghost method Note()
      requires trace != [] && settled < |trace|
      modifies this`trace
      ensures Valid() && trace == old(trace) + [files]
    {
      trace := trace + [files];
    }

    /** The checks made before anything is written: the directory can be made private and the present file
        is private. */
    method Admit() returns (ok: bool)
      modifies this`faults
      ensures faults == old(faults) + if ok then 0 else 1
    {
      ok := *;
      if !ok {
        faults := faults + 1;
      }
    }

    /** The bytes of a file, `None` when it is not there; the checks before the read may refuse. */
    method Read(n: Name) returns (r: Result<Option<seq<Byte>>, ()>)
      modifies this`faults
      ensures r.Ok? ==> faults == old(faults) && r.value == if n in files then Some(files[n].bytes) else None
      ensures r.Err? ==> faults == old(faults) + 1
    {
      if * {
        faults := faults + 1;
        return Err(());
      }
      r := Ok(if n in files then Some(files[n].bytes) else None);
    }

    /** The names in the directory; a listing that fails gives none. */
    method List() returns (listed: seq<Name>)
      modifies this`stuck
      ensures stuck == old(stuck) ==> forall n :: n in files ==> n in listed
      ensures old(stuck) <= stuck
    {
      if * {
        stuck := stuck + 1;
        return [];
      }
      listed :| forall n :: n in files ==> n in listed by { var some := SomeListing(files.Keys); }
    }

    /** Exclusive creation: a name that is taken is not touched. */
    method Create(n: Name) returns (r: CreateOutcome)
      requires Valid()
      modifies this`files, this`trace, this`faults, this`taken
      ensures Valid()
      ensures faults == old(faults) + if r == CreateFailed then 1 else 0
      ensures taken == old(taken) + if r == AlreadyExists then 1 else 0
      ensures r == AlreadyExists <==> n in old(files)
      ensures r == Created ==> files == old(files)[n := Content([], false)] && trace == old(trace) + [files]
      ensures r != Created ==> files == old(files) && trace == old(trace)
    {
      if n in files {
        taken := taken + 1;
        return AlreadyExists;
      }
      if * {
        faults := faults + 1;
        return CreateFailed;
      }
      files := files[n := Content([], false)];
      Note();
      r := Created;
    }

    /** A write grows the file piece by piece and may stop anywhere. */
    method Write(n: Name, bytes: seq<Byte>) returns (ok: bool)
      requires Valid() && n in files && files[n].bytes == []
      modifies this`files, this`trace, this`faults
      ensures Valid() && n in files && AgreeExcept(files, old(files), n)
      ensures ok ==> files[n].bytes == bytes
      ensures faults == old(faults) + if ok then 0 else 1
      ensures |old(trace)| <= |trace| && trace[..|old(trace)|] == old(trace)
      ensures forall k :: |old(trace)| <= k < |trace| ==> AgreeExcept(trace[k], old(files), n)
    {
      var written := 0;
      while written < |bytes|
        invariant 0 <= written <= |bytes|
        invariant Valid() && n in files && AgreeExcept(files, old(files), n)
        invariant files[n].bytes == bytes[..written] && faults == old(faults)
        invariant |old(trace)| <= |trace| && trace[..|old(trace)|] == old(trace)
        invariant forall k :: |old(trace)| <= k < |trace| ==> AgreeExcept(trace[k], old(files), n)
      {
        if * {
          faults := faults + 1;
          return false;
        }
        var more: nat :| 0 < more <= |bytes| - written;
        written := written + more;
        files := files[n := Content(bytes[..written], false)];
        Note();
      }
      ok := true;
    }

    method Sync(n: Name) returns (ok: bool)
      requires Valid() && n in files
      modifies this`files, this`trace, this`faults
      ensures Valid() && faults == old(faults) + if ok then 0 else 1
      ensures ok ==> files == old(files)[n := old(files)[n].(synced := true)] && trace == old(trace) + [files]
      ensures !ok ==> files == old(files) && trace == old(trace)
    {
      if * {
        faults := faults + 1;
        return false;
      }
      files := files[n := files[n].(synced := true)];
      Note();
      ok := true;
    }

    /** Atomic replacement of `to` by `from`. */
    method Rename(from: Name, to: Name) returns (ok: bool)
      requires Valid() && from in files && from != to
      modifies this`files, this`trace, this`faults
      ensures Valid() && faults == old(faults) + if ok then 0 else 1
      ensures ok ==> files == old(files)[to := old(files)[from]] - {from} && trace == old(trace) + [files]
      ensures !ok ==> files == old(files) && trace == old(trace)
    {
      if * {
        faults := faults + 1;
        return false;
      }
      files := files[to := files[from]] - {from};
      Note();
      ok := true;
    }

    /** Removal, which may fail. */
    method Remove(n: Name)
      requires Valid()
      modifies this`files, this`trace, this`stuck
      ensures Valid() && AgreeExcept(files, old(files), n)
      ensures old(stuck) <= stuck && (n in files ==> n in old(files) && stuck > old(stuck))
      ensures (trace == old(trace) && files == old(files)) || trace == old(trace) + [files]
    {
      if * {
        stuck := stuck + 1;
      } else {
        files := files - {n};
        Note();
      }
    }

    method SyncDirectory() returns (ok: bool)
      requires Valid()
      modifies this`settled, this`faults
      ensures Valid() && faults == old(faults) + if ok then 0 else 1
      ensures settled == if ok then |trace| - 1 else old(settled)
    {
      if * {
        faults := faults + 1;
        return false;
      }
      settled := |trace| - 1;
      ok := true;
    }
  }

  lemma SomeListing(names: set<Name>) returns (listed: seq<Name>)
    ensures forall n :: n in names ==> n in listed
  {
    if names == {} {
      listed := [];
    } else {
      var n :| n in names;
      var rest := SomeListing(names - {n});
      listed := [n] + rest;
    }
  }

  // ---- replacing a file --------------------------------------------------------------------------

  /** A state a save may pass through: the target is as it was or whole and new, and nothing but the
      target and the store's own temporary files differs. */
  ghost predicate Safe(file: string, base: View, bytes: seq<Byte>, v: View) {
    && (Entry(v, Name(file)) == Entry(base, Name(file)) || Entry(v, Name(file)) == Some(Content(bytes, true)))
    && Others(file, base, v)
  }

  ghost predicate Others(file: string, base: View, v: View) {
    forall n: Name :: n.text != file && !IsTempName(file, n.text) ==> Entry(v, n) == Entry(base, n)
  }

  /** Before the rename the target is as it was. */
  ghost predicate Before(file: string, base: View, v: View) {
    Entry(v, Name(file)) == Entry(base, Name(file)) && Others(file, base, v)
  }

  ghost predicate Extends(trace: seq<View>, past: seq<View>) {
    |past| <= |trace| && trace[..|past|] == past
  }

  /** None of the store's temporary files is in the directory. */
  ghost predicate NoneLeft(file: string, v: View) {
    forall n: Name :: IsTempName(file, n.text) ==> n !in v
  }

  ghost predicate OnlyLeft(file: string, v: View, temp: Name) {
    forall n: Name :: IsTempName(file, n.text) && n != temp ==> n !in v
  }

  ghost predicate Remaining(file: string, v: View, listed: seq<Name>) {
    forall n: Name :: IsTempName(file, n.text) && n in v ==> n in listed
  }

  lemma OneFewer(file: string, v: View, w: View, listed: seq<Name>, i: nat)
    requires i < |listed| && Remaining(file, v, listed[i..]) && AgreeExcept(w, v, listed[i])
    requires IsTempName(file, listed[i].text) ==> listed[i] !in w
    ensures Remaining(file, w, listed[i + 1..])
  {
    forall n: Name | IsTempName(file, n.text) && n in w ensures n in listed[i + 1..] {
      assert Entry(w, n) == Entry(v, n);
      assert listed[i..] == [listed[i]] + listed[i + 1..];
    }
  }

  lemma OneMore(file: string, v: View, w: View, temp: Name)
    requires OnlyLeft(file, v, temp) && AgreeExcept(w, v, temp)
    ensures OnlyLeft(file, w, temp)
  {
    forall n: Name | IsTempName(file, n.text) && n != temp ensures n !in w {
      assert Entry(w, n) == Entry(v, n);
    }
  }

  lemma LastRemoved(file: string, v: View, w: View, temp: Name)
    requires OnlyLeft(file, v, temp) && AgreeExcept(w, v, temp) && temp !in w
    ensures NoneLeft(file, w)
  {
    forall n: Name | IsTempName(file, n.text) ensures n !in w {
      assert n != temp ==> Entry(w, n) == Entry(v, n);
    }
  }

  lemma NotTheTarget(file: string, name: string)
    requires IsTempName(file, name)
    ensures name != file
  {
  }

  /** A change to one temporary file changes nothing else. */
  lemma BeforeStays(file: string, base: View, v: View, w: View, n: Name)
    requires Before(file, base, v) && IsTempName(file, n.text) && AgreeExcept(w, v, n)
    ensures Before(file, base, w)
  {
    NotTheTarget(file, n.text);
  }

  /** A store: its directory, its file's name and how often it tries a new temporary name. */
  class Store {
    const disk: Disk
    const file: string
    const attempts: nat

    constructor (disk: Disk, file: string, attempts: nat)
      ensures this.disk == disk && this.file == file && this.attempts == attempts
    {
      this.disk, this.file, this.attempts := disk, file, attempts;
    }

    /** A save that found the directory as `base` after the states of `past` has not replaced the target. */
    ghost predicate Saving(base: View, past: seq<View>)
      reads disk
    {
      && disk.Valid() && Extends(disk.trace, past) && Before(file, base, disk.files)
      && forall k :: |past| <= k < |disk.trace| ==> Before(file, base, disk.trace[k])
    }

    /** What hindered a call: a step failed, or every temporary name it tried was in use. */
    twostate predicate Hindered()
      reads disk
    {
      disk.faults > old(disk.faults) || disk.taken >= old(disk.taken) + attempts
    }

    /** Remove what an earlier save left behind: of the names listed, only this store's temporary ones. */
    method Sweep(ghost base: View, ghost past: seq<View>)
      requires Saving(base, past)
      modifies disk`files, disk`trace, disk`stuck
      ensures Saving(base, past)
      ensures old(disk.stuck) <= disk.stuck && (disk.stuck == old(disk.stuck) ==> NoneLeft(file, disk.files))
    {
      var listed := disk.List();
      for i := 0 to |listed|
        invariant Saving(base, past) && old(disk.stuck) <= disk.stuck
        invariant disk.stuck == old(disk.stuck) ==> Remaining(file, disk.files, listed[i..])
      {
        ghost var before := disk.files;
        if IsTempName(file, listed[i].text) {
          disk.Remove(listed[i]);
          BeforeStays(file, base, before, disk.files, listed[i]);
        }
        if disk.stuck == old(disk.stuck) {
          OneFewer(file, before, disk.files, listed, i);
        }
      }
    }

    method RandomDigits() returns (hex: string)
      ensures |hex| == 32 && AllHex(hex)
    {
      hex :| |hex| == 32 && AllHex(hex) by { SomeDigits(); }
    }

    /** A temporary file of a name that was not taken; a taken one is skipped and never touched. */
    method CreateTemp(ghost base: View, ghost past: seq<View>) returns (temp: Option<Name>)
      requires Saving(base, past)
      modifies disk`files, disk`trace, disk`faults, disk`taken
      ensures Saving(base, past) && temp.None? == Hindered()
      ensures temp.None? ==> disk.files == old(disk.files)
      ensures temp.Some? ==> IsTempName(file, temp.value.text) && temp.value !in old(disk.files)
      ensures temp.Some? ==> AgreeExcept(disk.files, old(disk.files), temp.value) && disk.faults == old(disk.faults)
      ensures old(disk.faults) <= disk.faults && old(disk.taken) <= disk.taken
      ensures temp.Some? ==> temp.value in disk.files && disk.files[temp.value].bytes == []
    {
      for i := 0 to attempts
        invariant disk.Valid() && disk.files == old(disk.files) && disk.trace == old(disk.trace)
        invariant disk.faults == old(disk.faults) && disk.taken == old(disk.taken) + i
      {
        var hex := RandomDigits();
        var name := Name(TempName(file, hex));
        TempNamesExactly(file, name.text);
        var r := disk.Create(name);
        if r == Created {
          BeforeStays(file, base, old(disk.files), disk.files, name);
          return Some(name);
        }
        if r == CreateFailed {
          return None;
        }
      }
      temp := None;
    }

    /** Write and sync the temporary file. */
    method Fill(temp: Name, bytes: seq<Byte>, ghost base: View, ghost past: seq<View>) returns (ok: bool)
      requires Saving(base, past)
      requires IsTempName(file, temp.text) && temp in disk.files && disk.files[temp].bytes == []
      modifies disk`files, disk`trace, disk`faults
      ensures Saving(base, past) && temp in disk.files && AgreeExcept(disk.files, old(disk.files), temp)
      ensures disk.faults == old(disk.faults) + if ok then 0 else 1
      ensures ok ==> disk.files[temp] == Content(bytes, true)
    {
      ghost var created, was := disk.files, |disk.trace|;
      ok := disk.Write(temp, bytes);
      forall k | |past| <= k < |disk.trace| ensures Before(file, base, disk.trace[k]) {
        if k < was {
          assert disk.trace[k] == old(disk.trace)[k];
        } else {
          BeforeStays(file, base, created, disk.trace[k], temp);
        }
      }
      BeforeStays(file, base, created, disk.files, temp);
      if ok {
        ghost var written := disk.files;
        ok := disk.Sync(temp);
        BeforeStays(file, base, written, disk.files, temp);
      }
    }

    method DropTemp(temp: Name, ghost base: View, ghost past: seq<View>)
      requires Saving(base, past)
      requires IsTempName(file, temp.text)
      modifies disk`files, disk`trace, disk`stuck
      ensures Saving(base, past) && old(disk.stuck) <= disk.stuck
      ensures disk.stuck == old(disk.stuck) && old(OnlyLeft(file, disk.files, temp)) ==> NoneLeft(file, disk.files)
    {
      ghost var before := disk.files;
      disk.Remove(temp);
      BeforeStays(file, base, before, disk.files, temp);
      if OnlyLeft(file, before, temp) && temp !in disk.files {
        LastRemoved(file, before, disk.files, temp);
      }
    }

    /** The new bytes, written and synced in a temporary file of their own; what fails is removed again. */
    method Stage(bytes: seq<Byte>, ghost base: View, ghost past: seq<View>) returns (temp: Option<Name>)
      requires Saving(base, past)
      modifies disk`files, disk`trace, disk`faults, disk`taken, disk`stuck
      ensures Saving(base, past)
      ensures old(disk.faults) <= disk.faults && old(disk.taken) <= disk.taken && old(disk.stuck) <= disk.stuck
      ensures temp.None? == Hindered()
      ensures temp.Some? ==> IsTempName(file, temp.value.text) && disk.faults == old(disk.faults)
      ensures temp.Some? ==> Entry(disk.files, temp.value) == Some(Content(bytes, true))
      ensures disk.stuck == old(disk.stuck) ==>
                if temp.Some? then OnlyLeft(file, disk.files, temp.value) else NoneLeft(file, disk.files)
    {
      Sweep(base, past);
      ghost var swept := disk.files;
      temp := CreateTemp(base, past);
      if temp.None? {
        return;
      }
      ghost var created := disk.files;
      var ok := Fill(temp.value, bytes, base, past);
      if disk.stuck == old(disk.stuck) {
        OneMore(file, swept, created, temp.value);
        OneMore(file, created, disk.files, temp.value);
      }
      if !ok {
        DropTemp(temp.value, base, past);
        temp := None;
      }
    }

    /** The commit point. */
    method Replace(temp: Name, bytes: seq<Byte>, ghost base: View, ghost past: seq<View>) returns (ok: bool)
      requires Saving(base, past)
      requires IsTempName(file, temp.text) && Entry(disk.files, temp) == Some(Content(bytes, true))
      modifies disk`files, disk`trace, disk`faults, disk`stuck
      ensures disk.Valid() && Extends(disk.trace, past)
      ensures forall k :: |past| <= k < |disk.trace| ==> Safe(file, base, bytes, disk.trace[k])
      ensures ok ==> Entry(disk.files, Name(file)) == Some(Content(bytes, true))
      ensures !ok ==> Before(file, base, disk.files)
      ensures Others(file, base, disk.files)
      ensures disk.faults == old(disk.faults) + if ok then 0 else 1
      ensures old(disk.stuck) <= disk.stuck
      ensures disk.stuck == old(disk.stuck) && old(OnlyLeft(file, disk.files, temp)) ==> NoneLeft(file, disk.files)
    {
      NotTheTarget(file, temp.text);
      ok := disk.Rename(temp, Name(file));
      if !ok {
        DropTemp(temp, base, past);
      }
    }

    /** Replace the file. An error leaves the target's old bytes, success means it holds the new ones, and a
        stop after any step leaves one or the other whole. `durable` says whether the directory was synced.
        It fails only when it was hindered, and leaves no temporary file unless a removal failed. */
    method Save(bytes: seq<Byte>) returns (ok: bool, durable: bool)
      requires disk.Valid()
      modifies disk
      ensures disk.Valid() && Extends(disk.trace, old(disk.trace))
      ensures !ok ==> Entry(disk.files, Name(file)) == Entry(old(disk.files), Name(file))
      ensures ok ==> Entry(disk.files, Name(file)) == Some(Content(bytes, true))
      ensures forall k :: |old(disk.trace)| <= k < |disk.trace| ==> Safe(file, old(disk.files), bytes, disk.trace[k])
      ensures Others(file, old(disk.files), disk.files)
      ensures disk.settled == if ok && durable then |disk.trace| - 1 else old(disk.settled)
      ensures !ok ==> Hindered()
      ensures ok ==> durable == (disk.faults == old(disk.faults)) && disk.taken < old(disk.taken) + attempts
      ensures disk.stuck == old(disk.stuck) ==> NoneLeft(file, disk.files) || (!ok && disk.files == old(disk.files))
      ensures old(disk.faults) <= disk.faults && old(disk.taken) <= disk.taken
    {
      durable := false;
      var admitted := disk.Admit();
      if !admitted {
        return false, false;
      }
      ghost var base, past := disk.files, disk.trace;
      var temp := Stage(bytes, base, past);
      if temp.None? {
        return false, false;
      }
      ok := Replace(temp.value, bytes, base, past);
      if ok {
        durable := disk.SyncDirectory();
      }
    }
  }

  lemma SomeDigits()
    ensures exists hex :: |hex| == 32 && AllHex(hex)
  {
    var hex := seq(32, i => '0');
    assert |hex| == 32 && AllHex(hex);
  }

  // ---- power loss --------------------------------------------------------------------------------

  /** What a name may hold after a power loss: the directory shows an entry it had since it was last
      synced, and a file that was not synced may hold anything. */
  ghost predicate Survives(recent: seq<View>, n: Name, found: Option<seq<Byte>>) {
    exists k ::
      && 0 <= k < |recent|
      && match Entry(recent[k], n) {
           case None => found.None?
           case Some(c) => c.synced ==> found == Some(c.bytes)
         }
  }

  /** A save of one store passes through no state that changes another store's file or temporary files. */
  lemma OtherStoresUntouched(file: string, other: string, base: View, bytes: seq<Byte>, v: View, n: Name)
    requires Safe(file, base, bytes, v) && IsStoreName(file) && IsStoreName(other) && file != other
    requires n.text == other || IsTempName(other, n.text)
    ensures Entry(v, n) == Entry(base, n)
  {
    if IsTempName(other, n.text) {
      if IsTempName(file, n.text) {
        TempNamesApart(file, other, n.text);
      }
      EndsInTmp(other, n.text);
      EndsInTmp(file, file);
      StoreNamesAreKept(other, file);
    } else {
      StoreNamesAreKept(file, other);
    }
  }

  /** A power loss after any step of a save leaves what could be found before it, or the new bytes whole. */
  lemma PowerLoss(file: string, bytes: seq<Byte>, before: seq<View>, after: seq<View>, settled: nat,
                  found: Option<seq<Byte>>)
    requires settled < |before| && Extends(after, before)
    requires forall k :: |before| <= k < |after| ==> Safe(file, before[|before| - 1], bytes, after[k])
    requires Survives(after[settled..], Name(file), found)
    ensures Survives(before[settled..], Name(file), found) || found == Some(bytes)
  {
    var k :| 0 <= k < |after[settled..]| && match Entry(after[settled..][k], Name(file)) {
      case None => found.None?
      case Some(c) => c.synced ==> found == Some(c.bytes)
    };
    var at := settled + k;
    if at < |before| {
      assert before[settled..][k] == after[at];
    } else if Entry(after[at], Name(file)) == Entry(before[|before| - 1], Name(file)) {
      assert before[settled..][|before| - 1 - settled] == before[|before| - 1];
    }
  }

  /** Once the directory is synced after a save, a power loss cannot take the new bytes back. */
  lemma DurableOnceSynced(file: string, bytes: seq<Byte>, trace: seq<View>, found: Option<seq<Byte>>)
    requires trace != [] && Entry(trace[|trace| - 1], Name(file)) == Some(Content(bytes, true))
    requires Survives(trace[|trace| - 1..], Name(file), found)
    ensures found == Some(bytes)
  {
  }
}
