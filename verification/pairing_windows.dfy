/** The core's pairing windows for issued values: which attachment a value was issued on, for how
    long it can pair, and that it pairs once. Instants and durations are in nanoseconds. */
module PairingWindows {
  import opened Common
  import Octets

  /** The key of an attachment; the code is generic over it and only compares it. */
  type Attachment = nat

  const MIN_WINDOW: int := 1_000_000
  const MAX_WINDOW: int := 60_000_000_000
  const MAX_WINDOWS := 3
  const MAX_RECORDS := 16

  /** A pairing value, as the harness shows it. */
  datatype Value = Value(text: string)

  datatype RevealOutcome =
    | Unknown
    | Ended(on: Attachment)
    | Replayed(on: Attachment)
    | Conflict(on: Attachment)
    | Refused(on: Attachment)
    | Fresh(on: Attachment)

  datatype RecordState = Open | Paired(nativeId: string)

  datatype Record = Record(value: Value, openedAt: int, state: RecordState)

  /** Oldest record first. */
  datatype Windows = Windows(sincePaired: nat, records: seq<Record>)

  datatype Store = Store(window: int, byAttachment: map<Attachment, Windows>, byValue: map<Value, Attachment>)

  function Last(records: seq<Record>): Record
    requires records != []
  {
    records[|records| - 1]
  }

  predicate Live(window: int, r: Record, now: int) {
    r.state.Open? && now < r.openedAt + window
  }

  /** The window length a store is made with: cut to 60 seconds, raised to a millisecond. */
  function Clamped(window: int): (w: int)
    ensures window <= 1_000_000 ==> w == 1_000_000
    ensures 1_000_000 <= window <= 60_000_000_000 ==> w == window
    ensures window >= 60_000_000_000 ==> w == 60_000_000_000
  {
    Min(Max(window, MIN_WINDOW), MAX_WINDOW)
  }

  function Empty(window: int): Store {
    Store(Clamped(window), map[], map[])
  }

  /** The records past the bound go, oldest first, and their values with them. */
  function Evict(records: seq<Record>, byValue: map<Value, Attachment>): (seq<Record>, map<Value, Attachment>) {
    if |records| > MAX_RECORDS then Evict(records[1..], byValue - {records[0].value}) else (records, byValue)
  }

  predicate HasLiveWindow(s: Store, a: Attachment, now: int) {
    && a in s.byAttachment
    && s.byAttachment[a].records != []
    && Live(s.window, Last(s.byAttachment[a].records), now)
  }

  function WindowsOf(s: Store, a: Attachment): Windows {
    if a in s.byAttachment then s.byAttachment[a] else Windows(0, [])
  }

  /** `random` is what the operating system's random source would give now, if anything. */
  function Issue(s: Store, a: Attachment, now: int, random: Option<Value>): (Store, Option<Value>) {
    if HasLiveWindow(s, a, now) then
      (s, Some(Last(s.byAttachment[a].records).value))
    else if WindowsOf(s, a).sincePaired >= MAX_WINDOWS || random.None? || random.value in s.byValue then
      (s, None)
    else
      var w := WindowsOf(s, a);
      var (records, byValue) := Evict(w.records + [Record(random.value, now, Open)], s.byValue);
      (Store(s.window,
             s.byAttachment[a := Windows(w.sincePaired + 1, records)],
             byValue[random.value := a]),
       Some(random.value))
  }

  /** The first record that holds `value`; `|records|` when none does. */
  function IndexOf(records: seq<Record>, value: Value): (i: nat)
    ensures i <= |records|
    ensures i < |records| ==> records[i].value == value
    ensures forall j :: 0 <= j < i ==> records[j].value != value
  {
    if records == [] || records[0].value == value then 0 else 1 + IndexOf(records[1..], value)
  }

  /** The `i`-th record of `a` is used up by a reveal of `nativeId`. */
  function Use(s: Store, a: Attachment, i: nat, nativeId: string): Store
    requires a in s.byAttachment && i < |s.byAttachment[a].records|
  {
    var w := s.byAttachment[a];
    s.(byAttachment := s.byAttachment[a := w.(records := w.records[i := w.records[i].(state := Paired(nativeId))])])
  }

  /** What the record of a revealed value answers. */
  function Answer(window: int, a: Attachment, r: Record, nativeId: string, now: int, acceptable: Attachment -> bool)
    : RevealOutcome
  {
    if r.state.Paired? then if r.state.nativeId == nativeId then Replayed(a) else Conflict(a)
    else if now >= r.openedAt + window then Ended(a)
    else if !acceptable(a) then Refused(a)
    else Fresh(a)
  }

  function Reveal(s: Store, value: Value, nativeId: string, now: int, acceptable: Attachment -> bool)
    : (Store, RevealOutcome)
  {
    if value !in s.byValue || s.byValue[value] !in s.byAttachment then (s, Unknown)
    else
      var a := s.byValue[value];
      var w := s.byAttachment[a];
      var i := IndexOf(w.records, value);
      if i == |w.records| then (s, Unknown)
      else
        var outcome := Answer(s.window, a, w.records[i], nativeId, now, acceptable);
        (if outcome.Fresh? then Use(s, a, i, nativeId) else s, outcome)
  }

  function PairedWith(s: Store, a: Attachment): Store {
    if a in s.byAttachment then
      s.(byAttachment := s.byAttachment[a := s.byAttachment[a].(sincePaired := 0)])
    else s
  }

  function Values(records: seq<Record>): set<Value> {
    set i | 0 <= i < |records| :: records[i].value
  }

  function Forget(s: Store, a: Attachment): Store {
    if a in s.byAttachment then
      s.(byAttachment := s.byAttachment - {a}, byValue := s.byValue - Values(s.byAttachment[a].records))
    else s
  }

  /** The object the core keeps: two maps updated in place. */
  class PairingTable {
    var window: int
    var byAttachment: map<Attachment, Windows>
    var byValue: map<Value, Attachment>

    function View(): Store
      reads this
    {
      Store(window, byAttachment, byValue)
    }

    constructor (length: int)
      ensures View() == Empty(length)
    {
      window := Clamped(length);
      byAttachment := map[];
      byValue := map[];
    }

    method IssueValue(a: Attachment, now: int, random: Option<Value>) returns (value: Option<Value>)
      modifies this
      ensures (View(), value) == Issue(old(View()), a, now, random)
    {
      if a in byAttachment {
        var w := byAttachment[a];
        if w.records != [] && Live(window, Last(w.records), now) {
          return Some(Last(w.records).value);
        }
        if w.sincePaired >= MAX_WINDOWS {
          return None;
        }
      }
      if random.None? || random.value in byValue {
        return None;
      }
      var w := if a in byAttachment then byAttachment[a] else Windows(0, []);
      var records := w.records + [Record(random.value, now, Open)];
      while |records| > MAX_RECORDS
        invariant Evict(records, byValue) == Evict(w.records + [Record(random.value, now, Open)], old(byValue))
        invariant window == old(window) && byAttachment == old(byAttachment)
      {
        byValue := byValue - {records[0].value};
        records := records[1..];
      }
      byAttachment := byAttachment[a := Windows(w.sincePaired + 1, records)];
      byValue := byValue[random.value := a];
      return random;
    }

    method RevealValue(value: Value, nativeId: string, now: int, acceptable: Attachment -> bool)
      returns (outcome: RevealOutcome)
      modifies this
      ensures (View(), outcome) == Reveal(old(View()), value, nativeId, now, acceptable)
    {
      if value !in byValue || byValue[value] !in byAttachment {
        return Unknown;
      }
      var a := byValue[value];
      var w := byAttachment[a];
      var i := 0;
      while i < |w.records| && w.records[i].value != value
        invariant 0 <= i <= |w.records|
        invariant forall j :: 0 <= j < i ==> w.records[j].value != value
      {
        i := i + 1;
      }
      if i == |w.records| {
        return Unknown;
      }
      assert i == IndexOf(w.records, value);
      var r := w.records[i];
      match r.state {
        case Paired(n) =>
          return if n == nativeId then Replayed(a) else Conflict(a);
        case Open =>
      }
      if now >= r.openedAt + window {
        return Ended(a);
      }
      if !acceptable(a) {
        return Refused(a);
      }
      byAttachment := byAttachment[a := w.(records := w.records[i := r.(state := Paired(nativeId))])];
      return Fresh(a);
    }

    method PairedOn(a: Attachment)
      modifies this
      ensures View() == PairedWith(old(View()), a)
    {
      if a in byAttachment {
        byAttachment := byAttachment[a := byAttachment[a].(sincePaired := 0)];
      }
    }

    method ForgetAttachment(a: Attachment)
      modifies this
      ensures View() == Forget(old(View()), a)
    {
      if a in byAttachment {
        var records := byAttachment[a].records;
        byAttachment := byAttachment - {a};
        for i := 0 to |records|
          invariant byValue == old(byValue) - Values(records[..i])
          invariant window == old(window) && byAttachment == old(byAttachment) - {a}
        {
          assert Values(records[..i + 1]) == Values(records[..i]) + {records[i].value};
          byValue := byValue - {records[i].value};
        }
        assert records[..|records|] == records;
      }
    }
  }

  // ---- a fresh value ---------------------------------------------------------------------

  const PREFIX := "oac-pair-"

  function FreshValue(octets: seq<Byte>): Value {
    Value(PREFIX + Octets.Hex(octets))
  }

  /** Two draws of the random source give two values unless they are the same 128 bits. */
  lemma FreshValueInjective(a: seq<Byte>, b: seq<Byte>)
    requires |a| == |b| == 16 && FreshValue(a) == FreshValue(b)
    ensures a == b
  {
    assert FreshValue(a).text[|PREFIX|..] == Octets.Hex(a) && FreshValue(b).text[|PREFIX|..] == Octets.Hex(b);
    Octets.HexInjective(a, b);
  }
}
