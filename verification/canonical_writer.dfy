/** The writer of canonical text: the same walk with an explicit stack, which sorts the members of an object
    when it enters it, and a writer that respells numbers and stops at the first beyond the range. */
module CanonicalWriter {
  import opened Common
  import opened Json
  import opened JsonWriter
  import opened Sorting
  import C = Canonical

  // ---- what is left of a sorted walk ---------------------------------------------------------------

  /** What is left of a container, in its canonical form; the members of an object are in order already. */
  function NormalFrame(number: C.Numbers, f: Frame): Frame {
    match f
    case InArray(items) => InArray(C.NormalItems(number, items))
    case InObject(members) => InObject(C.NormalMembers(number, members))
  }

  function NormalStack(number: C.Numbers, stack: seq<Frame>): seq<Frame> {
    if stack == [] then [] else NormalStack(number, stack[..|stack| - 1]) + [NormalFrame(number, stack[|stack| - 1])]
  }

  function NormalPending(number: C.Numbers, pending: Option<Json>): Option<Json> {
    if pending.None? then None else Some(C.Normal(number, pending.value))
  }

  /** The events of the canonical tree that are still to come. */
  function LeftOf(number: C.Numbers, pending: Option<Json>, stack: seq<Frame>): seq<Event> {
    EventsLeft(NormalPending(number, pending), NormalStack(number, stack))
  }

  /** An event as the canonical text shows it. */
  function Shown(number: C.Numbers, e: Event): Event {
    if e.Scalar? then Scalar(C.Normal(number, e.v)) else e
  }

  predicate Shows(number: C.Numbers, e: Event) {
    e.Scalar? ==> C.InRange(number, e.v)
  }

  predicate FrameInRange(number: C.Numbers, f: Frame) {
    match f
    case InArray(items) => forall i :: 0 <= i < |items| ==> C.InRange(number, items[i])
    case InObject(members) => forall i :: 0 <= i < |members| ==> C.InRange(number, members[i].value)
  }

  predicate StackInRange(number: C.Numbers, stack: seq<Frame>) {
    forall i :: 0 <= i < |stack| ==> FrameInRange(number, stack[i])
  }

  predicate LeftInRange(number: C.Numbers, pending: Option<Json>, stack: seq<Frame>) {
    (pending.Some? ==> C.InRange(number, pending.value)) && StackInRange(number, stack)
  }

  lemma NormalStackMore(number: C.Numbers, stack: seq<Frame>, f: Frame)
    ensures NormalStack(number, stack + [f]) == NormalStack(number, stack) + [NormalFrame(number, f)]
  {
    Cut(stack, [f]);
  }

  lemma StackInRangeMore(number: C.Numbers, stack: seq<Frame>, f: Frame)
    ensures StackInRange(number, stack + [f]) <==> StackInRange(number, stack) && FrameInRange(number, f)
  {
    if StackInRange(number, stack + [f]) {
      assert FrameInRange(number, (stack + [f])[|stack|]);
      forall i | 0 <= i < |stack| ensures FrameInRange(number, stack[i]) {
        assert FrameInRange(number, (stack + [f])[i]);
      }
    }
  }

  // ---- sorting on the way in -----------------------------------------------------------------------

  lemma {:induction false} NormalOfInserted(number: C.Numbers, m: Member, members: seq<Member>)
    ensures C.NormalMembers(number, Insert(C.NameLe, m, members))
         == Insert(C.NameLe, C.NormalMember(number, m), C.NormalMembers(number, members))
    decreases |members|
  {
    var n := C.NormalMembers(number, members);
    if members == [] || C.NameLe(m, members[0]) {
      assert C.NormalMembers(number, [m] + members) == [C.NormalMember(number, m)] + n;
    } else {
      NormalOfInserted(number, m, members[1..]);
      assert n[1..] == C.NormalMembers(number, members[1..]);
      var rest := Insert(C.NameLe, m, members[1..]);
      assert C.NormalMembers(number, [members[0]] + rest) == [n[0]] + C.NormalMembers(number, rest);
    }
  }

  /** The members sorted by name and then each brought to its canonical form, or the other way round. */
  lemma {:induction false} NormalOfSorted(number: C.Numbers, members: seq<Member>)
    ensures C.NormalMembers(number, Sort(C.NameLe, members)) == Sort(C.NameLe, C.NormalMembers(number, members))
    decreases |members|
  {
    if members != [] {
      NormalOfSorted(number, members[1..]);
      NormalOfInserted(number, members[0], Sort(C.NameLe, members[1..]));
      assert C.NormalMembers(number, members)[1..] == C.NormalMembers(number, members[1..]);
    }
  }

  lemma InRangeOfSorted(number: C.Numbers, members: seq<Member>)
    ensures FrameInRange(number, InObject(Sort(C.NameLe, members))) <==> FrameInRange(number, InObject(members))
  {
    var sorted := Sort(C.NameLe, members);
    SortKeeps(C.NameLe, members);
    forall m: Member ensures m in sorted <==> m in members {
      assert m in sorted <==> m in multiset(sorted);
    }
    if FrameInRange(number, InObject(members)) {
      forall i | 0 <= i < |sorted| ensures C.InRange(number, sorted[i].value) {
        assert sorted[i] in members;
      }
    }
    if FrameInRange(number, InObject(sorted)) {
      forall i | 0 <= i < |members| ensures C.InRange(number, members[i].value) {
        assert members[i] in sorted;
      }
    }
  }

  // ---- the walk ------------------------------------------------------------------------------------

  /** One step: the event is the next of the canonical tree as it is shown. */
  ghost predicate GivesNext(number: C.Numbers, pending: Option<Json>, stack: seq<Frame>, e: Event,
                            pending': Option<Json>, stack': seq<Frame>) {
    LeftOf(number, pending, stack) == [Shown(number, e)] + LeftOf(number, pending', stack')
  }

  /** What was left is in range exactly when the event is and what is left now. */
  ghost predicate KeepsRange(number: C.Numbers, pending: Option<Json>, stack: seq<Frame>, e: Event,
                             pending': Option<Json>, stack': seq<Frame>) {
    LeftInRange(number, pending, stack) <==> Shows(number, e) && LeftInRange(number, pending', stack')
  }

  ghost predicate Gives(number: C.Numbers, pending: Option<Json>, stack: seq<Frame>, e: Event,
                        pending': Option<Json>, stack': seq<Frame>) {
    GivesNext(number, pending, stack, e, pending', stack') && KeepsRange(number, pending, stack, e, pending', stack')
  }

  lemma ArrayNext(number: C.Numbers, items: seq<Json>, stack: seq<Frame>)
    ensures GivesNext(number, Some(Array(items)), stack, ArrayStart, None, stack + [InArray(items)])
  {
    NormalStackMore(number, stack, InArray(items));
    ArrayGiven(C.NormalItems(number, items), NormalStack(number, stack));
  }

  lemma ArrayKeepsRange(number: C.Numbers, items: seq<Json>, stack: seq<Frame>)
    ensures KeepsRange(number, Some(Array(items)), stack, ArrayStart, None, stack + [InArray(items)])
  {
    StackInRangeMore(number, stack, InArray(items));
  }

  lemma GivesArray(number: C.Numbers, items: seq<Json>, stack: seq<Frame>)
    ensures Gives(number, Some(Array(items)), stack, ArrayStart, None, stack + [InArray(items)])
  {
    ArrayNext(number, items, stack);
    ArrayKeepsRange(number, items, stack);
  }

  lemma ObjectNext(number: C.Numbers, members: seq<Member>, sorted: seq<Member>, stack: seq<Frame>)
    requires C.Normal(number, Object(members)) == Object(C.NormalMembers(number, sorted))
    ensures GivesNext(number, Some(Object(members)), stack, ObjectStart, None, stack + [InObject(sorted)])
  {
    NormalStackMore(number, stack, InObject(sorted));
    ObjectGiven(C.NormalMembers(number, sorted), NormalStack(number, stack));
  }

  lemma ObjectKeepsRange(number: C.Numbers, members: seq<Member>, sorted: seq<Member>, stack: seq<Frame>)
    requires FrameInRange(number, InObject(sorted)) <==> FrameInRange(number, InObject(members))
    ensures KeepsRange(number, Some(Object(members)), stack, ObjectStart, None, stack + [InObject(sorted)])
  {
    StackInRangeMore(number, stack, InObject(sorted));
  }

  lemma GivesObject(number: C.Numbers, members: seq<Member>, stack: seq<Frame>)
    ensures Gives(number, Some(Object(members)), stack, ObjectStart, None, stack + [InObject(Sort(C.NameLe, members))])
  {
    NormalOfSorted(number, members);
    InRangeOfSorted(number, members);
    ObjectNext(number, members, Sort(C.NameLe, members), stack);
    ObjectKeepsRange(number, members, Sort(C.NameLe, members), stack);
  }

  lemma GivesScalar(number: C.Numbers, v: Json, stack: seq<Frame>)
    requires !v.Array? && !v.Object?
    ensures Gives(number, Some(v), stack, Scalar(v), None, stack)
  {
    ScalarGiven(C.Normal(number, v), NormalStack(number, stack));
  }

  lemma GivesArrayEnd(number: C.Numbers, under: seq<Frame>)
    ensures Gives(number, None, under + [InArray([])], ArrayEnd, None, under)
  {
    NormalStackMore(number, under, InArray([]));
    StackInRangeMore(number, under, InArray([]));
    ArrayEnds(NormalStack(number, under));
  }

  lemma GivesObjectEnd(number: C.Numbers, under: seq<Frame>)
    ensures Gives(number, None, under + [InObject([])], ObjectEnd, None, under)
  {
    NormalStackMore(number, under, InObject([]));
    StackInRangeMore(number, under, InObject([]));
    ObjectEnds(NormalStack(number, under));
  }

  lemma MembersInRange(number: C.Numbers, members: seq<Member>)
    requires members != []
    ensures FrameInRange(number, InObject(members))
       <==> C.InRange(number, members[0].value) && FrameInRange(number, InObject(members[1..]))
  {
    assert members == [members[0]] + members[1..];
  }

  lemma NameNext(number: C.Numbers, under: seq<Frame>, members: seq<Member>)
    requires members != []
    ensures GivesNext(number, None, under + [InObject(members)], Name(members[0].name),
                      Some(members[0].value), under + [InObject(members[1..])])
  {
    NormalStackMore(number, under, InObject(members));
    NormalStackMore(number, under, InObject(members[1..]));
    MemberDue(NormalStack(number, under), C.NormalMembers(number, members));
  }

  lemma GivesName(number: C.Numbers, under: seq<Frame>, members: seq<Member>)
    requires members != []
    ensures Gives(number, None, under + [InObject(members)], Name(members[0].name),
                  Some(members[0].value), under + [InObject(members[1..])])
  {
    NameNext(number, under, members);
    StackInRangeMore(number, under, InObject(members));
    StackInRangeMore(number, under, InObject(members[1..]));
    MembersInRange(number, members);
  }

  /** Making an item due gives no event. */
  lemma ItemMadeDue(number: C.Numbers, under: seq<Frame>, items: seq<Json>)
    requires items != []
    ensures LeftOf(number, None, under + [InArray(items)])
         == LeftOf(number, Some(items[0]), under + [InArray(items[1..])])
    ensures LeftInRange(number, None, under + [InArray(items)])
       <==> LeftInRange(number, Some(items[0]), under + [InArray(items[1..])])
  {
    NormalStackMore(number, under, InArray(items));
    NormalStackMore(number, under, InArray(items[1..]));
    StackInRangeMore(number, under, InArray(items));
    StackInRangeMore(number, under, InArray(items[1..]));
    assert FrameInRange(number, InArray(items))
      <==> C.InRange(number, items[0]) && FrameInRange(number, InArray(items[1..])) by {
      assert items == [items[0]] + items[1..];
    }
    ItemDue(NormalStack(number, under), C.NormalItems(number, items));
  }

  /** The iterator of the sorted walk. What is left of it is told for any canonical spelling of numbers. */
  class SortedEvents {
    ghost const number: C.Numbers
    var stack: seq<Frame>
    var pending: Option<Json>

    constructor (ghost number: C.Numbers, v: Json)
      ensures this.number == number && Left() == EventsOf(C.Normal(number, v)) && (InRange() <==> C.InRange(number, v))
    {
      this.number := number;
      stack, pending := [], Some(v);
      new;
      assert EventsOf(C.Normal(number, v)) + [] == EventsOf(C.Normal(number, v));
    }

    ghost function Left(): seq<Event>
      reads this
    {
      LeftOf(number, pending, stack)
    }

    ghost predicate InRange()
      reads this
    {
      LeftInRange(number, pending, stack)
    }

    /** The event of a value that is due. */
    method Give() returns (e: Event)
      requires pending.Some?
      modifies this`stack, this`pending
      ensures Gives(number, old(pending), old(stack), e, pending, stack)
    {
      var v := pending.value;
      pending := None;
      match v {
        case Array(items) =>
          GivesArray(number, items, stack);
          stack, e := stack + [InArray(items)], ArrayStart;
        case Object(members) =>
          GivesObject(number, members, stack);
          stack, e := stack + [InObject(Sort(C.NameLe, members))], ObjectStart;
        case _ =>
          GivesScalar(number, v, stack);
          e := Scalar(v);
      }
    }

    method Next() returns (e: Option<Event>)
      modifies this`stack, this`pending
      ensures e.None? ==> old(Left()) == [] && old(InRange())
      ensures e.Some? ==> Gives(number, old(pending), old(stack), e.value, pending, stack)
    {
      if pending.Some? {
        var given := Give();
        return Some(given);
      }
      if stack == [] {
        return None;
      }
      var under, top := stack[..|stack| - 1], stack[|stack| - 1];
      assert stack == under + [top];
      match top {
        case InArray(items) =>
          if items == [] {
            GivesArrayEnd(number, under);
            stack := under;
            return Some(ArrayEnd);
          }
          ItemMadeDue(number, under, items);
          stack, pending := under + [InArray(items[1..])], Some(items[0]);
          var given := Give();
          return Some(given);
        case InObject(members) =>
          if members == [] {
            GivesObjectEnd(number, under);
            stack := under;
            return Some(ObjectEnd);
          }
          GivesName(number, under, members);
          stack, pending := under + [InObject(members[1..])], Some(members[0].value);
          return Some(Name(members[0].name));
      }
    }
  }

  /** The canonical text, written one event at a time, or none at the first number beyond the range. */
  method ToCanonical(number: C.Numbers, v: Json) returns (text: Option<string>)
    ensures text == C.Canonical(number, v)
  {
    var n := C.Normal(number, v);
    var events := new SortedEvents(number, v);
    var o := Out([], "");
    ValueWritten(o, n);
    assert "" + "" + Print(n) == Print(n);
    while true
      invariant events.number == number && WriteAll(o, events.Left()).text == Print(n)
      invariant events.InRange() <==> C.InRange(number, v)
      decreases |events.Left()|
    {
      var e := events.Next();
      if e.None? {
        return Some(o.text);
      }
      if !Shows(number, e.value) {
        return None;
      }
      var shown := Shown(number, e.value);
      assert ([shown] + events.Left())[1..] == events.Left();
      o := WriteOne(o, shown);
    }
  }
}
