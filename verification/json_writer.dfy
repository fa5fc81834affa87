/** The writer of JSON text, which walks a tree with an explicit stack and never recurses: it writes what
    the recursive printer does. */
module JsonWriter {
  import opened Common
  import opened Json
  import opened JsonText

  // ---- the walk ----------------------------------------------------------------------------------

  datatype Event = Scalar(v: Json) | ArrayStart | ArrayEnd | ObjectStart | Name(name: string) | ObjectEnd

  /** The events of a depth-first walk. */
  function EventsOf(v: Json): (es: seq<Event>)
    ensures es != []
  {
    match v
    case Array(items) => [ArrayStart] + EventsOfItems(items) + [ArrayEnd]
    case Object(members) => [ObjectStart] + EventsOfMembers(members) + [ObjectEnd]
    case _ => [Scalar(v)]
  }

  function EventsOfItems(items: seq<Json>): seq<Event> {
    if items == [] then [] else EventsOf(items[0]) + EventsOfItems(items[1..])
  }

  function EventsOfMembers(members: seq<Member>): seq<Event> {
    if members == [] then [] else [Name(members[0].name)] + EventsOf(members[0].value) + EventsOfMembers(members[1..])
  }

  /** A container being walked: what is left of it. */
  datatype Frame = InArray(items: seq<Json>) | InObject(members: seq<Member>)

  function EventsOfFrame(f: Frame): (es: seq<Event>)
    ensures es != []
  {
    match f
    case InArray(items) => EventsOfItems(items) + [ArrayEnd]
    case InObject(members) => EventsOfMembers(members) + [ObjectEnd]
  }

  function EventsOfStack(stack: seq<Frame>): seq<Event> {
    if stack == [] then [] else EventsOfFrame(stack[|stack| - 1]) + EventsOfStack(stack[..|stack| - 1])
  }

  function EventsLeft(pending: Option<Json>, stack: seq<Frame>): seq<Event> {
    (if pending.Some? then EventsOf(pending.value) else []) + EventsOfStack(stack)
  }

  lemma Nest<T>(a: seq<T>, b: seq<T>, c: seq<T>, d: seq<T>)
    ensures a + b + c + d == a + (b + c + d) && a + b + c + d == a + b + (c + d) && [] + a == a
  {
  }

  lemma StackOfMore(stack: seq<Frame>, f: Frame)
    ensures EventsOfStack(stack + [f]) == EventsOfFrame(f) + EventsOfStack(stack)
  {
    assert (stack + [f])[..|stack|] == stack;
  }

  lemma LeftInside(stack: seq<Frame>, f: Frame)
    ensures EventsLeft(None, stack + [f]) == EventsOfFrame(f) + EventsOfStack(stack)
  {
    StackOfMore(stack, f);
    Nest(EventsOfStack(stack + [f]), [], [], []);
  }

  /** Giving a pending value: its first event, and a frame for what is inside it. */
  lemma ArrayGiven(items: seq<Json>, stack: seq<Frame>)
    ensures EventsLeft(Some(Array(items)), stack) == [ArrayStart] + EventsLeft(None, stack + [InArray(items)])
  {
    LeftInside(stack, InArray(items));
    Nest([ArrayStart], EventsOfItems(items), [ArrayEnd], EventsOfStack(stack));
  }

  lemma ObjectGiven(members: seq<Member>, stack: seq<Frame>)
    ensures EventsLeft(Some(Object(members)), stack) == [ObjectStart] + EventsLeft(None, stack + [InObject(members)])
  {
    LeftInside(stack, InObject(members));
    Nest([ObjectStart], EventsOfMembers(members), [ObjectEnd], EventsOfStack(stack));
  }

  lemma ScalarGiven(v: Json, stack: seq<Frame>)
    requires !v.Array? && !v.Object?
    ensures EventsLeft(Some(v), stack) == [Scalar(v)] + EventsLeft(None, stack)
  {
    Nest(EventsOfStack(stack), [], [], []);
  }

  /** Going on in the innermost frame. */
  lemma ArrayEnds(under: seq<Frame>)
    ensures EventsLeft(None, under + [InArray([])]) == [ArrayEnd] + EventsLeft(None, under)
  {
    LeftInside(under, InArray([]));
    Nest(EventsOfStack(under), [], [], []);
  }

  lemma ObjectEnds(under: seq<Frame>)
    ensures EventsLeft(None, under + [InObject([])]) == [ObjectEnd] + EventsLeft(None, under)
  {
    LeftInside(under, InObject([]));
    Nest(EventsOfStack(under), [], [], []);
  }

  lemma ItemDue(under: seq<Frame>, items: seq<Json>)
    requires items != []
    ensures EventsLeft(None, under + [InArray(items)]) == EventsLeft(Some(items[0]), under + [InArray(items[1..])])
  {
    LeftInside(under, InArray(items));
    StackOfMore(under, InArray(items[1..]));
    Nest(EventsOf(items[0]), EventsOfItems(items[1..]), [ArrayEnd], EventsOfStack(under));
  }

  lemma MemberDue(under: seq<Frame>, members: seq<Member>)
    requires members != []
    ensures EventsLeft(None, under + [InObject(members)])
         == [Name(members[0].name)] + EventsLeft(Some(members[0].value), under + [InObject(members[1..])])
  {
    LeftInside(under, InObject(members));
    StackOfMore(under, InObject(members[1..]));
    var (n, v, rest) := ([Name(members[0].name)], EventsOf(members[0].value), EventsOfMembers(members[1..]));
    MemberNest(n, v, rest, [ObjectEnd], EventsOfStack(under));
  }

  lemma MemberNest<T>(n: seq<T>, v: seq<T>, rest: seq<T>, e: seq<T>, under: seq<T>)
    ensures n + v + rest + e + under == n + (v + (rest + e + under))
  {
  }

  /** The walk's iterator: a stack of frames and a value that is due. */
  class Events {
    var stack: seq<Frame>
    var pending: Option<Json>

    constructor (v: Json)
      ensures Left() == EventsOf(v)
    {
      stack, pending := [], Some(v);
      new;
      assert EventsOf(v) + [] == EventsOf(v);
    }

    ghost function Left(): seq<Event>
      reads this
    {
      EventsLeft(pending, stack)
    }

    /** The event of a value that is due. */
    method Give() returns (e: Event)
      requires pending.Some?
      modifies this
      ensures old(Left()) == [e] + Left() && pending.None?
    {
      var v := pending.value;
      pending := None;
      match v {
        case Array(items) =>
          ArrayGiven(items, stack);
          stack, e := stack + [InArray(items)], ArrayStart;
        case Object(members) =>
          ObjectGiven(members, stack);
          stack, e := stack + [InObject(members)], ObjectStart;
        case _ =>
          ScalarGiven(v, stack);
          e := Scalar(v);
      }
    }

    method Next() returns (e: Option<Event>)
      modifies this
      ensures if e.None? then old(Left()) == [] && Left() == [] else old(Left()) == [e.value] + Left()
    {
      if pending.Some? {
        var given := Give();
        return Some(given);
      }
      if stack == [] {
        return None;
      }
      var under, top := stack[..|stack| - 1], stack[|stack| - 1];
      assert stack == under + [top];
      match top {
        case InArray(items) =>
          if items == [] {
            ArrayEnds(under);
            stack := under;
            return Some(ArrayEnd);
          }
          ItemDue(under, items);
          stack, pending := under + [InArray(items[1..])], Some(items[0]);
          var given := Give();
          return Some(given);
        case InObject(members) =>
          if members == [] {
            ObjectEnds(under);
            stack := under;
            return Some(ObjectEnd);
          }
          MemberDue(under, members);
          stack, pending := under + [InObject(members[1..])], Some(members[0].value);
          return Some(Name(members[0].name));
      }
    }
  }

  // ---- the writer --------------------------------------------------------------------------------

  /** An open container: whether it is an array, and whether nothing was written in it yet. */
  datatype Level = Level(isArray: bool, empty: bool)

  /** The text of a value that is no container. */
  function ScalarText(v: Json): string {
    match v
    case Null => "null"
    case Bool(b) => if b then "true" else "false"
    case Number(raw) => raw
    case String(s) => Quote(s)
    case _ => ""
  }

  /** The comma before an element of an array. */
  function Comma(levels: seq<Level>): string {
    if levels != [] && levels[|levels| - 1].isArray && !levels[|levels| - 1].empty then "," else ""
  }

  /** The levels once an element is begun. */
  function Touched(levels: seq<Level>): seq<Level> {
    if levels != [] && levels[|levels| - 1].isArray then levels[|levels| - 1 := Level(true, false)] else levels
  }

  datatype Out = Out(levels: seq<Level>, text: string)

  /** One event. A name is set off by a comma from the member before it. */
  function WriteOne(o: Out, e: Event): Out {
    match e
    case ArrayEnd => Out(if o.levels == [] then [] else o.levels[..|o.levels| - 1], o.text + "]")
    case ObjectEnd => Out(if o.levels == [] then [] else o.levels[..|o.levels| - 1], o.text + "}")
    case Name(k) =>
      if o.levels == [] then Out([], o.text + Quote(k) + ":")
      else
        var top := o.levels[|o.levels| - 1];
        Out(o.levels[|o.levels| - 1 := top.(empty := false)], o.text + (if top.empty then "" else ",") + Quote(k) + ":")
    case Scalar(v) => Out(Touched(o.levels), o.text + Comma(o.levels) + ScalarText(v))
    case ArrayStart => Out(Touched(o.levels) + [Level(true, true)], o.text + Comma(o.levels) + "[")
    case ObjectStart => Out(Touched(o.levels) + [Level(false, true)], o.text + Comma(o.levels) + "{")
  }

  function WriteAll(o: Out, es: seq<Event>): Out
    decreases |es|
  {
    if es == [] then o else WriteAll(WriteOne(o, es[0]), es[1..])
  }

  lemma {:induction false} WriteJoin(o: Out, a: seq<Event>, b: seq<Event>)
    ensures WriteAll(o, a + b) == WriteAll(WriteAll(o, a), b)
    decreases |a|
  {
    if a == [] {
      assert a + b == b;
    } else {
      assert (a + b)[1..] == a[1..] + b;
      WriteJoin(WriteOne(o, a[0]), a[1..], b);
    }
  }

  lemma WriteSingle(o: Out, e: Event)
    ensures WriteAll(o, [e]) == WriteOne(o, e)
  {
  }

  /** Writing the events of a value writes its text as an element. */
  ghost predicate Writes(o: Out, es: seq<Event>, text: string) {
    WriteAll(o, es) == Out(Touched(o.levels), o.text + Comma(o.levels) + text)
  }

  function Inside(o: Out, isArray: bool): Out {
    Out(Touched(o.levels) + [Level(isArray, true)], o.text + Comma(o.levels) + if isArray then "[" else "{")
  }

  /** Items after the first are set off by commas. */
  function ItemsText(items: seq<Json>, empty: bool): string {
    if items == [] then "" else (if empty then "" else ",") + Print(items[0]) + ItemsText(items[1..], false)
  }

  function MembersText(members: seq<Member>, empty: bool): string {
    if members == [] then ""
    else (if empty then "" else ",") + PrintMember(members[0]) + MembersText(members[1..], false)
  }

  lemma Tidy(first: string, rest: string)
    ensures "" + first + rest == first + rest && "," + first + rest == "," + (first + rest)
    ensures first + "" == first && "," + first + "" == "," + first
    ensures forall more :: rest == "," + more ==> first + rest == first + "," + more
  {
    forall more | rest == "," + more ensures first + rest == first + "," + more {
      assert first + ("," + more) == first + "," + more;
    }
  }

  lemma {:induction false} ItemsTextIsPrinted(items: seq<Json>)
    ensures ItemsText(items, true) == PrintItems(items)
    ensures items != [] ==> ItemsText(items, false) == "," + PrintItems(items)
  {
    if items != [] {
      ItemsTextIsPrinted(items[1..]);
      Tidy(Print(items[0]), ItemsText(items[1..], false));
    }
  }

  lemma {:induction false} MembersTextIsPrinted(members: seq<Member>)
    ensures MembersText(members, true) == PrintMembers(members)
    ensures members != [] ==> MembersText(members, false) == "," + PrintMembers(members)
  {
    if members != [] {
      MembersTextIsPrinted(members[1..]);
      Tidy(PrintMember(members[0]), MembersText(members[1..], false));
    }
  }

  lemma {:induction false} ItemsWritten(under: seq<Level>, empty: bool, text: string, items: seq<Json>)
    ensures WriteAll(Out(under + [Level(true, empty)], text), EventsOfItems(items))
         == Out(under + [Level(true, empty && items == [])], text + ItemsText(items, empty))
    decreases items, 0
  {
    var o := Out(under + [Level(true, empty)], text);
    if items == [] {
      assert text + "" == text;
    } else {
      ValueWritten(o, items[0]);
      WriteJoin(o, EventsOf(items[0]), EventsOfItems(items[1..]));
      var one := text + (if empty then "" else ",") + Print(items[0]);
      assert Touched(o.levels) == under + [Level(true, false)];
      ItemsWritten(under, false, one, items[1..]);
      Nest(text, if empty then "" else ",", Print(items[0]), ItemsText(items[1..], false));
    }
  }

  lemma {:induction false} MemberWritten(under: seq<Level>, empty: bool, text: string, m: Member)
    ensures WriteAll(Out(under + [Level(false, empty)], text), [Name(m.name)] + EventsOf(m.value))
         == Out(under + [Level(false, false)], text + (if empty then "" else ",") + PrintMember(m))
    decreases m
  {
    var o := Out(under + [Level(false, empty)], text);
    var named := Out(under + [Level(false, false)], text + (if empty then "" else ",") + Quote(m.name) + ":");
    assert WriteOne(o, Name(m.name)) == named;
    WriteJoin(o, [Name(m.name)], EventsOf(m.value));
    WriteSingle(o, Name(m.name));
    ValueWritten(named, m.value);
    assert named.text + "" + Print(m.value) == text + (if empty then "" else ",") + PrintMember(m);
  }

  lemma {:induction false} MembersWritten(under: seq<Level>, empty: bool, text: string, members: seq<Member>)
    ensures WriteAll(Out(under + [Level(false, empty)], text), EventsOfMembers(members))
         == Out(under + [Level(false, empty && members == [])], text + MembersText(members, empty))
    decreases members, 0
  {
    var o := Out(under + [Level(false, empty)], text);
    if members == [] {
      assert text + "" == text;
    } else {
      MemberWritten(under, empty, text, members[0]);
      WriteJoin(o, [Name(members[0].name)] + EventsOf(members[0].value), EventsOfMembers(members[1..]));
      var one := text + (if empty then "" else ",") + PrintMember(members[0]);
      MembersWritten(under, false, one, members[1..]);
      Nest(text, if empty then "" else ",", PrintMember(members[0]), MembersText(members[1..], false));
    }
  }

  lemma Closed(under: seq<Level>, level: Level, text: string, e: Event)
    requires e == ArrayEnd || e == ObjectEnd
    ensures WriteOne(Out(under + [level], text), e) == Out(under, text + if e == ArrayEnd then "]" else "}")
  {
    assert (under + [level])[..|under|] == under;
  }

  lemma {:induction false} ArrayWritten(o: Out, items: seq<Json>)
    ensures Writes(o, EventsOf(Array(items)), Print(Array(items)))
    decreases items, 1
  {
    var inside, under, before := Inside(o, true), Touched(o.levels), o.text + Comma(o.levels);
    WriteJoin(o, [ArrayStart] + EventsOfItems(items), [ArrayEnd]);
    WriteJoin(o, [ArrayStart], EventsOfItems(items));
    WriteSingle(o, ArrayStart);
    ItemsWritten(under, true, inside.text, items);
    ItemsTextIsPrinted(items);
    var done := WriteAll(inside, EventsOfItems(items));
    Closed(under, Level(true, items == []), done.text, ArrayEnd);
    WriteSingle(done, ArrayEnd);
    Nest(before, "[", PrintItems(items), "]");
  }

  lemma {:induction false} ObjectWritten(o: Out, members: seq<Member>)
    ensures Writes(o, EventsOf(Object(members)), Print(Object(members)))
    decreases members, 1
  {
    var inside, under, before := Inside(o, false), Touched(o.levels), o.text + Comma(o.levels);
    WriteJoin(o, [ObjectStart] + EventsOfMembers(members), [ObjectEnd]);
    WriteJoin(o, [ObjectStart], EventsOfMembers(members));
    WriteSingle(o, ObjectStart);
    MembersWritten(under, true, inside.text, members);
    MembersTextIsPrinted(members);
    var done := WriteAll(inside, EventsOfMembers(members));
    Closed(under, Level(false, members == []), done.text, ObjectEnd);
    WriteSingle(done, ObjectEnd);
    Nest(before, "{", PrintMembers(members), "}");
  }

  lemma {:induction false} ValueWritten(o: Out, v: Json)
    ensures Writes(o, EventsOf(v), Print(v))
    decreases v
  {
    if v.Array? {
      ArrayWritten(o, v.items);
    } else if v.Object? {
      ObjectWritten(o, v.members);
    } else {
      WriteSingle(o, Scalar(v));
    }
  }

  /** The writer's loop: one event at a time, with a level for each open container. It writes the text the
      recursive printer gives, for a tree of any depth. */
  method ToCompact(v: Json) returns (text: string)
    ensures text == Print(v)
  {
    var events := new Events(v);
    var o := Out([], "");
    ValueWritten(o, v);
    assert "" + "" + Print(v) == Print(v);
    while true
      invariant WriteAll(o, events.Left()).text == Print(v)
      decreases |events.Left()|
    {
      var e := events.Next();
      if e.None? {
        return o.text;
      }
      assert ([e.value] + events.Left())[1..] == events.Left();
      o := WriteOne(o, e.value);
    }
  }
}
