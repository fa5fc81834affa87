/** JSON trees, their compact text, and the reader that keeps an explicit stack of open containers. */
module Json {
  import opened Common
  import opened JsonText
  import T = Timestamp

  datatype Json =
    | Null
    | Bool(b: bool)
    | Number(raw: string)
    | String(s: string)
    | Array(items: seq<Json>)
    | Object(members: seq<Member>)

  datatype Member = Member(name: string, value: Json)

  // ---- writing -----------------------------------------------------------------------------------

  function Print(v: Json): string {
    match v
    case Null => "null"
    case Bool(b) => if b then "true" else "false"
    case Number(raw) => raw
    case String(s) => Quote(s)
    case Array(items) => "[" + PrintItems(items) + "]"
    case Object(members) => "{" + PrintMembers(members) + "}"
  }

  function PrintItems(items: seq<Json>): string {
    if items == [] then ""
    else if |items| == 1 then Print(items[0])
    else Print(items[0]) + "," + PrintItems(items[1..])
  }

  function PrintMember(m: Member): string {
    Quote(m.name) + ":" + Print(m.value)
  }

  function PrintMembers(members: seq<Member>): string {
    if members == [] then ""
    else if |members| == 1 then PrintMember(members[0])
    else PrintMember(members[0]) + "," + PrintMembers(members[1..])
  }

  // ---- objects -----------------------------------------------------------------------------------

  function Get(members: seq<Member>, name: string): Option<Json> {
    if members == [] then None
    else if members[0].name == name then Some(members[0].value)
    else Get(members[1..], name)
  }

  /** Replace the member of that name in place, or add it at the end. */
  function Put(members: seq<Member>, name: string, v: Json): seq<Member> {
    if members == [] then [Member(name, v)]
    else if members[0].name == name then [Member(name, v)] + members[1..]
    else [members[0]] + Put(members[1..], name, v)
  }

  function Without(members: seq<Member>, name: string): seq<Member> {
    if members == [] then []
    else if members[0].name == name then members[1..]
    else [members[0]] + Without(members[1..], name)
  }

  predicate DistinctNames(members: seq<Member>) {
    forall i, j :: 0 <= i < j < |members| ==> members[i].name != members[j].name
  }

  lemma {:induction false} GetFinds(members: seq<Member>, name: string)
    ensures Get(members, name).None? <==> forall i :: 0 <= i < |members| ==> members[i].name != name
    ensures Get(members, name).Some? ==> Member(name, Get(members, name).value) in members
  {
    if members != [] {
      GetFinds(members[1..], name);
      assert forall i :: 1 <= i < |members| ==> members[i] == members[1..][i - 1];
    }
  }

  lemma {:induction false} GetOfPut(members: seq<Member>, name: string, v: Json, other: string)
    ensures Get(Put(members, name, v), other) == if other == name then Some(v) else Get(members, other)
  {
    if members != [] && members[0].name != name {
      GetOfPut(members[1..], name, v, other);
      assert Put(members, name, v)[1..] == Put(members[1..], name, v);
    } else if members != [] {
      assert Put(members, name, v)[1..] == members[1..];
    }
  }

  lemma {:induction false} PutKeeps(members: seq<Member>, name: string, v: Json)
    requires DistinctNames(members)
    ensures DistinctNames(Put(members, name, v))
    ensures forall m :: m in Put(members, name, v) ==> m == Member(name, v) || m in members
  {
    if members != [] && members[0].name != name {
      var rest := Put(members[1..], name, v);
      PutKeeps(members[1..], name, v);
      forall i | 0 <= i < |rest| ensures members[0].name != rest[i].name {
        assert rest[i] in rest;
      }
    }
  }

  /** Distinct names: the first member of a name is the only one. */
  lemma {:induction false} GetOfMember(members: seq<Member>, i: nat)
    requires i < |members| && DistinctNames(members)
    ensures Get(members, members[i].name) == Some(members[i].value)
  {
    if i > 0 {
      GetOfMember(members[1..], i - 1);
    }
  }

  lemma {:induction false} OnceInDistinct(s: seq<Member>, m: Member)
    requires DistinctNames(s)
    ensures multiset(s)[m] <= 1
  {
    if s != [] {
      OnceInDistinct(s[1..], m);
      assert s == [s[0]] + s[1..] && s[0] !in s[1..];
    }
  }

  /** Reordering keeps the members and that their names are distinct. */
  lemma Reordered(a: seq<Member>, b: seq<Member>)
    requires multiset(a) == multiset(b) && DistinctNames(a)
    ensures DistinctNames(b)
    ensures forall m :: m in b <==> m in a
  {
    forall m ensures m in b <==> m in a {
      assert m in multiset(a) <==> m in multiset(b);
    }
    forall i, j | 0 <= i < j < |b| ensures b[i].name != b[j].name {
      if b[i].name == b[j].name {
        assert b[i] in a && b[j] in a;
        assert b == b[..j] + [b[j]] + b[j + 1..] && b[i] in b[..j];
        assert multiset(b)[b[i]] >= 2;
        OnceInDistinct(a, b[i]);
      }
    }
  }

  lemma {:induction false} PutNew(members: seq<Member>, name: string, v: Json)
    requires Get(members, name).None?
    ensures Put(members, name, v) == members + [Member(name, v)]
  {
    if members != [] {
      PutNew(members[1..], name, v);
    }
  }

  lemma {:induction false} WithoutLast(members: seq<Member>, name: string, v: Json)
    requires Get(members, name).None?
    ensures Without(members + [Member(name, v)], name) == members
  {
    var all := members + [Member(name, v)];
    if members != [] {
      WithoutLast(members[1..], name, v);
      assert all[1..] == members[1..] + [Member(name, v)];
    }
  }

  lemma {:induction false} WithoutNone(members: seq<Member>, name: string)
    requires Get(members, name).None?
    ensures Without(members, name) == members
  {
    if members != [] {
      WithoutNone(members[1..], name);
    }
  }

  lemma {:induction false} WithoutKeeps(members: seq<Member>, name: string)
    requires DistinctNames(members)
    ensures DistinctNames(Without(members, name)) && Get(Without(members, name), name).None?
    ensures forall m :: m in Without(members, name) ==> m in members
  {
    if members != [] {
      WithoutKeeps(members[1..], name);
      GetFinds(members[1..], name);
      var rest := Without(members[1..], name);
      forall i | 0 <= i < |rest| ensures members[0].name != rest[i].name {
        assert rest[i] in members[1..];
      }
      if members[0].name != name {
        assert Without(members, name)[1..] == rest;
      }
    }
  }

  // ---- reading -----------------------------------------------------------------------------------

  predicate IsSpace(c: char) {
    c == ' ' || c as int == 9 || c as int == 10 || c as int == 13
  }

  function SkipSpace(s: string): (r: string)
    ensures |r| <= |s|
    ensures r != "" ==> !IsSpace(r[0])
  {
    if s != "" && IsSpace(s[0]) then SkipSpace(s[1..]) else s
  }

  /** A container that is open: what it holds so far, and for an object the name whose value is being
      read. */
  datatype Open = OpenArray(items: seq<Json>) | OpenObject(members: seq<Member>, name: string)

  function Names(members: seq<Member>): set<string> {
    set i | 0 <= i < |members| :: members[i].name
  }

  /** A member name and its colon. */
  function ParseName(s: string): (r: Result<(string, string), JsonError>)
    ensures r.Ok? ==> |r.value.1| < |s|
  {
    var t := SkipSpace(s);
    if t == "" || t[0] != '"' then Err(Syntax)
    else
      var name := ParseString(t);
      if name.Err? then name
      else
        var u := SkipSpace(name.value.1);
        if u == "" || u[0] != ':' then Err(Syntax) else Ok((name.value.0, u[1..]))
  }

  /** A value that is not a container. */
  function ParseLeaf(s: string): (r: Result<(Json, string), JsonError>)
    requires s != ""
    ensures r.Ok? ==> |r.value.1| < |s|
  {
    if s[0] == '"' then
      var r := ParseString(s);
      if r.Err? then Err(r.error) else Ok((String(r.value.0), r.value.1))
    else if s[0] == 't' then if "true" <= s then Ok((Bool(true), s[4..])) else Err(Syntax)
    else if s[0] == 'f' then if "false" <= s then Ok((Bool(false), s[5..])) else Err(Syntax)
    else if s[0] == 'n' then if "null" <= s then Ok((Null, s[4..])) else Err(Syntax)
    else if s[0] == '-' || T.IsDigit(s[0]) then
      var r := ParseNumber(s);
      if r.Err? then Err(r.error) else Ok((Number(r.value.0), r.value.1))
    else Err(Syntax)
  }

  /** The outer loop: read a value, or open the container it begins with. */
  function Value(s: string, stack: seq<Open>): Result<(Json, string), JsonError>
    decreases |s|
  {
    var t := SkipSpace(s);
    if t == "" then Err(Syntax)
    else if t[0] == '[' then
      var u := SkipSpace(t[1..]);
      if u != "" && u[0] == ']' then Complete(Array([]), u[1..], stack) else Value(u, stack + [OpenArray([])])
    else if t[0] == '{' then
      var u := SkipSpace(t[1..]);
      if u != "" && u[0] == '}' then Complete(Object([]), u[1..], stack)
      else
        var name := ParseName(u);
        if name.Err? then Err(name.error) else Value(name.value.1, stack + [OpenObject([], name.value.0)])
    else
      var leaf := ParseLeaf(t);
      if leaf.Err? then Err(leaf.error) else Complete(leaf.value.0, leaf.value.1, stack)
  }

  /** The inner loop: a complete value goes into the innermost open container, which it may close. */
  function Complete(v: Json, s: string, stack: seq<Open>): Result<(Json, string), JsonError>
    decreases |s|
  {
    if stack == [] then Ok((v, s))
    else
      var under, top := stack[..|stack| - 1], stack[|stack| - 1];
      var t := SkipSpace(s);
      match top {
        case OpenArray(items) =>
          if t != "" && t[0] == ',' then Value(t[1..], under + [OpenArray(items + [v])])
          else if t != "" && t[0] == ']' then Complete(Array(items + [v]), t[1..], under)
          else Err(Syntax)
        case OpenObject(members, name) =>
          if name in Names(members) then Err(DuplicateMember(name))
          else if t != "" && t[0] == ',' then
            var next := ParseName(t[1..]);
            if next.Err? then Err(next.error)
            else Value(next.value.1, under + [OpenObject(members + [Member(name, v)], next.value.0)])
          else if t != "" && t[0] == '}' then Complete(Object(members + [Member(name, v)]), t[1..], under)
          else Err(Syntax)
      }
  }

  /** One value and nothing but space after it. */
  function Parse(s: string): Result<Json, JsonError> {
    var r := Value(s, []);
    if r.Err? then Err(r.error)
    else if SkipSpace(r.value.1) != "" then Err(Syntax)
    else Ok(r.value.0)
  }

  // ---- reading what was written ------------------------------------------------------------------

  /** What a tree that was read, or built by the program, always is. */
  predicate WellFormed(v: Json) {
    match v
    case Null => true
    case Bool(_) => true
    case Number(raw) => IsNumber(raw)
    case String(s) => IsIjson(s)
    case Array(items) => forall i :: 0 <= i < |items| ==> WellFormed(items[i])
    case Object(members) =>
      && DistinctNames(members)
      && forall i :: 0 <= i < |members| ==> IsIjson(members[i].name) && WellFormed(members[i].value)
  }

  /** What `Print` begins with is neither space nor a closing bracket. */
  predicate Begins(s: string) {
    s != "" && !IsSpace(s[0]) && s[0] != ']' && s[0] != '}'
  }

  lemma NumberBegins(raw: string)
    requires IsNumber(raw)
    ensures raw != "" && (raw[0] == '-' || T.IsDigit(raw[0]))
  {
  }

  lemma PrintBegins(v: Json)
    requires WellFormed(v)
    ensures Begins(Print(v))
  {
    if v.Number? {
      NumberBegins(v.raw);
    }
  }

  predicate IsLeaf(v: Json) {
    !v.Array? && !v.Object?
  }

  lemma WordsRead(rest: string)
    ensures ParseLeaf("null" + rest) == Ok((Null, rest))
    ensures ParseLeaf("true" + rest) == Ok((Bool(true), rest))
    ensures ParseLeaf("false" + rest) == Ok((Bool(false), rest))
  {
    Cut("null", rest);
    Cut("true", rest);
    Cut("false", rest);
  }

  lemma LeafRead(v: Json, rest: string)
    requires WellFormed(v) && IsLeaf(v) && Ends(rest)
    ensures Print(v) + rest != "" && ParseLeaf(Print(v) + rest) == Ok((v, rest))
  {
    if v.Number? {
      NumberBegins(v.raw);
      NumberRoundTrip(v.raw, rest);
    } else if v.String? {
      StringRoundTrip(v.s, rest);
    } else {
      WordsRead(rest);
    }
  }

  lemma LeafValue(v: Json, rest: string, stack: seq<Open>)
    requires WellFormed(v) && IsLeaf(v) && Ends(rest)
    ensures Value(Print(v) + rest, stack) == Complete(v, rest, stack)
  {
    PrintBegins(v);
    LeafRead(v, rest);
    LeafIsNoContainer(v);
  }

  lemma LeafIsNoContainer(v: Json)
    requires WellFormed(v) && IsLeaf(v)
    ensures Print(v) != "" && Print(v)[0] != '[' && Print(v)[0] != '{'
  {
    if v.Number? {
      NumberBegins(v.raw);
    }
  }

  lemma NameRead(name: string, rest: string)
    requires IsIjson(name)
    ensures ParseName(Quote(name) + ":" + rest) == Ok((name, rest))
  {
    assert Quote(name) + ":" + rest == Quote(name) + (":" + rest);
    StringRoundTrip(name, ":" + rest);
    assert (":" + rest)[1..] == rest;
  }

  lemma ArrayOpens(inner: string, stack: seq<Open>)
    requires Begins(inner)
    ensures Value("[" + inner, stack) == Value(inner, stack + [OpenArray([])])
  {
    assert ("[" + inner)[1..] == inner;
  }

  lemma ArrayEmpty(rest: string, stack: seq<Open>)
    ensures Value("[" + ("]" + rest), stack) == Complete(Array([]), rest, stack)
  {
    assert ("[" + ("]" + rest))[1..] == "]" + rest && ("]" + rest)[1..] == rest;
  }

  lemma ObjectOpens(inner: string, stack: seq<Open>)
    requires Begins(inner) && ParseName(inner).Ok?
    ensures Value("{" + inner, stack)
         == Value(ParseName(inner).value.1, stack + [OpenObject([], ParseName(inner).value.0)])
  {
    assert ("{" + inner)[1..] == inner;
  }

  lemma ObjectEmpty(rest: string, stack: seq<Open>)
    ensures Value("{" + ("}" + rest), stack) == Complete(Object([]), rest, stack)
  {
    assert ("{" + ("}" + rest))[1..] == "}" + rest && ("}" + rest)[1..] == rest;
  }

  lemma ArrayRead(items: seq<Json>, rest: string, stack: seq<Open>)
    requires (forall i :: 0 <= i < |items| ==> WellFormed(items[i])) && Ends(rest)
    ensures Value(Print(Array(items)) + rest, stack) == Complete(Array(items), rest, stack)
    decreases items, 1
  {
    if items == [] {
      assert Print(Array(items)) + rest == "[" + ("]" + rest);
      ArrayEmpty(rest, stack);
    } else {
      assert Print(Array(items)) + rest == "[" + (PrintItems(items) + "]" + rest);
      ItemsBegin(items);
      ArrayOpens(PrintItems(items) + "]" + rest, stack);
      ItemsRead([], items, rest, stack);
      assert [] + items == items;
    }
  }

  lemma ObjectText(members: seq<Member>, rest: string)
    ensures Print(Object(members)) + rest == "{" + (PrintMembers(members) + "}" + rest)
  {
  }

  lemma ObjectRead(members: seq<Member>, rest: string, stack: seq<Open>)
    requires DistinctNames(members) && Ends(rest)
    requires forall i :: 0 <= i < |members| ==> IsIjson(members[i].name) && WellFormed(members[i].value)
    ensures Value(Print(Object(members)) + rest, stack) == Complete(Object(members), rest, stack)
    decreases members, 1
  {
    ObjectText(members, rest);
    var inner := PrintMembers(members) + "}" + rest;
    if members == [] {
      assert inner == "}" + rest;
      ObjectEmpty(rest, stack);
    } else {
      MembersBegin(members);
      MembersRead([], members, rest, stack);
      ObjectOpens(inner, stack);
      assert [] + members == members;
    }
  }

  /** Reading the text of a value completes that value, before anything that may follow one. */
  lemma {:induction false} ValueRead(v: Json, rest: string, stack: seq<Open>)
    requires WellFormed(v) && Ends(rest)
    ensures Value(Print(v) + rest, stack) == Complete(v, rest, stack)
    decreases v
  {
    if v.Array? {
      ArrayRead(v.items, rest, stack);
    } else if v.Object? {
      ObjectRead(v.members, rest, stack);
    } else {
      LeafValue(v, rest, stack);
    }
  }

  lemma ItemsBegin(items: seq<Json>)
    requires items != [] && forall i :: 0 <= i < |items| ==> WellFormed(items[i])
    ensures Begins(PrintItems(items))
  {
    PrintBegins(items[0]);
  }

  lemma MembersBegin(members: seq<Member>)
    requires members != []
    ensures Begins(PrintMembers(members))
  {
  }

  /** What follows the first item. */
  function AfterItem(items: seq<Json>, rest: string): string
    requires items != []
  {
    if |items| == 1 then "]" + rest else "," + (PrintItems(items[1..]) + "]" + rest)
  }

  lemma ItemsSplit(items: seq<Json>, rest: string)
    requires items != []
    ensures PrintItems(items) + "]" + rest == Print(items[0]) + AfterItem(items, rest) && Ends(AfterItem(items, rest))
  {
  }

  lemma NextItem(v: Json, more: string, stack: seq<Open>, done: seq<Json>)
    ensures Complete(v, "," + more, stack + [OpenArray(done)]) == Value(more, stack + [OpenArray(done + [v])])
  {
    var top := stack + [OpenArray(done)];
    assert top[..|top| - 1] == stack && ("," + more)[1..] == more;
  }

  lemma LastItem(v: Json, rest: string, stack: seq<Open>, done: seq<Json>)
    ensures Complete(v, "]" + rest, stack + [OpenArray(done)]) == Complete(Array(done + [v]), rest, stack)
  {
    var top := stack + [OpenArray(done)];
    assert top[..|top| - 1] == stack && ("]" + rest)[1..] == rest;
  }

  /** Reading the first item leaves the rest of the items, or closes the array. */
  lemma FirstItem(done: seq<Json>, items: seq<Json>, rest: string, stack: seq<Open>)
    requires items != []
    requires Value(Print(items[0]) + AfterItem(items, rest), stack + [OpenArray(done)])
          == Complete(items[0], AfterItem(items, rest), stack + [OpenArray(done)])
    ensures Value(PrintItems(items) + "]" + rest, stack + [OpenArray(done)])
         == if |items| == 1 then Complete(Array(done + items), rest, stack)
            else Value(PrintItems(items[1..]) + "]" + rest, stack + [OpenArray(done + [items[0]])])
  {
    ItemsSplit(items, rest);
    if |items| == 1 {
      LastItem(items[0], rest, stack, done);
      assert done + [items[0]] == done + items;
    } else {
      NextItem(items[0], PrintItems(items[1..]) + "]" + rest, stack, done);
    }
  }

  predicate AllWellFormed(items: seq<Json>) {
    forall i :: 0 <= i < |items| ==> WellFormed(items[i])
  }

  lemma {:induction false} ItemsRead(done: seq<Json>, items: seq<Json>, rest: string, stack: seq<Open>)
    requires items != [] && AllWellFormed(items) && Ends(rest)
    ensures Value(PrintItems(items) + "]" + rest, stack + [OpenArray(done)])
         == Complete(Array(done + items), rest, stack)
    decreases items, 0
  {
    ItemsSplit(items, rest);
    ValueRead(items[0], AfterItem(items, rest), stack + [OpenArray(done)]);
    FirstItem(done, items, rest, stack);
    if |items| > 1 {
      ItemsRead(done + [items[0]], items[1..], rest, stack);
      assert done + [items[0]] + items[1..] == done + items;
    }
  }

  /** What follows the first member. */
  function AfterMember(members: seq<Member>, rest: string): string
    requires members != []
  {
    if |members| == 1 then "}" + rest else "," + (PrintMembers(members[1..]) + "}" + rest)
  }

  lemma MembersJoin(members: seq<Member>, rest: string)
    requires members != []
    ensures PrintMembers(members) + "}" + rest == PrintMember(members[0]) + AfterMember(members, rest)
  {
  }

  lemma MembersSplit(members: seq<Member>, rest: string)
    requires members != [] && IsIjson(members[0].name)
    ensures ParseName(PrintMembers(members) + "}" + rest)
         == Ok((members[0].name, Print(members[0].value) + AfterMember(members, rest)))
    ensures Ends(AfterMember(members, rest))
  {
    var m, after := members[0], AfterMember(members, rest);
    MembersJoin(members, rest);
    assert PrintMember(m) + after == Quote(m.name) + ":" + (Print(m.value) + after);
    NameRead(m.name, Print(m.value) + after);
  }

  lemma NextMember(v: Json, more: string, stack: seq<Open>, done: seq<Member>, name: string)
    requires name !in Names(done) && ParseName(more).Ok?
    ensures Complete(v, "," + more, stack + [OpenObject(done, name)])
         == Value(ParseName(more).value.1, stack + [OpenObject(done + [Member(name, v)], ParseName(more).value.0)])
  {
    var top := stack + [OpenObject(done, name)];
    assert top[..|top| - 1] == stack && ("," + more)[1..] == more;
  }

  lemma LastMember(v: Json, rest: string, stack: seq<Open>, done: seq<Member>, name: string)
    requires name !in Names(done)
    ensures Complete(v, "}" + rest, stack + [OpenObject(done, name)])
         == Complete(Object(done + [Member(name, v)]), rest, stack)
  {
    var top := stack + [OpenObject(done, name)];
    assert top[..|top| - 1] == stack && ("}" + rest)[1..] == rest;
  }

  lemma NewName(done: seq<Member>, members: seq<Member>)
    requires members != [] && DistinctNames(done + members)
    ensures members[0].name !in Names(done)
  {
    assert (done + members)[|done|] == members[0];
    assert forall i :: 0 <= i < |done| ==> (done + members)[i] == done[i];
  }

  ghost predicate ReadsMembers(done: seq<Member>, members: seq<Member>, rest: string, stack: seq<Open>) {
    var name := ParseName(PrintMembers(members) + "}" + rest);
    name.Ok? && Value(name.value.1, stack + [OpenObject(done, name.value.0)])
      == Complete(Object(done + members), rest, stack)
  }

  /** The first member's value is read where the object expects it. */
  ghost predicate ReadsFirst(done: seq<Member>, members: seq<Member>, rest: string, stack: seq<Open>)
    requires members != []
  {
    Value(Print(members[0].value) + AfterMember(members, rest), stack + [OpenObject(done, members[0].name)])
    == Complete(members[0].value, AfterMember(members, rest), stack + [OpenObject(done, members[0].name)])
  }

  lemma OnlyMember(done: seq<Member>, m: Member, rest: string, stack: seq<Open>)
    requires IsIjson(m.name) && m.name !in Names(done) && ReadsFirst(done, [m], rest, stack)
    ensures ReadsMembers(done, [m], rest, stack)
  {
    MembersSplit([m], rest);
    LastMember(m.value, rest, stack, done, m.name);
  }

  lemma FirstMember(done: seq<Member>, members: seq<Member>, rest: string, stack: seq<Open>)
    requires |members| > 1 && IsIjson(members[0].name) && members[0].name !in Names(done)
    requires ReadsFirst(done, members, rest, stack) && ReadsMembers(done + [members[0]], members[1..], rest, stack)
    ensures ReadsMembers(done, members, rest, stack)
  {
    MembersSplit(members, rest);
    NextMember(members[0].value, PrintMembers(members[1..]) + "}" + rest, stack, done, members[0].name);
    assert done + [members[0]] + members[1..] == done + members;
  }

  predicate AllMembersWellFormed(members: seq<Member>) {
    forall i :: 0 <= i < |members| ==> IsIjson(members[i].name) && WellFormed(members[i].value)
  }

  lemma OtherMembers(done: seq<Member>, members: seq<Member>)
    requires |members| > 1 && DistinctNames(done + members) && AllMembersWellFormed(members)
    ensures DistinctNames(done + [members[0]] + members[1..]) && AllMembersWellFormed(members[1..])
  {
    assert done + [members[0]] + members[1..] == done + members;
  }

  lemma {:induction false} MembersRead(done: seq<Member>, members: seq<Member>, rest: string, stack: seq<Open>)
    requires members != [] && DistinctNames(done + members) && AllMembersWellFormed(members) && Ends(rest)
    ensures ReadsMembers(done, members, rest, stack)
    decreases members, 0
  {
    NewName(done, members);
    FirstMemberRead(done, members, rest, stack);
    if |members| == 1 {
      assert members == [members[0]];
      OnlyMember(done, members[0], rest, stack);
    } else {
      OtherMembers(done, members);
      MembersRead(done + [members[0]], members[1..], rest, stack);
      FirstMember(done, members, rest, stack);
    }
  }

  lemma {:induction false} FirstMemberRead(done: seq<Member>, members: seq<Member>, rest: string, stack: seq<Open>)
    requires members != [] && AllMembersWellFormed(members) && Ends(rest)
    ensures ReadsFirst(done, members, rest, stack)
    decreases members[0]
  {
    ValueRead(members[0].value, AfterMember(members, rest), stack + [OpenObject(done, members[0].name)]);
  }

  /** The reader undoes the writer: the text of every well-formed tree reads back as that tree. */
  lemma ParseOfPrint(v: Json)
    requires WellFormed(v)
    ensures Parse(Print(v)) == Ok(v)
  {
    ValueRead(v, "", []);
    assert Print(v) + "" == Print(v);
  }

  // ---- what is read is well formed ---------------------------------------------------------------

  predicate OpenWellFormed(o: Open) {
    match o
    case OpenArray(items) => AllWellFormed(items)
    case OpenObject(members, name) => DistinctNames(members) && AllMembersWellFormed(members) && IsIjson(name)
  }

  predicate StackWellFormed(stack: seq<Open>) {
    forall i :: 0 <= i < |stack| ==> OpenWellFormed(stack[i])
  }

  ghost predicate Sound(r: Result<(Json, string), JsonError>) {
    r.Ok? ==> WellFormed(r.value.0)
  }

  lemma NumberSound(s: string)
    requires s != "" && (s[0] == '-' || T.IsDigit(s[0]))
    ensures ParseNumber(s).Ok? ==> WellFormed(Number(ParseNumber(s).value.0))
  {
    if ParseNumber(s).Ok? {
      ParsedNumber(s);
    }
  }

  lemma LeafSound(s: string)
    requires s != ""
    ensures Sound(ParseLeaf(s))
  {
    if s[0] == '-' || T.IsDigit(s[0]) {
      NumberSound(s);
    }
  }

  lemma PushWellFormed(stack: seq<Open>, o: Open)
    requires StackWellFormed(stack) && OpenWellFormed(o)
    ensures StackWellFormed(stack + [o])
  {
  }

  lemma NameSound(s: string)
    ensures ParseName(s).Ok? ==> IsIjson(ParseName(s).value.0)
  {
  }

  lemma ItemAdded(items: seq<Json>, v: Json)
    requires AllWellFormed(items) && WellFormed(v)
    ensures AllWellFormed(items + [v]) && WellFormed(Array(items + [v]))
  {
  }

  lemma MemberAdded(members: seq<Member>, name: string, v: Json)
    requires DistinctNames(members) && AllMembersWellFormed(members)
    requires IsIjson(name) && WellFormed(v) && name !in Names(members)
    ensures DistinctNames(members + [Member(name, v)]) && AllMembersWellFormed(members + [Member(name, v)])
    ensures WellFormed(Object(members + [Member(name, v)]))
  {
    assert forall i :: 0 <= i < |members| ==> members[i].name in Names(members);
  }

  lemma {:induction false} ValueSound(s: string, stack: seq<Open>)
    requires StackWellFormed(stack)
    ensures Sound(Value(s, stack))
    decreases |s|
  {
    var t := SkipSpace(s);
    if t != "" {
      if t[0] == '[' {
        var u := SkipSpace(t[1..]);
        if u != "" && u[0] == ']' {
          CompleteSound(Array([]), u[1..], stack);
        } else {
          PushWellFormed(stack, OpenArray([]));
          ValueSound(u, stack + [OpenArray([])]);
        }
      } else if t[0] == '{' {
        var u := SkipSpace(t[1..]);
        if u != "" && u[0] == '}' {
          CompleteSound(Object([]), u[1..], stack);
        } else if ParseName(u).Ok? {
          NameSound(u);
          PushWellFormed(stack, OpenObject([], ParseName(u).value.0));
          ValueSound(ParseName(u).value.1, stack + [OpenObject([], ParseName(u).value.0)]);
        }
      } else if ParseLeaf(t).Ok? {
        LeafSound(t);
        CompleteSound(ParseLeaf(t).value.0, ParseLeaf(t).value.1, stack);
      }
    }
  }

  lemma {:induction false} CompleteSound(v: Json, s: string, stack: seq<Open>)
    requires WellFormed(v) && StackWellFormed(stack)
    ensures Sound(Complete(v, s, stack))
    decreases |s|
  {
    if stack != [] {
      var under, top := stack[..|stack| - 1], stack[|stack| - 1];
      var t := SkipSpace(s);
      assert OpenWellFormed(top);
      if t != "" && top.OpenArray? {
        ItemAdded(top.items, v);
        if t[0] == ',' {
          PushWellFormed(under, OpenArray(top.items + [v]));
          ValueSound(t[1..], under + [OpenArray(top.items + [v])]);
        } else if t[0] == ']' {
          CompleteSound(Array(top.items + [v]), t[1..], under);
        }
      } else if t != "" && top.name !in Names(top.members) {
        CompleteInObject(v, t, under, top.members, top.name);
      }
    }
  }

  lemma {:induction false} CompleteInObject(v: Json, t: string, under: seq<Open>, members: seq<Member>, name: string)
    requires WellFormed(v) && StackWellFormed(under)
    requires OpenWellFormed(OpenObject(members, name)) && name !in Names(members)
    requires t != "" && !IsSpace(t[0])
    ensures Sound(Complete(v, t, under + [OpenObject(members, name)]))
    decreases |t|, 0
  {
    var more := members + [Member(name, v)];
    var stack := under + [OpenObject(members, name)];
    assert stack[..|stack| - 1] == under;
    MemberAdded(members, name, v);
    if t[0] == ',' && ParseName(t[1..]).Ok? {
      NameSound(t[1..]);
      PushWellFormed(under, OpenObject(more, ParseName(t[1..]).value.0));
      ValueSound(ParseName(t[1..]).value.1, under + [OpenObject(more, ParseName(t[1..]).value.0)]);
    } else if t[0] == '}' {
      CompleteSound(Object(more), t[1..], under);
    }
  }

  /** Whatever is read is well formed, so its compact text reads back as the same tree. */
  lemma ParsedIsWellFormed(s: string)
    requires Parse(s).Ok?
    ensures WellFormed(Parse(s).value) && Parse(Print(Parse(s).value)) == Parse(s)
  {
    ValueSound(s, []);
    ParseOfPrint(Parse(s).value);
  }

  // ---- the reader's loops ------------------------------------------------------------------------

  /** Either a value to put into the innermost container, or the text and stack to read the next one from. */
  datatype Point = AtValue(s: string, stack: seq<Open>) | AtComplete(v: Json, s: string, stack: seq<Open>)

  /** What is read from a point on. */
  function From(p: Point): Result<(Json, string), JsonError> {
    if p.AtValue? then Value(p.s, p.stack) else Complete(p.v, p.s, p.stack)
  }

  /** Read a value or open the container it begins with. */
  method BeginValue(s: string, stack: seq<Open>) returns (next: Result<Point, JsonError>)
    ensures next.Err? ==> Value(s, stack) == Err(next.error)
    ensures next.Ok? ==> Value(s, stack) == From(next.value) && |next.value.s| < |s|
  {
    var t := SkipSpace(s);
    if t == "" {
      return Err(Syntax);
    }
    if t[0] == '[' {
      var u := SkipSpace(t[1..]);
      if u != "" && u[0] == ']' {
        return Ok(AtComplete(Array([]), u[1..], stack));
      }
      return Ok(AtValue(u, stack + [OpenArray([])]));
    }
    if t[0] == '{' {
      var u := SkipSpace(t[1..]);
      if u != "" && u[0] == '}' {
        return Ok(AtComplete(Object([]), u[1..], stack));
      }
      var name := ParseName(u);
      return if name.Err? then Err(name.error) else Ok(AtValue(name.value.1, stack + [OpenObject([], name.value.0)]));
    }
    var leaf := ParseLeaf(t);
    return if leaf.Err? then Err(leaf.error) else Ok(AtComplete(leaf.value.0, leaf.value.1, stack));
  }

  /** Put a complete value into the innermost open container, which it may close. */
  method Place(v: Json, s: string, stack: seq<Open>) returns (next: Result<Point, JsonError>)
    requires stack != []
    ensures next.Err? ==> Complete(v, s, stack) == Err(next.error)
    ensures next.Ok? ==> Complete(v, s, stack) == From(next.value) && |next.value.s| < |s|
  {
    var under, top := stack[..|stack| - 1], stack[|stack| - 1];
    var t := SkipSpace(s);
    match top {
      case OpenArray(items) =>
        if t != "" && t[0] == ',' {
          return Ok(AtValue(t[1..], under + [OpenArray(items + [v])]));
        }
        if t != "" && t[0] == ']' {
          return Ok(AtComplete(Array(items + [v]), t[1..], under));
        }
        return Err(Syntax);
      case OpenObject(members, name) =>
        if name in Names(members) {
          return Err(DuplicateMember(name));
        }
        var more := members + [Member(name, v)];
        if t != "" && t[0] == ',' {
          var following := ParseName(t[1..]);
          return if following.Err? then Err(following.error)
                 else Ok(AtValue(following.value.1, under + [OpenObject(more, following.value.0)]));
        }
        if t != "" && t[0] == '}' {
          return Ok(AtComplete(Object(more), t[1..], under));
        }
        return Err(Syntax);
    }
  }

  /** The reader keeps its open containers on a stack of its own, so a tree of any depth is read in a loop. */
  method ParseText(s: string) returns (r: Result<Json, JsonError>)
    ensures r == Parse(s)
  {
    var at := AtValue(s, []);
    while !(at.AtComplete? && at.stack == [])
      invariant Value(s, []) == From(at)
      decreases |at.s|
    {
      var next;
      if at.AtValue? {
        next := BeginValue(at.s, at.stack);
      } else {
        next := Place(at.v, at.s, at.stack);
      }
      if next.Err? {
        return Err(next.error);
      }
      at := next.value;
    }
    r := if SkipSpace(at.s) != "" then Err(Syntax) else Ok(at.v);
  }
}
