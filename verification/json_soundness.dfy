/** What the reader takes is spelled: the text it has read, with the containers still open, is always the
    beginning of a text of the grammar. */
module JsonSoundness {
  import opened Common
  import opened Json
  import opened JsonText
  import opened JsonGrammar
  import T = Timestamp

  // ---- strings -------------------------------------------------------------------------------------

  lemma QuadOf(s: string)
    requires Hex4(s).Some?
    ensures HexQuad(s[..4], Hex4(s).value)
  {
    HexDigits(s[0]);
    HexDigits(s[1]);
    HexDigits(s[2]);
    HexDigits(s[3]);
  }

  /** A prefix of `s` spells `c` after a backslash, and `rest` is what is left. */
  ghost predicate EscapeTaken(s: string, c: char, rest: string) {
    |rest| < |s| && s == s[..|s| - |rest|] + rest && CharSpelled(['\\'] + s[..|s| - |rest|], c)
  }

  lemma PairOf(s: string, hi: nat, lo: nat, c: char)
    requires |s| >= 10 && HexQuad(s[..4], hi) && s[4] == '\\' && s[5] == 'u' && HexQuad(s[6..10], lo)
    requires Surrogates(hi, lo, c as int)
    ensures CharSpelled(['\\', 'u'] + s[..10], c)
  {
    var a := ['\\', 'u'] + s[..10];
    assert a[2..6] == s[..4] && a[8..12] == s[6..10];
  }

  lemma CodePointTaken(s: string)
    requires CodePoint(s).Ok?
    ensures var (c, rest) := CodePoint(s).value;
            && |rest| < |s| && s == s[..|s| - |rest|] + rest && CharSpelled(['\\', 'u'] + s[..|s| - |rest|], c)
  {
    var hi := Hex4(s).value;
    QuadOf(s);
    if 0xD800 <= hi <= 0xDBFF {
      var more := s[4..];
      QuadOf(more[2..]);
      assert more[2..][..4] == s[6..10] && more[6..] == s[10..] && s[4] == more[0] && s[5] == more[1];
      PairOf(s, hi, Hex4(more[2..]).value, CodePoint(s).value.0);
    } else {
      assert (['\\', 'u'] + s[..4])[2..6] == s[..4];
    }
  }

  lemma ShortTaken(s: string)
    requires Escaped(s).Ok? && s[0] != 'u'
    ensures ShortEscape(s[0], Escaped(s).value.0) && Escaped(s).value.1 == s[1..]
  {
  }

  lemma EscapeText(s: string, c: char, rest: string)
    requires s != "" && ((rest == s[1..] && ShortEscape(s[0], c))
                         || (s[0] == 'u' && |rest| < |s| - 1 && s[1..] == s[1..][..|s| - 1 - |rest|] + rest
                             && CharSpelled(['\\', 'u'] + s[1..][..|s| - 1 - |rest|], c)))
    ensures EscapeTaken(s, c, rest)
  {
    var code := s[..|s| - |rest|];
    if rest == s[1..] && ShortEscape(s[0], c) {
      assert code == [s[0]] && ['\\'] + code == ['\\', s[0]];
    } else {
      assert ['\\'] + code == ['\\', 'u'] + s[1..][..|s| - 1 - |rest|];
    }
  }

  lemma EscapedTaken(s: string)
    requires Escaped(s).Ok?
    ensures EscapeTaken(s, Escaped(s).value.0, Escaped(s).value.1)
  {
    if s[0] == 'u' {
      CodePointTaken(s[1..]);
    } else {
      ShortTaken(s);
    }
    EscapeText(s, Escaped(s).value.0, Escaped(s).value.1);
  }

  /** `e` and a quote have been read as `t`. */
  ghost predicate BodyTaken(s: string, e: string, t: string, rest: string) {
    s == e + ("\"" + rest) && CharsSpelled(e, t)
  }

  lemma MoreChars(s: string, a: string, c: char, more: string, e: string, t: string, rest: string)
    requires s == a + more && a != "" && CharSpelled(a, c) && BodyTaken(more, e, t, rest)
    ensures BodyTaken(s, a + e, [c] + t, rest)
  {
    assert (a + e)[..|a|] == a && (a + e)[|a|..] == e && ([c] + t)[1..] == t;
    assert FirstSpelled(a + e, [c] + t, |a|);
    assert a + (e + ("\"" + rest)) == a + e + ("\"" + rest);
  }

  lemma {:induction false} StringBodyTaken(s: string) returns (e: string)
    requires StringBody(s).Ok?
    ensures BodyTaken(s, e, StringBody(s).value.0, StringBody(s).value.1)
    decreases |s|
  {
    if s[0] == '"' {
      e := "";
      assert s == "" + ("\"" + s[1..]);
    } else if s[0] == '\\' {
      EscapedTaken(s[1..]);
      var (c, more) := Escaped(s[1..]).value;
      var code := s[1..][..|s| - 1 - |more|];
      var f := StringBodyTaken(more);
      assert s == (['\\'] + code) + more;
      MoreChars(s, ['\\'] + code, c, more, f, StringBody(more).value.0, StringBody(more).value.1);
      e := ['\\'] + code + f;
    } else {
      var f := StringBodyTaken(s[1..]);
      MoreChars(s, [s[0]], s[0], s[1..], f, StringBody(s[1..]).value.0, StringBody(s[1..]).value.1);
      e := [s[0]] + f;
    }
  }

  /** A text `t` has been read as a string. */
  lemma StringTaken(s: string) returns (t: string)
    requires s != "" && s[0] == '"' && ParseString(s).Ok?
    ensures s == t + ParseString(s).value.1 && StringSpelled(t, ParseString(s).value.0)
  {
    var e := StringBodyTaken(s[1..]);
    t := ['"'] + e + "\"";
    assert t[1..|t| - 1] == e;
    assert s == ['"'] + (e + ("\"" + ParseString(s).value.1));
  }

  // ---- space, names and leaves ---------------------------------------------------------------------

  lemma {:induction false} SkipSplit(s: string) returns (w: string)
    ensures Ws(w) && s == w + SkipSpace(s)
  {
    if s != "" && IsSpace(s[0]) {
      var v := SkipSplit(s[1..]);
      w := [s[0]] + v;
    } else {
      w := "";
      assert s == "" + s;
    }
  }

  lemma NameTaken(s: string) returns (n: string)
    requires ParseName(s).Ok?
    ensures NameSpelled(n, ParseName(s).value.0) && s == n + (":" + ParseName(s).value.1)
  {
    var a := SkipSplit(s);
    var t := SkipSpace(s);
    var quoted := StringTaken(t);
    var after := ParseString(t).value.1;
    var b := SkipSplit(after);
    var rest := ParseName(s).value.1;
    assert SkipSpace(after) == ":" + rest;
    n := a + quoted + b;
    assert Around(n, a, quoted, b);
    Nest(a, quoted, b, ":" + rest);
  }

  lemma NumberTaken(s: string)
    requires ParseNumber(s).Ok?
    ensures s == ParseNumber(s).value.0 + ParseNumber(s).value.1 && NumberSpelled(ParseNumber(s).value.0)
  {
    ParsedNumber(s);
    NumberExactly(ParseNumber(s).value.0);
    NumberIsPrefix(s);
  }

  lemma NumberIsPrefix(s: string)
    requires AfterNumber(s).Some?
    ensures var r := AfterNumber(s).value; s == s[..|s| - |r|] + r
  {
    var d := if s != "" && s[0] == '-' then s[1..] else s;
    IntegerOf(d);
    FractionOf(AfterInteger(d).value);
    ExponentIsSuffix(AfterFraction(AfterInteger(d).value).value);
    Suffixes(s, d, AfterInteger(d).value, AfterFraction(AfterInteger(d).value).value, AfterNumber(s).value);
  }

  predicate IsSuffix(r: string, s: string) {
    |r| <= |s| && s[|s| - |r|..] == r
  }

  lemma ExponentIsSuffix(s: string)
    requires AfterExponent(s).Some?
    ensures IsSuffix(AfterExponent(s).value, s)
  {
    if s != "" && (s[0] == 'e' || s[0] == 'E') {
      DropDigitsSplit(Unsigned(s[1..]));
    }
  }

  lemma Suffixes(s: string, d: string, i: string, f: string, r: string)
    requires IsSuffix(d, s) && IsSuffix(i, d) && IsSuffix(f, i) && IsSuffix(r, f)
    ensures s == s[..|s| - |r|] + r
  {
    assert IsSuffix(i, s) && IsSuffix(f, s);
    assert IsSuffix(r, s);
  }

  lemma LeafTaken(s: string) returns (t: string)
    requires s != "" && ParseLeaf(s).Ok?
    ensures s == t + ParseLeaf(s).value.1 && Spelled(t, ParseLeaf(s).value.0)
  {
    if s[0] == '"' {
      t := StringTaken(s);
    } else if s[0] == '-' || T.IsDigit(s[0]) {
      NumberTaken(s);
      t := ParseNumber(s).value.0;
    } else {
      t := if s[0] == 't' then "true" else if s[0] == 'f' then "false" else "null";
      assert s == t + s[|t|..];
    }
  }

  // ---- containers that are open --------------------------------------------------------------------

  /** The items read so far, each with its comma. */
  ghost predicate ItemsDone(s: string, items: seq<Json>)
    decreases |items|, 1
  {
    if items == [] then s == "" else exists k :: ItemDone(s, items, k)
  }

  ghost predicate ItemDone(s: string, items: seq<Json>, k: int)
    requires items != []
    decreases |items|, 0
  {
    0 <= k < |s| && s[k] == ',' && Padded(s[..k], items[0]) && ItemsDone(s[k + 1..], items[1..])
  }

  lemma Joined(s: string, x: string, k: nat)
    requires k < |s|
    ensures (s + x)[..k] == s[..k] && (s + x)[k] == s[k] && (s + x)[k + 1..] == s[k + 1..] + x
  {
  }

  lemma {:induction false} OneMoreDone(s: string, items: seq<Json>, x: string, v: Json)
    requires ItemsDone(s, items) && Padded(x, v)
    ensures ItemsDone(s + (x + ","), items + [v])
    decreases |items|
  {
    var all := items + [v];
    if items == [] {
      assert s + (x + ",") == x + "," && (x + ",")[..|x|] == x && (x + ",")[|x| + 1..] == "" && all[1..] == [];
      assert ItemDone(x + ",", all, |x|);
    } else {
      var k :| ItemDone(s, items, k);
      Joined(s, x + ",", k);
      OneMoreDone(s[k + 1..], items[1..], x, v);
      assert all[1..] == items[1..] + [v] && all[0] == items[0];
      assert ItemDone(s + (x + ","), all, k);
    }
  }

  lemma {:induction false} LastItemDone(s: string, items: seq<Json>, x: string, v: Json)
    requires ItemsDone(s, items) && Padded(x, v)
    ensures ItemsSpelled(s + x, items + [v])
    decreases |items|
  {
    var all := items + [v];
    if items == [] {
      assert s + x == x && all[0] == v;
    } else {
      var k :| ItemDone(s, items, k);
      Joined(s, x, k);
      LastItemDone(s[k + 1..], items[1..], x, v);
      assert all[1..] == items[1..] + [v] && all[0] == items[0];
      assert ItemThen(s + x, all, k);
    }
  }

  ghost predicate MembersDone(s: string, members: seq<Member>)
    decreases |members|, 1
  {
    if members == [] then s == "" else exists k :: MemberDone(s, members, k)
  }

  ghost predicate MemberDone(s: string, members: seq<Member>, k: int)
    requires members != []
    decreases |members|, 0
  {
    0 <= k < |s| && s[k] == ',' && MemberSpelled(s[..k], members[0]) && MembersDone(s[k + 1..], members[1..])
  }

  lemma {:induction false} OneMoreMember(s: string, members: seq<Member>, x: string, m: Member)
    requires MembersDone(s, members) && MemberSpelled(x, m)
    ensures MembersDone(s + (x + ","), members + [m])
    decreases |members|
  {
    var all := members + [m];
    if members == [] {
      assert s + (x + ",") == x + "," && (x + ",")[..|x|] == x && (x + ",")[|x| + 1..] == "" && all[1..] == [];
      assert MemberDone(x + ",", all, |x|);
    } else {
      var k :| MemberDone(s, members, k);
      Joined(s, x + ",", k);
      OneMoreMember(s[k + 1..], members[1..], x, m);
      assert all[1..] == members[1..] + [m] && all[0] == members[0];
      assert MemberDone(s + (x + ","), all, k);
    }
  }

  lemma {:induction false} LastMemberDone(s: string, members: seq<Member>, x: string, m: Member)
    requires MembersDone(s, members) && MemberSpelled(x, m)
    ensures MembersSpelled(s + x, members + [m])
    decreases |members|
  {
    var all := members + [m];
    if members == [] {
      assert s + x == x && all[0] == m;
    } else {
      var k :| MemberDone(s, members, k);
      Joined(s, x, k);
      LastMemberDone(s[k + 1..], members[1..], x, m);
      assert all[1..] == members[1..] + [m] && all[0] == members[0];
      assert MemberThen(s + x, all, k);
    }
  }

  ghost predicate ObjectOpen(o: string, done: string, n: string, members: seq<Member>, name: string) {
    o == "{" + done + (n + ":") && MembersDone(done, members) && NameSpelled(n, name)
  }

  /** The text of an open container: from its bracket to where its next value begins. */
  ghost predicate OpenText(o: string, open: Open) {
    match open
    case OpenArray(items) => o != "" && o[0] == '[' && ItemsDone(o[1..], items)
    case OpenObject(members, name) => exists done, n :: ObjectOpen(o, done, n, members, name)
  }

  ghost predicate StackParts(p: string, stack: seq<Open>, q: string, w: string, o: string)
    requires stack != []
    decreases |stack|, 0
  {
    p == q + w + o && StackText(q, stack[..|stack| - 1]) && Ws(w) && OpenText(o, stack[|stack| - 1])
  }

  /** The text that leaves these containers open. */
  ghost predicate StackText(p: string, stack: seq<Open>)
    decreases |stack|, 1
  {
    if stack == [] then p == "" else exists q, w, o :: StackParts(p, stack, q, w, o)
  }

  lemma Pushed(q: string, w: string, o: string, stack: seq<Open>, open: Open)
    requires StackText(q, stack) && Ws(w) && OpenText(o, open)
    ensures StackText(q + w + o, stack + [open])
  {
    Cut(stack, [open]);
    assert StackParts(q + w + o, stack + [open], q, w, o);
  }

  // ---- the loops -----------------------------------------------------------------------------------

  /** A value has been read from the front of `text`. */
  ghost predicate Taken(text: string, r: Result<(Json, string), JsonError>) {
    r.Ok? ==> exists full :: text == full + r.value.1 && Padded(full, r.value.0)
  }

  lemma PaddedFront(w: string, t: string, b: string, v: Json)
    requires Ws(w) && Ws(b) && Spelled(t, v)
    ensures Padded(w + t + b, v)
  {
    assert Around(w + t + b, w, t, b);
  }

  lemma RootTaken(text: string, w: string, t: string, v: Json, s: string)
    requires text == w + t + s && Ws(w) && Spelled(t, v)
    ensures Taken(text, Ok((v, s)))
  {
    PaddedFront(w, t, "", v);
    assert w + t + "" == w + t;
  }

  lemma EmptyArray(w: string)
    requires Ws(w)
    ensures Spelled("[" + w + "]", Array([]))
  {
    var t := "[" + w + "]";
    assert t[1..|t| - 1] == w;
  }

  lemma EmptyObject(w: string)
    requires Ws(w)
    ensures Spelled("{" + w + "}", Object([]))
  {
    var t := "{" + w + "}";
    assert t[1..|t| - 1] == w;
  }

  lemma ArrayBegun()
    ensures OpenText("[", OpenArray([]))
  {
  }

  lemma ObjectBegun(n: string, name: string)
    requires NameSpelled(n, name)
    ensures OpenText("{" + (n + ":"), OpenObject([], name))
  {
    assert "{" + "" + (n + ":") == "{" + (n + ":");
    assert ObjectOpen("{" + (n + ":"), "", n, [], name);
  }

  lemma Text4(p: string, w: string, a: string, b: string)
    ensures p + (w + (a + b)) == p + w + a + b
  {
  }

  lemma {:induction false} ValueTakes(text: string, p: string, s: string, stack: seq<Open>)
    requires text == p + s && StackText(p, stack)
    ensures Taken(text, Value(s, stack))
    decreases |s|, 1
  {
    var w := SkipSplit(s);
    var t := SkipSpace(s);
    if t != "" {
      if t[0] == '[' {
        ArrayTakes(text, p, w, t[1..], stack);
        ValueOfSkipped(s, stack);
        assert t == "[" + t[1..];
      } else if t[0] == '{' {
        ObjectTakes(text, p, w, t[1..], stack);
        ValueOfSkipped(s, stack);
        assert t == "{" + t[1..];
      } else if ParseLeaf(t).Ok? {
        var leaf := LeafTaken(t);
        var (v, rest) := ParseLeaf(t).value;
        Text4(p, w, leaf, rest);
        CompleteTakes(text, p, w, leaf, v, rest, stack);
      }
    }
  }

  lemma {:induction false} ArrayTakes(text: string, p: string, w: string, inner: string, stack: seq<Open>)
    requires text == p + (w + ("[" + inner)) && StackText(p, stack) && Ws(w)
    ensures Taken(text, Value("[" + inner, stack))
    decreases |inner| + 1, 0
  {
    var w2 := SkipSplit(inner);
    var u := SkipSpace(inner);
    assert ("[" + inner)[1..] == inner;
    if u != "" && u[0] == ']' {
      EmptyArray(w2);
      assert "[" + inner == "[" + w2 + "]" + u[1..];
      Text4(p, w, "[" + w2 + "]", u[1..]);
      CompleteTakes(text, p, w, "[" + w2 + "]", Array([]), u[1..], stack);
    } else {
      ArrayBegun();
      Pushed(p, w, "[", stack, OpenArray([]));
      Text4(p, w, "[", inner);
      ValueTakes(text, p + w + "[", inner, stack + [OpenArray([])]);
      ValueOfSkipped(inner, stack + [OpenArray([])]);
    }
  }

  lemma {:induction false} ObjectTakes(text: string, p: string, w: string, inner: string, stack: seq<Open>)
    requires text == p + (w + ("{" + inner)) && StackText(p, stack) && Ws(w)
    ensures Taken(text, Value("{" + inner, stack))
    decreases |inner| + 1, 0
  {
    var w2 := SkipSplit(inner);
    var u := SkipSpace(inner);
    assert ("{" + inner)[1..] == inner;
    if u != "" && u[0] == '}' {
      EmptyObject(w2);
      assert "{" + inner == "{" + w2 + "}" + u[1..];
      Text4(p, w, "{" + w2 + "}", u[1..]);
      CompleteTakes(text, p, w, "{" + w2 + "}", Object([]), u[1..], stack);
    } else {
      NameOfSkipped(inner);
      if ParseName(inner).Ok? {
        FirstNameTakes(text, p, w, inner, stack);
      }
    }
  }

  lemma NameOfSkipped(s: string)
    ensures ParseName(SkipSpace(s)) == ParseName(s)
  {
    assert SkipSpace(SkipSpace(s)) == SkipSpace(s);
  }

  lemma {:induction false} FirstNameTakes(text: string, p: string, w: string, inner: string, stack: seq<Open>)
    requires text == p + (w + ("{" + inner)) && StackText(p, stack) && Ws(w) && ParseName(inner).Ok?
    ensures Taken(text, Value(ParseName(inner).value.1, stack + [OpenObject([], ParseName(inner).value.0)]))
    decreases |inner|, 3
  {
    var n := NameTaken(inner);
    var (name, rest) := ParseName(inner).value;
    ObjectBegun(n, name);
    Pushed(p, w, "{" + (n + ":"), stack, OpenObject([], name));
    FirstName(p, w, n, rest);
    ValueTakes(text, p + w + ("{" + (n + ":")), rest, stack + [OpenObject([], name)]);
  }

  lemma FirstName(p: string, w: string, n: string, rest: string)
    ensures p + (w + ("{" + (n + (":" + rest)))) == p + w + ("{" + (n + ":")) + rest
  {
    assert "{" + (n + (":" + rest)) == "{" + (n + ":") + rest;
    Text4(p, w, "{" + (n + ":"), rest);
  }

  lemma Enclosed(o: string, x: string, c: char)
    requires o != ""
    ensures var t := o + (x + [c]);
            && |t| >= 2 && t[0] == o[0] && t[|t| - 1] == c
            && t[1..|t| - 1] == o[1..] + x && t[1..] == o[1..] + (x + [c])
  {
  }

  lemma ArrayClosed(o: string, x: string, items: seq<Json>)
    requires o != "" && o[0] == '[' && ItemsSpelled(o[1..] + x, items)
    ensures Spelled(o + (x + "]"), Array(items))
  {
    Enclosed(o, x, ']');
  }

  /** One more item, and the comma or bracket after it. */
  lemma ItemPlaced(o: string, items: seq<Json>, x: string, v: Json)
    requires OpenText(o, OpenArray(items)) && Padded(x, v)
    ensures OpenText(o + (x + ","), OpenArray(items + [v])) && Spelled(o + (x + "]"), Array(items + [v]))
  {
    OneMoreDone(o[1..], items, x, v);
    LastItemDone(o[1..], items, x, v);
    Enclosed(o, x, ',');
    ArrayClosed(o, x, items + [v]);
  }

  lemma ColonPlaced(n: string, name: string, x: string, v: Json)
    requires NameSpelled(n, name) && Padded(x, v)
    ensures MemberSpelled(n + ":" + x, Member(name, v))
  {
    var s := n + ":" + x;
    assert s[..|n|] == n && s[|n| + 1..] == x;
    assert ColonAt(s, Member(name, v), |n|);
  }

  lemma MemberPlaced(o: string, members: seq<Member>, name: string, x: string, v: Json)
    requires OpenText(o, OpenObject(members, name)) && Padded(x, v)
    ensures Spelled(o + (x + "}"), Object(members + [Member(name, v)]))
  {
    var done, n :| ObjectOpen(o, done, n, members, name);
    ColonPlaced(n, name, x, v);
    LastMemberDone(done, members, n + ":" + x, Member(name, v));
    AfterBrace(o, done, n, x);
    ObjectClosed(o, x, members + [Member(name, v)]);
  }

  lemma AfterBrace(o: string, done: string, n: string, x: string)
    requires o == "{" + done + (n + ":")
    ensures o != "" && o[0] == '{' && o[1..] + x == done + (n + ":" + x)
  {
    assert o[1..] == done + (n + ":");
  }

  lemma ObjectClosed(o: string, x: string, members: seq<Member>)
    requires o != "" && o[0] == '{' && MembersSpelled(o[1..] + x, members)
    ensures Spelled(o + (x + "}"), Object(members))
  {
    Enclosed(o, x, '}');
  }

  lemma NextOpen(o: string, done: string, n: string, members: seq<Member>, name: string)
    requires o == "{" + done + (n + ":") && MembersDone(done, members) && NameSpelled(n, name)
    ensures OpenText(o, OpenObject(members, name))
  {
    assert ObjectOpen(o, done, n, members, name);
  }

  lemma MemberFollowed(o: string, members: seq<Member>, name: string, x: string, v: Json, n2: string, name2: string)
    requires OpenText(o, OpenObject(members, name)) && Padded(x, v) && NameSpelled(n2, name2)
    ensures OpenText(o + (x + "," + (n2 + ":")), OpenObject(members + [Member(name, v)], name2))
  {
    var done, n :| ObjectOpen(o, done, n, members, name);
    var member := n + ":" + x;
    ColonPlaced(n, name, x, v);
    OneMoreMember(done, members, member, Member(name, v));
    AfterComma(done, n, x, n2);
    NextOpen(o + (x + "," + (n2 + ":")), done + (member + ","), n2, members + [Member(name, v)], name2);
  }

  lemma AfterComma(done: string, n: string, x: string, n2: string)
    ensures "{" + done + (n + ":") + (x + "," + (n2 + ":")) == "{" + (done + (n + ":" + x + ",")) + (n2 + ":")
  {
  }

  lemma Regrouped(q: string, w0: string, o: string, w: string, t: string, w2: string, c: string, rest: string)
    ensures q + w0 + o + w + t + (w2 + (c + rest)) == q + w0 + (o + (w + t + w2 + c)) + rest
  {
  }

  lemma {:induction false} CompleteTakes(text: string, p: string, w: string, t: string, v: Json, s: string,
                                         stack: seq<Open>)
    requires text == p + w + t + s && StackText(p, stack) && Ws(w) && Spelled(t, v)
    ensures Taken(text, Complete(v, s, stack))
    decreases |s|, 2
  {
    if stack == [] {
      assert p + w + t + s == w + t + s;
      RootTaken(text, w, t, v, s);
    } else {
      var q, w0, o :| StackParts(p, stack, q, w0, o);
      var w2 := SkipSplit(s);
      var u := SkipSpace(s);
      PaddedFront(w, t, w2, v);
      if u != "" {
        assert u == [u[0]] + u[1..];
        Regrouped(q, w0, o, w, t, w2, [u[0]], u[1..]);
        if stack[|stack| - 1].OpenArray? {
          PlaceInArray(text, q, w0, o, w + t + w2, v, s, stack);
        } else {
          PlaceInObject(text, q, w0, o, w + t + w2, v, s, stack);
        }
      }
    }
  }

  lemma {:induction false} PlaceInArray(text: string, q: string, w0: string, o: string, x: string, v: Json, s: string,
                                        stack: seq<Open>)
    requires stack != [] && stack[|stack| - 1].OpenArray? && SkipSpace(s) != ""
    requires StackText(q, stack[..|stack| - 1]) && Ws(w0) && OpenText(o, stack[|stack| - 1]) && Padded(x, v)
    requires text == q + w0 + (o + (x + [SkipSpace(s)[0]])) + SkipSpace(s)[1..]
    ensures Taken(text, Complete(v, s, stack))
    decreases |s|, 1
  {
    var under, items, u := stack[..|stack| - 1], stack[|stack| - 1].items, SkipSpace(s);
    ItemPlaced(o, items, x, v);
    if u[0] == ',' {
      Pushed(q, w0, o + (x + ","), under, OpenArray(items + [v]));
      ValueTakes(text, q + w0 + (o + (x + ",")), u[1..], under + [OpenArray(items + [v])]);
    } else if u[0] == ']' {
      CompleteTakes(text, q, w0, o + (x + "]"), Array(items + [v]), u[1..], under);
    }
  }

  lemma {:induction false} PlaceInObject(text: string, q: string, w0: string, o: string, x: string, v: Json, s: string,
                                         stack: seq<Open>)
    requires stack != [] && stack[|stack| - 1].OpenObject? && SkipSpace(s) != ""
    requires StackText(q, stack[..|stack| - 1]) && Ws(w0) && OpenText(o, stack[|stack| - 1]) && Padded(x, v)
    requires text == q + w0 + (o + (x + [SkipSpace(s)[0]])) + SkipSpace(s)[1..]
    ensures Taken(text, Complete(v, s, stack))
    decreases |s|, 1
  {
    var under, top, u := stack[..|stack| - 1], stack[|stack| - 1], SkipSpace(s);
    var more := top.members + [Member(top.name, v)];
    if u[0] == ',' && ParseName(u[1..]).Ok? {
      var n := NameTaken(u[1..]);
      var (name, rest) := ParseName(u[1..]).value;
      var o2 := o + (x + "," + (n + ":"));
      MemberFollowed(o, top.members, top.name, x, v, n, name);
      Pushed(q, w0, o2, under, OpenObject(more, name));
      Followed(q + w0, o, x + ",", n + ":", rest);
      ValueTakes(text, q + w0 + o2, rest, under + [OpenObject(more, name)]);
    } else if u[0] == '}' {
      MemberPlaced(o, top.members, top.name, x, v);
      CompleteTakes(text, q, w0, o + (x + "}"), Object(more), u[1..], under);
    }
  }

  lemma Followed(a: string, o: string, x: string, n: string, rest: string)
    ensures a + (o + x) + (n + rest) == a + (o + (x + n)) + rest
  {
  }

  /** Whatever is read is spelled by the whole text. */
  lemma ReadIsSpelled(s: string)
    requires Parse(s).Ok?
    ensures Padded(s, Parse(s).value)
  {
    assert s == "" + s;
    ValueTakes(s, "", s, []);
    var r := Value(s, []).value;
    var full :| s == full + r.1 && Padded(full, r.0);
    var w := SkipSplit(r.1);
    assert r.1 == w;
    PaddedMore(full, w, r.0);
  }

  lemma PaddedMore(s: string, w: string, v: Json)
    requires Padded(s, v) && Ws(w)
    ensures Padded(s + w, v)
  {
    var a, t, b :| Around(s, a, t, b) && Spelled(t, v);
    assert s + w == a + t + (b + w);
    assert Around(s + w, a, t, b + w);
  }

  /** The reader takes a text as a tree exactly when the text spells the tree by the grammar, with space before
      and after, and the tree is one that I-JSON (RFC 7493) allows: no name twice in an object, no
      noncharacter. */
  lemma ParseExactly(s: string, v: Json)
    ensures Parse(s) == Ok(v) <==> Padded(s, v) && WellFormed(v)
  {
    if Parse(s) == Ok(v) {
      ReadIsSpelled(s);
      ParsedIsWellFormed(s);
    }
    if Padded(s, v) && WellFormed(v) {
      SpelledIsRead(s, v);
    }
  }

  // ---- the compact text ----------------------------------------------------------------------------

  predicate LowerCase(a: string) {
    |a| == 6 ==> forall i :: 2 <= i < 6 ==> !('A' <= a[i] <= 'F')
  }

  /** A character is written as the shortest of its spellings, and in lower case. */
  lemma EscapeIsShortest(c: char, a: string)
    requires CharSpelled(a, c)
    ensures |EscapeChar(c)| <= |a|
    ensures |EscapeChar(c)| == |a| && LowerCase(a) ==> EscapeChar(c) == a
  {
    if |a| == 6 && |EscapeChar(c)| == 6 && LowerCase(a) {
      QuadIsEscape(c, a);
    }
  }

  lemma QuadIsEscape(c: char, a: string)
    requires |a| == 6 && a[0] == '\\' && a[1] == 'u' && HexQuad(a[2..6], c as int) && LowerCase(a) && c < ' '
    ensures a == ['\\', 'u', '0', '0', HexDigit(c as nat / 16), HexDigit(c as nat % 16)]
  {
    HexBack(a[2]);
    HexBack(a[3]);
    HexBack(a[4]);
    HexBack(a[5]);
  }

  lemma HexBack(c: char)
    requires Hex(c) >= 0 && !('A' <= c <= 'F')
    ensures Hex(c) < 16 && HexDigit(Hex(c)) == c
  {
  }

  lemma {:induction false} EscapesShortest(e: string, t: string)
    requires CharsSpelled(e, t)
    ensures |Escape(t)| <= |e|
    decreases |t|
  {
    if t != "" {
      var k :| FirstSpelled(e, t, k);
      EscapeIsShortest(t[0], e[..k]);
      EscapesShortest(e[k..], t[1..]);
    }
  }

  lemma NameShortest(s: string, name: string)
    requires NameSpelled(s, name)
    ensures |Quote(name)| <= |s|
  {
    var a, t, b :| Around(s, a, t, b) && StringSpelled(t, name);
    EscapesShortest(t[1..|t| - 1], name);
  }

  lemma {:induction false} PaddedShortest(s: string, v: Json)
    requires Padded(s, v)
    ensures |Print(v)| <= |s|
    decreases v, 1
  {
    var a, t, b :| Around(s, a, t, b) && Spelled(t, v);
    SpelledShortest(t, v);
  }

  lemma {:induction false} SpelledShortest(t: string, v: Json)
    requires Spelled(t, v)
    ensures |Print(v)| <= |t|
    decreases v, 0
  {
    if v.String? {
      EscapesShortest(t[1..|t| - 1], v.s);
    } else if v.Array? {
      ItemsShortest(t[1..|t| - 1], v.items);
    } else if v.Object? {
      MembersShortest(t[1..|t| - 1], v.members);
    }
  }

  lemma {:induction false} ItemsShortest(s: string, items: seq<Json>)
    requires ItemsSpelled(s, items)
    ensures |PrintItems(items)| <= |s|
    decreases items
  {
    if |items| == 1 {
      PaddedShortest(s, items[0]);
    } else if items != [] {
      var k :| ItemThen(s, items, k);
      PaddedShortest(s[..k], items[0]);
      ItemsShortest(s[k + 1..], items[1..]);
    }
  }

  lemma {:induction false} MembersShortest(s: string, members: seq<Member>)
    requires MembersSpelled(s, members)
    ensures |PrintMembers(members)| <= |s|
    decreases members
  {
    if |members| == 1 {
      MemberShortest(s, members[0]);
    } else if members != [] {
      var k :| MemberThen(s, members, k);
      MemberShortest(s[..k], members[0]);
      MembersShortest(s[k + 1..], members[1..]);
    }
  }

  lemma {:induction false} MemberShortest(s: string, m: Member)
    requires MemberSpelled(s, m)
    ensures |PrintMember(m)| <= |s|
    decreases m
  {
    var k :| ColonAt(s, m, k);
    NameShortest(s[..k], m.name);
    PaddedShortest(s[k + 1..], m.value);
  }

  /** The compact text of a tree is the shortest of all texts that are read as it. */
  lemma CompactIsShortest(s: string)
    requires Parse(s).Ok?
    ensures |Print(Parse(s).value)| <= |s|
  {
    ReadIsSpelled(s);
    PaddedShortest(s, Parse(s).value);
  }
}
