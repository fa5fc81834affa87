/** The grammar of JSON text (RFC 8259), as what each value may be spelled as, apart from any reader: the
    reader takes exactly the texts that spell a tree, and reads them as that tree. */
module JsonGrammar {
  import opened Common
  import opened Json
  import opened JsonText
  import T = Timestamp

  // ---- strings (section 7) -------------------------------------------------------------------------

  /** The number of hexadecimal digits, either case. */
  function Hex(c: char): int {
    if '0' <= c <= '9' then c as int - 48
    else if 'a' <= c <= 'f' then c as int - 97 + 10
    else if 'A' <= c <= 'F' then c as int - 65 + 10
    else -1
  }

  predicate HexQuad(s: string, n: int) {
    && |s| == 4 && Hex(s[0]) >= 0 && Hex(s[1]) >= 0 && Hex(s[2]) >= 0 && Hex(s[3]) >= 0
    && n == Hex(s[0]) * 4096 + Hex(s[1]) * 256 + Hex(s[2]) * 16 + Hex(s[3])
  }

  /** The two-character escapes. */
  predicate ShortEscape(d: char, c: char) {
    || (d == '"' && c == '"') || (d == '\\' && c == '\\') || (d == '/' && c == '/')
    || (d == 'b' && c as int == 8) || (d == 'f' && c as int == 12) || (d == 'n' && c as int == 10)
    || (d == 'r' && c as int == 13) || (d == 't' && c as int == 9)
  }

  /** A UTF-16 surrogate pair and its code point. */
  predicate Surrogates(hi: int, lo: int, u: int) {
    0xD800 <= hi <= 0xDBFF && 0xDC00 <= lo <= 0xDFFF && u == 0x1_0000 + (hi - 0xD800) * 0x400 + (lo - 0xDC00)
  }

  ghost predicate PairSpelled(a: string, c: char) {
    && |a| == 12 && a[0] == '\\' && a[1] == 'u' && a[6] == '\\' && a[7] == 'u'
    && exists hi, lo :: HexQuad(a[2..6], hi) && HexQuad(a[8..12], lo) && Surrogates(hi, lo, c as int)
  }

  /** The spellings of one character. */
  ghost predicate CharSpelled(a: string, c: char) {
    || (a == [c] && c >= ' ' && c != '"' && c != '\\')
    || (|a| == 2 && a[0] == '\\' && ShortEscape(a[1], c))
    || (|a| == 6 && a[0] == '\\' && a[1] == 'u' && HexQuad(a[2..6], c as int))
    || PairSpelled(a, c)
  }

  ghost predicate CharsSpelled(e: string, t: string)
    decreases |t|, 1
  {
    if t == "" then e == "" else exists k :: FirstSpelled(e, t, k)
  }

  ghost predicate FirstSpelled(e: string, t: string, k: int)
    requires t != ""
    decreases |t|, 0
  {
    0 < k <= |e| && CharSpelled(e[..k], t[0]) && CharsSpelled(e[k..], t[1..])
  }

  ghost predicate StringSpelled(s: string, t: string) {
    |s| >= 2 && s[0] == '"' && s[|s| - 1] == '"' && CharsSpelled(s[1..|s| - 1], t)
  }

  // ---- numbers (section 6) -------------------------------------------------------------------------

  predicate SomeDigits(s: string) {
    s != "" && T.AllDigits(s)
  }

  predicate IntegerSpelled(s: string) {
    s == "0" || (SomeDigits(s) && s[0] != '0')
  }

  predicate FractionSpelled(s: string) {
    s == "" || (s[0] == '.' && SomeDigits(s[1..]))
  }

  predicate ExponentSpelled(s: string) {
    s == "" || ((s[0] == 'e' || s[0] == 'E')
                && (SomeDigits(s[1..]) || (|s| > 1 && (s[1] == '+' || s[1] == '-') && SomeDigits(s[2..]))))
  }

  predicate NumberParts(raw: string, sign: string, i: string, f: string, e: string) {
    && raw == sign + i + f + e && (sign == "" || sign == "-")
    && IntegerSpelled(i) && FractionSpelled(f) && ExponentSpelled(e)
  }

  ghost predicate NumberSpelled(raw: string) {
    exists sign, i, f, e :: NumberParts(raw, sign, i, f, e)
  }

  // ---- values (sections 2 to 5) --------------------------------------------------------------------

  /** Blank, tab, line feed or carriage return. */
  predicate Ws(s: string) {
    forall i :: 0 <= i < |s| ==> s[i] as int == 32 || s[i] as int == 9 || s[i] as int == 10 || s[i] as int == 13
  }

  /** `t` with space around it. */
  predicate Around(s: string, a: string, t: string, b: string) {
    s == a + t + b && Ws(a) && Ws(b)
  }

  ghost predicate NameSpelled(s: string, name: string) {
    exists a, t, b :: Around(s, a, t, b) && StringSpelled(t, name)
  }

  ghost predicate Padded(s: string, v: Json)
    decreases v, 1
  {
    exists a, t, b :: Around(s, a, t, b) && Spelled(t, v)
  }

  ghost predicate Spelled(t: string, v: Json)
    decreases v, 0
  {
    match v
    case Null => t == "null"
    case Bool(b) => t == if b then "true" else "false"
    case Number(raw) => t == raw && NumberSpelled(raw)
    case String(s) => StringSpelled(t, s)
    case Array(items) => |t| >= 2 && t[0] == '[' && t[|t| - 1] == ']' && ItemsSpelled(t[1..|t| - 1], items)
    case Object(members) => |t| >= 2 && t[0] == '{' && t[|t| - 1] == '}' && MembersSpelled(t[1..|t| - 1], members)
  }

  ghost predicate ItemsSpelled(s: string, items: seq<Json>)
    decreases items, 1
  {
    if items == [] then Ws(s)
    else if |items| == 1 then Padded(s, items[0])
    else exists k :: ItemThen(s, items, k)
  }

  ghost predicate ItemThen(s: string, items: seq<Json>, k: int)
    requires |items| > 1
    decreases items, 0
  {
    0 <= k < |s| && s[k] == ',' && Padded(s[..k], items[0]) && ItemsSpelled(s[k + 1..], items[1..])
  }

  ghost predicate MembersSpelled(s: string, members: seq<Member>)
    decreases members, 1
  {
    if members == [] then Ws(s)
    else if |members| == 1 then MemberSpelled(s, members[0])
    else exists k :: MemberThen(s, members, k)
  }

  ghost predicate MemberThen(s: string, members: seq<Member>, k: int)
    requires |members| > 1
    decreases members, 0
  {
    0 <= k < |s| && s[k] == ',' && MemberSpelled(s[..k], members[0]) && MembersSpelled(s[k + 1..], members[1..])
  }

  ghost predicate MemberSpelled(s: string, m: Member)
    decreases m, 1
  {
    exists k :: ColonAt(s, m, k)
  }

  ghost predicate ColonAt(s: string, m: Member, k: int)
    decreases m, 0
  {
    0 <= k < |s| && s[k] == ':' && NameSpelled(s[..k], m.name) && Padded(s[k + 1..], m.value)
  }

  // ---- what is refused -----------------------------------------------------------------------------

  /** The first thing in a tree, in the order of its text, that the reader refuses although the grammar allows
      it: a noncharacter, or a name its object already has. */
  function Fault(v: Json): Option<JsonError>
    decreases v
  {
    match v
    case String(s) => if IsIjson(s) then None else Some(ForbiddenCodePoint)
    case Array(items) => ItemsFault(items)
    case Object(members) => MembersFault([], members)
    case _ => None
  }

  function ItemsFault(items: seq<Json>): Option<JsonError>
    decreases items
  {
    if items == [] then None else Or(Fault(items[0]), ItemsFault(items[1..]))
  }

  function MembersFault(done: seq<Member>, members: seq<Member>): Option<JsonError>
    decreases members
  {
    if members == [] then None
    else Or(MemberFault(done, members[0]), MembersFault(done + [members[0]], members[1..]))
  }

  function MemberFault(done: seq<Member>, m: Member): Option<JsonError>
    decreases m
  {
    if !IsIjson(m.name) then Some(ForbiddenCodePoint)
    else Or(Fault(m.value), if m.name in Names(done) then Some(DuplicateMember(m.name)) else None)
  }

  function Or(first: Option<JsonError>, second: Option<JsonError>): Option<JsonError> {
    if first.Some? then first else second
  }

  /** The result of reading on, unless something was refused. */
  function Unless<X>(fault: Option<JsonError>, r: Result<X, JsonError>): Result<X, JsonError> {
    if fault.Some? then Err(fault.value) else r
  }

  lemma {:induction false} WellFormedHasNoFault(v: Json)
    requires WellFormed(v)
    ensures Fault(v).None?
    decreases v, 1
  {
    if v.Array? {
      ItemsHaveNoFault(v.items);
    } else if v.Object? {
      assert [] + v.members == v.members;
      MembersHaveNoFault([], v.members);
    }
  }

  lemma {:induction false} ItemsHaveNoFault(items: seq<Json>)
    requires AllWellFormed(items)
    ensures ItemsFault(items).None?
    decreases items, 0
  {
    if items != [] {
      WellFormedHasNoFault(items[0]);
      ItemsHaveNoFault(items[1..]);
    }
  }

  lemma {:induction false} MembersHaveNoFault(done: seq<Member>, members: seq<Member>)
    requires DistinctNames(done + members) && AllMembersWellFormed(members)
    ensures MembersFault(done, members).None?
    decreases members, 0
  {
    if members != [] {
      NewName(done, members);
      MemberHasNoFault(done, members[0]);
      assert done + [members[0]] + members[1..] == done + members;
      MembersHaveNoFault(done + [members[0]], members[1..]);
    }
  }

  lemma {:induction false} MemberHasNoFault(done: seq<Member>, m: Member)
    requires IsIjson(m.name) && WellFormed(m.value) && m.name !in Names(done)
    ensures MemberFault(done, m).None?
    decreases m, 0
  {
    WellFormedHasNoFault(m.value);
  }

  // ---- what is spelled is read: strings ------------------------------------------------------------

  lemma HexDigits(c: char)
    ensures HexValue(c) == if Hex(c) >= 0 then Some(Hex(c)) else None
  {
  }

  lemma QuadRead(quad: string, n: int, rest: string)
    requires HexQuad(quad, n)
    ensures Hex4(quad + rest) == Some(n) && (quad + rest)[4..] == rest
  {
    HexDigits(quad[0]);
    HexDigits(quad[1]);
    HexDigits(quad[2]);
    HexDigits(quad[3]);
    var s := quad + rest;
    assert s[0] == quad[0] && s[1] == quad[1] && s[2] == quad[2] && s[3] == quad[3];
  }

  lemma UnicodeRead(a: string, c: char, rest: string)
    requires |a| == 6 && a[0] == '\\' && a[1] == 'u' && HexQuad(a[2..6], c as int)
    ensures StringBody(a + rest) == Before(c, StringBody(rest))
  {
    QuadRead(a[2..6], c as int, rest);
    var code := ['u'] + a[2..6];
    assert (code + rest)[1..] == a[2..6] + rest;
    EscapedRead(c, code, rest);
    assert a + rest == ['\\'] + (code + rest);
  }

  lemma SurrogatesRead(hi: string, lo: string, h: int, l: int, c: char, rest: string)
    requires HexQuad(hi, h) && HexQuad(lo, l) && Surrogates(h, l, c as int)
    ensures CodePoint(hi + ("\\u" + (lo + rest))) == Ok((c, rest))
  {
    QuadRead(hi, h, "\\u" + (lo + rest));
    QuadRead(lo, l, rest);
    assert ("\\u" + (lo + rest))[2..] == lo + rest && ("\\u" + (lo + rest))[6..] == (lo + rest)[4..];
  }

  lemma PairText(a: string, rest: string)
    requires |a| == 12 && a[0] == '\\' && a[1] == 'u' && a[6] == '\\' && a[7] == 'u'
    ensures a[1..][1..] + rest == a[2..6] + ("\\u" + (a[8..12] + rest)) && a + rest == ['\\'] + (a[1..] + rest)
    ensures (a[1..] + rest)[1..] == a[1..][1..] + rest && (a[1..] + rest)[0] == 'u'
  {
    assert a[2..] == a[2..6] + "\\u" + a[8..12];
  }

  lemma PairRead(a: string, c: char, rest: string)
    requires PairSpelled(a, c)
    ensures StringBody(a + rest) == Before(c, StringBody(rest))
  {
    var h, l :| HexQuad(a[2..6], h) && HexQuad(a[8..12], l) && Surrogates(h, l, c as int);
    SurrogatesRead(a[2..6], a[8..12], h, l, c, rest);
    PairText(a, rest);
    EscapedRead(c, a[1..], rest);
  }

  lemma ShortSpelledRead(a: string, c: char, rest: string)
    requires |a| == 2 && a[0] == '\\' && ShortEscape(a[1], c)
    ensures StringBody(a + rest) == Before(c, StringBody(rest))
  {
    assert [a[1]][1..] == "";
    ShortRead(c, a[1], rest);
    assert a == ['\\', a[1]];
  }

  lemma CharRead(a: string, c: char, rest: string)
    requires CharSpelled(a, c)
    ensures StringBody(a + rest) == Before(c, StringBody(rest))
  {
    if a == [c] && c >= ' ' && c != '"' && c != '\\' {
      PlainRead(c, rest);
    } else if |a| == 2 {
      ShortSpelledRead(a, c, rest);
    } else if |a| == 6 {
      UnicodeRead(a, c, rest);
    } else {
      PairRead(a, c, rest);
    }
  }

  lemma OneMoreChar(a: string, c: char, b: string, t: string, rest: string)
    requires CharSpelled(a, c) && StringBody(b) == Ok((t, rest))
    ensures StringBody(a + b) == Ok(([c] + t, rest))
  {
    CharRead(a, c, b);
  }

  lemma CutThenMore(e: string, k: nat, more: string)
    requires k <= |e|
    ensures e + more == e[..k] + (e[k..] + more)
  {
  }

  lemma {:induction false} CharsRead(e: string, t: string, rest: string)
    requires CharsSpelled(e, t)
    ensures StringBody(e + ("\"" + rest)) == Ok((t, rest))
    decreases |t|
  {
    if t == "" {
      assert e + ("\"" + rest) == "\"" + rest && ("\"" + rest)[1..] == rest;
    } else {
      var k :| FirstSpelled(e, t, k);
      CharsRead(e[k..], t[1..], rest);
      OneMoreChar(e[..k], t[0], e[k..] + ("\"" + rest), t[1..], rest);
      CutThenMore(e, k, "\"" + rest);
      assert [t[0]] + t[1..] == t;
    }
  }

  lemma StringRead(s: string, t: string, rest: string)
    requires StringSpelled(s, t)
    ensures s + rest != "" && (s + rest)[0] == '"'
    ensures ParseString(s + rest) == if IsIjson(t) then Ok((t, rest)) else Err(ForbiddenCodePoint)
  {
    CharsRead(s[1..|s| - 1], t, rest);
    assert (s + rest)[1..] == s[1..|s| - 1] + ("\"" + rest);
  }

  // ---- what is spelled is read: numbers ------------------------------------------------------------

  predicate NoDigitFirst(rest: string) {
    rest == "" || !T.IsDigit(rest[0])
  }

  lemma {:induction false} DropDigitsOf(d: string, rest: string)
    requires T.AllDigits(d) && NoDigitFirst(rest)
    ensures DropDigits(d + rest) == rest
  {
    if d == "" {
      assert d + rest == rest;
    } else {
      assert (d + rest)[1..] == d[1..] + rest;
      DropDigitsOf(d[1..], rest);
    }
  }

  lemma {:induction false} DigitsDropped(s: string) returns (d: string)
    ensures s == d + DropDigits(s) && T.AllDigits(d) && NoDigitFirst(DropDigits(s))
  {
    if s != "" && T.IsDigit(s[0]) {
      var more := DigitsDropped(s[1..]);
      d := [s[0]] + more;
      assert s == [s[0]] + s[1..];
    } else {
      d := "";
    }
  }

  lemma DropDigitsSplit(s: string)
    ensures var r := DropDigits(s);
            && NoDigitFirst(r) && |r| <= |s| && T.AllDigits(s[..|s| - |r|]) && s == s[..|s| - |r|] + r
  {
    var d := DigitsDropped(s);
    assert s[..|d|] == d;
  }

  lemma IntegerRead(i: string, rest: string)
    requires IntegerSpelled(i) && NoDigitFirst(rest)
    ensures AfterInteger(i + rest) == Some(rest)
  {
    assert (i + rest)[1..] == i[1..] + rest;
    if i == "0" {
      assert i[1..] + rest == rest;
    } else {
      DropDigitsOf(i[1..], rest);
    }
  }

  lemma FractionRead(f: string, rest: string)
    requires FractionSpelled(f) && NoDigitFirst(rest) && (rest != "" ==> rest[0] != '.')
    ensures AfterFraction(f + rest) == Some(rest)
  {
    if f == "" {
      assert f + rest == rest;
    } else {
      assert (f + rest)[1..] == f[1..] + rest;
      DropDigitsOf(f[1..], rest);
    }
  }

  lemma ExponentRead(e: string)
    requires ExponentSpelled(e)
    ensures AfterExponent(e) == Some("")
  {
    if e != "" {
      var digits := Unsigned(e[1..]);
      if SomeDigits(e[1..]) {
        assert digits == e[1..];
      } else {
        assert digits == e[2..];
      }
      DropDigitsOf(digits, "");
      assert digits + "" == digits;
    }
  }

  lemma PartsAreNumber(raw: string, sign: string, i: string, f: string, e: string)
    requires NumberParts(raw, sign, i, f, e)
    ensures IsNumber(raw)
  {
    var rest := if sign == "-" then raw[1..] else raw;
    assert rest == i + (f + e);
    assert i[0] != '-';
    IntegerRead(i, f + e);
    FractionRead(f, e);
    ExponentRead(e);
  }

  lemma IntegerOf(s: string)
    requires AfterInteger(s).Some?
    ensures var r := AfterInteger(s).value; IntegerSpelled(s[..|s| - |r|]) && s == s[..|s| - |r|] + r
  {
    var r := AfterInteger(s).value;
    if s[0] == '0' {
      assert s[..1] == "0";
    } else {
      DropDigitsSplit(s[1..]);
      assert s[..|s| - |r|] == [s[0]] + s[1..][..|s| - 1 - |r|];
    }
  }

  lemma FractionOf(s: string)
    requires AfterFraction(s).Some?
    ensures var r := AfterFraction(s).value; FractionSpelled(s[..|s| - |r|]) && s == s[..|s| - |r|] + r
  {
    if s != "" && s[0] == '.' {
      DropDigitsSplit(s[1..]);
      var r := AfterFraction(s).value;
      assert s[..|s| - |r|][1..] == s[1..][..|s| - 1 - |r|];
    }
  }

  lemma ExponentOf(s: string)
    requires AfterExponent(s) == Some("")
    ensures ExponentSpelled(s)
  {
    if s != "" {
      var digits := Unsigned(s[1..]);
      DropDigitsSplit(digits);
      assert digits[..|digits|] == digits;
      assert digits == s[1..] || digits == s[2..];
    }
  }

  lemma UnsignedOf(s: string) returns (i: string, f: string, e: string)
    requires AfterInteger(s).Some? && AfterFraction(AfterInteger(s).value).Some?
    requires AfterExponent(AfterFraction(AfterInteger(s).value).value) == Some("")
    ensures s == i + (f + e) && IntegerSpelled(i) && FractionSpelled(f) && ExponentSpelled(e)
  {
    var r := AfterInteger(s).value;
    e := AfterFraction(r).value;
    i, f := s[..|s| - |r|], r[..|r| - |e|];
    IntegerOf(s);
    FractionOf(r);
    ExponentOf(e);
  }

  lemma NumberOf(raw: string)
    requires IsNumber(raw)
    ensures NumberSpelled(raw)
  {
    if raw[0] == '-' {
      var i, f, e := UnsignedOf(raw[1..]);
      assert raw == "-" + raw[1..];
      FourParts(raw, "-", raw[1..], i, f + e, f, e);
    } else {
      var i, f, e := UnsignedOf(raw);
      assert raw == "" + raw;
      FourParts(raw, "", raw, i, f + e, f, e);
    }
  }

  lemma FourParts(raw: string, sign: string, s: string, i: string, r: string, f: string, e: string)
    requires raw == sign + s && s == i + r && r == f + e && (sign == "" || sign == "-")
    requires IntegerSpelled(i) && FractionSpelled(f) && ExponentSpelled(e)
    ensures NumberSpelled(raw)
  {
    assert raw == sign + i + f + e;
    assert NumberParts(raw, sign, i, f, e);
  }

  /** The numbers the reader takes are those of the grammar. */
  lemma NumberExactly(raw: string)
    ensures IsNumber(raw) <==> NumberSpelled(raw)
  {
    if IsNumber(raw) {
      NumberOf(raw);
    }
    if NumberSpelled(raw) {
      var sign, i, f, e :| NumberParts(raw, sign, i, f, e);
      PartsAreNumber(raw, sign, i, f, e);
    }
  }

  // ---- what is spelled is read: values -------------------------------------------------------------

  lemma SplitAt(s: string, k: nat, rest: string)
    requires k < |s|
    ensures s + rest == s[..k] + ([s[k]] + (s[k + 1..] + rest))
  {
  }

  lemma Nest(a: string, t: string, b: string, rest: string)
    ensures a + t + b + rest == a + (t + (b + rest)) && a + t + b == a + (t + b)
  {
  }

  lemma {:induction false} SkipWs(a: string, s: string)
    requires Ws(a)
    ensures SkipSpace(a + s) == SkipSpace(s)
  {
    if a == "" {
      assert a + s == s;
    } else {
      assert (a + s)[1..] == a[1..] + s;
      SkipWs(a[1..], s);
    }
  }

  lemma ValueSkips(a: string, s: string, stack: seq<Open>)
    requires Ws(a)
    ensures Value(a + s, stack) == Value(s, stack)
  {
    SkipWs(a, s);
  }

  lemma CompleteSkips(v: Json, b: string, s: string, stack: seq<Open>)
    requires Ws(b) && stack != []
    ensures Complete(v, b + s, stack) == Complete(v, s, stack)
  {
    SkipWs(b, s);
  }

  lemma ValueOfSkipped(s: string, stack: seq<Open>)
    ensures Value(SkipSpace(s), stack) == Value(s, stack)
  {
    assert SkipSpace(SkipSpace(s)) == SkipSpace(s);
  }

  /** What begins a value. */
  predicate BeginsValue(s: string) {
    s != "" && !IsSpace(s[0]) && s[0] != ',' && s[0] != ']' && s[0] != '}' && s[0] != ':'
  }

  lemma SpelledBegins(t: string, v: Json)
    requires Spelled(t, v)
    ensures BeginsValue(t)
    ensures t[0] == '[' <==> v.Array?
    ensures t[0] == '{' <==> v.Object?
  {
    if v.Number? {
      NumberExactly(v.raw);
      NumberBegins(v.raw);
    }
  }

  lemma LeafSpelledRead(t: string, v: Json, rest: string, stack: seq<Open>)
    requires IsLeaf(v) && Spelled(t, v) && Ends(rest)
    ensures Value(t + rest, stack) == Unless(Fault(v), Complete(v, rest, stack))
  {
    SpelledBegins(t, v);
    assert ParseLeaf(t + rest) == Unless(Fault(v), Ok((v, rest))) by {
      if v.Number? {
        NumberExactly(v.raw);
        NumberRoundTrip(v.raw, rest);
      } else if v.String? {
        StringRead(t, v.s, rest);
      } else {
        WordsRead(rest);
      }
    }
  }

  /** What closes or continues a container. */
  predicate Stops(rest: string) {
    rest != "" && (rest[0] == ',' || rest[0] == ']' || rest[0] == '}')
  }

  lemma PaddedJoin(s: string, a: string, t: string, b: string, rest: string)
    requires Around(s, a, t, b) && Stops(rest)
    ensures s + rest == a + (t + (b + rest)) && Ends(b + rest)
  {
  }

  lemma {:induction false} PaddedRead(s: string, v: Json, rest: string, stack: seq<Open>)
    requires Padded(s, v) && stack != [] && Stops(rest)
    ensures Value(s + rest, stack) == Unless(Fault(v), Complete(v, rest, stack))
    decreases v, 1
  {
    var a, t, b :| Around(s, a, t, b) && Spelled(t, v);
    PaddedJoin(s, a, t, b, rest);
    ValueSkips(a, t + (b + rest), stack);
    SpelledRead(t, v, b + rest, stack);
    CompleteSkips(v, b, rest, stack);
  }

  lemma PaddedBegins(s: string, v: Json, rest: string)
    requires Padded(s, v)
    ensures BeginsValue(SkipSpace(s + rest))
  {
    var a, t, b :| Around(s, a, t, b) && Spelled(t, v);
    SpelledBegins(t, v);
    Nest(a, t, b, rest);
    SkipWs(a, t + (b + rest));
    assert (t + (b + rest))[0] == t[0];
  }

  lemma {:induction false} SpelledRead(t: string, v: Json, rest: string, stack: seq<Open>)
    requires Spelled(t, v) && Ends(rest)
    ensures Value(t + rest, stack) == Unless(Fault(v), Complete(v, rest, stack))
    decreases v, 0
  {
    if v.Array? {
      assert t + rest == "[" + (t[1..|t| - 1] + ("]" + rest));
      ArraySpelledRead(t[1..|t| - 1], v.items, rest, stack);
    } else if v.Object? {
      assert t + rest == "{" + (t[1..|t| - 1] + ("}" + rest));
      ObjectSpelledRead(t[1..|t| - 1], v.members, rest, stack);
    } else {
      LeafSpelledRead(t, v, rest, stack);
    }
  }

  lemma {:induction false} ArraySpelledRead(s: string, items: seq<Json>, rest: string, stack: seq<Open>)
    requires ItemsSpelled(s, items)
    ensures Value("[" + (s + ("]" + rest)), stack) == Unless(ItemsFault(items), Complete(Array(items), rest, stack))
    decreases items, 1
  {
    var inner := s + ("]" + rest);
    assert ("[" + inner)[1..] == inner && ("]" + rest)[1..] == rest;
    if items == [] {
      SkipWs(s, "]" + rest);
    } else {
      ItemsBeginValue(s, items, "]" + rest);
      ValueOfSkipped(inner, stack + [OpenArray([])]);
      ItemsSpelledRead(s, [], items, rest, stack);
      assert [] + items == items;
    }
  }

  lemma ItemsBeginValue(s: string, items: seq<Json>, rest: string)
    requires items != [] && ItemsSpelled(s, items)
    ensures BeginsValue(SkipSpace(s + rest))
  {
    if |items| == 1 {
      PaddedBegins(s, items[0], rest);
    } else {
      var k :| ItemThen(s, items, k);
      PaddedBegins(s[..k], items[0], s[k..] + rest);
      assert s + rest == s[..k] + (s[k..] + rest);
    }
  }

  lemma {:induction false} ItemsSpelledRead(s: string, done: seq<Json>, items: seq<Json>, rest: string,
                                            stack: seq<Open>)
    requires items != [] && ItemsSpelled(s, items)
    ensures Value(s + ("]" + rest), stack + [OpenArray(done)])
         == Unless(ItemsFault(items), Complete(Array(done + items), rest, stack))
    decreases items, 0
  {
    var top := stack + [OpenArray(done)];
    if |items| == 1 {
      PaddedRead(s, items[0], "]" + rest, top);
      LastItem(items[0], rest, stack, done);
      assert done + [items[0]] == done + items;
    } else {
      var k :| ItemThen(s, items, k);
      var more := s[k + 1..] + ("]" + rest);
      SplitAt(s, k, "]" + rest);
      PaddedRead(s[..k], items[0], "," + more, top);
      NextItem(items[0], more, stack, done);
      ItemsSpelledRead(s[k + 1..], done + [items[0]], items[1..], rest, stack);
      assert done + [items[0]] + items[1..] == done + items;
    }
  }

  lemma NameSpelledRead(s: string, name: string, rest: string)
    requires NameSpelled(s, name)
    ensures ParseName(s + (":" + rest)) == if IsIjson(name) then Ok((name, rest)) else Err(ForbiddenCodePoint)
    ensures SkipSpace(s + (":" + rest)) != "" && SkipSpace(s + (":" + rest))[0] == '"'
  {
    var a, t, b :| Around(s, a, t, b) && StringSpelled(t, name);
    Nest(a, t, b, ":" + rest);
    SkipWs(a, t + (b + (":" + rest)));
    StringRead(t, name, b + (":" + rest));
    SkipWs(b, ":" + rest);
    assert (":" + rest)[1..] == rest;
  }

  lemma {:induction false} ObjectSpelledRead(s: string, members: seq<Member>, rest: string, stack: seq<Open>)
    requires MembersSpelled(s, members)
    ensures Value("{" + (s + ("}" + rest)), stack)
         == Unless(MembersFault([], members), Complete(Object(members), rest, stack))
    decreases members, 1
  {
    var inner := s + ("}" + rest);
    assert ("{" + inner)[1..] == inner && ("}" + rest)[1..] == rest;
    if members == [] {
      SkipWs(s, "}" + rest);
    } else {
      assert [] + members == members;
      MembersSpelledRead(s, [], members, rest, stack);
      assert SkipSpace(SkipSpace(inner)) == SkipSpace(inner);
    }
  }

  /** Reading on from a member name. */
  function FromName(text: string, done: seq<Member>, stack: seq<Open>): Result<(Json, string), JsonError> {
    var name := ParseName(text);
    if name.Err? then Err(name.error) else Value(name.value.1, stack + [OpenObject(done, name.value.0)])
  }

  predicate NameNext(text: string) {
    SkipSpace(text) != "" && SkipSpace(text)[0] == '"'
  }

  /** The next member is read where it is expected, with all that follow it. */
  ghost predicate MembersTaken(text: string, done: seq<Member>, members: seq<Member>, rest: string, stack: seq<Open>) {
    && NameNext(text)
    && FromName(text, done, stack) == Unless(MembersFault(done, members), Complete(Object(done + members), rest, stack))
  }

  lemma AfterMember(v: Json, after: string, stack: seq<Open>, done: seq<Member>, name: string)
    requires Stops(after)
    ensures name in Names(done) ==> Complete(v, after, stack + [OpenObject(done, name)]) == Err(DuplicateMember(name))
  {
    var top := stack + [OpenObject(done, name)];
    assert top[..|top| - 1] == stack;
  }

  lemma FollowingMember(v: Json, more: string, stack: seq<Open>, done: seq<Member>, name: string)
    requires name !in Names(done)
    ensures Complete(v, "," + more, stack + [OpenObject(done, name)]) == FromName(more, done + [Member(name, v)], stack)
  {
    var top := stack + [OpenObject(done, name)];
    assert top[..|top| - 1] == stack && ("," + more)[1..] == more;
  }

  lemma {:induction false} ValueTaken(s: string, v: Json, after: string, stack: seq<Open>)
    requires Padded(s, v) && stack != [] && Stops(after)
    ensures Value(s + after, stack) == Unless(Fault(v), Complete(v, after, stack))
    decreases v, 2
  {
    PaddedRead(s, v, after, stack);
  }

  /** One member: it is refused, or what follows is read with it in its place. */
  lemma {:induction false} MemberSpelledRead(s: string, m: Member, done: seq<Member>, after: string, stack: seq<Open>)
    requires MemberSpelled(s, m) && Stops(after)
    ensures NameNext(s + after)
    ensures FromName(s + after, done, stack)
         == Unless(MemberFault(done, m), Complete(m.value, after, stack + [OpenObject(done, m.name)]))
    decreases m
  {
    var k :| ColonAt(s, m, k);
    SplitAt(s, k, after);
    NameSpelledRead(s[..k], m.name, s[k + 1..] + after);
    ValueTaken(s[k + 1..], m.value, after, stack + [OpenObject(done, m.name)]);
    AfterMember(m.value, after, stack, done, m.name);
  }

  lemma LastMemberTaken(text: string, m: Member, done: seq<Member>, rest: string, stack: seq<Open>)
    requires NameNext(text) && FromName(text, done, stack)
      == Unless(MemberFault(done, m), Complete(m.value, "}" + rest, stack + [OpenObject(done, m.name)]))
    ensures MembersTaken(text, done, [m], rest, stack)
  {
    assert [m][1..] == [];
    if MemberFault(done, m).None? {
      LastMember(m.value, rest, stack, done, m.name);
    }
  }

  lemma NextMemberTaken(text: string, more: string, members: seq<Member>, done: seq<Member>, rest: string,
                        stack: seq<Open>)
    requires |members| > 1 && NameNext(text)
    requires FromName(text, done, stack) == Unless(MemberFault(done, members[0]),
               Complete(members[0].value, "," + more, stack + [OpenObject(done, members[0].name)]))
    requires MembersTaken(more, done + [members[0]], members[1..], rest, stack)
    ensures MembersTaken(text, done, members, rest, stack)
  {
    var m := members[0];
    if MemberFault(done, m).None? {
      FollowingMember(m.value, more, stack, done, m.name);
      assert done + [m] + members[1..] == done + members;
    }
  }

  lemma {:induction false} MembersSpelledRead(s: string, done: seq<Member>, members: seq<Member>, rest: string,
                                              stack: seq<Open>)
    requires members != [] && MembersSpelled(s, members)
    ensures MembersTaken(s + ("}" + rest), done, members, rest, stack)
    decreases members, 0
  {
    var m := members[0];
    if |members| == 1 {
      MemberSpelledRead(s, m, done, "}" + rest, stack);
      LastMemberTaken(s + ("}" + rest), m, done, rest, stack);
      assert members == [m];
    } else {
      var k :| MemberThen(s, members, k);
      var more := s[k + 1..] + ("}" + rest);
      SplitAt(s, k, "}" + rest);
      MembersSpelledRead(s[k + 1..], done + [m], members[1..], rest, stack);
      MemberSpelledRead(s[..k], m, done, "," + more, stack);
      NextMemberTaken(s + ("}" + rest), more, members, done, rest, stack);
    }
  }

  lemma SpaceEnds(b: string)
    requires Ws(b)
    ensures Ends(b) && SkipSpace(b) == ""
  {
    SkipWs(b, "");
    assert b + "" == b;
  }

  /** Every text that spells a tree, with any space the grammar allows and any escapes, is read as that tree or
      refused for the first thing in it that JSON text may hold and a message may not. */
  lemma SpelledIsRead(s: string, v: Json)
    requires Padded(s, v)
    ensures Parse(s) == Unless(Fault(v), Ok(v))
    ensures WellFormed(v) ==> Parse(s) == Ok(v)
  {
    var a, t, b :| Around(s, a, t, b) && Spelled(t, v);
    Nest(a, t, b, "");
    ValueSkips(a, t + b, []);
    SpaceEnds(b);
    SpelledRead(t, v, b, []);
    if WellFormed(v) {
      WellFormedHasNoFault(v);
    }
  }
}
