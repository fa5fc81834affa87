/** The leaves of strict JSON text: strings with their escapes, and numbers kept as spelled. A character
    is a Unicode scalar value. */
module JsonText {
  import opened Common
  import T = Timestamp

  datatype JsonError = Syntax | ForbiddenCodePoint | DuplicateMember(name: string)

  // ---- strings -----------------------------------------------------------------------------------

  /** U+FDD0 to U+FDEF, or a code point ending in FFFE or FFFF. */
  predicate IsNoncharacter(c: char) {
    0xFDD0 <= c as int <= 0xFDEF || c as int % 0x1_0000 >= 0xFFFE
  }

  predicate IsIjson(s: string) {
    forall i :: 0 <= i < |s| ==> !IsNoncharacter(s[i])
  }

  predicate LastOfPlane(c: char, plane: int) {
    0 <= plane <= 16 && (c as int == plane * 0x1_0000 + 0xFFFE || c as int == plane * 0x1_0000 + 0xFFFF)
  }

  /** The 66 noncharacters of Unicode: 32 in one block, and the last two code points of each of the 17 planes. */
  ghost predicate Noncharacter(c: char) {
    0xFDD0 <= c as int < 0xFDD0 + 32 || exists plane :: LastOfPlane(c, plane)
  }

  lemma NoncharacterExactly(c: char)
    ensures IsNoncharacter(c) <==> Noncharacter(c)
  {
    if c as int % 0x1_0000 >= 0xFFFE {
      assert LastOfPlane(c, c as int / 0x1_0000);
    }
  }

  /** A string is one I-JSON (RFC 7493) allows exactly when none of its characters is a noncharacter. */
  lemma IjsonExactly(s: string)
    ensures IsIjson(s) <==> forall c :: c in s ==> !Noncharacter(c)
  {
    forall c ensures IsNoncharacter(c) <==> Noncharacter(c) {
      NoncharacterExactly(c);
    }
  }

  function HexDigit(d: nat): char
    requires d < 16
  {
    if d < 10 then '0' + d as char else 'a' + (d - 10) as char
  }

  function HexValue(c: char): (d: Option<nat>)
    ensures d.Some? ==> d.value < 16
  {
    if '0' <= c <= '9' then Some((c - '0') as nat)
    else if 'a' <= c <= 'f' then Some((c - 'a') as nat + 10)
    else if 'A' <= c <= 'F' then Some((c - 'A') as nat + 10)
    else None
  }

  /** The number of the first four characters of `s`, when they are hexadecimal digits. */
  function Hex4(s: string): (v: Option<nat>)
    ensures v.Some? ==> |s| >= 4 && v.value < 0x1_0000
  {
    if |s| < 4 then None
    else
      var a, b, c, d := HexValue(s[0]), HexValue(s[1]), HexValue(s[2]), HexValue(s[3]);
      if a.None? || b.None? || c.None? || d.None? then None
      else Some(((a.value * 16 + b.value) * 16 + c.value) * 16 + d.value)
  }

  /** The escape after a backslash: its character and what follows it. */
  function Escaped(s: string): (r: Result<(char, string), JsonError>)
    ensures r.Ok? ==> |r.value.1| < |s|
  {
    if s == "" then Err(Syntax)
    else match s[0] {
      case '"' => Ok(('"', s[1..]))
      case '\\' => Ok(('\\', s[1..]))
      case '/' => Ok(('/', s[1..]))
      case 'b' => Ok((8 as char, s[1..]))
      case 'f' => Ok((12 as char, s[1..]))
      case 'n' => Ok((10 as char, s[1..]))
      case 'r' => Ok((13 as char, s[1..]))
      case 't' => Ok((9 as char, s[1..]))
      case 'u' => CodePoint(s[1..])
      case _ => Err(Syntax)
    }
  }

  /** The code point of four hexadecimal digits, or of an escaped surrogate pair. */
  function CodePoint(s: string): (r: Result<(char, string), JsonError>)
    ensures r.Ok? ==> |r.value.1| < |s|
  {
    var hi := Hex4(s);
    if hi.None? then Err(Syntax)
    else if 0xD800 <= hi.value <= 0xDBFF then
      var more := s[4..];
      if !("\\u" <= more) then Err(ForbiddenCodePoint)
      else
        var lo := Hex4(more[2..]);
        if lo.None? then Err(Syntax)
        else if !(0xDC00 <= lo.value <= 0xDFFF) then Err(ForbiddenCodePoint)
        else Ok(((0x1_0000 + (hi.value - 0xD800) * 1024 + (lo.value - 0xDC00)) as char, more[6..]))
    else if 0xDC00 <= hi.value <= 0xDFFF then Err(ForbiddenCodePoint)
    else Ok((hi.value as char, s[4..]))
  }

  function Before(c: char, r: Result<(string, string), JsonError>): Result<(string, string), JsonError> {
    if r.Err? then r else Ok(([c] + r.value.0, r.value.1))
  }

  /** The characters of a string up to its closing quote, and what follows the quote. */
  function StringBody(s: string): (r: Result<(string, string), JsonError>)
    ensures r.Ok? ==> |r.value.1| < |s|
    decreases |s|
  {
    if s == "" then Err(Syntax)
    else if s[0] == '"' then Ok(("", s[1..]))
    else if s[0] == '\\' then
      var e := Escaped(s[1..]);
      if e.Err? then Err(e.error) else Before(e.value.0, StringBody(e.value.1))
    else if s[0] < ' ' then Err(Syntax)
    else Before(s[0], StringBody(s[1..]))
  }

  /** A string, from its opening quote. */
  function ParseString(s: string): (r: Result<(string, string), JsonError>)
    requires s != "" && s[0] == '"'
    ensures r.Ok? ==> |r.value.1| < |s|
  {
    var r := StringBody(s[1..]);
    if r.Ok? && !IsIjson(r.value.0) then Err(ForbiddenCodePoint) else r
  }

  function EscapeChar(c: char): string {
    if c == '"' then "\\\""
    else if c == '\\' then "\\\\"
    else if c as int == 8 then "\\b"
    else if c as int == 12 then "\\f"
    else if c as int == 10 then "\\n"
    else if c as int == 13 then "\\r"
    else if c as int == 9 then "\\t"
    else if c < ' ' then ['\\', 'u', '0', '0', HexDigit(c as nat / 16), HexDigit(c as nat % 16)]
    else [c]
  }

  function Escape(s: string): string {
    if s == "" then "" else EscapeChar(s[0]) + Escape(s[1..])
  }

  function Quote(s: string): string {
    "\"" + Escape(s) + "\""
  }

  lemma HexValueOfDigit(d: nat)
    requires d < 16
    ensures HexValue(HexDigit(d)) == Some(d)
  {
  }

  lemma CodePointRead(c: char, rest: string)
    requires c < ' '
    ensures CodePoint(['0', '0', HexDigit(c as nat / 16), HexDigit(c as nat % 16)] + rest) == Ok((c, rest))
  {
    var s := ['0', '0', HexDigit(c as nat / 16), HexDigit(c as nat % 16)] + rest;
    HexValueOfDigit(c as nat / 16);
    HexValueOfDigit(c as nat % 16);
    assert Hex4(s) == Some(c as nat);
    assert s[4..] == rest;
  }

  lemma PlainRead(c: char, rest: string)
    requires c != '"' && c != '\\' && c >= ' '
    ensures StringBody([c] + rest) == Before(c, StringBody(rest))
  {
    assert ([c] + rest)[1..] == rest;
  }

  /** After a backslash, what is escaped and then the rest of the string. */
  lemma EscapedRead(c: char, code: string, rest: string)
    requires Escaped(code + rest) == Ok((c, rest))
    ensures StringBody(['\\'] + (code + rest)) == Before(c, StringBody(rest))
  {
    assert (['\\'] + (code + rest))[1..] == code + rest;
  }

  /** The character after the backslash of a short escape. */
  lemma ShortCode(c: char) returns (d: char)
    requires |EscapeChar(c)| == 2
    ensures EscapeChar(c) == ['\\', d] && d != 'u' && Escaped([d]) == Ok((c, ""))
  {
    d := EscapeChar(c)[1];
    assert [d][1..] == "";
  }

  lemma ShortRead(c: char, d: char, rest: string)
    requires d != 'u' && Escaped([d]) == Ok((c, ""))
    ensures StringBody(['\\', d] + rest) == Before(c, StringBody(rest))
  {
    assert ([d] + rest)[1..] == rest && ['\\', d] + rest == ['\\'] + ([d] + rest);
    EscapedRead(c, [d], rest);
  }

  lemma LongRead(c: char, rest: string)
    requires c < ' '
    ensures var digits := ['0', '0', HexDigit(c as nat / 16), HexDigit(c as nat % 16)];
            StringBody(['\\', 'u'] + digits + rest) == Before(c, StringBody(rest))
  {
    var digits := ['0', '0', HexDigit(c as nat / 16), HexDigit(c as nat % 16)];
    CodePointRead(c, rest);
    assert (['u'] + digits + rest)[1..] == digits + rest;
    EscapedRead(c, ['u'] + digits, rest);
    assert ['\\', 'u'] + digits + rest == ['\\'] + (['u'] + digits + rest);
  }

  lemma EscapeCharRead(c: char, rest: string)
    ensures StringBody(EscapeChar(c) + rest) == Before(c, StringBody(rest))
  {
    if |EscapeChar(c)| == 1 {
      PlainRead(c, rest);
    } else if |EscapeChar(c)| == 2 {
      var d := ShortCode(c);
      ShortRead(c, d, rest);
    } else {
      LongRead(c, rest);
      assert EscapeChar(c) == ['\\', 'u'] + ['0', '0', HexDigit(c as nat / 16), HexDigit(c as nat % 16)];
    }
  }

  lemma {:induction false} StringBodyOfEscape(t: string, rest: string)
    ensures StringBody(Escape(t) + "\"" + rest) == Ok((t, rest))
  {
    if t == "" {
      assert (Escape(t) + "\"" + rest)[1..] == rest;
    } else {
      StringBodyOfEscape(t[1..], rest);
      assert Escape(t) + "\"" + rest == EscapeChar(t[0]) + (Escape(t[1..]) + "\"" + rest);
      EscapeCharRead(t[0], Escape(t[1..]) + "\"" + rest);
      assert [t[0]] + t[1..] == t;
    }
  }

  /** A quoted string reads back, whatever follows it. */
  lemma StringRoundTrip(t: string, rest: string)
    requires IsIjson(t)
    ensures Quote(t) + rest != "" && (Quote(t) + rest)[0] == '"' && ParseString(Quote(t) + rest) == Ok((t, rest))
  {
    assert (Quote(t) + rest)[1..] == Escape(t) + "\"" + rest;
    StringBodyOfEscape(t, rest);
  }

  // ---- numbers -----------------------------------------------------------------------------------

  function DropDigits(s: string): (r: string)
    ensures |r| <= |s|
  {
    if s != "" && T.IsDigit(s[0]) then DropDigits(s[1..]) else s
  }

  function AfterInteger(s: string): (r: Option<string>)
    ensures r.Some? ==> |r.value| < |s|
  {
    if s == "" then None
    else if s[0] == '0' then Some(s[1..])
    else if '1' <= s[0] <= '9' then Some(DropDigits(s[1..]))
    else None
  }

  /** What follows a fraction, if there is one. */
  function AfterFraction(s: string): (r: Option<string>)
    ensures r.Some? ==> |r.value| <= |s|
  {
    if s == "" || s[0] != '.' then Some(s)
    else if |DropDigits(s[1..])| == |s| - 1 then None
    else Some(DropDigits(s[1..]))
  }

  function Unsigned(s: string): (r: string)
    ensures |r| <= |s|
  {
    if s != "" && (s[0] == '+' || s[0] == '-') then s[1..] else s
  }

  function AfterExponent(s: string): (r: Option<string>)
    ensures r.Some? ==> |r.value| <= |s|
  {
    if s == "" || (s[0] != 'e' && s[0] != 'E') then Some(s)
    else
      var digits := Unsigned(s[1..]);
      if |DropDigits(digits)| == |digits| then None else Some(DropDigits(digits))
  }

  /** What follows the number `s` begins with. */
  function AfterNumber(s: string): (r: Option<string>)
    ensures r.Some? ==> |r.value| < |s|
  {
    var i := AfterInteger(if s != "" && s[0] == '-' then s[1..] else s);
    if i.None? then None
    else
      var f := AfterFraction(i.value);
      if f.None? then None else AfterExponent(f.value)
  }

  function ParseNumber(s: string): (r: Result<(string, string), JsonError>)
    ensures r.Ok? ==> |r.value.1| < |s|
  {
    var rest := AfterNumber(s);
    if rest.None? then Err(Syntax) else Ok((s[..|s| - |rest.value|], rest.value))
  }

  /** A whole number and nothing else. */
  predicate IsNumber(raw: string) {
    AfterNumber(raw) == Some("")
  }

  /** What may follow a value: the end, a comma, a closing bracket or space. */
  predicate Ends(rest: string) {
    || rest == "" || rest[0] == ',' || rest[0] == ']' || rest[0] == '}'
    || rest[0] == ' ' || rest[0] as int == 9 || rest[0] as int == 10 || rest[0] as int == 13
  }

  lemma {:induction false} DropDigitsAppend(s: string, rest: string)
    requires Ends(rest)
    ensures DropDigits(s + rest) == DropDigits(s) + rest
  {
    if s == "" {
      assert s + rest == rest;
    } else {
      assert (s + rest)[1..] == s[1..] + rest;
      DropDigitsAppend(s[1..], rest);
    }
  }

  lemma AfterIntegerAppend(s: string, rest: string)
    requires AfterInteger(s).Some? && Ends(rest)
    ensures AfterInteger(s + rest) == Some(AfterInteger(s).value + rest)
  {
    assert (s + rest)[1..] == s[1..] + rest;
    DropDigitsAppend(s[1..], rest);
  }

  lemma AfterFractionAppend(s: string, rest: string)
    requires AfterFraction(s).Some? && Ends(rest)
    ensures AfterFraction(s + rest) == Some(AfterFraction(s).value + rest)
  {
    if s == "" {
      assert s + rest == rest;
    } else {
      assert (s + rest)[1..] == s[1..] + rest;
      DropDigitsAppend(s[1..], rest);
    }
  }

  lemma AfterExponentAppend(s: string, rest: string)
    requires AfterExponent(s).Some? && Ends(rest)
    ensures AfterExponent(s + rest) == Some(AfterExponent(s).value + rest)
  {
    if s == "" {
      assert s + rest == rest;
    } else {
      assert (s + rest)[1..] == s[1..] + rest;
      if s[0] == 'e' || s[0] == 'E' {
        assert s[1..] != "";
        assert Unsigned(s[1..] + rest) == Unsigned(s[1..]) + rest;
        DropDigitsAppend(Unsigned(s[1..]), rest);
      }
    }
  }

  lemma AfterNumberAppend(s: string, rest: string)
    requires AfterNumber(s).Some? && Ends(rest)
    ensures AfterNumber(s + rest) == Some(AfterNumber(s).value + rest)
  {
    var digits := if s != "" && s[0] == '-' then s[1..] else s;
    assert s != "";
    assert (s + rest)[1..] == s[1..] + rest;
    AfterIntegerAppend(digits, rest);
    AfterFractionAppend(AfterInteger(digits).value, rest);
    AfterExponentAppend(AfterFraction(AfterInteger(digits).value).value, rest);
  }

  /** A number reads back as it was spelled, before anything that may follow a value. */
  lemma NumberRoundTrip(raw: string, rest: string)
    requires IsNumber(raw) && Ends(rest)
    ensures ParseNumber(raw + rest) == Ok((raw, rest))
  {
    AfterNumberAppend(raw, rest);
    assert "" + rest == rest;
    assert (raw + rest)[..|raw|] == raw;
  }

  // What is read as a number is one: dropping what follows it changes nothing about it.

  function CutEnd(s: string, j: nat): string
    requires j <= |s|
  {
    s[..|s| - j]
  }

  lemma {:induction false} DropDigitsCut(s: string, j: nat)
    requires j <= |DropDigits(s)|
    ensures DropDigits(CutEnd(s, j)) == CutEnd(DropDigits(s), j)
  {
    if s != "" && T.IsDigit(s[0]) {
      assert CutEnd(s, j)[1..] == CutEnd(s[1..], j);
      DropDigitsCut(s[1..], j);
    }
  }

  lemma AfterIntegerCut(s: string, j: nat)
    requires AfterInteger(s).Some? && j <= |AfterInteger(s).value|
    ensures AfterInteger(CutEnd(s, j)) == Some(CutEnd(AfterInteger(s).value, j))
  {
    assert CutEnd(s, j)[1..] == CutEnd(s[1..], j);
    if s[0] != '0' {
      DropDigitsCut(s[1..], j);
    }
  }

  lemma AfterFractionCut(s: string, j: nat)
    requires AfterFraction(s).Some? && j <= |AfterFraction(s).value|
    ensures AfterFraction(CutEnd(s, j)) == Some(CutEnd(AfterFraction(s).value, j))
  {
    if s != "" && s[0] == '.' {
      assert CutEnd(s, j)[1..] == CutEnd(s[1..], j);
      DropDigitsCut(s[1..], j);
    }
  }

  lemma AfterExponentCut(s: string, j: nat)
    requires AfterExponent(s).Some? && j <= |AfterExponent(s).value|
    ensures AfterExponent(CutEnd(s, j)) == Some(CutEnd(AfterExponent(s).value, j))
  {
    if s != "" && (s[0] == 'e' || s[0] == 'E') {
      var digits := Unsigned(s[1..]);
      assert CutEnd(s, j)[1..] == CutEnd(s[1..], j);
      assert Unsigned(CutEnd(s[1..], j)) == CutEnd(digits, j);
      DropDigitsCut(digits, j);
    }
  }

  lemma ParsedNumber(s: string)
    requires ParseNumber(s).Ok?
    ensures IsNumber(ParseNumber(s).value.0)
  {
    var digits := if s != "" && s[0] == '-' then s[1..] else s;
    var i := AfterInteger(digits).value;
    var f := AfterFraction(i).value;
    var rest := AfterExponent(f).value;
    var j := |rest|;
    AfterIntegerCut(digits, j);
    AfterFractionCut(i, j);
    AfterExponentCut(f, j);
    assert s[0] == '-' ==> CutEnd(s, j)[1..] == CutEnd(digits, j);
  }
}
