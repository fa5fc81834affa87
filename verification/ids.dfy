/** Identifier forms, plain integers and versions. */
module Ids {
  import opened Common
  import JsonText
  import T = Timestamp
  import Octets

  // ---- tokens and key ids ------------------------------------------------------------------------

  predicate IsTokenChar(c: char) {
    'A' <= c <= 'Z' || 'a' <= c <= 'z' || '0' <= c <= '9' || c == '.' || c == '_' || c == ':' || c == '-'
  }

  predicate IsToken(s: string) {
    1 <= |s| <= 128 && forall i :: 0 <= i < |s| ==> IsTokenChar(s[i])
  }

  predicate IsKeyId(s: string) {
    |s| == 64 && forall i :: 0 <= i < |s| ==> '0' <= s[i] <= '9' || 'a' <= s[i] <= 'f'
  }

  const UPPER := "ABCDEFGHIJKLMNOPQRSTUVWXYZ"
  const LOWER := "abcdefghijklmnopqrstuvwxyz"
  const DIGITS := "0123456789"
  const MARKS := "._:-"

  lemma UpperLetters(c: char)
    ensures 'A' <= c <= 'Z' <==> c in UPPER
  {
    assert 'A' <= c <= 'Z' ==> UPPER[c as int - 'A' as int] == c;
  }

  lemma LowerLetters(c: char)
    ensures 'a' <= c <= 'z' <==> c in LOWER
  {
    assert 'a' <= c <= 'z' ==> LOWER[c as int - 'a' as int] == c;
  }

  lemma DigitsAndMarks(c: char)
    ensures '0' <= c <= '9' <==> c in DIGITS
    ensures c == '.' || c == '_' || c == ':' || c == '-' <==> c in MARKS
  {
    assert '0' <= c <= '9' ==> DIGITS[c as int - '0' as int] == c;
    assert MARKS[0] == '.' && MARKS[1] == '_' && MARKS[2] == ':' && MARKS[3] == '-';
  }

  /** A token is one to 128 letters, digits, points, underscores, colons and hyphens. */
  lemma TokenExactly(s: string)
    ensures IsToken(s)
       <==> 0 < |s| <= 128 && forall c :: c in s ==> c in UPPER || c in LOWER || c in DIGITS || c in MARKS
  {
    forall c ensures IsTokenChar(c) <==> c in UPPER || c in LOWER || c in DIGITS || c in MARKS {
      UpperLetters(c);
      LowerLetters(c);
      DigitsAndMarks(c);
    }
    assert forall i :: 0 <= i < |s| ==> s[i] in s;
  }

  /** A key id is the lower-case hexadecimal text of 32 octets. */
  lemma KeyIdExactly(s: string)
    ensures IsKeyId(s) <==> exists octets :: |octets| == 32 && Octets.Hex(octets) == s
  {
    if IsKeyId(s) {
      var octets := Octets.OctetsOfHex(s);
      assert |octets| == 32;
    }
  }

  lemma AsciiIsIjson(s: string)
    requires T.IsAscii(s)
    ensures JsonText.IsIjson(s)
  {
  }

  lemma TokenIsIjson(s: string)
    requires IsToken(s)
    ensures JsonText.IsIjson(s)
  {
  }

  lemma SessionIdIsToken(s: string)
    requires Octets.IsSessionId(s)
    ensures IsToken(s)
  {
  }

  // ---- plain integers ----------------------------------------------------------------------------

  /** `n` in decimal, with no sign and no leading zero. */
  function Decimal(n: nat): (s: string)
    ensures s != "" && T.AllDigits(s) && (s[0] == '0' ==> n == 0 && |s| == 1)
    ensures n > 0 ==> s[0] != '0'
  {
    if n < 10 then [T.Digit(n)] else Decimal(n / 10) + [T.Digit(n % 10)]
  }

  /** Digits with no leading zero. */
  predicate IsPlain(s: string) {
    s != "" && T.AllDigits(s) && (|s| == 1 || s[0] != '0')
  }

  lemma {:induction false} ValueOfDecimal(n: nat)
    ensures T.Value(Decimal(n)) == n
  {
    if n >= 10 {
      ValueOfDecimal(n / 10);
      assert Decimal(n)[..|Decimal(n)| - 1] == Decimal(n / 10);
    } else {
      assert Decimal(n)[..0] == "";
    }
  }

  lemma {:induction false} DecimalOfValue(s: string)
    requires IsPlain(s)
    ensures Decimal(T.Value(s)) == s && (s[0] != '0' ==> T.Value(s) > 0)
  {
    var front, last := s[..|s| - 1], s[|s| - 1];
    if |s| > 1 {
      DecimalOfValue(front);
      assert T.Value(s) == T.Value(front) * 10 + (last as int - '0' as int);
      assert T.Value(s) / 10 == T.Value(front) && T.Value(s) % 10 == last as int - '0' as int;
      assert s == front + [last];
    } else {
      assert front == "" && T.Value(s) == last as int - '0' as int;
      assert s == [last];
    }
  }

  /** A plain integer within bounds that are below 2^64; any other spelling or value is refused. */
  function PlainInteger(raw: string, min: nat, max: nat): Option<nat> {
    if IsPlain(raw) && min <= T.Value(raw) <= max then Some(T.Value(raw)) else None
  }

  /** The plain integers within bounds are exactly the decimal spellings of the numbers within them. */
  lemma PlainIntegers(raw: string, min: nat, max: nat, n: nat)
    ensures PlainInteger(raw, min, max) == Some(n) <==> raw == Decimal(n) && min <= n <= max
  {
    ValueOfDecimal(n);
    if IsPlain(raw) {
      DecimalOfValue(raw);
    }
  }

  lemma {:induction false} DropAllDigits(s: string)
    requires T.AllDigits(s)
    ensures JsonText.DropDigits(s) == ""
  {
    if s != "" {
      DropAllDigits(s[1..]);
    }
  }

  lemma DecimalIsNumber(n: nat)
    ensures JsonText.IsNumber(Decimal(n))
  {
    DropAllDigits(Decimal(n)[1..]);
  }

  // ---- versions ----------------------------------------------------------------------------------

  datatype Version = Version(major: nat, minor: nat)

  function VersionPart(s: string): Option<nat> {
    if |s| <= 4 && IsPlain(s) then Some(T.Value(s)) else None
  }

  /** The text before the first dot and after it. */
  function SplitAtDot(s: string): Option<(string, string)> {
    if s == "" then None
    else if s[0] == '.' then Some(("", s[1..]))
    else
      var r := SplitAtDot(s[1..]);
      if r.None? then None else Some(([s[0]] + r.value.0, r.value.1))
  }

  function ParseVersion(s: string): Option<Version> {
    var parts := SplitAtDot(s);
    if parts.None? then None
    else
      var a, b := VersionPart(parts.value.0), VersionPart(parts.value.1);
      if a.None? || b.None? then None else Some(Version(a.value, b.value))
  }

  function ShowVersion(v: Version): string {
    Decimal(v.major) + "." + Decimal(v.minor)
  }

  lemma {:induction false} SplitOfJoin(a: string, b: string)
    requires '.' !in a
    ensures SplitAtDot(a + "." + b) == Some((a, b))
  {
    if a == "" {
      assert (a + "." + b)[1..] == b;
    } else {
      SplitOfJoin(a[1..], b);
      assert (a + "." + b)[1..] == a[1..] + "." + b;
      assert [a[0]] + a[1..] == a;
    }
  }

  lemma {:induction false} JoinOfSplit(s: string)
    requires SplitAtDot(s).Some?
    ensures s == SplitAtDot(s).value.0 + "." + SplitAtDot(s).value.1
  {
    if s[0] != '.' {
      JoinOfSplit(s[1..]);
    }
  }

  lemma {:induction false} LengthOfDecimal(n: nat, k: nat)
    ensures |Decimal(n)| <= k + 1 <==> n < T.Pow10(k + 1)
  {
    if n >= 10 {
      assert |Decimal(n)| == |Decimal(n / 10)| + 1;
      if k > 0 {
        LengthOfDecimal(n / 10, k - 1);
      } else {
        assert T.Pow10(1) == 10 * T.Pow10(0);
      }
    } else {
      PowerAtLeastTen(k);
    }
  }

  lemma {:induction false} PowerAtLeastTen(k: nat)
    ensures T.Pow10(k + 1) >= 10
  {
    if k > 0 {
      PowerAtLeastTen(k - 1);
    }
  }

  lemma PartOfDecimal(n: nat)
    ensures VersionPart(Decimal(n)) == if n <= 9999 then Some(n) else None
  {
    ValueOfDecimal(n);
    LengthOfDecimal(n, 3);
    T.PowersOfTen();
  }

  /** What a version shows is read back exactly when both of its parts are at most 9999; a version of the
      16-bit range beyond that shows a text that is refused. */
  lemma VersionRoundTrip(v: Version)
    ensures ParseVersion(ShowVersion(v)) == if v.major <= 9999 && v.minor <= 9999 then Some(v) else None
  {
    assert '.' !in Decimal(v.major);
    SplitOfJoin(Decimal(v.major), Decimal(v.minor));
    PartOfDecimal(v.major);
    PartOfDecimal(v.minor);
  }

  /** Every accepted text is the one its version shows. */
  lemma VersionText(s: string)
    requires ParseVersion(s).Some?
    ensures ShowVersion(ParseVersion(s).value) == s
  {
    JoinOfSplit(s);
    DecimalOfValue(SplitAtDot(s).value.0);
    DecimalOfValue(SplitAtDot(s).value.1);
  }
}
