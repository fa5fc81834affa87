/** Unsigned integers as big-endian octets, and session ids as Crockford Base32. */
module Octets {
  import opened Common

  /** base^n. */
  function Power(base: nat, n: nat): (p: nat)
    ensures base > 0 ==> p > 0
  {
    if n == 0 then 1 else base * Power(base, n - 1)
  }

  lemma Regroup(a: nat, b: nat, c: nat)
    ensures a * (b * c) == a * b * c
  {
  }

  lemma {:induction false} PowerSplits(base: nat, a: nat, b: nat)
    ensures Power(base, a + b) == Power(base, a) * Power(base, b)
  {
    if a > 0 {
      PowerSplits(base, a - 1, b);
      Regroup(base, Power(base, a - 1), Power(base, b));
      assert Power(base, a + b) == base * Power(base, a - 1 + b);
      assert Power(base, a) == base * Power(base, a - 1);
    }
  }

  /** The `n` big-endian octets of `v`. */
  function ToBe(v: nat, n: nat): (s: seq<Byte>)
    ensures |s| == n
  {
    if n == 0 then [] else ToBe(v / 256, n - 1) + [v % 256]
  }

  function FromBe(s: seq<Byte>): (v: nat)
    ensures v < Power(256, |s|)
  {
    if s == [] then 0 else FromBe(s[..|s| - 1]) * 256 + s[|s| - 1]
  }

  lemma {:induction false} FromBeOfToBe(v: nat, n: nat)
    requires v < Power(256, n)
    ensures FromBe(ToBe(v, n)) == v
  {
    if n > 0 {
      FromBeOfToBe(v / 256, n - 1);
      assert ToBe(v, n)[..n - 1] == ToBe(v / 256, n - 1);
    }
  }

  lemma {:induction false} ToBeOfFromBe(s: seq<Byte>)
    ensures ToBe(FromBe(s), |s|) == s
  {
    if s != [] {
      ToBeOfFromBe(s[..|s| - 1]);
      assert s == s[..|s| - 1] + [s[|s| - 1]];
    }
  }

  // ---- hexadecimal ------------------------------------------------------------------------------

  function HexDigit(d: int): (c: char)
    requires 0 <= d < 16
    ensures '0' <= c <= '9' || 'a' <= c <= 'f'
  {
    "0123456789abcdef"[d]
  }

  function Hex(octets: seq<Byte>): (s: string)
    ensures |s| == 2 * |octets|
    ensures forall i :: 0 <= i < |s| ==> '0' <= s[i] <= '9' || 'a' <= s[i] <= 'f'
  {
    if octets == [] then ""
    else [HexDigit(octets[0] / 16), HexDigit(octets[0] % 16)] + Hex(octets[1..])
  }

  lemma HexDigitInjective(d: int, e: int)
    requires 0 <= d < 16 && 0 <= e < 16 && HexDigit(d) == HexDigit(e)
    ensures d == e
  {
  }

  lemma {:induction false} HexInjective(a: seq<Byte>, b: seq<Byte>)
    requires |a| == |b| && Hex(a) == Hex(b)
    ensures a == b
  {
    if a != [] {
      assert Hex(a)[0] == Hex(b)[0] && Hex(a)[1] == Hex(b)[1];
      HexDigitInjective(a[0] / 16, b[0] / 16);
      HexDigitInjective(a[0] % 16, b[0] % 16);
      assert Hex(a)[2..] == Hex(a[1..]) && Hex(b)[2..] == Hex(b[1..]);
      HexInjective(a[1..], b[1..]);
    }
  }

  predicate AllHex(s: string) {
    forall i :: 0 <= i < |s| ==> '0' <= s[i] <= '9' || 'a' <= s[i] <= 'f'
  }

  lemma DigitOfHex(c: char) returns (d: int)
    requires '0' <= c <= '9' || 'a' <= c <= 'f'
    ensures 0 <= d < 16 && HexDigit(d) == c
  {
    d := if c <= '9' then c as int - '0' as int else c as int - 'a' as int + 10;
  }

  /** Every text of an even number of lower-case hexadecimal digits is that of some octets. */
  lemma {:induction false} OctetsOfHex(s: string) returns (octets: seq<Byte>)
    requires AllHex(s) && |s| % 2 == 0
    ensures Hex(octets) == s
  {
    if s == "" {
      octets := [];
    } else {
      var hi := DigitOfHex(s[0]);
      var lo := DigitOfHex(s[1]);
      var rest := OctetsOfHex(s[2..]);
      octets := [hi * 16 + lo] + rest;
      assert octets[1..] == rest && octets[0] / 16 == hi && octets[0] % 16 == lo;
      assert s == [s[0], s[1]] + s[2..];
    }
  }

  // ---- session ids -----------------------------------------------------------------------------

  /** The alphabet: the digits, and the lower-case letters but `i`, `l`, `o` and `u`. */
  const CROCKFORD := "0123456789abcdefghjkmnpqrstvwxyz"

  function Symbol(d: nat): char
    requires d < 32
  {
    if d < 10 then '0' + d as char
    else if d < 18 then 'a' + (d - 10) as char
    else if d < 20 then 'j' + (d - 18) as char
    else if d < 22 then 'm' + (d - 20) as char
    else if d < 27 then 'p' + (d - 22) as char
    else 'v' + (d - 27) as char
  }

  predicate IsSymbol(c: char) {
    '0' <= c <= '9' || 'a' <= c <= 'h' || 'j' <= c <= 'k' || 'm' <= c <= 'n' || 'p' <= c <= 't' || 'v' <= c <= 'z'
  }

  function SymbolValue(c: char): (d: nat)
    requires IsSymbol(c)
    ensures d < 32 && Symbol(d) == c
    ensures '0' <= c <= '7' <==> d < 8
  {
    if c <= '9' then (c - '0') as nat
    else if c <= 'h' then (c - 'a') as nat + 10
    else if c <= 'k' then (c - 'j') as nat + 18
    else if c <= 'n' then (c - 'm') as nat + 20
    else if c <= 't' then (c - 'p') as nat + 22
    else (c - 'v') as nat + 27
  }

  lemma ValueOfSymbol(d: nat)
    requires d < 32
    ensures IsSymbol(Symbol(d)) && SymbolValue(Symbol(d)) == d
  {
  }

  /** The symbols are the characters of the alphabet, each at its value. */
  lemma SymbolsAreTheAlphabet(c: char)
    ensures IsSymbol(c) <==> c in CROCKFORD
    ensures IsSymbol(c) ==> CROCKFORD[SymbolValue(c)] == c
  {
    if IsSymbol(c) {
      SymbolAt(SymbolValue(c));
    } else if c in CROCKFORD {
      var d :| 0 <= d < 32 && CROCKFORD[d] == c;
      SymbolAt(d);
      ValueOfSymbol(d);
    }
  }

  lemma SymbolAt(d: nat)
    requires d < 32
    ensures Symbol(d) == CROCKFORD[d]
  {
  }

  predicate AllSymbols(s: string) {
    forall i :: 0 <= i < |s| ==> IsSymbol(s[i])
  }

  predicate IsSessionId(s: string) {
    |s| == 26 && '0' <= s[0] <= '7' && AllSymbols(s[1..])
  }

  /** `v` shifted right by `k` groups of five bits. */
  function Shift(v: nat, k: nat): nat {
    if k == 0 then v else Shift(v / 32, k - 1)
  }

  /** The session id of 16 octets: 26 groups of five bits, the most significant first. */
  function FromRandomOctets(octets: seq<Byte>): string
    requires |octets| == 16
  {
    seq(26, i requires 0 <= i < 26 => Symbol(Shift(FromBe(octets), 25 - i) % 32))
  }

  /** `n` groups of five bits of `v`, written the other way about: from the last one. */
  function Groups(v: nat, n: nat): (s: string)
    ensures |s| == n
  {
    if n == 0 then "" else Groups(v / 32, n - 1) + [Symbol(v % 32)]
  }

  /** The number a text of the alphabet spells. */
  function Spelled(s: string): (v: nat)
    requires AllSymbols(s)
    ensures v < Power(32, |s|)
  {
    if s == "" then 0 else Spelled(s[..|s| - 1]) * 32 + SymbolValue(s[|s| - 1])
  }

  lemma IdIsAllSymbols(s: string)
    requires IsSessionId(s)
    ensures AllSymbols(s)
  {
    forall i | 0 <= i < |s| ensures IsSymbol(s[i]) {
      assert i > 0 ==> s[i] == s[1..][i - 1];
    }
  }

  /** The octets a session id stands for. */
  function OctetsOf(s: string): (o: seq<Byte>)
    requires IsSessionId(s)
    ensures |o| == 16
  {
    IdIsAllSymbols(s);
    ToBe(Spelled(s), 16)
  }

  lemma {:induction false} GroupAt(v: nat, n: nat, i: nat)
    requires i < n
    ensures Groups(v, n)[i] == Symbol(Shift(v, n - 1 - i) % 32)
  {
    if i < n - 1 {
      GroupAt(v / 32, n - 1, i);
    }
  }

  lemma IdIsGroups(octets: seq<Byte>)
    requires |octets| == 16
    ensures FromRandomOctets(octets) == Groups(FromBe(octets), 26)
  {
    forall i | 0 <= i < 26 ensures FromRandomOctets(octets)[i] == Groups(FromBe(octets), 26)[i] {
      GroupAt(FromBe(octets), 26, i);
    }
  }

  lemma {:induction false} SpelledGroups(v: nat, n: nat)
    requires v < Power(32, n)
    ensures AllSymbols(Groups(v, n)) && Spelled(Groups(v, n)) == v
  {
    if n > 0 {
      SpelledGroups(v / 32, n - 1);
      assert Groups(v, n)[..n - 1] == Groups(v / 32, n - 1);
      ValueOfSymbol(v % 32);
    }
  }

  lemma GroupsOneMore(v: nat, u: nat, d: nat, front: string)
    requires d < 32 && v == u * 32 + d && Groups(u, |front|) == front
    ensures Groups(v, |front| + 1) == front + [Symbol(d)]
  {
    assert v / 32 == u && v % 32 == d;
  }

  lemma {:induction false} GroupsSpelled(s: string)
    requires AllSymbols(s)
    ensures Groups(Spelled(s), |s|) == s
  {
    if s != "" {
      var front, d := s[..|s| - 1], SymbolValue(s[|s| - 1]);
      assert Groups(Spelled(s), |s|) == front + [Symbol(d)] by {
        GroupsSpelled(front);
        GroupsOneMore(Spelled(s), Spelled(front), d, front);
      }
    }
  }

  lemma {:induction false} ShiftBelow(v: nat, k: nat, b: nat)
    requires v < b * Power(32, k)
    ensures Shift(v, k) < b
  {
    if k > 0 {
      assert b * Power(32, k) == 32 * (b * Power(32, k - 1));
      ShiftBelow(v / 32, k - 1, b);
    }
  }

  lemma {:induction false} SpelledBelow(s: string, b: nat)
    requires AllSymbols(s) && s != "" && SymbolValue(s[0]) < b
    ensures Spelled(s) < b * Power(32, |s| - 1)
  {
    var front := s[..|s| - 1];
    if |s| == 1 {
      assert front == "" && Power(32, 0) == 1;
    } else {
      SpelledBelow(front, b);
      Moved(b, Power(32, |s| - 2));
      assert Power(32, |s| - 1) == 32 * Power(32, |s| - 2);
    }
  }

  lemma Moved(b: nat, p: nat)
    ensures b * (32 * p) == 32 * (b * p)
  {
  }

  /** 2^128 as octets and as groups of five bits after two leading zero bits. */
  lemma BitsOfAnId()
    ensures Fills(16, 26)
  {
    assert Power(32, 2) == 1024 && Power(32, 4) == 0x10_0000 && Power(32, 5) == 0x200_0000;
    PowerSplits(32, 5, 5);
    PowerSplits(32, 10, 10);
    PowerSplits(32, 20, 5);
    assert Power(256, 2) == 0x1_0000 && Power(256, 4) == 0x1_0000_0000;
    PowerSplits(256, 4, 4);
    PowerSplits(256, 8, 8);
  }

  /** `m` octets fill `n` groups of five bits, the first with its top two bits clear. */
  ghost predicate Fills(m: nat, n: nat) {
    n > 0 && Power(256, m) == 8 * Power(32, n - 1)
  }

  /** The leading character holds the top three bits. */
  lemma LeadOfGroups(v: nat, m: nat, n: nat)
    requires Fills(m, n) && v < Power(256, m)
    ensures '0' <= Groups(v, n)[0] <= '7'
  {
    ShiftBelow(v, n - 1, 8);
    GroupAt(v, n, 0);
    ValueOfSymbol(Shift(v, n - 1));
  }

  lemma OctetsOfGroups(octets: seq<Byte>, n: nat)
    requires Fills(|octets|, n)
    ensures var s := Groups(FromBe(octets), n);
            '0' <= s[0] <= '7' && AllSymbols(s) && ToBe(Spelled(s), |octets|) == octets
  {
    var v := FromBe(octets);
    LeadOfGroups(v, |octets|, n);
    SpelledGroups(v, n);
    ToBeOfFromBe(octets);
  }

  lemma GroupsOfOctets(s: string, m: nat)
    requires Fills(m, |s|) && AllSymbols(s) && '0' <= s[0] <= '7'
    ensures Groups(FromBe(ToBe(Spelled(s), m)), |s|) == s
  {
    SpelledBelow(s, 8);
    FromBeOfToBe(Spelled(s), m);
    GroupsSpelled(s);
  }

  /** Every 16 octets have a session id, and are the octets it stands for. */
  lemma OctetsOfId(octets: seq<Byte>)
    requires |octets| == 16
    ensures IsSessionId(FromRandomOctets(octets))
    ensures OctetsOf(FromRandomOctets(octets)) == octets
  {
    IdIsGroups(octets);
    BitsOfAnId();
    OctetsOfGroups(octets, 26);
  }

  /** Every session id is the id of exactly the octets it stands for. */
  lemma IdOfOctets(s: string)
    requires IsSessionId(s)
    ensures FromRandomOctets(OctetsOf(s)) == s
  {
    IdIsAllSymbols(s);
    BitsOfAnId();
    GroupsOfOctets(s, 16);
    IdIsGroups(OctetsOf(s));
  }
}
