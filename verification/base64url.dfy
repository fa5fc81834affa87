/** Strict unpadded base64url (section 5 of RFC 4648): no padding, no other character, and zero in the
    unused bits of the last character (section 3.5), so that an octet string has one encoding. */
module Base64Url {
  import opened Common

  // ---- the alphabet ------------------------------------------------------------------------------

  /** The letter of six bits: `A` to `Z`, `a` to `z`, `0` to `9`, `-` and `_`, in that order. */
  function Letter(d: nat): char
    requires d < 64
  {
    if d < 26 then 'A' + d as char
    else if d < 52 then 'a' + (d - 26) as char
    else if d < 62 then '0' + (d - 52) as char
    else if d == 62 then '-' else '_'
  }

  predicate IsLetter(c: char) {
    'A' <= c <= 'Z' || 'a' <= c <= 'z' || '0' <= c <= '9' || c == '-' || c == '_'
  }

  function Value(c: char): (v: Option<nat>)
    ensures v.Some? <==> IsLetter(c)
    ensures v.Some? ==> v.value < 64 && Letter(v.value) == c
  {
    if 'A' <= c <= 'Z' then Some((c - 'A') as nat)
    else if 'a' <= c <= 'z' then Some((c - 'a') as nat + 26)
    else if '0' <= c <= '9' then Some((c - '0') as nat + 52)
    else if c == '-' then Some(62)
    else if c == '_' then Some(63)
    else None
  }

  lemma ValueOfLetter(d: nat)
    requires d < 64
    ensures Value(Letter(d)) == Some(d)
  {
  }

  // ---- one group ---------------------------------------------------------------------------------

  /** A chunk of one to three octets as the top bits of 24. */
  function Bits(chunk: seq<Byte>): (n: nat)
    requires 1 <= |chunk| <= 3
    ensures n < 0x100_0000
  {
    var second: nat := if |chunk| > 1 then chunk[1] else 0;
    var third: nat := if |chunk| > 2 then chunk[2] else 0;
    chunk[0] * 65536 + second * 256 + third
  }

  /** The `k`-th six bits of 24. */
  function Sextet(n: nat, k: nat): (d: nat)
    requires n < 0x100_0000 && k < 4
    ensures d < 64
  {
    if k == 0 then n / 64 / 64 / 64 else if k == 1 then n / 64 / 64 % 64 else if k == 2 then n / 64 % 64 else n % 64
  }

  /** The `k`-th octet of 24 bits. */
  function Octet(n: nat, k: nat): (b: Byte)
    requires n < 0x100_0000 && k < 3
  {
    if k == 0 then n / 256 / 256 else if k == 1 then n / 256 % 256 else n % 256
  }

  function EncodeGroup(chunk: seq<Byte>): (s: string)
    requires 1 <= |chunk| <= 3
    ensures |s| == |chunk| + 1
  {
    var n := Bits(chunk);
    seq(|chunk| + 1, k requires 0 <= k <= |chunk| => Letter(Sextet(n, k)))
  }

  /** The six bits at place `k` of a group, clear past its end. */
  function Digit(group: string, k: nat): (d: nat)
    requires k < |group| ==> IsLetter(group[k])
    ensures d < 64
  {
    if k < |group| then Value(group[k]).value else 0
  }

  predicate AllLetters(s: string) {
    forall i :: 0 <= i < |s| ==> IsLetter(s[i])
  }

  /** The 24 bits a group of characters spells. */
  function Spelled(group: string): nat
    requires |group| <= 4 && AllLetters(group)
  {
    ((Digit(group, 0) * 64 + Digit(group, 1)) * 64 + Digit(group, 2)) * 64 + Digit(group, 3)
  }

  /** `None` when a character is outside the alphabet. */
  function Spell(group: string): (n: Option<nat>)
    requires |group| <= 4
    ensures n.Some? ==> n.value < 0x100_0000
  {
    if AllLetters(group) then Some(Spelled(group)) else None
  }

  /** The four sextets are the digits to base 64. */
  lemma FromSextets(n: nat, a: nat, b: nat, c: nat, d: nat)
    requires n == ((a * 64 + b) * 64 + c) * 64 + d && a < 64 && b < 64 && c < 64 && d < 64
    ensures n < 0x100_0000 && Sextet(n, 0) == a && Sextet(n, 1) == b && Sextet(n, 2) == c && Sextet(n, 3) == d
  {
    assert n / 64 == (a * 64 + b) * 64 + c;
    assert n / 64 / 64 == a * 64 + b;
  }

  lemma ToSextets(n: nat)
    requires n < 0x100_0000
    ensures n == ((Sextet(n, 0) * 64 + Sextet(n, 1)) * 64 + Sextet(n, 2)) * 64 + Sextet(n, 3)
  {
  }

  /** Each character is a sextet of what its group spells, and the places after them are clear. */
  lemma SextetsOfSpell(group: string)
    requires |group| <= 4 && AllLetters(group)
    ensures forall k :: 0 <= k < 4 ==> Sextet(Spell(group).value, k) == Digit(group, k)
  {
    FromSextets(Spelled(group), Digit(group, 0), Digit(group, 1), Digit(group, 2), Digit(group, 3));
  }

  /** The bits below the last whole octet of a group: none are below a group of one character, which
      holds no octet. */
  function Unused(n: nat, octets: nat): nat {
    if octets == 1 then n % 65536 else if octets == 2 then n % 256 else 0
  }

  function Octets(n: nat, count: nat): (o: seq<Byte>)
    requires n < 0x100_0000 && count <= 3
    ensures |o| == count && forall k :: 0 <= k < count ==> o[k] == Octet(n, k)
  {
    seq(count, k requires 0 <= k < count => Octet(n, k))
  }

  function DecodeGroup(group: string): Option<seq<Byte>>
    requires 1 <= |group| <= 4
  {
    var n := Spell(group);
    if n.None? then None else Unpack(n.value, |group| - 1)
  }

  /** The first octets of 24 bits, unless a bit after them is set. */
  function Unpack(n: nat, count: nat): Option<seq<Byte>>
    requires n < 0x100_0000 && count <= 3
  {
    if Unused(n, count) != 0 then None else Some(Octets(n, count))
  }

  lemma SextetsDecide(n: nat, m: nat)
    requires n < 0x100_0000 && m < 0x100_0000 && forall k :: 0 <= k < 4 ==> Sextet(n, k) == Sextet(m, k)
    ensures n == m
  {
    assert Sextet(n, 0) == Sextet(m, 0) && Sextet(n, 1) == Sextet(m, 1)
        && Sextet(n, 2) == Sextet(m, 2) && Sextet(n, 3) == Sextet(m, 3);
    ToSextets(n);
    ToSextets(m);
  }

  lemma FromOctets(n: nat, x: Byte, y: Byte, z: Byte)
    requires n == (x * 256 + y) * 256 + z
    ensures n < 0x100_0000 && Octet(n, 0) == x && Octet(n, 1) == y && Octet(n, 2) == z
    ensures Unused(n, 2) == z && (Unused(n, 1) == 0 <==> y == 0 && z == 0)
  {
    assert n / 256 == x * 256 + y;
  }

  lemma ClearSextets(chunk: seq<Byte>)
    requires 1 <= |chunk| <= 3
    ensures |chunk| < 3 ==> Sextet(Bits(chunk), 3) == 0
    ensures |chunk| < 2 ==> Sextet(Bits(chunk), 2) == 0
  {
    var x, y: nat := chunk[0], if |chunk| > 1 then chunk[1] else 0;
    if |chunk| < 3 {
      FromSextets(Bits(chunk), x / 4, x % 4 * 16 + y / 16, y % 16 * 4, 0);
    }
  }

  lemma OctetsOfBits(chunk: seq<Byte>)
    requires 1 <= |chunk| <= 3
    ensures Unused(Bits(chunk), |chunk|) == 0
    ensures forall k :: 0 <= k < |chunk| ==> Octet(Bits(chunk), k) == chunk[k]
  {
    FromOctets(Bits(chunk), chunk[0], if |chunk| > 1 then chunk[1] else 0, if |chunk| > 2 then chunk[2] else 0);
  }

  lemma LettersOfEncode(chunk: seq<Byte>)
    requires 1 <= |chunk| <= 3
    ensures AllLetters(EncodeGroup(chunk))
    ensures forall k :: 0 <= k <= |chunk| ==> Digit(EncodeGroup(chunk), k) == Sextet(Bits(chunk), k)
  {
    var n, s := Bits(chunk), EncodeGroup(chunk);
    forall k | 0 <= k < |s| ensures Value(s[k]) == Some(Sextet(n, k)) {
      ValueOfLetter(Sextet(n, k));
    }
  }

  lemma SpellOfEncode(chunk: seq<Byte>)
    requires 1 <= |chunk| <= 3
    ensures Spell(EncodeGroup(chunk)) == Some(Bits(chunk))
  {
    LettersOfEncode(chunk);
    ClearSextets(chunk);
    SextetsOfSpell(EncodeGroup(chunk));
    SextetsDecide(Spell(EncodeGroup(chunk)).value, Bits(chunk));
  }

  lemma GroupRoundTrip(chunk: seq<Byte>)
    requires 1 <= |chunk| <= 3
    ensures DecodeGroup(EncodeGroup(chunk)) == Some(chunk)
  {
    SpellOfEncode(chunk);
    OctetsOfBits(chunk);
    assert Octets(Bits(chunk), |chunk|) == chunk;
  }

  lemma BitsOfOctets(n: nat, octets: nat)
    requires n < 0x100_0000 && 1 <= octets <= 3 && Unused(n, octets) == 0
    ensures Bits(Octets(n, octets)) == n
  {
  }

  /** An accepted group of two to four characters is the encoding of its octets. */
  lemma GroupIsCanonical(group: string)
    requires 2 <= |group| <= 4 && DecodeGroup(group).Some?
    ensures |DecodeGroup(group).value| == |group| - 1 && EncodeGroup(DecodeGroup(group).value) == group
  {
    var n, chunk := Spell(group).value, DecodeGroup(group).value;
    BitsOfOctets(n, |group| - 1);
    SextetsOfSpell(group);
    forall k | 0 <= k < |group| ensures EncodeGroup(chunk)[k] == group[k] {
      assert Sextet(n, k) == Digit(group, k);
    }
  }

  // ---- whole texts -------------------------------------------------------------------------------

  function Encode(octets: seq<Byte>): (s: string) {
    if octets == [] then ""
    else
      var cut := Min(3, |octets|);
      EncodeGroup(octets[..cut]) + Encode(octets[cut..])
  }

  function DecodeGroups(s: string): Option<seq<Byte>> {
    if s == "" then Some([])
    else
      var cut := Min(4, |s|);
      Prepend(DecodeGroup(s[..cut]), DecodeGroups(s[cut..]))
  }

  function Prepend(front: Option<seq<Byte>>, rest: Option<seq<Byte>>): Option<seq<Byte>> {
    if front.None? || rest.None? then None else Some(front.value + rest.value)
  }

  /** The variable-length decoder. */
  function Decode(s: string): Option<seq<Byte>> {
    if |s| % 4 == 1 then None else DecodeGroups(s)
  }

  /** The number of characters that encode `n` octets: a third more, rounded up. */
  function EncodedLength(n: nat): nat {
    (n * 4 + 2) / 3
  }

  /** The fixed-size decoder. */
  function DecodeExact(n: nat, s: string): Option<seq<Byte>> {
    if |s| != EncodedLength(n) then None
    else
      var o := DecodeGroups(s);
      if o.Some? && |o.value| == n then o else None
  }

  lemma {:induction false} LengthOfEncode(octets: seq<Byte>)
    ensures |Encode(octets)| == EncodedLength(|octets|) && |Encode(octets)| % 4 != 1
  {
    if |octets| > 3 {
      LengthOfEncode(octets[3..]);
    } else if octets != [] {
      assert Encode(octets[|octets|..]) == "";
    }
  }

  /** A whole group in front, or one shorter group alone, is encoded by itself. */
  lemma EncodeJoin(chunk: seq<Byte>, rest: seq<Byte>)
    requires 1 <= |chunk| <= 3 && (|chunk| < 3 ==> rest == [])
    ensures Encode(chunk + rest) == EncodeGroup(chunk) + Encode(rest)
  {
    Cut(chunk, rest);
  }

  lemma DecodeJoin(group: string, rest: string)
    requires 1 <= |group| <= 4 && (|group| < 4 ==> rest == "")
    ensures DecodeGroups(group + rest) == Prepend(DecodeGroup(group), DecodeGroups(rest))
  {
    Cut(group, rest);
  }

  lemma {:induction false} DecodeGroupsOfEncode(octets: seq<Byte>)
    ensures DecodeGroups(Encode(octets)) == Some(octets)
  {
    if octets != [] {
      var cut := Min(3, |octets|);
      var chunk, rest := octets[..cut], octets[cut..];
      assert chunk + rest == octets;
      EncodeJoin(chunk, rest);
      GroupRoundTrip(chunk);
      DecodeGroupsOfEncode(rest);
      DecodeJoin(EncodeGroup(chunk), Encode(rest));
    }
  }

  lemma {:induction false} EncodeIsLetters(octets: seq<Byte>)
    ensures AllLetters(Encode(octets))
  {
    if octets != [] {
      var cut := Min(3, |octets|);
      LettersOfEncode(octets[..cut]);
      EncodeIsLetters(octets[cut..]);
      LettersJoin(EncodeGroup(octets[..cut]), Encode(octets[cut..]));
    }
  }

  lemma LettersJoin(s: string, t: string)
    requires AllLetters(s) && AllLetters(t)
    ensures AllLetters(s + t)
  {
  }

  /** Decoding undoes encoding, for the variable-length and the fixed-size decoder. */
  lemma DecodeOfEncode(octets: seq<Byte>)
    ensures Decode(Encode(octets)) == Some(octets)
    ensures DecodeExact(|octets|, Encode(octets)) == Some(octets)
  {
    LengthOfEncode(octets);
    DecodeGroupsOfEncode(octets);
  }

  lemma EncodeOfJoin(group: string, rest: string, back: seq<Byte>)
    requires 2 <= |group| <= 4 && DecodeGroup(group).Some? && Encode(back) == rest && (|group| < 4 ==> back == [])
    ensures Encode(DecodeGroup(group).value + back) == group + rest
  {
    GroupIsCanonical(group);
    EncodeJoin(DecodeGroup(group).value, back);
  }

  lemma LengthOfRest(n: nat)
    requires n % 4 != 1 && n != 0
    ensures n >= 2 && (n - Min(4, n)) % 4 != 1
  {
  }

  lemma {:induction false} EncodeOfGroups(s: string, octets: seq<Byte>)
    requires |s| % 4 != 1 && DecodeGroups(s) == Some(octets)
    ensures Encode(octets) == s
  {
    if s != "" {
      LengthOfRest(|s|);
      var cut := Min(4, |s|);
      var group, rest := s[..cut], s[cut..];
      assert group + rest == s;
      DecodeJoin(group, rest);
      EncodeOfGroups(rest, DecodeGroups(rest).value);
      EncodeOfJoin(group, rest, DecodeGroups(rest).value);
    }
  }

  /** An accepted text is the encoding of what it decodes to: no octet string has two encodings. */
  lemma EncodeOfDecode(s: string)
    requires Decode(s).Some?
    ensures Encode(Decode(s).value) == s
  {
    EncodeOfGroups(s, Decode(s).value);
  }

  lemma LengthsOfEncodings(n: nat)
    ensures EncodedLength(n) % 4 != 1
  {
  }

  lemma LengthOfDecode(s: string)
    requires Decode(s).Some?
    ensures |s| == EncodedLength(|Decode(s).value|)
  {
    EncodeOfDecode(s);
    LengthOfEncode(Decode(s).value);
  }

  /** The two decoders agree: a text is accepted as `n` octets by both or by neither. */
  lemma DecodersAgree(n: nat, s: string, octets: seq<Byte>)
    ensures DecodeExact(n, s) == Some(octets) <==> Decode(s) == Some(octets) && |octets| == n
  {
    if Decode(s).Some? {
      LengthOfDecode(s);
    }
    LengthsOfEncodings(n);
  }

  // ---- the loops ---------------------------------------------------------------------------------

  lemma EncodeStep(octets: seq<Byte>, i: nat, j: nat)
    requires i < |octets| && j == Min(i + 3, |octets|)
    ensures Encode(octets[i..]) == EncodeGroup(octets[i..j]) + Encode(octets[j..])
  {
    assert octets[i..j] + octets[j..] == octets[i..];
    EncodeJoin(octets[i..j], octets[j..]);
  }

  lemma DecodeStep(s: string, i: nat, j: nat)
    requires i < |s| && j == Min(i + 4, |s|)
    ensures DecodeGroups(s[i..]) == Prepend(DecodeGroup(s[i..j]), DecodeGroups(s[j..]))
  {
    assert s[i..j] + s[j..] == s[i..];
    DecodeJoin(s[i..j], s[j..]);
  }

  lemma PrependInTurn(a: seq<Byte>, b: seq<Byte>, rest: Option<seq<Byte>>)
    ensures Prepend(Some(a), Prepend(Some(b), rest)) == Prepend(Some(a + b), rest)
  {
    if rest.Some? {
      assert a + (b + rest.value) == a + b + rest.value;
    }
  }

  lemma PrependNothing(octets: seq<Byte>, rest: Option<seq<Byte>>)
    ensures Prepend(Some([]), rest) == rest && Prepend(Some(octets), Some([])) == Some(octets)
  {
    assert octets + [] == octets && (rest.Some? ==> [] + rest.value == rest.value);
  }

  method EncodeChunk(chunk: seq<Byte>) returns (out: string)
    requires 1 <= |chunk| <= 3
    ensures out == EncodeGroup(chunk)
  {
    var n := Bits(chunk);
    out := "";
    for k := 0 to |chunk| + 1
      invariant out == EncodeGroup(chunk)[..k]
    {
      out := out + [Letter(Sextet(n, k))];
    }
  }

  /** The first `i` octets are encoded as `out`. */
  ghost predicate Encoded(octets: seq<Byte>, i: nat, out: string) {
    i <= |octets| && Encode(octets) == out + Encode(octets[i..])
  }

  lemma EncodedStart(octets: seq<Byte>)
    ensures Encoded(octets, 0, "")
  {
    assert octets[0..] == octets && "" + Encode(octets) == Encode(octets);
  }

  lemma EncodedNext(octets: seq<Byte>, i: nat, j: nat, out: string, group: string)
    requires i < |octets| && j == Min(i + 3, |octets|) && Encoded(octets, i, out) && group == EncodeGroup(octets[i..j])
    ensures Encoded(octets, j, out + group)
  {
    EncodeStep(octets, i, j);
    assert out + (group + Encode(octets[j..])) == out + group + Encode(octets[j..]);
  }

  lemma EncodedEnd(octets: seq<Byte>, out: string)
    requires Encoded(octets, |octets|, out)
    ensures out == Encode(octets)
  {
    assert octets[|octets|..] == [] && out + "" == out;
  }

  method EncodeText(octets: seq<Byte>) returns (out: string)
    ensures out == Encode(octets)
  {
    out := "";
    var i := 0;
    EncodedStart(octets);
    while i < |octets|
      invariant 0 <= i <= |octets| && Encoded(octets, i, out)
    {
      var j := Min(i + 3, |octets|);
      var group := EncodeChunk(octets[i..j]);
      EncodedNext(octets, i, j, out, group);
      out, i := out + group, j;
    }
    EncodedEnd(octets, out);
  }

  /** Six bits shifted to place `k` of 24. */
  function Placed(v: nat, k: nat): nat
    requires k < 4
  {
    if k == 0 then v * 262144 else if k == 1 then v * 4096 else if k == 2 then v * 64 else v
  }

  lemma DigitOfLonger(group: string, k: nat, j: nat)
    requires k < |group| && AllLetters(group[..k]) && AllLetters(group[..k + 1])
    ensures Digit(group[..k + 1], j) == if j == k then Value(group[k]).value else Digit(group[..k], j)
  {
  }

  lemma PlaceDigit(a: nat, b: nat, c: nat, d: nat, v: nat)
    ensures ((v * 64 + b) * 64 + c) * 64 + d == ((0 * 64 + b) * 64 + c) * 64 + d + Placed(v, 0)
    ensures ((a * 64 + v) * 64 + c) * 64 + d == ((a * 64 + 0) * 64 + c) * 64 + d + Placed(v, 1)
    ensures ((a * 64 + b) * 64 + v) * 64 + d == ((a * 64 + b) * 64 + 0) * 64 + d + Placed(v, 2)
    ensures ((a * 64 + b) * 64 + c) * 64 + v == ((a * 64 + b) * 64 + c) * 64 + 0 + Placed(v, 3)
  {
  }

  lemma SpelledGrows(group: string, k: nat)
    requires k < |group| <= 4 && AllLetters(group[..k + 1])
    ensures AllLetters(group[..k]) && Spelled(group[..k + 1]) == Spelled(group[..k]) + Placed(Value(group[k]).value, k)
  {
    var shorter := group[..k];
    assert forall i :: 0 <= i < k ==> shorter[i] == group[..k + 1][i];
    DigitOfLonger(group, k, 0);
    DigitOfLonger(group, k, 1);
    DigitOfLonger(group, k, 2);
    DigitOfLonger(group, k, 3);
    PlaceDigit(Digit(shorter, 0), Digit(shorter, 1), Digit(shorter, 2), Digit(shorter, 3), Value(group[k]).value);
  }

  /** The octets of one group; the loop stops at the first character outside the alphabet. */
  method DecodeChunk(group: string) returns (octets: Option<seq<Byte>>)
    requires 1 <= |group| <= 4
    ensures octets == DecodeGroup(group)
  {
    var n := 0;
    for k := 0 to |group|
      invariant AllLetters(group[..k]) && Spelled(group[..k]) == n
    {
      var d := Value(group[k]);
      if d.None? {
        return None;
      }
      SpelledGrows(group, k);
      n := n + Placed(d.value, k);
    }
    assert group[..|group|] == group;
    assert Spell(group) == Some(n);
    octets := Unpack(n, |group| - 1);
  }

  /** The first `i` characters decode to `done`, and the text to that and what the rest decodes to. */
  ghost predicate Reached(s: string, i: nat, done: seq<Byte>) {
    i <= |s| && DecodeGroups(s) == Prepend(Some(done), DecodeGroups(s[i..]))
  }

  lemma ReachedStart(s: string)
    ensures Reached(s, 0, [])
  {
    assert s[0..] == s;
    PrependNothing([], DecodeGroups(s));
  }

  lemma ReachedEnd(s: string, done: seq<Byte>)
    requires Reached(s, |s|, done)
    ensures DecodeGroups(s) == Some(done)
  {
    PrependNothing(done, None);
  }

  lemma ReachedNext(s: string, i: nat, j: nat, done: seq<Byte>, group: Option<seq<Byte>>)
    requires i < |s| && j == Min(i + 4, |s|) && group == DecodeGroup(s[i..j]) && Reached(s, i, done)
    ensures group.None? ==> DecodeGroups(s).None?
    ensures group.Some? ==> |group.value| == j - i - 1 && Reached(s, j, done + group.value)
  {
    DecodeStep(s, i, j);
    if group.Some? {
      PrependInTurn(done, group.value, DecodeGroups(s[j..]));
    }
  }

  method DecodeText(s: string) returns (out: Option<seq<Byte>>)
    ensures out == Decode(s)
  {
    if |s| % 4 == 1 {
      return None;
    }
    var octets: seq<Byte> := [];
    var i := 0;
    ReachedStart(s);
    while i < |s|
      invariant 0 <= i <= |s| && Reached(s, i, octets)
    {
      var j := Min(i + 4, |s|);
      var group := DecodeChunk(s[i..j]);
      ReachedNext(s, i, j, octets, group);
      if group.None? {
        return None;
      }
      octets, i := octets + group.value, j;
    }
    ReachedEnd(s, octets);
    out := Some(octets);
  }

  /** A group of a text of the right length holds octets the array has room for. */
  lemma RoomForGroup(left: nat, chars: nat, j: nat)
    requires 0 < chars == EncodedLength(left) && j == Min(4, chars)
    ensures 2 <= j <= left + 1 && chars - j == EncodedLength(left - (j - 1))
  {
  }

  /** Write the octets of one group where the last group ended. */
  method WriteOctets(out: array<Byte>, at: nat, octets: seq<Byte>)
    requires at + |octets| <= out.Length
    modifies out
    ensures out[..at + |octets|] == old(out[..at]) + octets
  {
    for k := 0 to |octets|
      invariant out[..at + k] == old(out[..at]) + octets[..k]
    {
      out[at + k] := octets[k];
    }
  }

  /** Where the fixed-size decoder is: the text read so far fills the array so far, and what is left of
      the text is as long as what is left of the array needs. */
  ghost predicate Filling(s: string, i: nat, done: seq<Byte>, size: nat) {
    Reached(s, i, done) && |done| <= size && |s| - i == EncodedLength(size - |done|)
  }

  lemma FillingStart(s: string, size: nat)
    requires |s| == EncodedLength(size)
    ensures Filling(s, 0, [], size)
  {
    ReachedStart(s);
  }

  lemma FillingEnd(s: string, done: seq<Byte>, size: nat)
    requires |s| == EncodedLength(size) && Filling(s, |s|, done, size)
    ensures |done| == size && DecodeExact(size, s) == Some(done)
  {
    ReachedEnd(s, done);
  }

  lemma FillingNext(s: string, i: nat, j: nat, done: seq<Byte>, size: nat, group: Option<seq<Byte>>)
    requires i < |s| && j == Min(i + 4, |s|) && group == DecodeGroup(s[i..j]) && Filling(s, i, done, size)
    ensures group.None? ==> DecodeExact(size, s).None?
    ensures group.Some? ==> |done| + |group.value| <= size && Filling(s, j, done + group.value, size)
  {
    ReachedNext(s, i, j, done, group);
    RoomForGroup(size - |done|, |s| - i, j - i);
  }

  /** The fixed-size decoder writes its octets through an index that never leaves the array. */
  method DecodeArray(out: array<Byte>, s: string) returns (ok: bool)
    modifies out
    ensures ok <==> DecodeExact(out.Length, s).Some?
    ensures ok ==> out[..] == DecodeExact(out.Length, s).value
  {
    if |s| != EncodedLength(out.Length) {
      return false;
    }
    var written, i := 0, 0;
    ghost var done: seq<Byte> := [];
    FillingStart(s, out.Length);
    while i < |s|
      invariant 0 <= i <= |s| && 0 <= written <= out.Length
      invariant out[..written] == done && Filling(s, i, done, out.Length)
    {
      var j := Min(i + 4, |s|);
      var group := DecodeChunk(s[i..j]);
      FillingNext(s, i, j, done, out.Length, group);
      if group.None? {
        return false;
      }
      WriteOctets(out, written, group.value);
      done, written, i := done + group.value, written + |group.value|, j;
    }
    FillingEnd(s, done, out.Length);
    ok := written == out.Length;
  }
}
