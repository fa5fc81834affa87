/** The stored state of a device's agreement keys: a length-exact binary plaintext, and the sealed file
    around it. */
module AtRest {
  import opened Common
  import opened Octets
  import T = Timestamp

  const U64: nat := 0x1_0000_0000_0000_0000
  const MAX_KEYS: nat := 1024
  const MAX_TIMESTAMP_TEXT: nat := 40
  const MAX_PLAINTEXT: nat := 1 + 8 + 2 + MAX_KEYS * (32 + 8 + 1 + MAX_TIMESTAMP_TEXT)
  const HEADER_LEN: nat := 4 + 1 + 1 + 64
  const ENC_LEN: nat := 32
  const TAG_LEN: nat := 16
  const MIN_FILE: nat := HEADER_LEN + ENC_LEN + TAG_LEN
  const MAX_FILE_LEN: nat := HEADER_LEN + ENC_LEN + MAX_PLAINTEXT + TAG_LEN

  datatype AtRestError = TooLarge | Malformed | Unsupported | NotThisDevice | Authentication | Corrupt | Seal

  datatype StoredKey = StoredKey(privateKey: seq<Byte>, number: nat, issuedAt: T.Stamp)

  datatype State = State(keys: seq<StoredKey>, highest: Option<nat>)

  /** What the types of the source promise: 32 octets, 64-bit sequence numbers, and timestamps that
      parsing their text gives. */
  predicate ProperKey(parse: T.Parser, k: StoredKey) {
    |k.privateKey| == 32 && k.number < U64 && parse(k.issuedAt.text) == Some(k.issuedAt)
  }

  predicate AllProper(parse: T.Parser, keys: seq<StoredKey>) {
    forall i :: 0 <= i < |keys| ==> ProperKey(parse, keys[i])
  }

  predicate Proper(parse: T.Parser, s: State) {
    (s.highest.Some? ==> s.highest.value < U64) && AllProper(parse, s.keys)
  }

  /** No key has a sequence number above the highest recorded one. */
  predicate Covered(k: StoredKey, highest: Option<nat>) {
    highest.Some? && k.number <= highest.value
  }

  predicate AllCovered(s: State) {
    forall i :: 0 <= i < |s.keys| ==> Covered(s.keys[i], s.highest)
  }

  lemma Regroup(a: seq<Byte>, b: seq<Byte>, c: seq<Byte>)
    ensures a + (b + c) == a + b + c
  {
  }

  // ---- text --------------------------------------------------------------------------------------

  function Ascii(s: string): (o: seq<Byte>)
    requires T.IsAscii(s)
    ensures |o| == |s|
  {
    seq(|s|, i requires 0 <= i < |s| => s[i] as int)
  }

  /** The text of octets that are all ASCII; a timestamp has no other text. */
  function Text(o: seq<Byte>): (s: Option<string>)
    ensures s.Some? ==> |s.value| == |o|
  {
    if forall i :: 0 <= i < |o| ==> o[i] < 128 then
      Some(seq(|o|, i requires 0 <= i < |o| => o[i] as char))
    else None
  }

  lemma TextOfAscii(s: string)
    requires T.IsAscii(s)
    ensures Text(Ascii(s)) == Some(s)
  {
    assert Text(Ascii(s)).value == s;
  }

  lemma AsciiOfText(o: seq<Byte>)
    requires Text(o).Some?
    ensures T.IsAscii(Text(o).value) && Ascii(Text(o).value) == o
  {
  }

  // ---- one key -----------------------------------------------------------------------------------

  /** The key's text has a length the writer takes. */
  predicate TextFits(k: StoredKey) {
    T.IsAscii(k.issuedAt.text) && 1 <= |k.issuedAt.text| <= MAX_TIMESTAMP_TEXT
  }

  function KeyOctets(k: StoredKey): (o: seq<Byte>)
    requires TextFits(k)
    ensures |o| == |k.privateKey| + 8 + 1 + |k.issuedAt.text|
  {
    k.privateKey + (ToBe(k.number, 8) + ([|k.issuedAt.text|] + Ascii(k.issuedAt.text)))
  }

  /** The parse of a stored text, which must keep its spelling. */
  function StampOf(parse: T.Parser, o: seq<Byte>): Option<T.Stamp> {
    var text := Text(o);
    if text.None? then None
    else
      var t := parse(text.value);
      if t.Some? && t.value.text == text.value then t else None
  }

  /** A key at the front of `s` and what is left, read piece by piece; `None` when a piece is missing or
      malformed. */
  function DecodeKey(parse: T.Parser, s: seq<Byte>): Option<(StoredKey, seq<Byte>)> {
    if |s| < 32 then None
    else
      var (privateKey, s1) := (s[..32], s[32..]);
      if |s1| < 8 then None
      else
        var (number, s2) := (FromBe(s1[..8]), s1[8..]);
        if |s2| < 1 then None
        else
          var (len, s3) := (s2[0], s2[1..]);
          if len == 0 || len > MAX_TIMESTAMP_TEXT || |s3| < len then None
          else
            var t := StampOf(parse, s3[..len]);
            if t.None? then None else Some((StoredKey(privateKey, number, t.value), s3[len..]))
  }

  lemma WordBound()
    ensures Power(256, 8) == U64 && Power(256, 2) == 65536
  {
  }

  lemma ProperText(parse: T.Parser, k: StoredKey)
    requires T.KeepsText(parse) && ProperKey(parse, k)
    ensures TextFits(k) && |k.privateKey| == 32
    ensures StampOf(parse, Ascii(k.issuedAt.text)) == Some(k.issuedAt)
  {
    TextOfAscii(k.issuedAt.text);
  }

  lemma StampText(parse: T.Parser, o: seq<Byte>)
    requires StampOf(parse, o).Some?
    ensures var t := StampOf(parse, o).value;
            parse(t.text) == Some(t) && T.IsAscii(t.text) && Ascii(t.text) == o
  {
    AsciiOfText(o);
  }

  lemma Pieces(a: seq<Byte>, b: seq<Byte>, c: seq<Byte>, d: seq<Byte>, rest: seq<Byte>)
    requires |c| == 1
    ensures var s := a + (b + (c + d)) + rest;
            && |s| == |a| + |b| + 1 + |d| + |rest|
            && s[..|a|] == a
            && s[|a|..][..|b|] == b
            && s[|a|..][|b|..][0] == c[0]
            && s[|a|..][|b|..][1..][..|d|] == d
            && s[|a|..][|b|..][1..][|d|..] == rest
  {
    var s := a + (b + (c + d)) + rest;
    assert s[|a|..] == b + (c + d + rest);
    assert s[|a|..][|b|..] == c + (d + rest);
    assert s[|a|..][|b|..][1..] == d + rest;
  }

  lemma DecodeKeyOfOctets(parse: T.Parser, k: StoredKey, rest: seq<Byte>)
    requires T.KeepsText(parse) && ProperKey(parse, k)
    ensures TextFits(k) && DecodeKey(parse, KeyOctets(k) + rest) == Some((k, rest))
  {
    ProperText(parse, k);
    WordBound();
    FromBeOfToBe(k.number, 8);
    Pieces(k.privateKey, ToBe(k.number, 8), [|k.issuedAt.text|], Ascii(k.issuedAt.text), rest);
  }

  lemma Together(s: seq<Byte>, len: nat)
    requires 41 + len <= |s|
    ensures s == s[..32] + (s[32..][..8] + ([s[32..][8..][0]] + s[32..][8..][1..][..len])) + s[32..][8..][1..][len..]
  {
  }

  lemma OctetsOfDecodeKey(parse: T.Parser, s: seq<Byte>)
    requires DecodeKey(parse, s).Some?
    ensures var (k, rest) := DecodeKey(parse, s).value;
            ProperKey(parse, k) && TextFits(k) && KeyOctets(k) + rest == s
  {
    var s1 := s[32..];
    var len := s1[8..][0];
    StampText(parse, s1[8..][1..][..len]);
    WordBound();
    ToBeOfFromBe(s1[..8]);
    Together(s, len);
  }

  // ---- the whole state ---------------------------------------------------------------------------

  predicate AllWritable(keys: seq<StoredKey>) {
    forall i :: 0 <= i < |keys| ==> TextFits(keys[i])
  }

  /** Every key in turn. */
  function KeysOctets(keys: seq<StoredKey>): seq<Byte>
    requires AllWritable(keys)
  {
    if keys == [] then [] else KeyOctets(keys[0]) + KeysOctets(keys[1..])
  }

  lemma ProperIsWritable(parse: T.Parser, keys: seq<StoredKey>)
    requires T.KeepsText(parse) && AllProper(parse, keys)
    ensures AllWritable(keys)
  {
    forall i | 0 <= i < |keys| ensures TextFits(keys[i]) {
      ProperText(parse, keys[i]);
    }
  }

  function Head(highest: Option<nat>, count: nat): (o: seq<Byte>)
    ensures |o| == 11
  {
    [if highest.Some? then 1 else 0] + (ToBe(if highest.Some? then highest.value else 0, 8) + ToBe(count, 2))
  }

  function Layout(s: State): seq<Byte>
    requires AllWritable(s.keys)
  {
    Head(s.highest, |s.keys|) + KeysOctets(s.keys)
  }

  /** The writer: it refuses too many keys, a key the recorded highest number does not cover, and a text
      of the wrong length. */
  function EncodeState(s: State): Result<seq<Byte>, AtRestError> {
    if |s.keys| > MAX_KEYS then Err(TooLarge)
    else if !AllCovered(s) || !AllWritable(s.keys) then Err(Corrupt)
    else Ok(Layout(s))
  }

  function Extend(k: StoredKey, more: Option<(seq<StoredKey>, seq<Byte>)>): Option<(seq<StoredKey>, seq<Byte>)> {
    if more.None? then None else Some(([k] + more.value.0, more.value.1))
  }

  function DecodeKeys(parse: T.Parser, s: seq<Byte>, count: nat): Option<(seq<StoredKey>, seq<Byte>)>
    decreases count
  {
    if count == 0 then Some(([], s))
    else
      var k := DecodeKey(parse, s);
      if k.None? then None else Extend(k.value.0, DecodeKeys(parse, k.value.1, count - 1))
  }

  /** The highest number of a flag and a word: a clear flag goes with zero only. */
  function Highest(flag: Byte, word: nat): Option<Option<nat>> {
    if flag == 0 && word == 0 then Some(None) else if flag == 1 then Some(Some(word)) else None
  }

  function DecodeState(parse: T.Parser, p: seq<Byte>): Result<State, AtRestError> {
    if |p| < 1 then Err(Corrupt)
    else
      var (flag, p1) := (p[0], p[1..]);
      if |p1| < 8 then Err(Corrupt)
      else
        var highest, p2 := Highest(flag, FromBe(p1[..8])), p1[8..];
        if highest.None? || |p2| < 2 then Err(Corrupt)
        else
          var count := FromBe(p2[..2]);
          if count > MAX_KEYS then Err(Corrupt)
          else
            var keys := DecodeKeys(parse, p2[2..], count);
            if keys.None? || keys.value.1 != [] then Err(Corrupt) else Ok(State(keys.value.0, highest.value))
  }

  lemma {:induction false} DecodeKeysOfOctets(parse: T.Parser, keys: seq<StoredKey>, rest: seq<Byte>)
    requires T.KeepsText(parse) && AllProper(parse, keys) && AllWritable(keys)
    ensures DecodeKeys(parse, KeysOctets(keys) + rest, |keys|) == Some((keys, rest))
  {
    if keys == [] {
      assert KeysOctets(keys) + rest == rest;
    } else {
      var key, more := keys[0], keys[1..];
      assert [key] + more == keys;
      DecodeKeysOfOctets(parse, more, rest);
      DecodeKeyOfOctets(parse, key, KeysOctets(more) + rest);
      Regroup(KeyOctets(key), KeysOctets(more), rest);
    }
  }

  /** `s` is these proper keys as they are written, and then `rest`. */
  ghost predicate Spells(parse: T.Parser, s: seq<Byte>, keys: seq<StoredKey>, rest: seq<Byte>) {
    AllProper(parse, keys) && AllWritable(keys) && KeysOctets(keys) + rest == s
  }

  lemma SpellsCons(parse: T.Parser, s: seq<Byte>, key: StoredKey, s1: seq<Byte>, keys: seq<StoredKey>, rest: seq<Byte>)
    requires ProperKey(parse, key) && TextFits(key) && KeyOctets(key) + s1 == s && Spells(parse, s1, keys, rest)
    ensures Spells(parse, s, [key] + keys, rest)
  {
    assert ([key] + keys)[1..] == keys;
    Regroup(KeyOctets(key), KeysOctets(keys), rest);
  }

  lemma {:induction false} OctetsOfDecodeKeys(parse: T.Parser, s: seq<Byte>, count: nat)
    requires DecodeKeys(parse, s, count).Some?
    ensures |DecodeKeys(parse, s, count).value.0| == count
    ensures Spells(parse, s, DecodeKeys(parse, s, count).value.0, DecodeKeys(parse, s, count).value.1)
    decreases count
  {
    if count == 0 {
      assert KeysOctets([]) + s == s;
    } else {
      var (key, s1) := DecodeKey(parse, s).value;
      var (keys, rest) := DecodeKeys(parse, s1, count - 1).value;
      OctetsOfDecodeKeys(parse, s1, count - 1);
      OctetsOfDecodeKey(parse, s);
      SpellsCons(parse, s, key, s1, keys, rest);
    }
  }

  lemma HeadPieces(flag: Byte, word: seq<Byte>, count: seq<Byte>, body: seq<Byte>)
    requires |word| == 8 && |count| == 2
    ensures var p := [flag] + (word + count) + body;
            p[0] == flag && p[1..][..8] == word && p[1..][8..][..2] == count && p[1..][8..][2..] == body
  {
    var p := [flag] + (word + count) + body;
    assert p[1..] == word + (count + body);
    assert p[1..][8..] == count + body;
  }

  lemma HeadTogether(p: seq<Byte>)
    requires |p| >= 11
    ensures p == [p[0]] + (p[1..][..8] + p[1..][8..][..2]) + p[1..][8..][2..]
  {
  }

  lemma HeadOfParts(highest: Option<nat>, count: nat, body: seq<Byte>)
    requires (highest.Some? ==> highest.value < U64) && count <= MAX_KEYS
    ensures var p := Head(highest, count) + body;
            && |p| >= 11 && Highest(p[0], FromBe(p[1..][..8])) == Some(highest)
            && FromBe(p[1..][8..][..2]) == count && p[1..][8..][2..] == body
  {
    var word := if highest.Some? then highest.value else 0;
    WordBound();
    FromBeOfToBe(word, 8);
    FromBeOfToBe(count, 2);
    HeadPieces(if highest.Some? then 1 else 0, ToBe(word, 8), ToBe(count, 2), body);
  }

  lemma PartsOfHead(p: seq<Byte>, highest: Option<nat>)
    requires |p| >= 11 && Highest(p[0], FromBe(p[1..][..8])) == Some(highest)
    ensures p == Head(highest, FromBe(p[1..][8..][..2])) + p[1..][8..][2..]
    ensures highest.Some? ==> highest.value < U64
  {
    HeadTogether(p);
    WordBound();
    ToBeOfFromBe(p[1..][..8]);
    ToBeOfFromBe(p[1..][8..][..2]);
  }

  /** The reader takes the layout of any proper state of at most `MAX_KEYS` keys, covered or not. */
  lemma DecodeOfLayout(parse: T.Parser, s: State)
    requires T.KeepsText(parse) && Proper(parse, s) && |s.keys| <= MAX_KEYS
    ensures AllWritable(s.keys) && DecodeState(parse, Layout(s)) == Ok(s)
  {
    ProperIsWritable(parse, s.keys);
    HeadOfParts(s.highest, |s.keys|, KeysOctets(s.keys));
    DecodeKeysOfOctets(parse, s.keys, []);
    assert KeysOctets(s.keys) + [] == KeysOctets(s.keys);
  }

  lemma LayoutOfDecode(parse: T.Parser, p: seq<Byte>)
    requires DecodeState(parse, p).Ok?
    ensures var s := DecodeState(parse, p).value;
            Proper(parse, s) && |s.keys| <= MAX_KEYS && AllWritable(s.keys) && Layout(s) == p
  {
    var s := DecodeState(parse, p).value;
    PartsOfHead(p, s.highest);
    OctetsOfDecodeKeys(parse, p[1..][8..][2..], FromBe(p[1..][8..][..2]));
    assert KeysOctets(s.keys) + [] == KeysOctets(s.keys);
  }

  /** The writer takes exactly the states of at most `MAX_KEYS` keys that the recorded highest number
      covers, and reading gives back every state that is written. */
  lemma DecodeOfEncode(parse: T.Parser, s: State)
    requires T.KeepsText(parse) && Proper(parse, s)
    ensures EncodeState(s).Ok? <==> |s.keys| <= MAX_KEYS && AllCovered(s)
    ensures EncodeState(s).Ok? ==> DecodeState(parse, EncodeState(s).value) == Ok(s)
  {
    ProperIsWritable(parse, s.keys);
    if EncodeState(s).Ok? {
      DecodeOfLayout(parse, s);
    }
  }

  /** An accepted plaintext is written again as it was read exactly when the recorded highest number
      covers every key; the reader does not look at that, and the writer refuses such a state. */
  lemma EncodeOfDecode(parse: T.Parser, p: seq<Byte>)
    requires DecodeState(parse, p).Ok?
    ensures EncodeState(DecodeState(parse, p).value)
         == if AllCovered(DecodeState(parse, p).value) then Ok(p) else Err(Corrupt)
  {
    LayoutOfDecode(parse, p);
  }

  /** A plaintext the reader accepts and the writer would not write: one key numbered 1, issued at any
      time, and no highest number. */
  lemma UncoveredIsRead(parse: T.Parser, t: T.Stamp) returns (p: seq<Byte>)
    requires T.KeepsText(parse) && parse(t.text) == Some(t)
    ensures DecodeState(parse, p) == Ok(State([StoredKey(seq(32, i => 0), 1, t)], None))
    ensures EncodeState(DecodeState(parse, p).value) == Err(Corrupt)
  {
    var s := State([StoredKey(seq(32, i => 0), 1, t)], None);
    DecodeOfLayout(parse, s);
    p := Layout(s);
    assert !Covered(s.keys[0], s.highest);
  }

  // ---- the writer's loops ------------------------------------------------------------------------

  lemma {:induction false} KeysSnoc(keys: seq<StoredKey>, last: StoredKey)
    requires AllWritable(keys) && TextFits(last)
    ensures AllWritable(keys + [last]) && KeysOctets(keys + [last]) == KeysOctets(keys) + KeyOctets(last)
  {
    if keys == [] {
      assert keys + [last] == [last] && KeyOctets(last) + [] == KeyOctets(last);
    } else {
      KeysSnoc(keys[1..], last);
      assert (keys + [last])[1..] == keys[1..] + [last];
      Regroup(KeyOctets(keys[0]), KeysOctets(keys[1..]), KeyOctets(last));
    }
  }

  lemma KeysNext(keys: seq<StoredKey>, i: nat)
    requires i < |keys| && AllWritable(keys[..i]) && TextFits(keys[i])
    ensures AllWritable(keys[..i + 1]) && KeysOctets(keys[..i + 1]) == KeysOctets(keys[..i]) + KeyOctets(keys[i])
  {
    assert keys[..i + 1] == keys[..i] + [keys[i]];
    KeysSnoc(keys[..i], keys[i]);
  }

  /** The number of octets the writer will write: all its checks are here, and the number is exact and
      within what a file holds. */
  method EncodedLen(s: State) returns (r: Result<nat, AtRestError>)
    requires forall i :: 0 <= i < |s.keys| ==> |s.keys[i].privateKey| == 32 && T.IsAscii(s.keys[i].issuedAt.text)
    ensures r.Err? ==> EncodeState(s) == Err(r.error)
    ensures r.Ok? ==> EncodeState(s).Ok? && r.value == |EncodeState(s).value| <= MAX_PLAINTEXT
  {
    if |s.keys| > MAX_KEYS {
      return Err(TooLarge);
    }
    var total := 1 + 8 + 2;
    for i := 0 to |s.keys|
      invariant forall j :: 0 <= j < i ==> Covered(s.keys[j], s.highest)
      invariant AllWritable(s.keys[..i]) && total == 11 + |KeysOctets(s.keys[..i])| <= 11 + i * 81
    {
      if !Covered(s.keys[i], s.highest) {
        return Err(Corrupt);
      }
      var len := |s.keys[i].issuedAt.text|;
      if len == 0 || len > MAX_TIMESTAMP_TEXT {
        assert !TextFits(s.keys[i]);
        return Err(Corrupt);
      }
      KeysNext(s.keys, i);
      total := total + 32 + 8 + 1 + len;
    }
    assert s.keys[..|s.keys|] == s.keys;
    r := Ok(total);
  }

  /** The buffer is filled key by key, to exactly the length reserved for it. */
  method EncodeBuffer(s: State) returns (r: Result<seq<Byte>, AtRestError>)
    requires forall i :: 0 <= i < |s.keys| ==> |s.keys[i].privateKey| == 32 && T.IsAscii(s.keys[i].issuedAt.text)
    ensures r == EncodeState(s)
  {
    var total := EncodedLen(s);
    if total.Err? {
      return Err(total.error);
    }
    ghost var head := Head(s.highest, |s.keys|);
    var out := [if s.highest.Some? then 1 else 0]
             + (ToBe(if s.highest.Some? then s.highest.value else 0, 8) + ToBe(|s.keys|, 2));
    assert out == head + KeysOctets(s.keys[..0]);
    for i := 0 to |s.keys|
      invariant AllWritable(s.keys[..i]) && out == head + KeysOctets(s.keys[..i])
    {
      var key := s.keys[i];
      KeysNext(s.keys, i);
      Regroup(head, KeysOctets(s.keys[..i]), KeyOctets(key));
      out := out + (key.privateKey + (ToBe(key.number, 8) + ([|key.issuedAt.text|] + Ascii(key.issuedAt.text))));
    }
    assert s.keys[..|s.keys|] == s.keys;
    assert |out| == total.value;
    r := Ok(out);
  }

  // ---- the reader's cursor -----------------------------------------------------------------------

  /** What is left of a plaintext to read; asking for more than that is refused. */
  class Reader {
    var rest: seq<Byte>

    constructor (plaintext: seq<Byte>)
      ensures rest == plaintext
    {
      rest := plaintext;
    }

    method Take(n: nat) returns (r: Option<seq<Byte>>)
      modifies this
      ensures r.None? <==> |old(rest)| < n
      ensures r.None? ==> rest == old(rest)
      ensures r.Some? ==> r.value == old(rest)[..n] && rest == old(rest)[n..]
    {
      if |rest| < n {
        return None;
      }
      r, rest := Some(rest[..n]), rest[n..];
    }

    /** One key, piece by piece. */
    method TakeKey(parse: T.Parser) returns (k: Option<StoredKey>)
      modifies this
      ensures k.None? <==> DecodeKey(parse, old(rest)).None?
      ensures k.Some? ==> DecodeKey(parse, old(rest)) == Some((k.value, rest))
    {
      var privateKey := Take(32);
      if privateKey.None? {
        return None;
      }
      var word := Take(8);
      if word.None? {
        return None;
      }
      var len := Take(1);
      if len.None? || len.value[0] == 0 || len.value[0] > MAX_TIMESTAMP_TEXT {
        return None;
      }
      var text := Take(len.value[0]);
      if text.None? {
        return None;
      }
      var t := StampOf(parse, text.value);
      if t.None? {
        return None;
      }
      k := Some(StoredKey(privateKey.value, FromBe(word.value), t.value));
    }

    /** `count` keys: the run the specification reads. */
    method TakeKeys(parse: T.Parser, count: nat) returns (keys: Option<seq<StoredKey>>)
      modifies this
      ensures keys.None? <==> DecodeKeys(parse, old(rest), count).None?
      ensures keys.Some? ==> DecodeKeys(parse, old(rest), count) == Some((keys.value, rest))
    {
      var done: seq<StoredKey> := [];
      ghost var all := DecodeKeys(parse, rest, count);
      ContinuesStart(all);
      for i := 0 to count
        invariant Continues(all, done, DecodeKeys(parse, rest, count - i))
      {
        var k := TakeKey(parse);
        if k.None? {
          return None;
        }
        ContinuesNext(all, done, k.value, DecodeKeys(parse, rest, count - i - 1));
        done := done + [k.value];
      }
      assert done + [] == done;
      keys := Some(done);
    }
  }

  /** The whole run is the keys already read, then what the rest of the run reads. */
  ghost predicate Continues(all: Option<(seq<StoredKey>, seq<Byte>)>, done: seq<StoredKey>,
                            more: Option<(seq<StoredKey>, seq<Byte>)>) {
    all == if more.None? then None else Some((done + more.value.0, more.value.1))
  }

  lemma ContinuesStart(all: Option<(seq<StoredKey>, seq<Byte>)>)
    ensures Continues(all, [], all)
  {
    if all.Some? {
      assert [] + all.value.0 == all.value.0;
    }
  }

  lemma ContinuesNext(all: Option<(seq<StoredKey>, seq<Byte>)>, done: seq<StoredKey>, k: StoredKey,
                      more: Option<(seq<StoredKey>, seq<Byte>)>)
    requires Continues(all, done, Extend(k, more))
    ensures Continues(all, done + [k], more)
  {
    if more.Some? {
      assert done + ([k] + more.value.0) == done + [k] + more.value.0;
    }
  }

  method DecodeBuffer(parse: T.Parser, plaintext: seq<Byte>) returns (r: Result<State, AtRestError>)
    ensures r == DecodeState(parse, plaintext)
  {
    var reader := new Reader(plaintext);
    var flag := reader.Take(1);
    if flag.None? {
      return Err(Corrupt);
    }
    var word := reader.Take(8);
    if word.None? {
      return Err(Corrupt);
    }
    var highest := Highest(flag.value[0], FromBe(word.value));
    if highest.None? {
      return Err(Corrupt);
    }
    var count := reader.Take(2);
    if count.None? || FromBe(count.value) > MAX_KEYS {
      return Err(Corrupt);
    }
    var keys := reader.TakeKeys(parse, FromBe(count.value));
    if keys.None? || reader.rest != [] {
      return Err(Corrupt);
    }
    r := Ok(State(keys.value, highest.value));
  }

  // ---- the sealed file ---------------------------------------------------------------------------

  /** Public-key sealing with the device's own key, as the sealing library promises it: `seal` takes the
      associated data, the plaintext and the randomness of the call. */
  datatype Sealer = Sealer(
    seal: (seq<Byte>, seq<Byte>, nat) -> Option<Sealed>,
    open: (seq<Byte>, Sealed) -> Option<seq<Byte>>)

  datatype Sealed = Sealed(enc: seq<Byte>, ciphertext: seq<Byte>, tag: seq<Byte>)

  predicate Shaped(x: Sealed, length: nat) {
    |x.enc| == ENC_LEN && |x.ciphertext| == length && |x.tag| == TAG_LEN
  }

  /** What is sealed keeps its length and opens again under the same associated data. */
  ghost predicate Opens(sealer: Sealer, aad: seq<Byte>, plaintext: seq<Byte>, randomness: nat) {
    var x := sealer.seal(aad, plaintext, randomness);
    x.Some? ==> Shaped(x.value, |plaintext|) && sealer.open(aad, x.value) == Some(plaintext)
  }

  ghost predicate Lawful(sealer: Sealer) {
    forall aad, plaintext, randomness :: Opens(sealer, aad, plaintext, randomness)
  }

  const MAGIC: seq<Byte> := [0x4F, 0x41, 0x43, 0x52]
  const VERSION: Byte := 1
  const KIND_AGREEMENT_KEYS: Byte := 1

  /** The front of a file, which its seal also authenticates. */
  function FileHeader(keyId: seq<Byte>): (h: seq<Byte>)
    requires |keyId| == 64
    ensures |h| == HEADER_LEN
  {
    MAGIC + [VERSION, KIND_AGREEMENT_KEYS] + keyId
  }

  function File(keyId: seq<Byte>, x: Sealed): seq<Byte>
    requires |keyId| == 64
  {
    FileHeader(keyId) + (x.enc + (x.ciphertext + x.tag))
  }

  function SealState(sealer: Sealer, keyId: seq<Byte>, s: State, randomness: nat): Result<seq<Byte>, AtRestError>
    requires |keyId| == 64
  {
    var plaintext := EncodeState(s);
    if plaintext.Err? then Err(plaintext.error)
    else
      var x := sealer.seal(FileHeader(keyId), plaintext.value, randomness);
      if x.None? then Err(Seal) else Ok(File(keyId, x.value))
  }

  /** The three parts after the header. */
  function Split(rest: seq<Byte>): Sealed
    requires |rest| >= ENC_LEN + TAG_LEN
  {
    var after := rest[ENC_LEN..];
    Sealed(rest[..ENC_LEN], after[..|after| - TAG_LEN], after[|after| - TAG_LEN..])
  }

  function OpenState(parse: T.Parser, sealer: Sealer, keyId: seq<Byte>, file: seq<Byte>): Result<State, AtRestError>
    requires |keyId| == 64
  {
    if |file| > MAX_FILE_LEN then Err(TooLarge)
    else if |file| < MIN_FILE || file[..4] != MAGIC then Err(Malformed)
    else if file[4] != VERSION || file[5] != KIND_AGREEMENT_KEYS then Err(Unsupported)
    else
      var head, rest := file[..HEADER_LEN], file[HEADER_LEN..];
      if head[6..] != keyId then Err(NotThisDevice)
      else
        var plaintext := sealer.open(head, Split(rest));
        if plaintext.None? then Err(Authentication) else DecodeState(parse, plaintext.value)
  }

  lemma HeaderParts(keyId: seq<Byte>, rest: seq<Byte>)
    requires |keyId| == 64
    ensures var file := FileHeader(keyId) + rest;
            && file[..4] == MAGIC && file[4] == VERSION && file[5] == KIND_AGREEMENT_KEYS
            && file[..HEADER_LEN] == FileHeader(keyId) && file[..HEADER_LEN][6..] == keyId && file[HEADER_LEN..] == rest
  {
  }

  lemma HeaderOfParts(keyId: seq<Byte>, file: seq<Byte>)
    requires |keyId| == 64 && |file| >= HEADER_LEN
    requires file[..4] == MAGIC && file[4] == VERSION && file[5] == KIND_AGREEMENT_KEYS
    requires file[..HEADER_LEN][6..] == keyId
    ensures file == FileHeader(keyId) + file[HEADER_LEN..] && file[..HEADER_LEN] == FileHeader(keyId)
  {
    assert forall i :: 0 <= i < 4 ==> file[i] == file[..4][i];
    assert forall i :: 6 <= i < HEADER_LEN ==> file[i] == file[..HEADER_LEN][6..][i - 6];
    assert file[..HEADER_LEN] == FileHeader(keyId);
  }

  lemma SplitOfParts(x: Sealed, length: nat)
    requires Shaped(x, length)
    ensures Split(x.enc + (x.ciphertext + x.tag)) == x
  {
  }

  lemma PartsOfSplit(rest: seq<Byte>)
    requires |rest| >= ENC_LEN + TAG_LEN
    ensures var x := Split(rest); Shaped(x, |rest| - ENC_LEN - TAG_LEN) && x.enc + (x.ciphertext + x.tag) == rest
  {
  }

  /** Whether `file` is this device's file around a plaintext of that length. */
  predicate Frames(keyId: seq<Byte>, file: seq<Byte>, x: Sealed, length: nat)
    requires |keyId| == 64
  {
    Shaped(x, length) && length <= MAX_PLAINTEXT && file == File(keyId, x)
  }

  /** Exactly the files this device framed open, and to what the plaintext inside decodes to. */
  lemma OpensExactly(parse: T.Parser, sealer: Sealer, keyId: seq<Byte>, file: seq<Byte>, s: State)
    requires |keyId| == 64
    ensures OpenState(parse, sealer, keyId, file) == Ok(s)
       <==> exists x, length ::
              && Frames(keyId, file, x, length) && sealer.open(FileHeader(keyId), x).Some?
              && DecodeState(parse, sealer.open(FileHeader(keyId), x).value) == Ok(s)
  {
    if OpenState(parse, sealer, keyId, file) == Ok(s) {
      HeaderOfParts(keyId, file);
      PartsOfSplit(file[HEADER_LEN..]);
      assert Frames(keyId, file, Split(file[HEADER_LEN..]), |file| - MIN_FILE);
    }
    if x, length :| Frames(keyId, file, x, length) && sealer.open(FileHeader(keyId), x).Some?
                    && DecodeState(parse, sealer.open(FileHeader(keyId), x).value) == Ok(s) {
      OpenOfFile(parse, sealer, keyId, x, length);
    }
  }

  lemma OpenOfFile(parse: T.Parser, sealer: Sealer, keyId: seq<Byte>, x: Sealed, length: nat)
    requires |keyId| == 64 && Shaped(x, length) && length <= MAX_PLAINTEXT
    ensures var plaintext := sealer.open(FileHeader(keyId), x);
            OpenState(parse, sealer, keyId, File(keyId, x))
            == if plaintext.None? then Err(Authentication) else DecodeState(parse, plaintext.value)
  {
    HeaderParts(keyId, x.enc + (x.ciphertext + x.tag));
    SplitOfParts(x, length);
  }

  lemma {:induction false} LengthOfKeys(parse: T.Parser, keys: seq<StoredKey>)
    requires T.KeepsText(parse) && AllProper(parse, keys) && AllWritable(keys)
    ensures |KeysOctets(keys)| <= |keys| * 81
  {
    if keys != [] {
      ProperText(parse, keys[0]);
      LengthOfKeys(parse, keys[1..]);
    }
  }

  /** A sealed file is within the bounds of a file and opens to the state that was sealed. */
  lemma OpenOfSeal(parse: T.Parser, sealer: Sealer, keyId: seq<Byte>, s: State, randomness: nat)
    requires T.KeepsText(parse) && Proper(parse, s)
    requires |keyId| == 64 && Lawful(sealer) && SealState(sealer, keyId, s, randomness).Ok?
    ensures var file := SealState(sealer, keyId, s, randomness).value;
            MIN_FILE < |file| <= MAX_FILE_LEN && OpenState(parse, sealer, keyId, file) == Ok(s)
  {
    var plaintext := EncodeState(s).value;
    assert Opens(sealer, FileHeader(keyId), plaintext, randomness);
    LengthOfKeys(parse, s.keys);
    OpenOfFile(parse, sealer, keyId, sealer.seal(FileHeader(keyId), plaintext, randomness).value, |plaintext|);
    DecodeOfEncode(parse, s);
  }

  /** A file one device opens is, to every other device, not its own. */
  lemma OpensForOneDevice(parse: T.Parser, sealer: Sealer, keyId: seq<Byte>, other: Sealer, otherId: seq<Byte>,
                          file: seq<Byte>)
    requires |keyId| == 64 && |otherId| == 64 && keyId != otherId && OpenState(parse, sealer, keyId, file).Ok?
    ensures OpenState(parse, other, otherId, file) == Err(NotThisDevice)
  {
  }

  /** What each part of the front is for: a file that opens, with one octet of its front changed, is refused for
      that part before anything is decrypted. */
  lemma ChangedFront(parse: T.Parser, sealer: Sealer, keyId: seq<Byte>, file: seq<Byte>, i: nat, b: Byte)
    requires |keyId| == 64 && OpenState(parse, sealer, keyId, file).Ok? && i < HEADER_LEN && b != file[i]
    ensures OpenState(parse, sealer, keyId, file[i := b])
         == Err(if i < 4 then Malformed else if i < 6 then Unsupported else NotThisDevice)
  {
    var changed := file[i := b];
    assert forall k :: 0 <= k < 4 ==> file[k] == file[..4][k] && changed[k] == changed[..4][k];
    if i < 4 {
      assert changed[..4][i] != MAGIC[i];
    } else {
      assert changed[..4] == MAGIC;
      assert i >= 6 ==> changed[..HEADER_LEN][6..][i - 6] != file[..HEADER_LEN][6..][i - 6];
    }
  }

  /** A file cut short is malformed, and one too long is refused for its size alone. */
  lemma WrongLength(parse: T.Parser, sealer: Sealer, keyId: seq<Byte>, file: seq<Byte>, n: nat, more: seq<Byte>)
    requires |keyId| == 64 && OpenState(parse, sealer, keyId, file).Ok?
    requires n < 118 && |file| + |more| > 83_073
    ensures OpenState(parse, sealer, keyId, file[..n]) == Err(Malformed)
    ensures OpenState(parse, sealer, keyId, file + more) == Err(TooLarge)
  {
  }
}
