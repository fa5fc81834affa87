/** Types and small facts shared by every component. */
module Common {

  datatype Option<+T> = None | Some(value: T)

  datatype Result<+T, +E> = Ok(value: T) | Err(error: E)

  /** One octet. */
  type Byte = x: int | 0 <= x < 256

  function Min(a: int, b: int): int { if a <= b then a else b }

  function Max(a: int, b: int): int { if a >= b then a else b }

  /** The elements of every sequence of `parts`, in order. */
  function Concat<T>(parts: seq<seq<T>>): seq<T> {
    if parts == [] then [] else parts[0] + Concat(parts[1..])
  }

  lemma {:induction false} ConcatSnoc<T>(parts: seq<seq<T>>, last: seq<T>)
    ensures Concat(parts + [last]) == Concat(parts) + last
  {
    if parts == [] {
      assert parts + [last] == [last];
    } else {
      assert (parts + [last])[1..] == parts[1..] + [last];
      ConcatSnoc(parts[1..], last);
    }
  }

  lemma Cut<T>(front: seq<T>, rest: seq<T>)
    ensures (front + rest)[..|front|] == front && (front + rest)[|front|..] == rest
  {
  }

  /** The octets of a character in UTF-8. */
  function CharOctets(c: char): (n: nat)
    ensures 1 <= n <= 4
  {
    var u := c as int;
    if u < 0x80 then 1 else if u < 0x800 then 2 else if u < 0x1_0000 then 3 else 4
  }

  function Pow2(n: nat): (p: nat)
    ensures p > 0
  {
    if n == 0 then 1 else 2 * Pow2(n - 1)
  }

  /** The bits of a code point that `n` octets of UTF-8 have room for (section 3 of RFC 3629): seven in one
      octet, else what the lead octet leaves and six in each that follows. */
  function FreeBits(n: nat): nat
    requires 1 <= n <= 4
  {
    if n == 1 then 7 else 7 - n + 6 * (n - 1)
  }

  lemma Pow2Step(n: nat)
    ensures Pow2(n + 5) == 32 * Pow2(n)
  {
    assert Pow2(n + 5) == 2 * Pow2(n + 4) && Pow2(n + 4) == 2 * Pow2(n + 3) && Pow2(n + 3) == 2 * Pow2(n + 2);
    assert Pow2(n + 2) == 2 * Pow2(n + 1) && Pow2(n + 1) == 2 * Pow2(n);
  }

  /** A character takes the fewest octets that have room for it. */
  lemma FewestOctets(c: char)
    ensures c as int < Pow2(FreeBits(CharOctets(c)))
    ensures CharOctets(c) > 1 ==> Pow2(FreeBits(CharOctets(c) - 1)) <= c as int
  {
    assert Pow2(2) == 4 && Pow2(1) == 2;
    Pow2Step(2);
    Pow2Step(1);
    Pow2Step(6);
    Pow2Step(11);
    Pow2Step(16);
  }

  /** The octets of a text in UTF-8. */
  function OctetLength(s: string): nat {
    if s == "" then 0 else CharOctets(s[0]) + OctetLength(s[1..])
  }

  lemma {:induction false} OctetLengthJoin(s: string, t: string)
    ensures OctetLength(s + t) == OctetLength(s) + OctetLength(t)
  {
    if s == "" {
      assert s + t == t;
    } else {
      assert (s + t)[1..] == s[1..] + t;
      OctetLengthJoin(s[1..], t);
    }
  }
}
