/** The canonical text of a JSON tree (RFC 8785) and the input of a signature. */
module Canonical {
  import opened Common
  import opened Json
  import opened JsonText
  import opened Sorting

  // ---- member order: UTF-16 code units (section 3.2.3 of RFC 8785) -------------------------------

  function Units(c: char): (u: seq<int>)
    ensures u != []
  {
    if (c as int) < 0x1_0000 then [c as int]
    else [0xD800 + (c as int - 0x1_0000) / 1024, 0xDC00 + (c as int - 0x1_0000) % 1024]
  }

  function Utf16(s: string): seq<int> {
    if s == "" then [] else Units(s[0]) + Utf16(s[1..])
  }

  lemma UnitsFirst(c: char, d: char, x: seq<int>, y: seq<int>)
    requires Units(c) + x == Units(d) + y
    ensures c == d && x == y
  {
    assert (Units(c) + x)[0] == (Units(d) + y)[0];
    if |Units(c)| == 2 {
      assert (Units(c) + x)[1] == (Units(d) + y)[1];
    }
    Cut(Units(c), x);
    Cut(Units(d), y);
  }

  lemma {:induction false} Utf16Injective(s: string, t: string)
    requires Utf16(s) == Utf16(t)
    ensures s == t
  {
    if s != "" && t != "" {
      UnitsFirst(s[0], t[0], Utf16(s[1..]), Utf16(t[1..]));
      Utf16Injective(s[1..], t[1..]);
      assert s == [s[0]] + s[1..] && t == [t[0]] + t[1..];
    }
  }

  predicate NameLe(a: Member, b: Member) {
    LexLe(Utf16(a.name), Utf16(b.name))
  }

  lemma NameOrder()
    ensures Total(NameLe)
  {
    forall x: Member, y: Member ensures NameLe(x, y) || NameLe(y, x) {
      LexTotal(Utf16(x.name), Utf16(y.name));
    }
    forall x: Member, y: Member, z: Member | NameLe(x, y) && NameLe(y, z) ensures NameLe(x, z) {
      LexTransitive(Utf16(x.name), Utf16(y.name), Utf16(z.name));
    }
  }

  lemma NamesDecide(members: seq<Member>)
    requires DistinctNames(members)
    ensures Decided(NameLe, members)
  {
    forall i, j | 0 <= i < |members| && 0 <= j < |members|
                  && NameLe(members[i], members[j]) && NameLe(members[j], members[i])
      ensures members[i] == members[j]
    {
      LexTotal(Utf16(members[i].name), Utf16(members[j].name));
      Utf16Injective(members[i].name, members[j].name);
    }
  }

  // ---- the canonical form ------------------------------------------------------------------------

  /** How a number is written: the shortest spelling of the nearest double, `None` beyond the range. */
  type Numbers = string -> Option<string>

  ghost predicate SpellsNumbers(number: Numbers) {
    forall raw :: number(raw).Some? ==> IsNumber(number(raw).value)
  }

  /** Every number has a canonical spelling. */
  predicate InRange(number: Numbers, v: Json) {
    match v
    case Number(raw) => number(raw).Some?
    case Array(items) => forall i :: 0 <= i < |items| ==> InRange(number, items[i])
    case Object(members) => forall i :: 0 <= i < |members| ==> InRange(number, members[i].value)
    case _ => true
  }

  /** The tree the canonical text writes: numbers respelled, members sorted by name at every level. */
  function Normal(number: Numbers, v: Json): Json {
    match v
    case Number(raw) => if number(raw).Some? then Number(number(raw).value) else v
    case Array(items) => Array(NormalItems(number, items))
    case Object(members) => Object(Sort(NameLe, NormalMembers(number, members)))
    case _ => v
  }

  function NormalItems(number: Numbers, items: seq<Json>): (r: seq<Json>)
    ensures |r| == |items| && forall i :: 0 <= i < |items| ==> r[i] == Normal(number, items[i])
    decreases items
  {
    if items == [] then [] else [Normal(number, items[0])] + NormalItems(number, items[1..])
  }

  function NormalMember(number: Numbers, m: Member): Member
    decreases m
  {
    Member(m.name, Normal(number, m.value))
  }

  function NormalMembers(number: Numbers, members: seq<Member>): (r: seq<Member>)
    ensures |r| == |members| && forall i :: 0 <= i < |members| ==> r[i] == NormalMember(number, members[i])
    decreases members
  {
    if members == [] then [] else [NormalMember(number, members[0])] + NormalMembers(number, members[1..])
  }

  function Canonical(number: Numbers, v: Json): Option<string> {
    if InRange(number, v) then Some(Print(Normal(number, v))) else None
  }

  /** The same value: equal but for the spelling of numbers and the order of members. */
  predicate Alike(number: Numbers, v: Json, w: Json) {
    match v
    case Number(raw) => w.Number? && Normal(number, v) == Normal(number, w)
    case Array(items) =>
      w.Array? && |items| == |w.items| && forall i :: 0 <= i < |items| ==> Alike(number, items[i], w.items[i])
    case Object(members) => w.Object? && AlikeMembers(number, members, w.members)
    case _ => v == w
  }

  predicate AlikeMembers(number: Numbers, a: seq<Member>, b: seq<Member>)
    decreases a
  {
    && |a| == |b|
    && forall i :: 0 <= i < |a| ==>
         exists j :: 0 <= j < |b| && a[i].name == b[j].name && Alike(number, a[i].value, b[j].value)
  }

  /** Distinct members that are all in as many others are those others, in some order. */
  lemma SameMembers(a: seq<Member>, b: seq<Member>)
    requires DistinctNames(a) && |a| == |b| && forall i :: 0 <= i < |a| ==> a[i] in b
    ensures multiset(a) == multiset(b)
  {
    forall m | m in multiset(a) ensures multiset(a)[m] <= multiset(b)[m] {
      OnceInDistinct(a, m);
      assert m in a;
    }
    assert multiset(a) <= multiset(b);
    assert |multiset(b) - multiset(a)| == 0;
    assert multiset(b) == multiset(a) + (multiset(b) - multiset(a));
  }

  lemma NormalKeepsNames(number: Numbers, members: seq<Member>)
    requires DistinctNames(members)
    ensures DistinctNames(NormalMembers(number, members))
  {
  }

  lemma {:induction false} AlikeIsNormal(number: Numbers, v: Json, w: Json)
    requires WellFormed(v) && WellFormed(w) && Alike(number, v, w)
    ensures Normal(number, v) == Normal(number, w)
    decreases v
  {
    if v.Array? {
      forall i | 0 <= i < |v.items| ensures Normal(number, v.items[i]) == Normal(number, w.items[i]) {
        AlikeIsNormal(number, v.items[i], w.items[i]);
      }
      assert NormalItems(number, v.items) == NormalItems(number, w.items);
    } else if v.Object? {
      AlikeMembersNormal(number, v.members, w.members);
    }
  }

  lemma {:induction false} AlikeMembersNormal(number: Numbers, a: seq<Member>, b: seq<Member>)
    requires DistinctNames(a) && AllMembersWellFormed(a) && DistinctNames(b) && AllMembersWellFormed(b)
    requires AlikeMembers(number, a, b)
    ensures Sort(NameLe, NormalMembers(number, a)) == Sort(NameLe, NormalMembers(number, b))
    decreases a
  {
    var na, nb := NormalMembers(number, a), NormalMembers(number, b);
    forall i | 0 <= i < |na| ensures na[i] in nb {
      var j :| 0 <= j < |b| && a[i].name == b[j].name && Alike(number, a[i].value, b[j].value);
      AlikeIsNormal(number, a[i].value, b[j].value);
      assert nb[j] == na[i];
    }
    NormalKeepsNames(number, a);
    SameMembers(na, nb);
    NameOrder();
    NamesDecide(na);
    SortForgetsOrder(NameLe, na, nb);
  }

  lemma {:induction false} NormalIsAlike(number: Numbers, v: Json, w: Json)
    requires Normal(number, v) == Normal(number, w)
    ensures Alike(number, v, w)
    decreases v
  {
    if v.Array? {
      forall i | 0 <= i < |v.items| ensures Alike(number, v.items[i], w.items[i]) {
        assert NormalItems(number, v.items)[i] == NormalItems(number, w.items)[i];
        NormalIsAlike(number, v.items[i], w.items[i]);
      }
    } else if v.Object? {
      NormalMembersAlike(number, v.members, w.members);
    }
  }

  lemma {:induction false} NormalMembersAlike(number: Numbers, a: seq<Member>, b: seq<Member>)
    requires Sort(NameLe, NormalMembers(number, a)) == Sort(NameLe, NormalMembers(number, b))
    ensures AlikeMembers(number, a, b)
    decreases a
  {
    var na, nb := NormalMembers(number, a), NormalMembers(number, b);
    SortKeeps(NameLe, na);
    SortKeeps(NameLe, nb);
    assert |a| == |na| == |Sort(NameLe, na)| == |Sort(NameLe, nb)| == |nb| == |b|;
    forall i | 0 <= i < |a|
      ensures exists j :: 0 <= j < |b| && a[i].name == b[j].name && Alike(number, a[i].value, b[j].value)
    {
      assert na[i] in multiset(na) && na[i] in multiset(nb);
      var j :| 0 <= j < |nb| && nb[j] == na[i];
      NormalIsAlike(number, a[i].value, b[j].value);
    }
  }

  lemma {:induction false} NormalWellFormed(number: Numbers, v: Json)
    requires SpellsNumbers(number) && WellFormed(v)
    ensures WellFormed(Normal(number, v))
    decreases v
  {
    if v.Array? {
      forall i | 0 <= i < |v.items| ensures WellFormed(NormalItems(number, v.items)[i]) {
        NormalWellFormed(number, v.items[i]);
      }
    } else if v.Object? {
      var n := NormalMembers(number, v.members);
      forall i | 0 <= i < |n| ensures IsIjson(n[i].name) && WellFormed(n[i].value) {
        NormalWellFormed(number, v.members[i].value);
      }
      NormalKeepsNames(number, v.members);
      SortKeeps(NameLe, n);
      MembersKept(n, Sort(NameLe, n));
    }
  }

  lemma MembersKept(a: seq<Member>, b: seq<Member>)
    requires multiset(a) == multiset(b) && DistinctNames(a) && AllMembersWellFormed(a)
    ensures DistinctNames(b) && AllMembersWellFormed(b)
  {
    Reordered(a, b);
    forall i | 0 <= i < |b| ensures IsIjson(b[i].name) && WellFormed(b[i].value) {
      assert b[i] in a;
    }
  }

  /** Two values have the same canonical text exactly when they are the same value. */
  lemma CanonicalDecides(number: Numbers, v: Json, w: Json)
    requires SpellsNumbers(number) && WellFormed(v) && WellFormed(w)
    requires Canonical(number, v).Some? && Canonical(number, w).Some?
    ensures Canonical(number, v) == Canonical(number, w) <==> Alike(number, v, w)
  {
    if Alike(number, v, w) {
      AlikeIsNormal(number, v, w);
    }
    if Canonical(number, v) == Canonical(number, w) {
      NormalWellFormed(number, v);
      NormalWellFormed(number, w);
      ParseOfPrint(Normal(number, v));
      ParseOfPrint(Normal(number, w));
      NormalIsAlike(number, v, w);
    }
  }

  // ---- the signing input -------------------------------------------------------------------------

  datatype SigningDomain = Envelope | Registration | Receipt | Presence | Agreement

  datatype CanonicalError = NumberOutOfRange | SecurityNotObject

  function DomainText(d: SigningDomain): string {
    match d
    case Envelope => "oac-envelope-v1"
    case Registration => "oac-registration-v1"
    case Receipt => "oac-receipt-v1"
    case Presence => "oac-presence-v1"
    case Agreement => "oac-agreement-v1"
  }

  /** The object that is signed: every member but `security.signature`. */
  function SignedPart(members: seq<Member>): Result<seq<Member>, CanonicalError> {
    match Get(members, "security")
    case None => Ok(members)
    case Some(Object(sec)) =>
      Ok(Put(Without(members, "security"), "security", Object(Without(sec, "signature"))))
    case Some(_) => Err(SecurityNotObject)
  }

  function SignedText(number: Numbers, members: seq<Member>): Result<string, CanonicalError> {
    var part := SignedPart(members);
    if part.Err? then Err(part.error)
    else
      var text := Canonical(number, Object(part.value));
      if text.None? then Err(NumberOutOfRange) else Ok(text.value)
  }

  const NUL: char := 0 as char

  /** The domain, a zero octet, and the signed text. */
  function SigningInput(number: Numbers, d: SigningDomain, members: seq<Member>): Result<string, CanonicalError> {
    var text := SignedText(number, members);
    if text.Err? then text else Ok(DomainText(d) + [NUL] + text.value)
  }

  function FirstNul(s: string): nat {
    if s == "" || s[0] == NUL then 0 else 1 + FirstNul(s[1..])
  }

  lemma {:induction false} FirstNulAfter(a: string, x: string)
    requires NUL !in a
    ensures FirstNul(a + ([NUL] + x)) == |a|
  {
    if a != "" {
      assert (a + ([NUL] + x))[1..] == a[1..] + ([NUL] + x);
      FirstNulAfter(a[1..], x);
    }
  }

  lemma SplitAtNul(a: string, b: string, x: string, y: string)
    requires NUL !in a && NUL !in b && a + [NUL] + x == b + [NUL] + y
    ensures a == b && x == y
  {
    assert a + [NUL] + x == a + ([NUL] + x) && b + [NUL] + y == b + ([NUL] + y);
    FirstNulAfter(a, x);
    FirstNulAfter(b, y);
    Cut(a, [NUL] + x);
    Cut(b, [NUL] + y);
    assert ([NUL] + x)[1..] == x && ([NUL] + y)[1..] == y;
  }

  lemma DomainsApart(d: SigningDomain, e: SigningDomain)
    ensures NUL !in DomainText(d)
    ensures DomainText(d) == DomainText(e) ==> d == e
  {
    assert d.Envelope? ==> DomainText(d)[4] == 'e';
    assert e.Envelope? ==> DomainText(e)[4] == 'e';
    assert d.Presence? ==> DomainText(d)[4] == 'p';
    assert e.Presence? ==> DomainText(e)[4] == 'p';
  }

  lemma SignedPartWellFormed(members: seq<Member>)
    requires WellFormed(Object(members)) && SignedPart(members).Ok?
    ensures WellFormed(Object(SignedPart(members).value))
  {
    if Get(members, "security").Some? {
      var sec := Get(members, "security").value;
      var others := Without(members, "security");
      GetFinds(members, "security");
      assert WellFormed(sec);
      WithoutKeeps(members, "security");
      WithoutKeeps(sec.members, "signature");
      SubsetWellFormed(members, others);
      SubsetWellFormed(sec.members, Without(sec.members, "signature"));
      PutNew(others, "security", Object(Without(sec.members, "signature")));
      GetFinds(others, "security");
      NameIsIjson();
    }
  }

  lemma NameIsIjson()
    ensures IsIjson("security")
  {
  }

  lemma SubsetWellFormed(all: seq<Member>, some: seq<Member>)
    requires WellFormed(Object(all)) && DistinctNames(some) && forall m :: m in some ==> m in all
    ensures WellFormed(Object(some))
  {
    forall i | 0 <= i < |some| ensures IsIjson(some[i].name) && WellFormed(some[i].value) {
      assert some[i] in all;
    }
  }

  /** Two signing inputs are equal exactly when the domains are and the signed parts are the same value. */
  lemma SigningInputDecides(number: Numbers, d: SigningDomain, a: seq<Member>, e: SigningDomain, b: seq<Member>)
    requires SpellsNumbers(number) && WellFormed(Object(a)) && WellFormed(Object(b))
    requires SigningInput(number, d, a).Ok? && SigningInput(number, e, b).Ok?
    ensures SigningInput(number, d, a) == SigningInput(number, e, b)
       <==> d == e && Alike(number, Object(SignedPart(a).value), Object(SignedPart(b).value))
  {
    var x, y := SignedText(number, a).value, SignedText(number, b).value;
    DomainsApart(d, e);
    DomainsApart(e, d);
    if SigningInput(number, d, a) == SigningInput(number, e, b) {
      SplitAtNul(DomainText(d), DomainText(e), x, y);
    }
    SignedPartWellFormed(a);
    SignedPartWellFormed(b);
    CanonicalDecides(number, Object(SignedPart(a).value), Object(SignedPart(b).value));
  }

  /** What is signed does not depend on the signature: an object whose last member is `security` is signed
      as the one with a signature added to it. */
  lemma SignatureLeftOut(number: Numbers, d: SigningDomain, front: seq<Member>, sec: seq<Member>, signature: Json)
    requires Get(front, "security").None? && Get(sec, "signature").None?
    ensures SigningInput(number, d, front + [Member("security", Object(Put(sec, "signature", signature)))])
         == SigningInput(number, d, front + [Member("security", Object(sec))])
  {
    var signed := Put(sec, "signature", signature);
    SignedPartOfLast(front, sec);
    SignedPartOfLast(front, signed);
    PutNew(sec, "signature", signature);
    WithoutLast(sec, "signature", signature);
    WithoutNone(sec, "signature");
  }

  lemma SignedPartOfLast(front: seq<Member>, sec: seq<Member>)
    requires Get(front, "security").None?
    ensures SignedPart(front + [Member("security", Object(sec))])
         == Ok(front + [Member("security", Object(Without(sec, "signature")))])
  {
    PutNew(front, "security", Object(sec));
    GetOfPut(front, "security", Object(sec), "security");
    WithoutLast(front, "security", Object(sec));
    PutNew(front, "security", Object(Without(sec, "signature")));
  }
}
