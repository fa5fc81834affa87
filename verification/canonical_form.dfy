/** What the canonical text is, by its tree alone: the same value with every number in its canonical spelling
    and the members of every object in the order of their names' UTF-16 code units. And what is signed. */
module CanonicalForm {
  import opened Common
  import opened Json
  import opened Sorting
  import C = Canonical

  // ---- the order of names (section 3.2.3 of RFC 8785) ----------------------------------------------

  /** The code units of a character in UTF-16: itself, or a surrogate pair. */
  lemma UnitsAreUtf16(c: char)
    ensures (c as int) < 0x1_0000 ==> C.Units(c) == [c as int]
    ensures (c as int) >= 0x1_0000 ==>
              && |C.Units(c)| == 2 && 0xD800 <= C.Units(c)[0] <= 0xDBFF && 0xDC00 <= C.Units(c)[1] <= 0xDFFF
              && c as int == 0x1_0000 + (C.Units(c)[0] - 0xD800) * 0x400 + (C.Units(c)[1] - 0xDC00)
  {
  }

  ghost predicate MembersOrdered(members: seq<Member>) {
    forall i, j :: 0 <= i < j < |members| ==> UnitsBefore(C.Utf16(members[i].name), C.Utf16(members[j].name))
  }

  /** The members of every object in the tree are in order. */
  ghost predicate Ordered(v: Json) {
    match v
    case Array(items) => forall i :: 0 <= i < |items| ==> Ordered(items[i])
    case Object(members) => MembersOrdered(members) && forall i :: 0 <= i < |members| ==> Ordered(members[i].value)
    case _ => true
  }

  lemma OrderedIsSorted(members: seq<Member>)
    requires DistinctNames(members)
    ensures MembersOrdered(members) <==> Sorted(C.NameLe, members)
  {
    forall i, j | 0 <= i < j < |members|
      ensures UnitsBefore(C.Utf16(members[i].name), C.Utf16(members[j].name)) <==> C.NameLe(members[i], members[j])
    {
      LexIsUnitsBefore(C.Utf16(members[i].name), C.Utf16(members[j].name));
      if C.Utf16(members[i].name) == C.Utf16(members[j].name) {
        C.Utf16Injective(members[i].name, members[j].name);
      }
    }
  }

  // ---- the same value, respelled -------------------------------------------------------------------

  /** `w` is `v` with each number spelled canonically, and the members of its objects in any order. */
  ghost predicate Respelled(number: C.Numbers, v: Json, w: Json) {
    match v
    case Number(raw) => number(raw).Some? && w == Number(number(raw).value)
    case Array(items) =>
      w.Array? && |w.items| == |items| && forall i :: 0 <= i < |items| ==> Respelled(number, items[i], w.items[i])
    case Object(members) =>
      && w.Object? && |w.members| == |members| && DistinctNames(w.members)
      && forall i :: 0 <= i < |members| ==> MemberIn(number, members[i], w.members)
    case _ => w == v
  }

  ghost predicate MemberIn(number: C.Numbers, m: Member, others: seq<Member>)
    decreases m, 0
  {
    exists j :: 0 <= j < |others| && others[j].name == m.name && Respelled(number, m.value, others[j].value)
  }

  lemma {:induction false} NormalIsRespelled(number: C.Numbers, v: Json)
    requires WellFormed(v) && C.InRange(number, v)
    ensures Respelled(number, v, C.Normal(number, v))
    decreases v
  {
    if v.Array? {
      forall i | 0 <= i < |v.items| ensures Respelled(number, v.items[i], C.Normal(number, v.items[i])) {
        NormalIsRespelled(number, v.items[i]);
      }
    } else if v.Object? {
      NormalMembersRespelled(number, v.members);
    }
  }

  lemma {:induction false} NormalMembersRespelled(number: C.Numbers, members: seq<Member>)
    requires WellFormed(Object(members)) && C.InRange(number, Object(members))
    ensures var sorted := Sort(C.NameLe, C.NormalMembers(number, members));
            DistinctNames(sorted) && forall i :: 0 <= i < |members| ==> MemberIn(number, members[i], sorted)
    decreases members
  {
    var n := C.NormalMembers(number, members);
    var sorted := Sort(C.NameLe, n);
    C.NormalKeepsNames(number, members);
    SortKeeps(C.NameLe, n);
    Reordered(n, sorted);
    forall i | 0 <= i < |members| ensures MemberIn(number, members[i], sorted) {
      NormalIsRespelled(number, members[i].value);
      assert n[i] in sorted;
    }
  }

  lemma {:induction false} RespelledInRange(number: C.Numbers, v: Json, w: Json)
    requires Respelled(number, v, w)
    ensures C.InRange(number, v)
    decreases v
  {
    if v.Array? {
      forall i | 0 <= i < |v.items| ensures C.InRange(number, v.items[i]) {
        RespelledInRange(number, v.items[i], w.items[i]);
      }
    } else if v.Object? {
      forall i | 0 <= i < |v.members| ensures C.InRange(number, v.members[i].value) {
        assert MemberIn(number, v.members[i], w.members);
        var j :| 0 <= j < |w.members| && w.members[j].name == v.members[i].name
                 && Respelled(number, v.members[i].value, w.members[j].value);
        RespelledInRange(number, v.members[i].value, w.members[j].value);
      }
    }
  }

  lemma {:induction false} NormalIsOrdered(number: C.Numbers, v: Json)
    requires WellFormed(v)
    ensures Ordered(C.Normal(number, v))
    decreases v
  {
    if v.Array? {
      forall i | 0 <= i < |v.items| ensures Ordered(C.Normal(number, v.items[i])) {
        NormalIsOrdered(number, v.items[i]);
      }
    } else if v.Object? {
      NormalMembersOrdered(number, v.members);
    }
  }

  lemma {:induction false} NormalMembersOrdered(number: C.Numbers, members: seq<Member>)
    requires WellFormed(Object(members))
    ensures Ordered(Object(Sort(C.NameLe, C.NormalMembers(number, members))))
    decreases members
  {
    var n := C.NormalMembers(number, members);
    var sorted := Sort(C.NameLe, n);
    C.NormalKeepsNames(number, members);
    SortKeeps(C.NameLe, n);
    Reordered(n, sorted);
    C.NameOrder();
    SortSorts(C.NameLe, n);
    OrderedIsSorted(sorted);
    forall i | 0 <= i < |members| ensures Ordered(n[i].value) {
      NormalIsOrdered(number, members[i].value);
    }
    forall j | 0 <= j < |sorted| ensures Ordered(sorted[j].value) {
      assert sorted[j] in n;
    }
  }

  // ---- there is one such tree ----------------------------------------------------------------------

  lemma {:induction false} OrderedOnce(number: C.Numbers, v: Json, w: Json)
    requires WellFormed(v) && Respelled(number, v, w) && Ordered(w)
    ensures w == C.Normal(number, v)
    decreases v
  {
    if v.Array? {
      forall i | 0 <= i < |v.items| ensures w.items[i] == C.Normal(number, v.items[i]) {
        OrderedOnce(number, v.items[i], w.items[i]);
      }
      assert w.items == C.NormalItems(number, v.items);
    } else if v.Object? {
      MembersOnce(number, v.members, w.members);
    }
  }

  lemma {:induction false} MembersOnce(number: C.Numbers, a: seq<Member>, b: seq<Member>)
    requires WellFormed(Object(a)) && Respelled(number, Object(a), Object(b)) && Ordered(Object(b))
    ensures b == Sort(C.NameLe, C.NormalMembers(number, a))
    decreases a
  {
    var n := C.NormalMembers(number, a);
    C.NormalKeepsNames(number, a);
    forall i | 0 <= i < |n| ensures n[i] in b {
      assert MemberIn(number, a[i], b);
      var j :| 0 <= j < |b| && b[j].name == a[i].name && Respelled(number, a[i].value, b[j].value);
      OrderedOnce(number, a[i].value, b[j].value);
      assert b[j] == n[i];
    }
    C.SameMembers(n, b);
    SortedIsSort(n, b);
  }

  lemma SortedIsSort(n: seq<Member>, b: seq<Member>)
    requires DistinctNames(n) && multiset(n) == multiset(b) && DistinctNames(b) && MembersOrdered(b)
    ensures b == Sort(C.NameLe, n)
  {
    C.NameOrder();
    OrderedIsSorted(b);
    C.NamesDecide(b);
    SortSorts(C.NameLe, n);
    SortKeeps(C.NameLe, n);
    SortedOnce(C.NameLe, b, Sort(C.NameLe, n));
  }

  ghost predicate IsCanonicalTree(number: C.Numbers, v: Json, w: Json) {
    Respelled(number, v, w) && Ordered(w)
  }

  /** A value has a canonical tree exactly when all its numbers have canonical spellings, and one only. */
  lemma OneCanonicalTree(number: C.Numbers, v: Json, w: Json)
    requires WellFormed(v)
    ensures IsCanonicalTree(number, v, w) <==> C.InRange(number, v) && w == C.Normal(number, v)
  {
    if C.InRange(number, v) && w == C.Normal(number, v) {
      NormalIsRespelled(number, v);
      NormalIsOrdered(number, v);
    }
    if IsCanonicalTree(number, v, w) {
      RespelledInRange(number, v, w);
      OrderedOnce(number, v, w);
    }
  }

  /** The canonical text is that of the one tree that is the value respelled with the members of every object
      in order; where there is no such tree, there is no text. */
  lemma CanonicalExactly(number: C.Numbers, v: Json, text: string)
    requires WellFormed(v)
    ensures C.Canonical(number, v) == Some(text) <==> exists w :: IsCanonicalTree(number, v, w) && text == Print(w)
  {
    var n := C.Normal(number, v);
    OneCanonicalTree(number, v, n);
    forall w | IsCanonicalTree(number, v, w) ensures C.InRange(number, v) && w == n {
      OneCanonicalTree(number, v, w);
    }
  }

  // ---- what is signed ------------------------------------------------------------------------------

  lemma {:induction false} GetOfWithout(members: seq<Member>, name: string, other: string)
    requires DistinctNames(members)
    ensures Get(Without(members, name), other) == if other == name then None else Get(members, other)
  {
    if members != [] {
      GetOfWithout(members[1..], name, other);
      GetFinds(members[1..], name);
      if members[0].name != name {
        assert Without(members, name)[1..] == Without(members[1..], name);
      }
    }
  }

  /** Every member but `security` is signed as it is, and `security` with every member of its own but
      `signature`; an object whose `security` is no object is not signed. */
  lemma SignedMembers(members: seq<Member>, name: string)
    requires WellFormed(Object(members))
    ensures C.SignedPart(members).Err? <==> exists v :: Get(members, "security") == Some(v) && !v.Object?
    ensures C.SignedPart(members).Ok? ==>
              var part := C.SignedPart(members).value;
              && DistinctNames(part) && (name != "security" ==> Get(part, name) == Get(members, name))
              && match Get(members, "security") {
                   case None => Get(part, "security").None?
                   case Some(v) => SignedSecurity(v, Get(part, "security"), name)
                 }
  {
    if C.SignedPart(members).Ok? && Get(members, "security").Some? {
      var sec := Get(members, "security").value.members;
      var others, signed := Without(members, "security"), Object(Without(sec, "signature"));
      WithoutKeeps(members, "security");
      PutKeeps(others, "security", signed);
      GetOfPut(others, "security", signed, name);
      GetOfPut(others, "security", signed, "security");
      GetOfWithout(members, "security", name);
      GetFinds(members, "security");
      assert WellFormed(Object(sec));
      WithoutKeeps(sec, "signature");
      GetOfWithout(sec, "signature", name);
    }
  }

  predicate SignedSecurity(v: Json, signed: Option<Json>, name: string) {
    && v.Object? && signed.Some? && signed.value.Object? && DistinctNames(signed.value.members)
    && Get(signed.value.members, name) == if name == "signature" then None else Get(v.members, name)
  }

  /** A signing input is the name of its domain, a zero octet and the canonical text of what is signed. */
  lemma InputBegins(number: C.Numbers, d: C.SigningDomain, members: seq<Member>)
    requires C.SigningInput(number, d, members).Ok?
    ensures var domain := if d.Envelope? then "oac-envelope-v1" else if d.Registration? then "oac-registration-v1"
                          else if d.Receipt? then "oac-receipt-v1" else if d.Presence? then "oac-presence-v1"
                          else "oac-agreement-v1";
            && C.SignedPart(members).Ok?
            && C.Canonical(number, Object(C.SignedPart(members).value)).Some?
            && C.SigningInput(number, d, members).value
               == domain + [0 as char] + C.Canonical(number, Object(C.SignedPart(members).value)).value
  {
  }
}
