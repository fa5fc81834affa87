/** What the trust store takes for a trust file: exactly the JSON texts whose members say what the file says, each
    in its one spelling, and nothing else. And the order in which it writes the lists. */
module TrustReading {
  import opened Common
  import opened Json
  import opened Sorting
  import opened TrustFormat
  import T = Timestamp
  import Ids
  import Octets

  // ---- members -------------------------------------------------------------------------------------

  /** No member but these. */
  ghost predicate Only(o: seq<Member>, names: seq<string>) {
    forall name :: name !in names ==> Get(o, name).None?
  }

  lemma OnlyNamed(o: seq<Member>, names: seq<string>)
    ensures Only(o, names) <==> forall i :: 0 <= i < |o| ==> o[i].name in names
  {
    if Only(o, names) {
      forall i | 0 <= i < |o| ensures o[i].name in names {
        GetFinds(o, o[i].name);
      }
    }
    forall name | name !in names && forall i :: 0 <= i < |o| ==> o[i].name in names ensures Get(o, name).None? {
      GetFinds(o, name);
    }
  }

  ghost predicate AllThere(o: seq<Member>, required: seq<string>) {
    forall i :: 0 <= i < |required| ==> Get(o, required[i]).Some?
  }

  lemma ExactIsOnly(o: seq<Member>, required: seq<string>, optional: seq<string>)
    ensures Exact(o, required, optional) <==> Only(o, required + optional) && AllThere(o, required)
  {
    OnlyNamed(o, required + optional);
  }

  predicate TextSays(v: Option<Json>, s: string) {
    v == Some(String(s))
  }

  predicate KeyIdSays(v: Option<Json>, id: string) {
    TextSays(v, id) && Ids.IsKeyId(id)
  }

  predicate SessionSays(v: Option<Json>, id: Option<string>) {
    if id.None? then v.None? else TextSays(v, id.value) && Octets.IsSessionId(id.value)
  }

  predicate StampSays(env: Env, v: Option<Json>, t: T.Stamp) {
    TextSays(v, t.text) && env.parse(t.text) == Some(t)
  }

  predicate KeySays(env: Env, v: Option<Json>, key: seq<Byte>) {
    v.Some? && v.value.String? && env.read(v.value.s) == Some(key)
  }

  predicate CountSays(v: Option<Json>, n: nat) {
    v == Some(Number(Ids.Decimal(n))) && n <= 9_007_199_254_740_991
  }

  lemma CountSaid(o: seq<Member>, n: nat)
    ensures SeqAt(o) == Some(n) <==> CountSays(Get(o, "seq"), n)
  {
    var v := Get(o, "seq");
    if v.Some? && v.value.Number? {
      Ids.PlainIntegers(v.value.raw, 0, MAX_STATEMENT_SEQ, n);
    }
  }

  lemma StampSaid(env: Env, o: seq<Member>, name: string, t: T.Stamp)
    requires T.KeepsText(env.parse)
    ensures StampAt(env, o, name) == Some(t) <==> StampSays(env, Get(o, name), t)
  {
  }

  // ---- the sides of a grant ------------------------------------------------------------------------

  ghost predicate PeerSays(o: seq<Member>, p: PeerSide) {
    && Only(o, ["key_id", "session_id"]) && KeyIdSays(Get(o, "key_id"), p.keyId)
    && SessionSays(Get(o, "session_id"), p.session)
  }

  lemma PeerExactly(o: seq<Member>, p: PeerSide)
    ensures DecodePeer(o) == Some(p) <==> PeerSays(o, p)
  {
    ExactIsOnly(o, ["key_id"], ["session_id"]);
    assert ["key_id"] + ["session_id"] == ["key_id", "session_id"];
    assert AllThere(o, ["key_id"]) <==> Get(o, "key_id").Some? by {
      assert ["key_id"][0] == "key_id";
    }
  }

  ghost predicate LocalSays(o: seq<Member>, l: LocalSide) {
    match l
    case Session(id) =>
      && Only(o, ["kind", "session_id"]) && TextSays(Get(o, "kind"), "session")
      && SessionSays(Get(o, "session_id"), Some(id))
    case Scope(path) =>
      Only(o, ["kind", "scope"]) && TextSays(Get(o, "kind"), "scope") && TextSays(Get(o, "scope"), path)
    case Device => Only(o, ["kind"]) && TextSays(Get(o, "kind"), "device")
  }

  lemma PairThere(o: seq<Member>, a: string, b: string)
    ensures Exact(o, [a, b], []) <==> Only(o, [a, b]) && Get(o, a).Some? && Get(o, b).Some?
  {
    ExactIsOnly(o, [a, b], []);
    assert [a, b] + [] == [a, b];
    assert [a, b][0] == a && [a, b][1] == b;
  }

  lemma LocalExactly(o: seq<Member>, l: LocalSide)
    ensures DecodeLocal(o) == Some(l) <==> LocalSays(o, l)
  {
    PairThere(o, "kind", "session_id");
    PairThere(o, "kind", "scope");
    ExactIsOnly(o, ["kind"], []);
    assert ["kind"] + [] == ["kind"];
    assert AllThere(o, ["kind"]) <==> Get(o, "kind").Some? by {
      assert ["kind"][0] == "kind";
    }
    assert "session" != "scope" && "scope" != "device" && "session" != "device";
  }

  ghost predicate PeerAt(v: Option<Json>, p: PeerSide) {
    v.Some? && v.value.Object? && PeerSays(v.value.members, p)
  }

  ghost predicate LocalAt(v: Option<Json>, l: LocalSide) {
    v.Some? && v.value.Object? && LocalSays(v.value.members, l)
  }

  ghost predicate GrantSays(o: seq<Member>, g: Grant) {
    && Only(o, ["direction", "target", "writer"])
    && match g
       case Inbound(peer, local) =>
         && TextSays(Get(o, "direction"), "inbound") && PeerAt(Get(o, "writer"), peer)
         && LocalAt(Get(o, "target"), local)
       case Outbound(local, peer) =>
         && TextSays(Get(o, "direction"), "outbound") && LocalAt(Get(o, "writer"), local)
         && PeerAt(Get(o, "target"), peer)
  }

  lemma ThreeThere(o: seq<Member>, a: string, b: string, c: string)
    ensures Exact(o, [a, b, c], [])
       <==> Only(o, [a, b, c]) && Get(o, a).Some? && Get(o, b).Some? && Get(o, c).Some?
  {
    ExactIsOnly(o, [a, b, c], []);
    assert [a, b, c] + [] == [a, b, c];
    assert [a, b, c][0] == a && [a, b, c][1] == b && [a, b, c][2] == c;
  }

  /** A grant as its object gives it: the direction says which side is the peer's. */
  ghost predicate GrantParts(o: seq<Member>, g: Grant) {
    var direction, writer, target := Get(o, "direction"), ObjectAt(o, "writer"), ObjectAt(o, "target");
    && writer.Some? && target.Some?
    && if g.Inbound?
       then && TextSays(direction, "inbound")
            && DecodePeer(writer.value) == Some(g.peer) && DecodeLocal(target.value) == Some(g.local)
       else && TextSays(direction, "outbound")
            && DecodeLocal(writer.value) == Some(g.local) && DecodePeer(target.value) == Some(g.peer)
  }

  lemma GrantHasParts(o: seq<Member>, g: Grant)
    ensures DecodeGrant(o) == Some(g) <==> Exact(o, ["direction", "target", "writer"], []) && GrantParts(o, g)
  {
    assert "inbound"[0] != "outbound"[0];
  }

  lemma GrantPartsSay(o: seq<Member>, g: Grant)
    requires Only(o, ["direction", "target", "writer"])
    ensures GrantParts(o, g) <==> GrantSays(o, g)
  {
    var writer, target := ObjectAt(o, "writer"), ObjectAt(o, "target");
    if writer.Some? && target.Some? {
      if g.Inbound? {
        PeerExactly(writer.value, g.peer);
        LocalExactly(target.value, g.local);
      } else {
        LocalExactly(writer.value, g.local);
        PeerExactly(target.value, g.peer);
      }
    }
  }

  lemma GrantExactly(o: seq<Member>, g: Grant)
    ensures DecodeGrant(o) == Some(g) <==> GrantSays(o, g)
  {
    ThreeThere(o, "direction", "target", "writer");
    GrantHasParts(o, g);
    if Only(o, ["direction", "target", "writer"]) {
      GrantPartsSay(o, g);
    }
  }

  // ---- records, statements and the floor -----------------------------------------------------------

  ghost predicate ConfirmedSays(env: Env, o: seq<Member>, c: Confirmed) {
    && Only(o, ["agreement_key", "issued_at", "seq"])
    && KeySays(env, Get(o, "agreement_key"), c.agreementKey) && env.agreeable(c.agreementKey)
    && StampSays(env, Get(o, "issued_at"), c.issuedAt) && CountSays(Get(o, "seq"), c.number)
  }

  lemma ConfirmedExactly(env: Env, o: seq<Member>, c: Confirmed)
    requires T.KeepsText(env.parse)
    ensures DecodeConfirmed(env, o) == Some(c) <==> ConfirmedSays(env, o, c)
  {
    ThreeThere(o, "agreement_key", "issued_at", "seq");
    CountSaid(o, c.number);
    StampSaid(env, o, "issued_at", c.issuedAt);
  }

  ghost predicate ConfirmedAt(env: Env, v: Option<Json>, c: Option<Confirmed>) {
    if c.None? then v.None? else v.Some? && v.value.Object? && ConfirmedSays(env, v.value.members, c.value)
  }

  lemma ConfirmedMemberExactly(env: Env, v: Option<Json>, c: Option<Confirmed>)
    requires T.KeepsText(env.parse)
    ensures DecodeConfirmedMember(env, v) == Some(c) <==> ConfirmedAt(env, v, c)
  {
    if v.Some? && v.value.Object? && c.Some? {
      ConfirmedExactly(env, v.value.members, c.value);
    }
  }

  ghost predicate RecordSays(env: Env, o: seq<Member>, r: Record) {
    && Only(o, ["key_id", "paired_at", "principal", "public_key", "confirmed"])
    && KeySays(env, Get(o, "public_key"), r.publicKey) && env.acceptable(r.publicKey)
    && KeyIdSays(Get(o, "key_id"), env.keyIdOf(r.publicKey))
    && TextSays(Get(o, "principal"), r.principal) && Ids.IsToken(r.principal)
    && StampSays(env, Get(o, "paired_at"), r.pairedAt) && ConfirmedAt(env, Get(o, "confirmed"), r.confirmed)
  }

  lemma RecordThere(o: seq<Member>)
    ensures Exact(o, ["key_id", "paired_at", "principal", "public_key"], ["confirmed"])
       <==> && Only(o, ["key_id", "paired_at", "principal", "public_key", "confirmed"])
            && Get(o, "key_id").Some? && Get(o, "paired_at").Some? && Get(o, "principal").Some?
            && Get(o, "public_key").Some?
  {
    var required := ["key_id", "paired_at", "principal", "public_key"];
    ExactIsOnly(o, required, ["confirmed"]);
    assert required + ["confirmed"] == ["key_id", "paired_at", "principal", "public_key", "confirmed"];
    assert required[0] == "key_id" && required[1] == "paired_at" && required[2] == "principal";
    assert required[3] == "public_key";
  }

  lemma RecordExactly(env: Env, o: seq<Member>, r: Record)
    requires T.KeepsText(env.parse)
    ensures DecodeRecord(env, o) == Some(r) <==> RecordSays(env, o, r)
  {
    RecordThere(o);
    StampSaid(env, o, "paired_at", r.pairedAt);
    ConfirmedMemberExactly(env, Get(o, "confirmed"), r.confirmed);
  }

  ghost predicate StatementSays(env: Env, o: seq<Member>, s: Statement) {
    && Only(o, ["agreement_key", "issued_at", "key_id", "seq"])
    && KeySays(env, Get(o, "agreement_key"), s.agreementKey) && env.agreeable(s.agreementKey)
    && StampSays(env, Get(o, "issued_at"), s.issuedAt) && KeyIdSays(Get(o, "key_id"), s.keyId)
    && CountSays(Get(o, "seq"), s.number)
  }

  lemma StatementThere(o: seq<Member>)
    ensures Exact(o, ["agreement_key", "issued_at", "key_id", "seq"], [])
       <==> && Only(o, ["agreement_key", "issued_at", "key_id", "seq"])
            && Get(o, "agreement_key").Some? && Get(o, "issued_at").Some? && Get(o, "key_id").Some?
            && Get(o, "seq").Some?
  {
    var required := ["agreement_key", "issued_at", "key_id", "seq"];
    ExactIsOnly(o, required, []);
    assert required + [] == required;
    assert required[0] == "agreement_key" && required[1] == "issued_at" && required[2] == "key_id";
    assert required[3] == "seq";
  }

  lemma StatementExactly(env: Env, o: seq<Member>, s: Statement)
    requires T.KeepsText(env.parse)
    ensures DecodeStatement(env, o) == Some(s) <==> StatementSays(env, o, s)
  {
    StatementThere(o);
    CountSaid(o, s.number);
    StampSaid(env, o, "issued_at", s.issuedAt);
  }

  ghost predicate FloorSays(v: Option<Json>, f: Option<SeqFloor>) {
    if f.None? then v.None?
    else
      && v.Some? && v.value.Object? && Only(v.value.members, ["key_id", "seq"])
      && KeyIdSays(Get(v.value.members, "key_id"), f.value.keyId)
      && CountSays(Get(v.value.members, "seq"), f.value.number)
  }

  lemma FloorExactly(v: Option<Json>, f: Option<SeqFloor>)
    ensures DecodeFloorMember(v) == Some(f) <==> FloorSays(v, f)
  {
    if v.Some? && v.value.Object? && f.Some? {
      PairThere(v.value.members, "key_id", "seq");
      CountSaid(v.value.members, f.value.number);
    }
  }

  // ---- lists ---------------------------------------------------------------------------------------

  /** The list has one object for each element, in order. */
  ghost predicate ListSays<X(!new)>(v: Option<Json>, xs: seq<X>, says: (seq<Member>, X) -> bool) {
    v.Some? && v.value.Array? && ItemsSay(v.value.items, xs, says)
  }

  ghost predicate ItemsSay<X(!new)>(items: seq<Json>, xs: seq<X>, says: (seq<Member>, X) -> bool) {
    |items| == |xs| && forall i :: 0 <= i < |items| ==> items[i].Object? && says(items[i].members, xs[i])
  }

  lemma ItemsSayFront<X(!new)>(items: seq<Json>, xs: seq<X>, says: (seq<Member>, X) -> bool)
    requires items != [] && xs != []
    ensures ItemsSay(items, xs, says)
       <==> items[0].Object? && says(items[0].members, xs[0]) && ItemsSay(items[1..], xs[1..], says)
  {
    assert forall i :: 1 <= i < |items| ==> items[i] == items[1..][i - 1];
    assert forall i :: 1 <= i < |xs| ==> xs[i] == xs[1..][i - 1];
  }

  ghost predicate Reads<X(!new)>(one: seq<Member> -> Option<X>, says: (seq<Member>, X) -> bool) {
    forall o, x :: one(o) == Some(x) <==> says(o, x)
  }

  lemma {:induction false} ListExactly<X(!new)>(one: seq<Member> -> Option<X>, says: (seq<Member>, X) -> bool,
                                                items: seq<Json>, xs: seq<X>)
    requires Reads(one, says)
    ensures DecodeAll(one, items) == Some(xs) <==> ItemsSay(items, xs, says)
  {
    if items != [] && xs != [] {
      ListExactly(one, says, items[1..], xs[1..]);
      ItemsSayFront(items, xs, says);
      DecodeAllFront(one, items, xs);
    }
  }

  lemma DecodeAllFront<X(!new)>(one: seq<Member> -> Option<X>, items: seq<Json>, xs: seq<X>)
    requires items != [] && xs != []
    ensures DecodeAll(one, items) == Some(xs)
       <==> items[0].Object? && one(items[0].members) == Some(xs[0]) && DecodeAll(one, items[1..]) == Some(xs[1..])
  {
    assert xs == [xs[0]] + xs[1..];
    if DecodeAll(one, items).Some? {
      assert DecodeAll(one, items).value[1..] == DecodeAll(one, items[1..]).value;
    }
  }

  ghost predicate SessionsSay(v: Option<Json>, ss: seq<string>) {
    v.Some? && v.value.Array? && SessionItemsSay(v.value.items, ss)
  }

  predicate SessionItemsSay(items: seq<Json>, ss: seq<string>) {
    |items| == |ss| && forall i :: 0 <= i < |items| ==> SessionSays(Some(items[i]), Some(ss[i]))
  }

  lemma {:induction false} SessionsExactly(items: seq<Json>, ss: seq<string>)
    ensures DecodeSessions(items) == Some(ss) <==> SessionItemsSay(items, ss)
  {
    if items != [] && ss != [] {
      SessionsExactly(items[1..], ss[1..]);
      assert ss == [ss[0]] + ss[1..];
      assert forall i :: 1 <= i < |items| ==> items[i] == items[1..][i - 1];
      assert forall i :: 1 <= i < |ss| ==> ss[i] == ss[1..][i - 1];
      if DecodeSessions(items).Some? {
        assert DecodeSessions(items).value[1..] == DecodeSessions(items[1..]).value;
      }
    }
  }

  // ---- the file ------------------------------------------------------------------------------------

  ghost function RecordSayer(env: Env): (seq<Member>, Record) -> bool {
    (o: seq<Member>, r: Record) => RecordSays(env, o, r)
  }

  ghost function StatementSayer(env: Env): (seq<Member>, Statement) -> bool {
    (o: seq<Member>, s: Statement) => StatementSays(env, o, s)
  }

  ghost function GrantSayer(): (seq<Member>, Grant) -> bool {
    (o: seq<Member>, g: Grant) => GrantSays(o, g)
  }

  ghost predicate SnapshotSays(env: Env, o: seq<Member>, s: Snapshot) {
    && ListSays(Get(o, "paired"), s.paired, RecordSayer(env)) && ListSays(Get(o, "grants"), s.grants, GrantSayer())
    && SessionsSay(Get(o, "relay_enabled"), s.relay)
    && ListSays(Get(o, "statements"), s.statements, StatementSayer(env))
  }

  lemma PairedExactly(env: Env, items: seq<Json>, rs: seq<Record>)
    requires T.KeepsText(env.parse)
    ensures DecodeAll(ReadRecord(env), items) == Some(rs) <==> ItemsSay(items, rs, RecordSayer(env))
  {
    forall o, r ensures ReadRecord(env)(o) == Some(r) <==> RecordSayer(env)(o, r) {
      RecordExactly(env, o, r);
    }
    ListExactly(ReadRecord(env), RecordSayer(env), items, rs);
  }

  lemma StatementsExactly(env: Env, items: seq<Json>, ss: seq<Statement>)
    requires T.KeepsText(env.parse)
    ensures DecodeAll(ReadStatement(env), items) == Some(ss) <==> ItemsSay(items, ss, StatementSayer(env))
  {
    forall o, s ensures ReadStatement(env)(o) == Some(s) <==> StatementSayer(env)(o, s) {
      StatementExactly(env, o, s);
    }
    ListExactly(ReadStatement(env), StatementSayer(env), items, ss);
  }

  lemma GrantsExactly(items: seq<Json>, gs: seq<Grant>)
    ensures DecodeAll(DecodeGrant, items) == Some(gs) <==> ItemsSay(items, gs, GrantSayer())
  {
    forall o, g ensures DecodeGrant(o) == Some(g) <==> GrantSayer()(o, g) {
      GrantExactly(o, g);
    }
    ListExactly(DecodeGrant, GrantSayer(), items, gs);
  }

  lemma SnapshotExactly(env: Env, o: seq<Member>, s: Snapshot)
    requires T.KeepsText(env.parse)
    ensures DecodeSnapshot(env, o) == Some(s) <==> SnapshotSays(env, o, s)
  {
    var p, g, r, t := ListAt(o, "paired"), ListAt(o, "grants"), ListAt(o, "relay_enabled"), ListAt(o, "statements");
    if p.Some? && g.Some? && r.Some? && t.Some? {
      PairedExactly(env, p.value, s.paired);
      GrantsExactly(g.value, s.grants);
      SessionsExactly(r.value, s.relay);
      StatementsExactly(env, t.value, s.statements);
    }
  }

  const ROOT_NAMES := ["grants", "oac_trust_store", "paired", "relay_enabled", "statements", "agreement_seq_floor",
                       "device_key_id"]

  predicate DeviceSays(v: Option<Json>, id: Option<string>) {
    if id.None? then v.None? else KeyIdSays(v, id.value)
  }

  /** A trust file, version 1: five members that must be there, two that may, and no other. */
  ghost predicate FileSays(env: Env, o: seq<Member>, f: TrustFile) {
    && Only(o, ROOT_NAMES) && Get(o, "oac_trust_store") == Some(Number("1"))
    && SnapshotSays(env, o, f.snapshot) && FloorSays(Get(o, "agreement_seq_floor"), f.floor)
    && DeviceSays(Get(o, "device_key_id"), f.deviceKeyId)
  }

  lemma VersionSaid(v: Option<Json>)
    ensures KnownVersion(v) <==> v == Some(Number("1"))
  {
    if v.Some? && v.value.Number? {
      Ids.PlainIntegers(v.value.raw, 0, 0xFFFF_FFFF_FFFF_FFFF, 1);
      assert Ids.Decimal(1) == "1";
    }
  }

  ghost predicate ListsThere(o: seq<Member>) {
    Get(o, "grants").Some? && Get(o, "paired").Some? && Get(o, "relay_enabled").Some? && Get(o, "statements").Some?
  }

  lemma FiveThere(o: seq<Member>, a: string, b: string, c: string, d: string, e: string)
    ensures AllThere(o, [a, b, c, d, e])
       <==> Get(o, a).Some? && Get(o, b).Some? && Get(o, c).Some? && Get(o, d).Some? && Get(o, e).Some?
  {
    var names := [a, b, c, d, e];
    assert names[0] == a && names[1] == b && names[2] == c && names[3] == d && names[4] == e;
  }

  lemma SevenNames(a: string, b: string, c: string, d: string, e: string, f: string, g: string)
    ensures [a, b, c, d, e] + [f, g] == [a, b, c, d, e, f, g]
  {
  }

  lemma RootThere(o: seq<Member>)
    ensures Exact(o, REQUIRED, OPTIONAL)
       <==> Only(o, ROOT_NAMES) && ListsThere(o) && Get(o, "oac_trust_store").Some?
  {
    ExactIsOnly(o, REQUIRED, OPTIONAL);
    SevenNames("grants", "oac_trust_store", "paired", "relay_enabled", "statements", "agreement_seq_floor",
               "device_key_id");
    FiveThere(o, "grants", "oac_trust_store", "paired", "relay_enabled", "statements");
  }

  lemma DeviceSaid(o: seq<Member>, id: Option<string>)
    ensures DecodeKeyIdMember(o) == Some(id) <==> DeviceSays(Get(o, "device_key_id"), id)
  {
  }

  ghost predicate RootParts(env: Env, o: seq<Member>, f: TrustFile) {
    && KnownVersion(Get(o, "oac_trust_store")) && Exact(o, REQUIRED, OPTIONAL)
    && DecodeSnapshot(env, o) == Some(f.snapshot)
    && DecodeFloorMember(Get(o, "agreement_seq_floor")) == Some(f.floor)
    && DecodeKeyIdMember(o) == Some(f.deviceKeyId)
  }

  lemma RootHasParts(env: Env, o: seq<Member>, f: TrustFile)
    ensures DecodeRoot(env, o) == Some(f) <==> RootParts(env, o, f)
  {
  }

  lemma SnapshotHasLists(env: Env, o: seq<Member>, s: Snapshot)
    requires SnapshotSays(env, o, s)
    ensures ListsThere(o)
  {
  }

  lemma RootExactly(env: Env, o: seq<Member>, f: TrustFile)
    requires T.KeepsText(env.parse)
    ensures DecodeRoot(env, o) == Some(f) <==> FileSays(env, o, f)
  {
    RootHasParts(env, o, f);
    RootThere(o);
    VersionSaid(Get(o, "oac_trust_store"));
    SnapshotExactly(env, o, f.snapshot);
    FloorExactly(Get(o, "agreement_seq_floor"), f.floor);
    DeviceSaid(o, f.deviceKeyId);
    if SnapshotSays(env, o, f.snapshot) {
      SnapshotHasLists(env, o, f.snapshot);
    }
  }

  /** A text is taken for a trust file exactly when it is an object whose members say what the file says. */
  lemma DecodeExactly(env: Env, text: string, f: TrustFile)
    requires T.KeepsText(env.parse)
    ensures Decode(env, text) == Some(f)
       <==> Parse(text).Ok? && Parse(text).value.Object? && FileSays(env, Parse(text).value.members, f)
  {
    var v := Parse(text);
    if v.Ok? && v.value.Object? {
      RootExactly(env, v.value.members, f);
    }
  }

  // ---- what is written -----------------------------------------------------------------------------

  /** The first text comes before the second, character by character. */
  ghost predicate TextBefore(s: string, t: string) {
    UnitsBefore(Codes(s), Codes(t))
  }

  lemma LexIsTextBefore(s: string, t: string)
    ensures LexLe(Codes(s), Codes(t)) <==> s == t || TextBefore(s, t)
  {
    LexIsUnitsBefore(Codes(s), Codes(t));
    if Codes(s) == Codes(t) {
      CodesInjective(s, t);
    }
    LexTotal(Codes(s), Codes(t));
  }

  ghost predicate InOrder(texts: seq<string>) {
    forall i, j :: 0 <= i < j < |texts| ==> texts[i] == texts[j] || TextBefore(texts[i], texts[j])
  }

  ghost predicate InStrictOrder(texts: seq<string>) {
    forall i, j :: 0 <= i < j < |texts| ==> TextBefore(texts[i], texts[j])
  }

  function TextsOf<X>(text: X -> string, xs: seq<X>): (r: seq<string>)
    ensures |r| == |xs| && forall i :: 0 <= i < |xs| ==> r[i] == text(xs[i])
  {
    seq(|xs|, i requires 0 <= i < |xs| => text(xs[i]))
  }

  lemma SortedInOrder<X(!new)>(text: X -> string, le: (X, X) -> bool, xs: seq<X>)
    requires forall a, b :: le(a, b) == LexLe(Codes(text(a)), Codes(text(b)))
    ensures InOrder(TextsOf(text, Sort(le, xs))) && multiset(Sort(le, xs)) == multiset(xs)
  {
    OrderByText(text, le);
    SortSorts(le, xs);
    SortKeeps(le, xs);
    var r := Sort(le, xs);
    forall i, j | 0 <= i < j < |r| ensures text(r[i]) == text(r[j]) || TextBefore(text(r[i]), text(r[j])) {
      assert le(r[i], r[j]);
      LexIsTextBefore(text(r[i]), text(r[j]));
    }
  }

  lemma RelayInOrder(ss: seq<string>)
    ensures InStrictOrder(Relay(ss)) && forall x :: x in Relay(ss) <==> x in ss
  {
    OrderByText((x: string) => x, SessionOrder);
    var sorted := Sort(SessionOrder, ss);
    SortSorts(SessionOrder, ss);
    SortKeeps(SessionOrder, ss);
    SessionsDecided(sorted);
    DedupDistinct(SessionOrder, sorted);
    DedupKeeps(sorted);
    forall i, j | 0 <= i < j < |Relay(ss)| ensures TextBefore(Relay(ss)[i], Relay(ss)[j]) {
      assert SessionOrder(Relay(ss)[i], Relay(ss)[j]);
      LexIsTextBefore(Relay(ss)[i], Relay(ss)[j]);
    }
    forall x ensures x in sorted <==> x in ss {
      assert x in multiset(sorted) <==> x in multiset(ss);
    }
  }

  /** What is written is the file with its records and statements in the order of their key ids, its relay
      sessions in order and each once, and all else as it is. */
  lemma NormalInOrder(env: Env, f: TrustFile)
    ensures var n, s := Normal(env, f).snapshot, f.snapshot;
            && Normal(env, f) == f.(snapshot := n) && n.grants == s.grants
            && multiset(n.paired) == multiset(s.paired)
            && InOrder(TextsOf((r: Record) => env.keyIdOf(r.publicKey), n.paired))
            && multiset(n.statements) == multiset(s.statements)
            && InOrder(TextsOf((t: Statement) => t.keyId, n.statements))
            && InStrictOrder(n.relay) && (forall x :: x in n.relay <==> x in s.relay)
  {
    SortedInOrder((r: Record) => env.keyIdOf(r.publicKey), RecordOrder(env), f.snapshot.paired);
    SortedInOrder((t: Statement) => t.keyId, StatementOrder, f.snapshot.statements);
    RelayInOrder(f.snapshot.relay);
  }

  /** The members of every object it builds are in the order of their names. */
  lemma BuiltInOrder(fields: seq<Field>)
    requires DistinctFields(fields)
    ensures InStrictOrder(TextsOf((m: Member) => m.name, Build(fields)))
  {
    Built(fields);
    var name := (m: Member) => m.name;
    SortedInOrder(name, ByName, Filled(fields));
    var o := Build(fields);
    forall i, j | 0 <= i < j < |o| ensures TextBefore(o[i].name, o[j].name) {
      assert TextsOf(name, o)[i] == o[i].name && TextsOf(name, o)[j] == o[j].name;
    }
  }
}
