/** The trust file: what the encoder writes as a JSON tree and the strict decoder reads. */
module TrustFormat {
  import opened Common
  import opened Json
  import opened Sorting
  import JsonText
  import Ids
  import Octets
  import T = Timestamp
  import B = Base64Url

  const MAX_STATEMENT_SEQ: nat := 9_007_199_254_740_991
  const FORMAT_VERSION: nat := 1

  // ---- objects with named fields -----------------------------------------------------------------

  /** A member an object may have. */
  datatype Field = Field(name: string, value: Option<Json>)

  function Filled(fields: seq<Field>): seq<Member> {
    if fields == [] then []
    else if fields[0].value.None? then Filled(fields[1..])
    else [Member(fields[0].name, fields[0].value.value)] + Filled(fields[1..])
  }

  predicate ByName(a: Member, b: Member) {
    LexLe(Codes(a.name), Codes(b.name))
  }

  /** The members that are there, sorted by name. */
  function Build(fields: seq<Field>): seq<Member> {
    Sort(ByName, Filled(fields))
  }

  /** Every required member is there and no other but the optional ones. */
  predicate Exact(o: seq<Member>, required: seq<string>, optional: seq<string>) {
    && (forall i :: 0 <= i < |o| ==> o[i].name in required || o[i].name in optional)
    && (forall i :: 0 <= i < |required| ==> Get(o, required[i]).Some?)
  }

  predicate DistinctFields(fields: seq<Field>) {
    forall i, j :: 0 <= i < j < |fields| ==> fields[i].name != fields[j].name
  }

  lemma {:induction false} FilledMembers(fields: seq<Field>, m: Member)
    ensures m in Filled(fields) <==> exists i :: 0 <= i < |fields| && fields[i] == Field(m.name, Some(m.value))
  {
    if fields != [] {
      FilledMembers(fields[1..], m);
      assert forall i :: 1 <= i < |fields| ==> fields[i] == fields[1..][i - 1];
      if i :| 0 <= i < |fields[1..]| && fields[1..][i] == Field(m.name, Some(m.value)) {
        assert fields[i + 1] == Field(m.name, Some(m.value));
      }
    }
  }

  lemma {:induction false} FilledDistinct(fields: seq<Field>)
    requires DistinctFields(fields)
    ensures DistinctNames(Filled(fields))
  {
    if fields != [] {
      FilledDistinct(fields[1..]);
      var rest := Filled(fields[1..]);
      forall i | 0 <= i < |rest| ensures rest[i].name != fields[0].name {
        FilledMembers(fields[1..], rest[i]);
      }
    }
  }

  /** A built object has distinct names and exactly the members that are there. */
  lemma Built(fields: seq<Field>)
    requires DistinctFields(fields)
    ensures DistinctNames(Build(fields))
    ensures forall m :: m in Build(fields) <==> m in Filled(fields)
  {
    FilledDistinct(fields);
    SortKeeps(ByName, Filled(fields));
    Reordered(Filled(fields), Build(fields));
  }

  /** Every field reads back from the object it was built into. */
  lemma GetBuilt(fields: seq<Field>, i: nat)
    requires DistinctFields(fields) && i < |fields|
    ensures Get(Build(fields), fields[i].name) == fields[i].value
  {
    var o, f := Build(fields), fields[i];
    Built(fields);
    if f.value.Some? {
      FilledMembers(fields, Member(f.name, f.value.value));
      var k :| 0 <= k < |o| && o[k] == Member(f.name, f.value.value);
      GetOfMember(o, k);
    } else {
      GetFinds(o, f.name);
      if Get(o, f.name).Some? {
        var m := Member(f.name, Get(o, f.name).value);
        FilledMembers(fields, m);
      }
    }
  }

  /** The first `needed` fields are there. */
  predicate Needed(fields: seq<Field>, needed: nat) {
    needed <= |fields| && forall i :: 0 <= i < needed ==> fields[i].value.Some?
  }

  function NamesOf(fields: seq<Field>): (s: seq<string>)
    ensures |s| == |fields| && forall i :: 0 <= i < |s| ==> s[i] == fields[i].name
  {
    seq(|fields|, i requires 0 <= i < |fields| => fields[i].name)
  }

  /** The object is exact for its own fields: the needed ones first, the optional ones after them. */
  lemma ExactBuilt(fields: seq<Field>, needed: nat)
    requires DistinctFields(fields) && Needed(fields, needed)
    ensures Exact(Build(fields), NamesOf(fields)[..needed], NamesOf(fields)[needed..])
  {
    var o, names := Build(fields), NamesOf(fields);
    Built(fields);
    forall i | 0 <= i < |o| ensures o[i].name in names[..needed] || o[i].name in names[needed..] {
      assert o[i] in Filled(fields);
      FilledMembers(fields, o[i]);
      var k :| 0 <= k < |fields| && fields[k] == Field(o[i].name, Some(o[i].value));
      assert if k < needed then names[..needed][k] == o[i].name else names[needed..][k - needed] == o[i].name;
    }
    forall i | 0 <= i < needed ensures Get(o, names[..needed][i]).Some? {
      GetBuilt(fields, i);
    }
  }

  predicate AsciiNames(fields: seq<Field>) {
    forall i :: 0 <= i < |fields| ==> T.IsAscii(fields[i].name)
  }

  predicate AbsentOrWellFormed(v: Option<Json>) {
    v.Some? ==> WellFormed(v.value)
  }

  predicate FieldsWellFormed(fields: seq<Field>) {
    forall i :: 0 <= i < |fields| ==> AbsentOrWellFormed(fields[i].value)
  }

  lemma BuiltWellFormed(fields: seq<Field>)
    requires DistinctFields(fields) && AsciiNames(fields) && FieldsWellFormed(fields)
    ensures WellFormed(Object(Build(fields)))
  {
    var o := Build(fields);
    Built(fields);
    forall i | 0 <= i < |o| ensures JsonText.IsIjson(o[i].name) && WellFormed(o[i].value) {
      assert o[i] in Filled(fields);
      FilledMembers(fields, o[i]);
      var k :| 0 <= k < |fields| && fields[k] == Field(o[i].name, Some(o[i].value));
      Ids.AsciiIsIjson(fields[k].name);
      assert AbsentOrWellFormed(fields[k].value);
    }
  }

  // ---- values ------------------------------------------------------------------------------------

  datatype PeerSide = PeerSide(keyId: string, session: Option<string>)

  datatype LocalSide = Session(id: string) | Scope(path: string) | Device

  datatype Grant = Inbound(peer: PeerSide, local: LocalSide) | Outbound(local: LocalSide, peer: PeerSide)

  datatype Confirmed = Confirmed(agreementKey: seq<Byte>, number: nat, issuedAt: T.Stamp)

  datatype Record = Record(principal: string, publicKey: seq<Byte>, pairedAt: T.Stamp, confirmed: Option<Confirmed>)

  datatype Statement = Statement(keyId: string, agreementKey: seq<Byte>, number: nat, issuedAt: T.Stamp)

  datatype SeqFloor = SeqFloor(keyId: string, number: nat)

  datatype Snapshot = Snapshot(paired: seq<Record>, grants: seq<Grant>, relay: seq<string>, statements: seq<Statement>)

  datatype TrustFile = TrustFile(deviceKeyId: Option<string>, snapshot: Snapshot, floor: Option<SeqFloor>)

  /** What the file format takes from elsewhere: the reader of timestamps, the text of a 32-octet key, the
      key id of a public key, and the checks a key must pass. */
  datatype Env = Env(
    parse: T.Parser, show: seq<Byte> -> string, read: string -> Option<seq<Byte>>,
    keyIdOf: seq<Byte> -> string, acceptable: seq<Byte> -> bool, agreeable: seq<Byte> -> bool)

  /** A key is read back from its own text, whatever is read as a key is 32 octets long, and a public key has
      a key id. */
  ghost predicate Lawful(env: Env) {
    && T.KeepsText(env.parse)
    && (forall key :: |key| == 32 ==> env.read(env.show(key)) == Some(key) && T.IsAscii(env.show(key)))
    && (forall s :: env.read(s).Some? ==> |env.read(s).value| == 32)
    && (forall key :: Ids.IsKeyId(env.keyIdOf(key)))
  }

  /** Unpadded base64url is such a text. */
  lemma Base64IsLawful(env: Env)
    requires env.show == B.Encode && (forall s :: env.read(s) == B.DecodeExact(32, s))
    requires T.KeepsText(env.parse) && forall key :: Ids.IsKeyId(env.keyIdOf(key))
    ensures Lawful(env)
  {
    forall key: seq<Byte> | |key| == 32 ensures env.read(env.show(key)) == Some(key) && T.IsAscii(env.show(key)) {
      B.DecodeOfEncode(key);
      B.EncodeIsLetters(key);
    }
  }

  predicate SessionOrNone(s: Option<string>) {
    s.Some? ==> Octets.IsSessionId(s.value)
  }

  predicate ProperPeer(p: PeerSide) {
    Ids.IsKeyId(p.keyId) && SessionOrNone(p.session)
  }

  /** A scope is any text the encoder can quote. */
  predicate ProperLocal(l: LocalSide) {
    match l
    case Session(id) => Octets.IsSessionId(id)
    case Scope(path) => JsonText.IsIjson(path)
    case Device => true
  }

  predicate ProperGrant(g: Grant) {
    ProperPeer(g.peer) && ProperLocal(g.local)
  }

  predicate ProperStamp(env: Env, t: T.Stamp) {
    env.parse(t.text) == Some(t)
  }

  predicate ProperConfirmed(env: Env, c: Confirmed) {
    && |c.agreementKey| == 32 && env.agreeable(c.agreementKey)
    && c.number <= MAX_STATEMENT_SEQ && ProperStamp(env, c.issuedAt)
  }

  predicate ProperRecord(env: Env, r: Record) {
    && Ids.IsToken(r.principal) && |r.publicKey| == 32 && env.acceptable(r.publicKey) && ProperStamp(env, r.pairedAt)
    && (r.confirmed.Some? ==> ProperConfirmed(env, r.confirmed.value))
  }

  predicate ProperStatement(env: Env, s: Statement) {
    && Ids.IsKeyId(s.keyId) && |s.agreementKey| == 32 && env.agreeable(s.agreementKey)
    && s.number <= MAX_STATEMENT_SEQ && ProperStamp(env, s.issuedAt)
  }

  // ---- reading members ---------------------------------------------------------------------------

  function TextAt(o: seq<Member>, name: string): Option<string> {
    var v := Get(o, name);
    if v.Some? && v.value.String? then Some(v.value.s) else None
  }

  function ObjectAt(o: seq<Member>, name: string): Option<seq<Member>> {
    var v := Get(o, name);
    if v.Some? && v.value.Object? then Some(v.value.members) else None
  }

  function ListAt(o: seq<Member>, name: string): Option<seq<Json>> {
    var v := Get(o, name);
    if v.Some? && v.value.Array? then Some(v.value.items) else None
  }

  function KeyIdAt(o: seq<Member>, name: string): Option<string> {
    var s := TextAt(o, name);
    if s.Some? && Ids.IsKeyId(s.value) then s else None
  }

  function SessionAt(o: seq<Member>, name: string): Option<string> {
    var s := TextAt(o, name);
    if s.Some? && Octets.IsSessionId(s.value) then s else None
  }

  function StampAt(env: Env, o: seq<Member>, name: string): Option<T.Stamp> {
    var s := TextAt(o, name);
    if s.Some? then env.parse(s.value) else None
  }

  function AgreementKeyAt(env: Env, o: seq<Member>): Option<seq<Byte>> {
    var s := TextAt(o, "agreement_key");
    var key := if s.Some? then env.read(s.value) else None;
    if key.Some? && env.agreeable(key.value) then key else None
  }

  function SeqAt(o: seq<Member>): Option<nat> {
    var v := Get(o, "seq");
    if v.Some? && v.value.Number? then Ids.PlainInteger(v.value.raw, 0, MAX_STATEMENT_SEQ) else None
  }

  function Plain(n: nat): Json {
    Number(Ids.Decimal(n))
  }

  lemma SeqRead(o: seq<Member>, n: nat)
    requires Get(o, "seq") == Some(Plain(n))
    ensures SeqAt(o) == if n <= MAX_STATEMENT_SEQ then Some(n) else None
  {
    var raw := Ids.Decimal(n);
    Ids.PlainIntegers(raw, 0, MAX_STATEMENT_SEQ, n);
    if SeqAt(o).Some? {
      Ids.PlainIntegers(raw, 0, MAX_STATEMENT_SEQ, SeqAt(o).value);
      Ids.ValueOfDecimal(n);
    }
  }

  // ---- the sides of a grant ----------------------------------------------------------------------

  function Text(s: Option<string>): Option<Json> {
    if s.None? then None else Some(String(s.value))
  }

  function PeerFields(p: PeerSide): seq<Field> {
    [Field("key_id", Some(String(p.keyId))), Field("session_id", Text(p.session))]
  }

  function DecodePeer(o: seq<Member>): Option<PeerSide> {
    if !Exact(o, ["key_id"], ["session_id"]) then None
    else
      var key := KeyIdAt(o, "key_id");
      if key.None? then None
      else if Get(o, "session_id").None? then Some(PeerSide(key.value, None))
      else
        var session := SessionAt(o, "session_id");
        if session.None? then None else Some(PeerSide(key.value, session))
  }

  lemma PeerRead(p: PeerSide)
    requires ProperPeer(p)
    ensures DecodePeer(Build(PeerFields(p))) == Some(p)
  {
    var f := PeerFields(p);
    assert f[0].name != f[1].name;
    ExactBuilt(f, 1);
    assert NamesOf(f)[..1] == ["key_id"] && NamesOf(f)[1..] == ["session_id"];
    GetBuilt(f, 0);
    GetBuilt(f, 1);
  }

  function LocalFields(l: LocalSide): seq<Field> {
    match l
    case Session(id) => [Field("kind", Some(String("session"))), Field("session_id", Some(String(id)))]
    case Scope(path) => [Field("kind", Some(String("scope"))), Field("scope", Some(String(path)))]
    case Device => [Field("kind", Some(String("device")))]
  }

  function DecodeLocal(o: seq<Member>): Option<LocalSide> {
    var kind := TextAt(o, "kind");
    if kind == Some("session") then
      var id := SessionAt(o, "session_id");
      if Exact(o, ["kind", "session_id"], []) && id.Some? then Some(Session(id.value)) else None
    else if kind == Some("scope") then
      var path := TextAt(o, "scope");
      if Exact(o, ["kind", "scope"], []) && path.Some? then Some(Scope(path.value)) else None
    else if kind == Some("device") then
      if Exact(o, ["kind"], []) then Some(Device) else None
    else None
  }

  lemma LocalRead(l: LocalSide)
    requires ProperLocal(l)
    ensures DecodeLocal(Build(LocalFields(l))) == Some(l)
  {
    var f := LocalFields(l);
    assert |f| > 1 ==> f[0].name != f[1].name;
    ExactBuilt(f, |f|);
    GetBuilt(f, 0);
    assert NamesOf(f)[|f|..] == [];
    if !l.Device? {
      GetBuilt(f, 1);
      assert NamesOf(f)[..2] == ["kind", f[1].name];
    } else {
      assert NamesOf(f)[..1] == ["kind"];
    }
  }

  function SideFields(direction: string, target: seq<Member>, writer: seq<Member>): seq<Field> {
    [Field("direction", Some(String(direction))), Field("target", Some(Object(target))),
     Field("writer", Some(Object(writer)))]
  }

  function GrantFields(g: Grant): seq<Field> {
    var peer, local := Build(PeerFields(g.peer)), Build(LocalFields(g.local));
    if g.Inbound? then SideFields("inbound", local, peer) else SideFields("outbound", peer, local)
  }

  function DecodeGrant(o: seq<Member>): Option<Grant> {
    if !Exact(o, ["direction", "target", "writer"], []) then None
    else
      var writer, target := ObjectAt(o, "writer"), ObjectAt(o, "target");
      if writer.None? || target.None? then None
      else
        var direction := TextAt(o, "direction");
        if direction == Some("inbound") then
          var (peer, local) := (DecodePeer(writer.value), DecodeLocal(target.value));
          if peer.None? || local.None? then None else Some(Inbound(peer.value, local.value))
        else if direction == Some("outbound") then
          var (local, peer) := (DecodeLocal(writer.value), DecodePeer(target.value));
          if local.None? || peer.None? then None else Some(Outbound(local.value, peer.value))
        else None
  }

  lemma SidesRead(direction: string, target: seq<Member>, writer: seq<Member>)
    ensures var o := Build(SideFields(direction, target, writer));
            && Exact(o, ["direction", "target", "writer"], []) && TextAt(o, "direction") == Some(direction)
            && ObjectAt(o, "target") == Some(target) && ObjectAt(o, "writer") == Some(writer)
  {
    var f := SideFields(direction, target, writer);
    assert f[0].name != f[1].name && f[0].name != f[2].name && f[1].name != f[2].name;
    ExactBuilt(f, 3);
    assert NamesOf(f)[..3] == ["direction", "target", "writer"] && NamesOf(f)[3..] == [];
    GetBuilt(f, 0);
    GetBuilt(f, 1);
    GetBuilt(f, 2);
  }

  lemma GrantRead(g: Grant)
    requires ProperGrant(g)
    ensures DecodeGrant(Build(GrantFields(g))) == Some(g)
  {
    var peer, local := Build(PeerFields(g.peer)), Build(LocalFields(g.local));
    if g.Inbound? {
      SidesRead("inbound", local, peer);
    } else {
      SidesRead("outbound", peer, local);
    }
    PeerRead(g.peer);
    LocalRead(g.local);
  }

  // ---- records, statements and the floor ---------------------------------------------------------

  function ConfirmedFields(env: Env, c: Confirmed): seq<Field> {
    [Field("agreement_key", Some(String(env.show(c.agreementKey)))), Field("issued_at", Some(String(c.issuedAt.text))),
     Field("seq", Some(Plain(c.number)))]
  }

  function DecodeConfirmed(env: Env, o: seq<Member>): Option<Confirmed> {
    if !Exact(o, ["agreement_key", "issued_at", "seq"], []) then None
    else
      var key, n, t := AgreementKeyAt(env, o), SeqAt(o), StampAt(env, o, "issued_at");
      if key.None? || n.None? || t.None? then None else Some(Confirmed(key.value, n.value, t.value))
  }

  lemma ConfirmedMembers(env: Env, c: Confirmed)
    ensures var o := Build(ConfirmedFields(env, c));
            && Exact(o, ["agreement_key", "issued_at", "seq"], [])
            && TextAt(o, "agreement_key") == Some(env.show(c.agreementKey))
            && TextAt(o, "issued_at") == Some(c.issuedAt.text) && Get(o, "seq") == Some(Plain(c.number))
  {
    var f := ConfirmedFields(env, c);
    assert |f[0].name| == 13 && |f[1].name| == 9 && |f[2].name| == 3;
    ExactBuilt(f, 3);
    assert NamesOf(f)[..3] == ["agreement_key", "issued_at", "seq"] && NamesOf(f)[3..] == [];
    GetBuilt(f, 0);
    GetBuilt(f, 1);
    GetBuilt(f, 2);
  }

  lemma AgreementKeyRead(env: Env, o: seq<Member>, key: seq<Byte>)
    requires Lawful(env) && |key| == 32 && env.agreeable(key) && TextAt(o, "agreement_key") == Some(env.show(key))
    ensures AgreementKeyAt(env, o) == Some(key)
  {
  }

  lemma ConfirmedRead(env: Env, c: Confirmed)
    requires Lawful(env) && ProperConfirmed(env, c)
    ensures DecodeConfirmed(env, Build(ConfirmedFields(env, c))) == Some(c)
  {
    var o := Build(ConfirmedFields(env, c));
    ConfirmedMembers(env, c);
    AgreementKeyRead(env, o, c.agreementKey);
    SeqRead(o, c.number);
  }

  function RecordFields(env: Env, r: Record): seq<Field> {
    [Field("key_id", Some(String(env.keyIdOf(r.publicKey)))), Field("paired_at", Some(String(r.pairedAt.text))),
     Field("principal", Some(String(r.principal))), Field("public_key", Some(String(env.show(r.publicKey)))),
     Field("confirmed", if r.confirmed.None? then None
                        else Some(Object(Build(ConfirmedFields(env, r.confirmed.value)))))]
  }

  /** The values a pairing confirmed, if the record has them. */
  function DecodeConfirmedMember(env: Env, v: Option<Json>): Option<Option<Confirmed>> {
    if v.None? then Some(None)
    else if !v.value.Object? then None
    else
      var c := DecodeConfirmed(env, v.value.members);
      if c.None? then None else Some(c)
  }

  function PublicKeyAt(env: Env, o: seq<Member>): Option<seq<Byte>> {
    var s := TextAt(o, "public_key");
    var key := if s.Some? then env.read(s.value) else None;
    if key.Some? && env.acceptable(key.value) then key else None
  }

  function DecodeRecord(env: Env, o: seq<Member>): Option<Record> {
    if !Exact(o, ["key_id", "paired_at", "principal", "public_key"], ["confirmed"]) then None
    else
      var key, id := PublicKeyAt(env, o), KeyIdAt(o, "key_id");
      if key.None? || id != Some(env.keyIdOf(key.value)) then None
      else
        var principal, confirmed := TextAt(o, "principal"), DecodeConfirmedMember(env, Get(o, "confirmed"));
        var t := StampAt(env, o, "paired_at");
        if principal.None? || !Ids.IsToken(principal.value) || confirmed.None? || t.None? then None
        else Some(Record(principal.value, key.value, t.value, confirmed.value))
  }

  lemma RecordNamesApart(env: Env, r: Record)
    ensures DistinctFields(RecordFields(env, r)) && AsciiNames(RecordFields(env, r))
  {
    var f := RecordFields(env, r);
    assert |f[0].name| == 6 && |f[3].name| == 10;
    assert f[1].name[1] == 'a' && f[2].name[1] == 'r' && f[4].name[1] == 'o';
    assert |f[1].name| == 9 && |f[2].name| == 9 && |f[4].name| == 9;
  }

  lemma RecordNames(env: Env, r: Record)
    ensures DistinctFields(RecordFields(env, r)) && AsciiNames(RecordFields(env, r))
    ensures NamesOf(RecordFields(env, r))[..4] == ["key_id", "paired_at", "principal", "public_key"]
    ensures NamesOf(RecordFields(env, r))[4..] == ["confirmed"]
  {
    RecordNamesApart(env, r);
  }

  lemma RecordMembers(env: Env, r: Record)
    ensures var o := Build(RecordFields(env, r));
            && Exact(o, ["key_id", "paired_at", "principal", "public_key"], ["confirmed"])
            && TextAt(o, "key_id") == Some(env.keyIdOf(r.publicKey)) && TextAt(o, "paired_at") == Some(r.pairedAt.text)
            && TextAt(o, "principal") == Some(r.principal) && TextAt(o, "public_key") == Some(env.show(r.publicKey))
            && Get(o, "confirmed") == RecordFields(env, r)[4].value
  {
    var f := RecordFields(env, r);
    RecordNames(env, r);
    ExactBuilt(f, 4);
    GetBuilt(f, 0);
    GetBuilt(f, 1);
    GetBuilt(f, 2);
    GetBuilt(f, 3);
    GetBuilt(f, 4);
  }

  lemma ConfirmedMemberRead(env: Env, r: Record)
    requires Lawful(env) && (r.confirmed.Some? ==> ProperConfirmed(env, r.confirmed.value))
    ensures DecodeConfirmedMember(env, RecordFields(env, r)[4].value) == Some(r.confirmed)
  {
    if r.confirmed.Some? {
      ConfirmedRead(env, r.confirmed.value);
    }
  }

  lemma PublicKeyRead(env: Env, o: seq<Member>, key: seq<Byte>)
    requires Lawful(env) && |key| == 32 && env.acceptable(key) && TextAt(o, "public_key") == Some(env.show(key))
    ensures PublicKeyAt(env, o) == Some(key)
  {
  }

  lemma RecordRead(env: Env, r: Record)
    requires Lawful(env) && ProperRecord(env, r)
    ensures DecodeRecord(env, Build(RecordFields(env, r))) == Some(r)
  {
    var o := Build(RecordFields(env, r));
    RecordMembers(env, r);
    ConfirmedMemberRead(env, r);
    PublicKeyRead(env, o, r.publicKey);
  }

  function StatementFields(env: Env, s: Statement): seq<Field> {
    [Field("agreement_key", Some(String(env.show(s.agreementKey)))), Field("issued_at", Some(String(s.issuedAt.text))),
     Field("key_id", Some(String(s.keyId))), Field("seq", Some(Plain(s.number)))]
  }

  function DecodeStatement(env: Env, o: seq<Member>): Option<Statement> {
    if !Exact(o, ["agreement_key", "issued_at", "key_id", "seq"], []) then None
    else
      var id, key := KeyIdAt(o, "key_id"), AgreementKeyAt(env, o);
      var n, t := SeqAt(o), StampAt(env, o, "issued_at");
      if id.None? || key.None? || n.None? || t.None? then None
      else Some(Statement(id.value, key.value, n.value, t.value))
  }

  lemma StatementNames(env: Env, s: Statement)
    ensures DistinctFields(StatementFields(env, s)) && AsciiNames(StatementFields(env, s))
    ensures NamesOf(StatementFields(env, s))[..4] == ["agreement_key", "issued_at", "key_id", "seq"]
    ensures NamesOf(StatementFields(env, s))[4..] == []
  {
    var f := StatementFields(env, s);
    assert |f[0].name| == 13 && |f[1].name| == 9 && |f[2].name| == 6 && |f[3].name| == 3;
  }

  lemma StatementMembers(env: Env, s: Statement)
    ensures var o := Build(StatementFields(env, s));
            && Exact(o, ["agreement_key", "issued_at", "key_id", "seq"], [])
            && TextAt(o, "agreement_key") == Some(env.show(s.agreementKey))
            && TextAt(o, "issued_at") == Some(s.issuedAt.text)
            && TextAt(o, "key_id") == Some(s.keyId) && Get(o, "seq") == Some(Plain(s.number))
  {
    var f := StatementFields(env, s);
    StatementNames(env, s);
    ExactBuilt(f, 4);
    GetBuilt(f, 0);
    GetBuilt(f, 1);
    GetBuilt(f, 2);
    GetBuilt(f, 3);
  }

  lemma StatementRead(env: Env, s: Statement)
    requires Lawful(env) && ProperStatement(env, s)
    ensures DecodeStatement(env, Build(StatementFields(env, s))) == Some(s)
  {
    var o := Build(StatementFields(env, s));
    StatementMembers(env, s);
    AgreementKeyRead(env, o, s.agreementKey);
    SeqRead(o, s.number);
  }

  function FloorFields(f: SeqFloor): seq<Field> {
    [Field("key_id", Some(String(f.keyId))), Field("seq", Some(Plain(f.number)))]
  }

  function DecodeFloor(o: seq<Member>): Option<SeqFloor> {
    if !Exact(o, ["key_id", "seq"], []) then None
    else
      var id, n := KeyIdAt(o, "key_id"), SeqAt(o);
      if id.None? || n.None? then None else Some(SeqFloor(id.value, n.value))
  }

  /** A floor above the largest sequence number is written and then refused. */
  lemma FloorRead(f: SeqFloor)
    requires Ids.IsKeyId(f.keyId)
    ensures DecodeFloor(Build(FloorFields(f))) == if f.number <= MAX_STATEMENT_SEQ then Some(f) else None
  {
    var g := FloorFields(f);
    assert g[0].name != g[1].name;
    ExactBuilt(g, 2);
    assert NamesOf(g)[..2] == ["key_id", "seq"] && NamesOf(g)[2..] == [];
    GetBuilt(g, 0);
    GetBuilt(g, 1);
    SeqRead(Build(g), f.number);
  }

  // ---- lists -------------------------------------------------------------------------------------

  function Objects<X>(show: X -> seq<Member>, xs: seq<X>): (r: seq<Json>)
    ensures |r| == |xs| && forall i :: 0 <= i < |xs| ==> r[i] == Object(show(xs[i]))
  {
    seq(|xs|, i requires 0 <= i < |xs| => Object(show(xs[i])))
  }

  /** Every element an object that `one` reads. */
  function DecodeAll<X>(one: seq<Member> -> Option<X>, items: seq<Json>): Option<seq<X>> {
    if items == [] then Some([])
    else if !items[0].Object? || one(items[0].members).None? then None
    else
      var rest := DecodeAll(one, items[1..]);
      if rest.None? then None else Some([one(items[0].members).value] + rest.value)
  }

  lemma {:induction false} AllRead<X>(show: X -> seq<Member>, one: seq<Member> -> Option<X>, xs: seq<X>)
    requires forall i :: 0 <= i < |xs| ==> one(show(xs[i])) == Some(xs[i])
    ensures DecodeAll(one, Objects(show, xs)) == Some(xs)
  {
    if xs != [] {
      AllRead(show, one, xs[1..]);
      assert Objects(show, xs)[1..] == Objects(show, xs[1..]);
      assert one(show(xs[0])) == Some(xs[0]);
      assert [xs[0]] + xs[1..] == xs;
    }
  }

  function ShowRecord(env: Env): Record -> seq<Member> {
    (r: Record) => Build(RecordFields(env, r))
  }

  function ReadRecord(env: Env): seq<Member> -> Option<Record> {
    (o: seq<Member>) => DecodeRecord(env, o)
  }

  function ShowStatement(env: Env): Statement -> seq<Member> {
    (s: Statement) => Build(StatementFields(env, s))
  }

  function ReadStatement(env: Env): seq<Member> -> Option<Statement> {
    (o: seq<Member>) => DecodeStatement(env, o)
  }

  function ShowGrant(g: Grant): seq<Member> {
    Build(GrantFields(g))
  }

  function Strings(ss: seq<string>): (r: seq<Json>)
    ensures |r| == |ss| && forall i :: 0 <= i < |ss| ==> r[i] == String(ss[i])
  {
    seq(|ss|, i requires 0 <= i < |ss| => String(ss[i]))
  }

  function DecodeSessions(items: seq<Json>): Option<seq<string>> {
    if items == [] then Some([])
    else if !items[0].String? || !Octets.IsSessionId(items[0].s) then None
    else
      var rest := DecodeSessions(items[1..]);
      if rest.None? then None else Some([items[0].s] + rest.value)
  }

  lemma {:induction false} SessionsRead(ss: seq<string>)
    requires forall i :: 0 <= i < |ss| ==> Octets.IsSessionId(ss[i])
    ensures DecodeSessions(Strings(ss)) == Some(ss)
  {
    if ss != [] {
      SessionsRead(ss[1..]);
      assert Strings(ss)[1..] == Strings(ss[1..]);
      assert [ss[0]] + ss[1..] == ss;
    }
  }

  // ---- order -------------------------------------------------------------------------------------

  function RecordOrder(env: Env): (Record, Record) -> bool {
    (a: Record, b: Record) => LexLe(Codes(env.keyIdOf(a.publicKey)), Codes(env.keyIdOf(b.publicKey)))
  }

  predicate StatementOrder(a: Statement, b: Statement) {
    LexLe(Codes(a.keyId), Codes(b.keyId))
  }

  predicate SessionOrder(a: string, b: string) {
    LexLe(Codes(a), Codes(b))
  }

  /** An order by a text is total. */
  lemma OrderByText<X(!new)>(text: X -> string, le: (X, X) -> bool)
    requires forall a, b :: le(a, b) == LexLe(Codes(text(a)), Codes(text(b)))
    ensures Total(le)
  {
    forall x, y ensures le(x, y) || le(y, x) {
      LexTotal(Codes(text(x)), Codes(text(y)));
    }
    forall x, y, z | le(x, y) && le(y, z) ensures le(x, z) {
      LexTransitive(Codes(text(x)), Codes(text(y)), Codes(text(z)));
    }
  }

  /** Equal in the order means the same text. */
  lemma SameText(s: string, t: string)
    requires LexLe(Codes(s), Codes(t)) && LexLe(Codes(t), Codes(s))
    ensures s == t
  {
    LexTotal(Codes(s), Codes(t));
    CodesInjective(s, t);
  }

  // ---- the file ----------------------------------------------------------------------------------

  function Relay(sessions: seq<string>): seq<string> {
    Dedup(Sort(SessionOrder, sessions))
  }

  /** What is written: the keyed lists sorted by key id, the relay list sorted without repeats. */
  function Normal(env: Env, f: TrustFile): TrustFile {
    var s := f.snapshot;
    f.(snapshot := Snapshot(Sort(RecordOrder(env), s.paired), s.grants, Relay(s.relay),
                            Sort(StatementOrder, s.statements)))
  }

  function FloorMember(f: Option<SeqFloor>): Option<Json> {
    if f.None? then None else Some(Object(Build(FloorFields(f.value))))
  }

  function GrantsMember(gs: seq<Grant>): Option<Json> {
    Some(Array(Objects(ShowGrant, gs)))
  }

  function PairedMember(env: Env, rs: seq<Record>): Option<Json> {
    Some(Array(Objects(ShowRecord(env), rs)))
  }

  function RelayMember(ss: seq<string>): Option<Json> {
    Some(Array(Strings(ss)))
  }

  function StatementsMember(env: Env, ss: seq<Statement>): Option<Json> {
    Some(Array(Objects(ShowStatement(env), ss)))
  }

  function RootOf(grants: Option<Json>, paired: Option<Json>, relay: Option<Json>, statements: Option<Json>,
                  floor: Option<Json>, id: Option<Json>): seq<Field> {
    [Field("grants", grants), Field("oac_trust_store", Some(Plain(FORMAT_VERSION))), Field("paired", paired),
     Field("relay_enabled", relay), Field("statements", statements), Field("agreement_seq_floor", floor),
     Field("device_key_id", id)]
  }

  /** The members of a file whose lists are in order. */
  function RootFields(env: Env, f: TrustFile): seq<Field> {
    var s := f.snapshot;
    RootOf(GrantsMember(s.grants), PairedMember(env, s.paired), RelayMember(s.relay),
           StatementsMember(env, s.statements), FloorMember(f.floor), Text(f.deviceKeyId))
  }

  /** Whether the encoder can quote every scope. */
  predicate Quotable(f: TrustFile) {
    forall i :: 0 <= i < |f.snapshot.grants| ==>
      (f.snapshot.grants[i].local.Scope? ==> JsonText.IsIjson(f.snapshot.grants[i].local.path))
  }

  function Encode(env: Env, f: TrustFile): Option<string> {
    if Quotable(f) then Some(Print(Object(Build(RootFields(env, Normal(env, f)))))) else None
  }

  const REQUIRED := ["grants", "oac_trust_store", "paired", "relay_enabled", "statements"]
  const OPTIONAL := ["agreement_seq_floor", "device_key_id"]

  function DecodeFloorMember(v: Option<Json>): Option<Option<SeqFloor>> {
    if v.None? then Some(None)
    else if !v.value.Object? then None
    else
      var f := DecodeFloor(v.value.members);
      if f.None? then None else Some(f)
  }

  function DecodeKeyIdMember(o: seq<Member>): Option<Option<string>> {
    if Get(o, "device_key_id").None? then Some(None)
    else
      var id := KeyIdAt(o, "device_key_id");
      if id.None? then None else Some(id)
  }

  predicate KnownVersion(v: Option<Json>) {
    v.Some? && v.value.Number? && Ids.PlainInteger(v.value.raw, 0, 0xFFFF_FFFF_FFFF_FFFF) == Some(FORMAT_VERSION)
  }

  function DecodeSnapshot(env: Env, o: seq<Member>): Option<Snapshot> {
    var (p, g) := (ListAt(o, "paired"), ListAt(o, "grants"));
    var (r, s) := (ListAt(o, "relay_enabled"), ListAt(o, "statements"));
    if p.None? || g.None? || r.None? || s.None? then None
    else
      var (paired, grants) := (DecodeAll(ReadRecord(env), p.value), DecodeAll(DecodeGrant, g.value));
      var (relay, statements) := (DecodeSessions(r.value), DecodeAll(ReadStatement(env), s.value));
      if paired.None? || grants.None? || relay.None? || statements.None? then None
      else Some(Snapshot(paired.value, grants.value, relay.value, statements.value))
  }

  function DecodeRoot(env: Env, o: seq<Member>): Option<TrustFile> {
    if !KnownVersion(Get(o, "oac_trust_store")) || !Exact(o, REQUIRED, OPTIONAL) then None
    else
      var id, floor := DecodeKeyIdMember(o), DecodeFloorMember(Get(o, "agreement_seq_floor"));
      var snapshot := DecodeSnapshot(env, o);
      if id.None? || floor.None? || snapshot.None? then None else Some(TrustFile(id.value, snapshot.value, floor.value))
  }

  function Decode(env: Env, text: string): Option<TrustFile> {
    var v := Parse(text);
    if v.Err? || !v.value.Object? then None else DecodeRoot(env, v.value.members)
  }

  // ---- reading what was written ------------------------------------------------------------------

  predicate AllRecords(env: Env, rs: seq<Record>) {
    forall i :: 0 <= i < |rs| ==> ProperRecord(env, rs[i])
  }

  predicate AllStatements(env: Env, ss: seq<Statement>) {
    forall i :: 0 <= i < |ss| ==> ProperStatement(env, ss[i])
  }

  predicate AllGrants(gs: seq<Grant>) {
    forall i :: 0 <= i < |gs| ==> ProperGrant(gs[i])
  }

  predicate AllSessions(ss: seq<string>) {
    forall i :: 0 <= i < |ss| ==> Octets.IsSessionId(ss[i])
  }

  predicate ProperSnapshot(env: Env, s: Snapshot) {
    AllRecords(env, s.paired) && AllGrants(s.grants) && AllSessions(s.relay) && AllStatements(env, s.statements)
  }

  /** What the types of the source promise of a file that is to be written. */
  predicate Proper(env: Env, f: TrustFile) {
    && (f.deviceKeyId.Some? ==> Ids.IsKeyId(f.deviceKeyId.value))
    && (f.floor.Some? ==> Ids.IsKeyId(f.floor.value.keyId))
    && ProperSnapshot(env, f.snapshot)
  }

  /** The floor is one the reader takes back. */
  predicate FloorInRange(floor: Option<SeqFloor>) {
    floor.Some? ==> floor.value.number <= MAX_STATEMENT_SEQ
  }

  lemma RootNames(env: Env, f: TrustFile)
    ensures DistinctFields(RootFields(env, f))
    ensures NamesOf(RootFields(env, f))[..5] == REQUIRED && NamesOf(RootFields(env, f))[5..] == OPTIONAL
  {
    var r := RootFields(env, f);
    assert |r[0].name| == 6 && |r[1].name| == 15 && |r[2].name| == 6 && |r[3].name| == 13 && |r[4].name| == 10;
    assert |r[5].name| == 19 && |r[6].name| == 13;
    assert r[0].name[0] == 'g' && r[2].name[0] == 'p' && r[3].name[0] == 'r' && r[6].name[0] == 'd';
  }

  lemma RootAscii(env: Env, f: TrustFile)
    ensures AsciiNames(RootFields(env, f))
  {
    var r := RootFields(env, f);
    RequiredAscii();
    OptionalAscii();
    RootNames(env, f);
    forall i | 0 <= i < |r| ensures T.IsAscii(r[i].name) {
      assert if i < 5 then r[i].name == NamesOf(r)[..5][i] else r[i].name == NamesOf(r)[5..][i - 5];
    }
  }

  lemma RequiredAscii()
    ensures forall i :: 0 <= i < |REQUIRED| ==> T.IsAscii(REQUIRED[i])
  {
  }

  lemma OptionalAscii()
    ensures forall i :: 0 <= i < |OPTIONAL| ==> T.IsAscii(OPTIONAL[i])
  {
  }

  lemma RootLists(env: Env, f: TrustFile)
    ensures var o := Build(RootFields(env, f));
            && ListAt(o, "grants") == Some(Objects(ShowGrant, f.snapshot.grants))
            && ListAt(o, "paired") == Some(Objects(ShowRecord(env), f.snapshot.paired))
            && ListAt(o, "relay_enabled") == Some(Strings(f.snapshot.relay))
            && ListAt(o, "statements") == Some(Objects(ShowStatement(env), f.snapshot.statements))
  {
    var r := RootFields(env, f);
    RootNames(env, f);
    GetBuilt(r, 0);
    GetBuilt(r, 2);
    GetBuilt(r, 3);
    GetBuilt(r, 4);
  }

  lemma RootOthers(env: Env, f: TrustFile)
    ensures var o := Build(RootFields(env, f));
            && Exact(o, REQUIRED, OPTIONAL) && KnownVersion(Get(o, "oac_trust_store"))
            && Get(o, "agreement_seq_floor") == FloorMember(f.floor) && Get(o, "device_key_id") == Text(f.deviceKeyId)
  {
    var r := RootFields(env, f);
    RootNames(env, f);
    ExactBuilt(r, 5);
    GetBuilt(r, 1);
    GetBuilt(r, 5);
    GetBuilt(r, 6);
    Ids.PlainIntegers(Ids.Decimal(FORMAT_VERSION), 0, 0xFFFF_FFFF_FFFF_FFFF, FORMAT_VERSION);
  }

  lemma RecordsRead(env: Env, rs: seq<Record>)
    requires Lawful(env) && AllRecords(env, rs)
    ensures DecodeAll(ReadRecord(env), Objects(ShowRecord(env), rs)) == Some(rs)
  {
    forall i | 0 <= i < |rs| ensures ReadRecord(env)(ShowRecord(env)(rs[i])) == Some(rs[i]) {
      RecordRead(env, rs[i]);
    }
    AllRead(ShowRecord(env), ReadRecord(env), rs);
  }

  lemma StatementsRead(env: Env, ss: seq<Statement>)
    requires Lawful(env) && AllStatements(env, ss)
    ensures DecodeAll(ReadStatement(env), Objects(ShowStatement(env), ss)) == Some(ss)
  {
    forall i | 0 <= i < |ss| ensures ReadStatement(env)(ShowStatement(env)(ss[i])) == Some(ss[i]) {
      StatementRead(env, ss[i]);
    }
    AllRead(ShowStatement(env), ReadStatement(env), ss);
  }

  lemma GrantsRead(gs: seq<Grant>)
    requires AllGrants(gs)
    ensures DecodeAll(DecodeGrant, Objects(ShowGrant, gs)) == Some(gs)
  {
    forall i | 0 <= i < |gs| ensures DecodeGrant(ShowGrant(gs[i])) == Some(gs[i]) {
      GrantRead(gs[i]);
    }
    AllRead(ShowGrant, DecodeGrant, gs);
  }

  lemma SnapshotRead(env: Env, f: TrustFile)
    requires Lawful(env) && ProperSnapshot(env, f.snapshot)
    ensures DecodeSnapshot(env, Build(RootFields(env, f))) == Some(f.snapshot)
  {
    RootLists(env, f);
    RecordsRead(env, f.snapshot.paired);
    StatementsRead(env, f.snapshot.statements);
    GrantsRead(f.snapshot.grants);
    SessionsRead(f.snapshot.relay);
    SnapshotOfLists(env, Build(RootFields(env, f)), f.snapshot);
  }

  lemma SnapshotOfLists(env: Env, o: seq<Member>, s: Snapshot)
    requires ListAt(o, "paired").Some? && DecodeAll(ReadRecord(env), ListAt(o, "paired").value) == Some(s.paired)
    requires ListAt(o, "grants").Some? && DecodeAll(DecodeGrant, ListAt(o, "grants").value) == Some(s.grants)
    requires ListAt(o, "relay_enabled").Some? && DecodeSessions(ListAt(o, "relay_enabled").value) == Some(s.relay)
    requires ListAt(o, "statements").Some?
    requires DecodeAll(ReadStatement(env), ListAt(o, "statements").value) == Some(s.statements)
    ensures DecodeSnapshot(env, o) == Some(s)
  {
  }

  lemma FloorMemberRead(floor: Option<SeqFloor>)
    requires floor.Some? ==> Ids.IsKeyId(floor.value.keyId)
    ensures DecodeFloorMember(FloorMember(floor)) == if FloorInRange(floor) then Some(floor) else None
  {
    if floor.Some? {
      FloorRead(floor.value);
    }
  }

  /** The tree of a file reads back, unless its floor is out of range. */
  lemma RootRead(env: Env, f: TrustFile)
    requires Lawful(env) && Proper(env, f)
    ensures DecodeRoot(env, Build(RootFields(env, f))) == if FloorInRange(f.floor) then Some(f) else None
  {
    RootOthers(env, f);
    SnapshotRead(env, f);
    FloorMemberRead(f.floor);
    KeyIdMemberRead(Build(RootFields(env, f)), f.deviceKeyId);
    RootOfParts(env, Build(RootFields(env, f)), f);
  }

  lemma KeyIdMemberRead(o: seq<Member>, id: Option<string>)
    requires Get(o, "device_key_id") == Text(id) && (id.Some? ==> Ids.IsKeyId(id.value))
    ensures DecodeKeyIdMember(o) == Some(id)
  {
  }

  lemma RootOfParts(env: Env, o: seq<Member>, f: TrustFile)
    requires Exact(o, REQUIRED, OPTIONAL) && KnownVersion(Get(o, "oac_trust_store"))
    requires DecodeKeyIdMember(o) == Some(f.deviceKeyId) && DecodeSnapshot(env, o) == Some(f.snapshot)
    requires DecodeFloorMember(Get(o, "agreement_seq_floor")) == if FloorInRange(f.floor) then Some(f.floor) else None
    ensures DecodeRoot(env, o) == if FloorInRange(f.floor) then Some(f) else None
  {
  }

  // ---- the tree is well formed -------------------------------------------------------------------

  lemma AsciiText(s: string)
    requires T.IsAscii(s)
    ensures WellFormed(String(s))
  {
    Ids.AsciiIsIjson(s);
  }

  lemma PlainWellFormed(n: nat)
    ensures WellFormed(Plain(n))
  {
    Ids.DecimalIsNumber(n);
  }

  lemma KeyIdText(s: string)
    requires Ids.IsKeyId(s)
    ensures WellFormed(String(s))
  {
    AsciiText(s);
  }

  lemma SessionText(s: string)
    requires Octets.IsSessionId(s)
    ensures WellFormed(String(s))
  {
    Ids.SessionIdIsToken(s);
    Ids.TokenIsIjson(s);
  }

  lemma PeerWellFormed(p: PeerSide)
    requires ProperPeer(p)
    ensures WellFormed(Object(Build(PeerFields(p))))
  {
    KeyIdText(p.keyId);
    if p.session.Some? {
      SessionText(p.session.value);
    }
    BuiltWellFormed(PeerFields(p));
  }

  lemma LocalWellFormed(l: LocalSide)
    requires ProperLocal(l)
    ensures WellFormed(Object(Build(LocalFields(l))))
  {
    AsciiText("session");
    AsciiText("scope");
    AsciiText("device");
    if l.Session? {
      SessionText(l.id);
    }
    BuiltWellFormed(LocalFields(l));
  }

  lemma SidesWellFormed(direction: string, target: seq<Member>, writer: seq<Member>)
    requires T.IsAscii(direction) && WellFormed(Object(target)) && WellFormed(Object(writer))
    ensures WellFormed(Object(Build(SideFields(direction, target, writer))))
  {
    AsciiText(direction);
    BuiltWellFormed(SideFields(direction, target, writer));
  }

  lemma GrantWellFormed(g: Grant)
    requires ProperGrant(g)
    ensures WellFormed(Object(Build(GrantFields(g))))
  {
    PeerWellFormed(g.peer);
    LocalWellFormed(g.local);
    if g.Inbound? {
      SidesWellFormed("inbound", Build(LocalFields(g.local)), Build(PeerFields(g.peer)));
    } else {
      SidesWellFormed("outbound", Build(PeerFields(g.peer)), Build(LocalFields(g.local)));
    }
  }

  lemma StampText(env: Env, t: T.Stamp)
    requires Lawful(env) && ProperStamp(env, t)
    ensures WellFormed(String(t.text))
  {
    AsciiText(t.text);
  }

  lemma KeyText(env: Env, key: seq<Byte>)
    requires Lawful(env) && |key| == 32
    ensures WellFormed(String(env.show(key)))
  {
    AsciiText(env.show(key));
  }

  lemma ConfirmedWellFormed(env: Env, c: Confirmed)
    requires Lawful(env) && ProperConfirmed(env, c)
    ensures WellFormed(Object(Build(ConfirmedFields(env, c))))
  {
    KeyText(env, c.agreementKey);
    StampText(env, c.issuedAt);
    PlainWellFormed(c.number);
    FieldsOfThree(ConfirmedFields(env, c));
    BuiltWellFormed(ConfirmedFields(env, c));
  }

  lemma FieldsOfThree(f: seq<Field>)
    requires |f| == 3 && f[0].name == "agreement_key" && f[1].name == "issued_at" && f[2].name == "seq"
    requires forall i :: 0 <= i < 3 ==> f[i].value.Some? && WellFormed(f[i].value.value)
    ensures DistinctFields(f) && AsciiNames(f) && FieldsWellFormed(f)
  {
  }

  lemma RecordWellFormed(env: Env, r: Record)
    requires Lawful(env) && ProperRecord(env, r)
    ensures WellFormed(Object(Build(RecordFields(env, r))))
  {
    KeyIdText(env.keyIdOf(r.publicKey));
    KeyText(env, r.publicKey);
    StampText(env, r.pairedAt);
    Ids.TokenIsIjson(r.principal);
    if r.confirmed.Some? {
      ConfirmedWellFormed(env, r.confirmed.value);
    }
    RecordNames(env, r);
    var f := RecordFields(env, r);
    assert AbsentOrWellFormed(f[0].value) && AbsentOrWellFormed(f[1].value) && AbsentOrWellFormed(f[2].value);
    assert AbsentOrWellFormed(f[3].value) && AbsentOrWellFormed(f[4].value);
    BuiltWellFormed(f);
  }

  lemma StatementWellFormed(env: Env, s: Statement)
    requires Lawful(env) && ProperStatement(env, s)
    ensures WellFormed(Object(Build(StatementFields(env, s))))
  {
    KeyIdText(s.keyId);
    KeyText(env, s.agreementKey);
    StampText(env, s.issuedAt);
    PlainWellFormed(s.number);
    StatementNames(env, s);
    var f := StatementFields(env, s);
    assert AbsentOrWellFormed(f[0].value) && AbsentOrWellFormed(f[1].value);
    assert AbsentOrWellFormed(f[2].value) && AbsentOrWellFormed(f[3].value);
    BuiltWellFormed(f);
  }

  lemma FloorNames(floor: SeqFloor)
    ensures DistinctFields(FloorFields(floor)) && AsciiNames(FloorFields(floor))
  {
    assert |FloorFields(floor)[0].name| == 6 && |FloorFields(floor)[1].name| == 3;
  }

  lemma FloorWellFormed(floor: Option<SeqFloor>)
    requires floor.Some? ==> Ids.IsKeyId(floor.value.keyId)
    ensures AbsentOrWellFormed(FloorMember(floor))
  {
    if floor.Some? {
      var f := FloorFields(floor.value);
      FloorNames(floor.value);
      KeyIdText(floor.value.keyId);
      PlainWellFormed(floor.value.number);
      assert AbsentOrWellFormed(f[0].value) && AbsentOrWellFormed(f[1].value);
      BuiltWellFormed(f);
    }
  }

  lemma ObjectsWellFormed<X>(show: X -> seq<Member>, xs: seq<X>)
    requires forall i :: 0 <= i < |xs| ==> WellFormed(Object(show(xs[i])))
    ensures WellFormed(Array(Objects(show, xs)))
  {
  }

  lemma RecordsWellFormed(env: Env, rs: seq<Record>)
    requires Lawful(env) && AllRecords(env, rs)
    ensures AbsentOrWellFormed(PairedMember(env, rs))
  {
    forall i | 0 <= i < |rs| ensures WellFormed(Object(ShowRecord(env)(rs[i]))) {
      RecordWellFormed(env, rs[i]);
    }
    ObjectsWellFormed(ShowRecord(env), rs);
  }

  lemma StatementsWellFormed(env: Env, ss: seq<Statement>)
    requires Lawful(env) && AllStatements(env, ss)
    ensures AbsentOrWellFormed(StatementsMember(env, ss))
  {
    forall i | 0 <= i < |ss| ensures WellFormed(Object(ShowStatement(env)(ss[i]))) {
      StatementWellFormed(env, ss[i]);
    }
    ObjectsWellFormed(ShowStatement(env), ss);
  }

  lemma GrantsWellFormed(gs: seq<Grant>)
    requires AllGrants(gs)
    ensures AbsentOrWellFormed(GrantsMember(gs))
  {
    forall i | 0 <= i < |gs| ensures WellFormed(Object(ShowGrant(gs[i]))) {
      GrantWellFormed(gs[i]);
    }
    ObjectsWellFormed(ShowGrant, gs);
  }

  lemma SessionsWellFormed(ss: seq<string>)
    requires AllSessions(ss)
    ensures AbsentOrWellFormed(RelayMember(ss))
  {
    forall i | 0 <= i < |ss| ensures WellFormed(Strings(ss)[i]) {
      SessionText(ss[i]);
    }
  }

  lemma RootWellFormed(env: Env, f: TrustFile)
    requires Lawful(env) && Proper(env, f)
    ensures WellFormed(Object(Build(RootFields(env, f))))
  {
    var r := RootFields(env, f);
    RootNames(env, f);
    RootAscii(env, f);
    RootValues(env, f);
    BuiltWellFormed(r);
  }

  lemma RootValues(env: Env, f: TrustFile)
    requires Lawful(env) && Proper(env, f)
    ensures FieldsWellFormed(RootFields(env, f))
  {
    var s := f.snapshot;
    RecordsWellFormed(env, s.paired);
    StatementsWellFormed(env, s.statements);
    GrantsWellFormed(s.grants);
    SessionsWellFormed(s.relay);
    FloorWellFormed(f.floor);
    VersionWellFormed();
    KeyIdWellFormed(f.deviceKeyId);
    RootOfWellFormed(GrantsMember(s.grants), PairedMember(env, s.paired), RelayMember(s.relay),
                     StatementsMember(env, s.statements), FloorMember(f.floor), Text(f.deviceKeyId));
  }

  lemma VersionWellFormed()
    ensures AbsentOrWellFormed(Some(Plain(FORMAT_VERSION)))
  {
    PlainWellFormed(FORMAT_VERSION);
  }

  lemma KeyIdWellFormed(id: Option<string>)
    requires id.Some? ==> Ids.IsKeyId(id.value)
    ensures AbsentOrWellFormed(Text(id))
  {
    if id.Some? {
      KeyIdText(id.value);
    }
  }

  lemma RootOfWellFormed(grants: Option<Json>, paired: Option<Json>, relay: Option<Json>, statements: Option<Json>,
                         floor: Option<Json>, id: Option<Json>)
    requires AbsentOrWellFormed(grants) && AbsentOrWellFormed(paired)
    requires AbsentOrWellFormed(relay) && AbsentOrWellFormed(statements)
    requires AbsentOrWellFormed(floor) && AbsentOrWellFormed(id) && AbsentOrWellFormed(Some(Plain(FORMAT_VERSION)))
    ensures FieldsWellFormed(RootOf(grants, paired, relay, statements, floor, id))
  {
  }

  // ---- the round trip ----------------------------------------------------------------------------

  lemma KeptBySorting<X>(le: (X, X) -> bool, xs: seq<X>, good: X -> bool)
    requires forall i :: 0 <= i < |xs| ==> good(xs[i])
    ensures forall i :: 0 <= i < |xs| ==> good(Sort(le, xs)[i])
  {
    SortKeeps(le, xs);
    forall i | 0 <= i < |xs| ensures good(Sort(le, xs)[i]) {
      assert Sort(le, xs)[i] in multiset(xs);
    }
  }

  lemma RelayKept(ss: seq<string>)
    requires AllSessions(ss)
    ensures AllSessions(Relay(ss))
  {
    KeptBySorting(SessionOrder, ss, Octets.IsSessionId);
    DedupKeeps(Sort(SessionOrder, ss));
    forall i | 0 <= i < |Relay(ss)| ensures Octets.IsSessionId(Relay(ss)[i]) {
      assert Relay(ss)[i] in Sort(SessionOrder, ss);
    }
  }

  lemma NormalProper(env: Env, f: TrustFile)
    requires Proper(env, f)
    ensures Proper(env, Normal(env, f))
  {
    KeptBySorting(RecordOrder(env), f.snapshot.paired, r => ProperRecord(env, r));
    KeptBySorting(StatementOrder, f.snapshot.statements, s => ProperStatement(env, s));
    RelayKept(f.snapshot.relay);
  }

  /** What the types alone promise of a snapshot: a scope may be any text. */
  predicate TypedSnapshot(env: Env, s: Snapshot) {
    AllRecords(env, s.paired) && AllTypedGrants(s.grants) && AllSessions(s.relay) && AllStatements(env, s.statements)
  }

  predicate AllTypedGrants(gs: seq<Grant>) {
    forall i :: 0 <= i < |gs| ==> TypedGrant(gs[i])
  }

  predicate TypedGrant(g: Grant) {
    ProperPeer(g.peer) && (g.local.Scope? || ProperLocal(g.local))
  }

  lemma TypedAndQuotable(env: Env, f: TrustFile)
    ensures ProperSnapshot(env, f.snapshot) <==> TypedSnapshot(env, f.snapshot) && Quotable(f)
  {
    var gs := f.snapshot.grants;
    if AllGrants(gs) {
      forall i | 0 <= i < |gs|
        ensures TypedGrant(gs[i]) && (gs[i].local.Scope? ==> JsonText.IsIjson(gs[i].local.path))
      {
        assert ProperGrant(gs[i]);
      }
    }
    if AllTypedGrants(gs) && Quotable(f) {
      forall i | 0 <= i < |gs| ensures ProperGrant(gs[i]) {
        assert TypedGrant(gs[i]);
      }
    }
  }

  lemma ProperIsQuotable(env: Env, f: TrustFile)
    requires Proper(env, f)
    ensures Quotable(f)
  {
    forall i | 0 <= i < |f.snapshot.grants| && f.snapshot.grants[i].local.Scope?
      ensures JsonText.IsIjson(f.snapshot.grants[i].local.path)
    {
      assert ProperGrant(f.snapshot.grants[i]);
    }
  }

  /** Every proper file is encoded, and the text is read back as that file with its lists in order, exactly
      when the floor is at most the largest sequence number; a floor above it makes the text unreadable. */
  lemma DecodeOfEncode(env: Env, f: TrustFile)
    requires Lawful(env) && Proper(env, f)
    ensures Encode(env, f).Some?
    ensures Decode(env, Encode(env, f).value) == if FloorInRange(f.floor) then Some(Normal(env, f)) else None
  {
    ProperIsQuotable(env, f);
    NormalProper(env, f);
    RootWellFormed(env, Normal(env, f));
    ParseOfPrint(Object(Build(RootFields(env, Normal(env, f)))));
    RootRead(env, Normal(env, f));
  }

  /** Normal files are written as they are: reading what was written and writing it again changes nothing. */
  lemma NormalTwice(env: Env, f: TrustFile)
    ensures Normal(env, Normal(env, f)) == Normal(env, f)
  {
    var s := f.snapshot;
    OrderByText((r: Record) => env.keyIdOf(r.publicKey), RecordOrder(env));
    OrderByText((x: Statement) => x.keyId, StatementOrder);
    OrderByText((x: string) => x, SessionOrder);
    SortSorts(RecordOrder(env), s.paired);
    SortOfSorted(RecordOrder(env), Sort(RecordOrder(env), s.paired));
    SortSorts(StatementOrder, s.statements);
    SortOfSorted(StatementOrder, Sort(StatementOrder, s.statements));
    RelayTwice(s.relay);
  }

  lemma SessionsDecided(ss: seq<string>)
    ensures Decided(SessionOrder, ss)
  {
    forall i, j | 0 <= i < |ss| && 0 <= j < |ss| && SessionOrder(ss[i], ss[j]) && SessionOrder(ss[j], ss[i])
      ensures ss[i] == ss[j]
    {
      SameText(ss[i], ss[j]);
    }
  }

  lemma {:induction false} DedupOfDistinct(ss: seq<string>)
    requires forall i, j :: 0 <= i < j < |ss| ==> ss[i] != ss[j]
    ensures Dedup(ss) == ss
  {
    if |ss| > 1 {
      DedupOfDistinct(ss[1..]);
      assert ss[0] != ss[1];
    }
  }

  lemma RelayTwice(ss: seq<string>)
    ensures Relay(Relay(ss)) == Relay(ss)
  {
    OrderByText((x: string) => x, SessionOrder);
    SortSorts(SessionOrder, ss);
    SessionsDecided(Sort(SessionOrder, ss));
    DedupDistinct(SessionOrder, Sort(SessionOrder, ss));
    SortOfSorted(SessionOrder, Relay(ss));
    DedupOfDistinct(Relay(ss));
  }

  /** Records of distinct key ids, and statements of distinct key ids. */
  ghost predicate DistinctKeys(env: Env, s: Snapshot) {
    && (forall i, j :: 0 <= i < j < |s.paired| ==>
         env.keyIdOf(s.paired[i].publicKey) != env.keyIdOf(s.paired[j].publicKey))
    && (forall i, j :: 0 <= i < j < |s.statements| ==> s.statements[i].keyId != s.statements[j].keyId)
  }

  /** The same file but for the order of its paired, statement and relay lists. */
  ghost predicate Shuffled(f: TrustFile, g: TrustFile) {
    && f.deviceKeyId == g.deviceKeyId && f.floor == g.floor && f.snapshot.grants == g.snapshot.grants
    && multiset(f.snapshot.paired) == multiset(g.snapshot.paired)
    && multiset(f.snapshot.statements) == multiset(g.snapshot.statements)
    && multiset(f.snapshot.relay) == multiset(g.snapshot.relay)
  }

  /** Files that differ only in the order of those lists have one text. */
  lemma EncodeForgetsOrder(env: Env, f: TrustFile, g: TrustFile)
    requires Shuffled(f, g) && DistinctKeys(env, f.snapshot)
    ensures Encode(env, f) == Encode(env, g)
  {
    var s, t := f.snapshot, g.snapshot;
    OrderByText((r: Record) => env.keyIdOf(r.publicKey), RecordOrder(env));
    OrderByText((x: Statement) => x.keyId, StatementOrder);
    OrderByText((x: string) => x, SessionOrder);
    RecordsDecided(env, s);
    StatementsDecided(env, s);
    SessionsDecided(s.relay);
    SortForgetsOrder(RecordOrder(env), s.paired, t.paired);
    SortForgetsOrder(StatementOrder, s.statements, t.statements);
    SortForgetsOrder(SessionOrder, s.relay, t.relay);
  }

  lemma RecordsDecided(env: Env, s: Snapshot)
    requires DistinctKeys(env, s)
    ensures Decided(RecordOrder(env), s.paired)
  {
    var p := s.paired;
    forall i, j | 0 <= i < |p| && 0 <= j < |p| && RecordOrder(env)(p[i], p[j]) && RecordOrder(env)(p[j], p[i])
      ensures p[i] == p[j]
    {
      SameText(env.keyIdOf(p[i].publicKey), env.keyIdOf(p[j].publicKey));
    }
  }

  lemma StatementsDecided(env: Env, s: Snapshot)
    requires DistinctKeys(env, s)
    ensures Decided(StatementOrder, s.statements)
  {
    var p := s.statements;
    forall i, j | 0 <= i < |p| && 0 <= j < |p| && StatementOrder(p[i], p[j]) && StatementOrder(p[j], p[i])
      ensures p[i] == p[j]
    {
      SameText(p[i].keyId, p[j].keyId);
    }
  }

  // ---- what is read is proper --------------------------------------------------------------------

  lemma MemberWellFormed(o: seq<Member>, name: string)
    requires WellFormed(Object(o))
    ensures AbsentOrWellFormed(Get(o, name))
  {
    GetFinds(o, name);
  }

  lemma LocalIsProper(o: seq<Member>)
    requires WellFormed(Object(o))
    ensures DecodeLocal(o).Some? ==> ProperLocal(DecodeLocal(o).value)
  {
    MemberWellFormed(o, "scope");
  }

  lemma PeerIsProper(o: seq<Member>)
    ensures DecodePeer(o).Some? ==> ProperPeer(DecodePeer(o).value)
  {
  }

  lemma GrantIsProper(o: seq<Member>)
    requires WellFormed(Object(o))
    ensures DecodeGrant(o).Some? ==> ProperGrant(DecodeGrant(o).value)
  {
    if DecodeGrant(o).Some? {
      var writer, target := ObjectAt(o, "writer").value, ObjectAt(o, "target").value;
      MemberWellFormed(o, "writer");
      MemberWellFormed(o, "target");
      if TextAt(o, "direction") == Some("inbound") {
        LocalIsProper(target);
        PeerIsProper(writer);
      } else {
        LocalIsProper(writer);
        PeerIsProper(target);
      }
    }
  }

  lemma StampIsProper(env: Env, o: seq<Member>, name: string)
    requires Lawful(env)
    ensures StampAt(env, o, name).Some? ==> ProperStamp(env, StampAt(env, o, name).value)
  {
  }

  lemma SeqInRange(o: seq<Member>)
    ensures SeqAt(o).Some? ==> SeqAt(o).value <= MAX_STATEMENT_SEQ
  {
  }

  lemma ConfirmedIsProper(env: Env, o: seq<Member>)
    requires Lawful(env)
    ensures DecodeConfirmed(env, o).Some? ==> ProperConfirmed(env, DecodeConfirmed(env, o).value)
  {
    StampIsProper(env, o, "issued_at");
    SeqInRange(o);
  }

  lemma RecordIsProper(env: Env, o: seq<Member>)
    requires Lawful(env)
    ensures DecodeRecord(env, o).Some? ==> ProperRecord(env, DecodeRecord(env, o).value)
  {
    StampIsProper(env, o, "paired_at");
    var v := Get(o, "confirmed");
    if v.Some? && v.value.Object? {
      ConfirmedIsProper(env, v.value.members);
    }
  }

  lemma StatementIsProper(env: Env, o: seq<Member>)
    requires Lawful(env)
    ensures DecodeStatement(env, o).Some? ==> ProperStatement(env, DecodeStatement(env, o).value)
  {
    StampIsProper(env, o, "issued_at");
    SeqInRange(o);
  }

  lemma FloorIsProper(o: seq<Member>)
    ensures var f := DecodeFloor(o); f.Some? ==> Ids.IsKeyId(f.value.keyId) && f.value.number <= MAX_STATEMENT_SEQ
  {
    SeqInRange(o);
  }

  /** What `one` reads from a well-formed object is good. */
  ghost predicate ReadsGood<X>(one: seq<Member> -> Option<X>, good: X -> bool) {
    forall o {:trigger one(o)} :: WellFormed(Object(o)) && one(o).Some? ==> good(one(o).value)
  }

  lemma {:induction false} AllGood<X>(one: seq<Member> -> Option<X>, items: seq<Json>, good: X -> bool)
    requires ReadsGood(one, good) && AllWellFormed(items) && DecodeAll(one, items).Some?
    ensures forall i :: 0 <= i < |DecodeAll(one, items).value| ==> good(DecodeAll(one, items).value[i])
  {
    if items != [] {
      AllGood(one, items[1..], good);
      assert WellFormed(items[0]);
    }
  }

  lemma {:induction false} SessionsAreProper(items: seq<Json>)
    requires DecodeSessions(items).Some?
    ensures AllSessions(DecodeSessions(items).value)
  {
    if items != [] {
      SessionsAreProper(items[1..]);
    }
  }

  lemma ListWellFormed(o: seq<Member>, name: string)
    requires WellFormed(Object(o)) && ListAt(o, name).Some?
    ensures AllWellFormed(ListAt(o, name).value)
  {
    MemberWellFormed(o, name);
  }

  lemma PairedIsProper(env: Env, items: seq<Json>)
    requires Lawful(env) && AllWellFormed(items) && DecodeAll(ReadRecord(env), items).Some?
    ensures AllRecords(env, DecodeAll(ReadRecord(env), items).value)
  {
    var good := (r: Record) => ProperRecord(env, r);
    forall o | WellFormed(Object(o)) && ReadRecord(env)(o).Some? ensures good(ReadRecord(env)(o).value) {
      RecordIsProper(env, o);
    }
    AllGood(ReadRecord(env), items, good);
  }

  lemma StatementsAreProper(env: Env, items: seq<Json>)
    requires Lawful(env) && AllWellFormed(items) && DecodeAll(ReadStatement(env), items).Some?
    ensures AllStatements(env, DecodeAll(ReadStatement(env), items).value)
  {
    var good := (s: Statement) => ProperStatement(env, s);
    forall o | WellFormed(Object(o)) && ReadStatement(env)(o).Some? ensures good(ReadStatement(env)(o).value) {
      StatementIsProper(env, o);
    }
    AllGood(ReadStatement(env), items, good);
  }

  lemma GrantsAreProper(items: seq<Json>)
    requires AllWellFormed(items) && DecodeAll(DecodeGrant, items).Some?
    ensures AllGrants(DecodeAll(DecodeGrant, items).value)
  {
    forall o | WellFormed(Object(o)) && DecodeGrant(o).Some? ensures ProperGrant(DecodeGrant(o).value) {
      GrantIsProper(o);
    }
    AllGood(DecodeGrant, items, ProperGrant);
  }

  lemma SnapshotIsProper(env: Env, o: seq<Member>)
    requires Lawful(env) && WellFormed(Object(o)) && DecodeSnapshot(env, o).Some?
    ensures ProperSnapshot(env, DecodeSnapshot(env, o).value)
  {
    ListWellFormed(o, "paired");
    ListWellFormed(o, "grants");
    ListWellFormed(o, "statements");
    PairedIsProper(env, ListAt(o, "paired").value);
    GrantsAreProper(ListAt(o, "grants").value);
    StatementsAreProper(env, ListAt(o, "statements").value);
    SessionsAreProper(ListAt(o, "relay_enabled").value);
  }

  lemma FloorMemberIsProper(v: Option<Json>)
    ensures var f := DecodeFloorMember(v);
            f.Some? && f.value.Some? ==> Ids.IsKeyId(f.value.value.keyId) && FloorInRange(f.value)
  {
    if v.Some? && v.value.Object? {
      FloorIsProper(v.value.members);
    }
  }

  /** Every file that is read can be written again, and its floor is in range. */
  lemma DecodedIsProper(env: Env, text: string)
    requires Lawful(env) && Decode(env, text).Some?
    ensures Proper(env, Decode(env, text).value) && FloorInRange(Decode(env, text).value.floor)
  {
    ParsedIsWellFormed(text);
    RootIsProper(env, Parse(text).value.members);
  }

  lemma RootParts(env: Env, o: seq<Member>)
    requires DecodeRoot(env, o).Some?
    ensures var id, snapshot, floor :=
              DecodeKeyIdMember(o), DecodeSnapshot(env, o), DecodeFloorMember(Get(o, "agreement_seq_floor"));
            && id.Some? && snapshot.Some? && floor.Some?
            && DecodeRoot(env, o).value == TrustFile(id.value, snapshot.value, floor.value)
  {
  }

  lemma KeyIdMemberIsProper(o: seq<Member>)
    ensures var id := DecodeKeyIdMember(o); id.Some? && id.value.Some? ==> Ids.IsKeyId(id.value.value)
  {
  }

  lemma RootIsProper(env: Env, o: seq<Member>)
    requires Lawful(env) && WellFormed(Object(o)) && DecodeRoot(env, o).Some?
    ensures Proper(env, DecodeRoot(env, o).value) && FloorInRange(DecodeRoot(env, o).value.floor)
  {
    RootParts(env, o);
    KeyIdMemberIsProper(o);
    SnapshotIsProper(env, o);
    FloorMemberIsProper(Get(o, "agreement_seq_floor"));
  }
}
