/** Building a signed envelope and receiving it. Content parts are untrusted and carried as they are. */
module Envelopes {
  import opened Common
  import opened Json
  import C = Canonical
  import T = Timestamp
  import Ids
  import JsonText
  import Octets

  const MAX_TTL_MS: nat := 86_400_000

  // ---- values ------------------------------------------------------------------------------------

  datatype Part = TextPart(text: string, wire: seq<Member>) | OtherPart(partType: string, wire: seq<Member>)

  datatype Security = Security(principal: string, keyId: string, nonce: string, signature: string)

  datatype Draft = Draft(
    version: Ids.Version, id: string, source: string, target: string,
    conversationId: Option<string>, replyTo: Option<string>, correlationId: Option<string>,
    createdAt: T.Stamp, ttlMs: Option<nat>, content: seq<Part>)

  /** An envelope: its text, every top-level member, and what the defined members say. */
  datatype Envelope = Envelope(text: string, wire: seq<Member>, header: Draft, security: Security)

  function TypeOf(p: Part): string {
    if p.TextPart? then "text" else p.partType
  }

  /** No `null` anywhere. */
  predicate NoNull(v: Json) {
    match v
    case Null => false
    case Array(items) => forall i :: 0 <= i < |items| ==> NoNull(items[i])
    case Object(members) => forall i :: 0 <= i < |members| ==> NoNull(members[i].value)
    case _ => true
  }

  predicate Clean(v: Json) {
    WellFormed(v) && NoNull(v)
  }

  /** What the constructors of a content part promise. */
  predicate ProperPart(p: Part) {
    && Clean(Object(p.wire)) && Get(p.wire, "type") == Some(String(TypeOf(p)))
    && match p
       case TextPart(text, wire) => text != "" && Get(wire, "text") == Some(String(text))
       case OtherPart(partType, _) => partType != "text"
  }

  predicate TokenOrNone(t: Option<string>) {
    t.Some? ==> Ids.IsToken(t.value)
  }

  /** What the constructors of a draft promise. */
  predicate ProperDraft(parse: T.Parser, d: Draft) {
    && d.version.major < 0x1_0000 && d.version.minor < 0x1_0000
    && Ids.IsToken(d.id) && Octets.IsSessionId(d.source) && Octets.IsSessionId(d.target)
    && TokenOrNone(d.conversationId) && TokenOrNone(d.replyTo) && TokenOrNone(d.correlationId)
    && parse(d.createdAt.text) == Some(d.createdAt)
    && (d.ttlMs.Some? ==> 1 <= d.ttlMs.value <= MAX_TTL_MS)
    && d.content != [] && forall i :: 0 <= i < |d.content| ==> ProperPart(d.content[i])
  }

  // ---- building ----------------------------------------------------------------------------------

  function PutOptional(members: seq<Member>, name: string, v: Option<Json>): seq<Member> {
    if v.None? then members else Put(members, name, v.value)
  }

  function Text(s: Option<string>): Option<Json> {
    if s.None? then None else Some(String(s.value))
  }

  function Parts(content: seq<Part>): seq<Json> {
    seq(|content|, i requires 0 <= i < |content| => Object(content[i].wire))
  }

  function Ttl(t: Option<nat>): Option<Json> {
    if t.None? then None else Some(Number(Ids.Decimal(t.value)))
  }

  function HeaderNames(d: Draft): seq<Member> {
    Put(Put(Put(Put([], "version", String(Ids.ShowVersion(d.version))), "id", String(d.id)),
            "from", String(d.source)), "to", String(d.target))
  }

  function HeaderLinks(d: Draft): seq<Member> {
    PutOptional(PutOptional(PutOptional(HeaderNames(d), "conversation_id", Text(d.conversationId)),
                            "reply_to", Text(d.replyTo)), "correlation_id", Text(d.correlationId))
  }

  function HeaderTimes(d: Draft): seq<Member> {
    PutOptional(Put(HeaderLinks(d), "created_at", String(d.createdAt.text)), "ttl_ms", Ttl(d.ttlMs))
  }

  /** The members of a draft but `security`, in the order they are inserted. */
  function Header(d: Draft): seq<Member> {
    Put(HeaderTimes(d), "content", Array(Parts(d.content)))
  }

  function Wire(d: Draft, security: seq<Member>): seq<Member> {
    Put(Header(d), "security", Object(security))
  }

  /** The `security` object before it is signed. */
  function Unsigned(s: Security): seq<Member> {
    Put(Put(Put([], "principal", String(s.principal)), "key_id", String(s.keyId)), "nonce", String(s.nonce))
  }

  function Signed(s: Security): seq<Member> {
    Put(Unsigned(s), "signature", String(s.signature))
  }

  function Seal(d: Draft, s: Security): Envelope {
    var wire := Wire(d, Signed(s));
    Envelope(Print(Object(wire)), wire, d, s)
  }

  // ---- receiving ---------------------------------------------------------------------------------

  datatype Rejection = Malformed(requirement: string) | TooLarge | UnsupportedVersion | UnsupportedContentType | Expired

  datatype Limits = Limits(majors: seq<nat>, maxOctets: nat, partTypes: seq<string>)

  function AsString(v: Option<Json>): Option<string> {
    if v.Some? && v.value.String? then Some(v.value.s) else None
  }

  /** A member that is an identifier token, if it is there at all. */
  function TokenMember(o: seq<Member>, name: string): Result<Option<string>, Rejection> {
    var v := Get(o, name);
    if v.None? then Ok(None)
    else
      var s := AsString(v);
      if s.Some? && Ids.IsToken(s.value) then Ok(s) else Err(Malformed("SC-ENV-010"))
  }

  function ReadTtl(v: Option<Json>): Result<Option<nat>, Rejection> {
    if v.None? then Ok(None)
    else
      var n := if v.value.Number? then Ids.PlainInteger(v.value.raw, 1, MAX_TTL_MS) else None;
      if n.None? then Err(Malformed("SC-ENV-050")) else Ok(n)
  }

  function ReadPart(v: Json): Result<Part, Rejection> {
    if !v.Object? then Err(Malformed("SC-ENV-061"))
    else
      var partType := AsString(Get(v.members, "type"));
      if partType.None? then Err(Malformed("SC-ENV-061"))
      else if partType.value == "text" then
        var text := AsString(Get(v.members, "text"));
        if text.None? || text.value == "" then Err(Malformed("SC-ENV-062")) else Ok(TextPart(text.value, v.members))
      else Ok(OtherPart(partType.value, v.members))
  }

  function ReadParts(items: seq<Json>): Result<seq<Part>, Rejection> {
    if items == [] then Ok([])
    else
      var p := ReadPart(items[0]);
      if p.Err? then Err(p.error)
      else
        var rest := ReadParts(items[1..]);
        if rest.Err? then rest else Ok([p.value] + rest.value)
  }

  predicate IsSecurityMember(name: string) {
    name == "principal" || name == "key_id" || name == "nonce" || name == "signature"
  }

  function ReadSecurity(v: Option<Json>): Result<Security, Rejection> {
    if v.None? || !v.value.Object? then Err(Malformed("SC-ENV-070"))
    else
      var sec := v.value.members;
      if Get(sec, "principal").None? || Get(sec, "key_id").None? || Get(sec, "nonce").None?
         || Get(sec, "signature").None?
      then Err(Malformed("SC-ENV-071"))
      else
        var (a, b) := (AsString(Get(sec, "principal")), AsString(Get(sec, "key_id")));
        var (c, d) := (AsString(Get(sec, "nonce")), AsString(Get(sec, "signature")));
        if a.None? || b.None? || c.None? || d.None? then Err(Malformed("SC-ENV-072"))
        else if exists i :: 0 <= i < |sec| && !IsSecurityMember(sec[i].name) then Err(Malformed("SC-ENV-073"))
        else Ok(Security(a.value, b.value, c.value, d.value))
  }

  /** The first required member that is missing, as the requirement it breaks. */
  function Missing(o: seq<Member>): Option<string> {
    if Get(o, "id").None? then Some("SC-ENV-022")
    else if Get(o, "from").None? then Some("SC-ENV-025")
    else if Get(o, "to").None? then Some("SC-ENV-026")
    else if Get(o, "created_at").None? then Some("SC-ENV-040")
    else if Get(o, "content").None? then Some("SC-ENV-060")
    else if Get(o, "security").None? then Some("SC-ENV-070")
    else None
  }

  /** The identifiers of the header, in the order they are checked. */
  datatype Names = Names(id: string, source: string, target: string,
                         conversationId: Option<string>, replyTo: Option<string>, correlationId: Option<string>)

  function ReadNames(o: seq<Member>): Result<Names, Rejection> {
    var (id, source, target) := (TokenMember(o, "id"), TokenMember(o, "from"), TokenMember(o, "to"));
    var (c, r, k) := (TokenMember(o, "conversation_id"), TokenMember(o, "reply_to"), TokenMember(o, "correlation_id"));
    if id.Err? then Err(id.error) else if id.value.None? then Err(Malformed("SC-ENV-022"))
    else if source.Err? then Err(source.error) else if source.value.None? then Err(Malformed("SC-ENV-025"))
    else if target.Err? then Err(target.error) else if target.value.None? then Err(Malformed("SC-ENV-026"))
    else if c.Err? then Err(c.error) else if r.Err? then Err(r.error) else if k.Err? then Err(k.error)
    else if !Octets.IsSessionId(source.value.value) || !Octets.IsSessionId(target.value.value)
    then Err(Malformed("SC-ID-001"))
    else Ok(Names(id.value.value, source.value.value, target.value.value, c.value, r.value, k.value))
  }

  function ReadContent(v: Option<Json>): Result<seq<Part>, Rejection> {
    if v.None? || !v.value.Array? || v.value.items == [] then Err(Malformed("SC-ENV-060")) else ReadParts(v.value.items)
  }

  /** Every other requirement on the members. */
  function Structure(parse: T.Parser, text: string, o: seq<Member>, version: Ids.Version): Result<Envelope, Rejection> {
    if !NoNull(Object(o)) then Err(Malformed("SC-ENV-003"))
    else if Missing(o).Some? then Err(Malformed(Missing(o).value))
    else
      var names := ReadNames(o);
      if names.Err? then Err(names.error)
      else
        var created := AsString(Get(o, "created_at"));
        if created.None? || parse(created.value).None? then Err(Malformed("SC-ENV-041"))
        else
          var ttl := ReadTtl(Get(o, "ttl_ms"));
          if ttl.Err? then Err(ttl.error)
          else
            var content := ReadContent(Get(o, "content"));
            if content.Err? then Err(content.error)
            else
              var security := ReadSecurity(Get(o, "security"));
              if security.Err? then Err(security.error)
              else
                var n := names.value;
                Ok(Envelope(text, o,
                            Draft(version, n.id, n.source, n.target, n.conversationId, n.replyTo, n.correlationId,
                                  parse(created.value).value, ttl.value, content.value),
                            security.value))
  }

  predicate Supported(limits: Limits, p: Part) {
    TypeOf(p) == "text" || TypeOf(p) in limits.partTypes
  }

  /** Whether the expiry instant is at or before `now`. */
  predicate ExpiredAt(d: Draft, now: int) {
    d.ttlMs.Some? && d.createdAt.unixNanos + d.ttlMs.value * 1_000_000 <= now
  }

  /** The last steps: the types of the parts, and the expiry. */
  function Admit(limits: Limits, now: int, e: Result<Envelope, Rejection>): Result<Envelope, Rejection> {
    if e.Err? then e
    else if exists i :: 0 <= i < |e.value.header.content| && !Supported(limits, e.value.header.content[i])
    then Err(UnsupportedContentType)
    else if ExpiredAt(e.value.header, now) then Err(Expired)
    else e
  }

  function Receive(parse: T.Parser, limits: Limits, now: int, text: string): Result<Envelope, Rejection> {
    if OctetLength(text) > limits.maxOctets then Err(TooLarge)
    else
      var v := Parse(text);
      if v.Err? then Err(Malformed("SC-ENV-002"))
      else if !v.value.Object? then Err(Malformed("SC-ENV-001"))
      else
        var o := v.value.members;
        var shown := AsString(Get(o, "version"));
        var version := if shown.None? then None else Ids.ParseVersion(shown.value);
        if version.None? then Err(Malformed("SC-ENV-020"))
        else if version.value.major !in limits.majors then Err(UnsupportedVersion)
        else
          Admit(limits, now, Structure(parse, text, o, version.value))
  }

  // ---- what a draft's members are ----------------------------------------------------------------

  lemma GetOfPutOptional(members: seq<Member>, name: string, v: Option<Json>, other: string)
    ensures Get(PutOptional(members, name, v), other) == if other == name && v.Some? then v else Get(members, other)
  {
    if v.Some? {
      GetOfPut(members, name, v.value, other);
    }
  }

  function NamesMember(d: Draft, name: string): Option<Json> {
    if name == "to" then Some(String(d.target))
    else if name == "from" then Some(String(d.source))
    else if name == "id" then Some(String(d.id))
    else if name == "version" then Some(String(Ids.ShowVersion(d.version)))
    else None
  }

  lemma GetName(d: Draft, name: string)
    ensures Get(HeaderNames(d), name) == NamesMember(d, name)
  {
    var v := Put([], "version", String(Ids.ShowVersion(d.version)));
    var i := Put(v, "id", String(d.id));
    var f := Put(i, "from", String(d.source));
    GetOfPut([], "version", String(Ids.ShowVersion(d.version)), name);
    GetOfPut(v, "id", String(d.id), name);
    GetOfPut(i, "from", String(d.source), name);
    GetOfPut(f, "to", String(d.target), name);
  }

  function LinksMember(d: Draft, name: string): Option<Json> {
    if name == "correlation_id" && d.correlationId.Some? then Text(d.correlationId)
    else if name == "reply_to" && d.replyTo.Some? then Text(d.replyTo)
    else if name == "conversation_id" && d.conversationId.Some? then Text(d.conversationId)
    else NamesMember(d, name)
  }

  lemma GetLink(d: Draft, name: string)
    ensures Get(HeaderLinks(d), name) == LinksMember(d, name)
  {
    GetName(d, name);
    var c := PutOptional(HeaderNames(d), "conversation_id", Text(d.conversationId));
    GetOfPutOptional(HeaderNames(d), "conversation_id", Text(d.conversationId), name);
    var r := PutOptional(c, "reply_to", Text(d.replyTo));
    GetOfPutOptional(c, "reply_to", Text(d.replyTo), name);
    GetOfPutOptional(r, "correlation_id", Text(d.correlationId), name);
  }

  function HeaderMember(d: Draft, name: string): Option<Json> {
    if name == "content" then Some(Array(Parts(d.content)))
    else if name == "ttl_ms" && d.ttlMs.Some? then Ttl(d.ttlMs)
    else if name == "created_at" then Some(String(d.createdAt.text))
    else LinksMember(d, name)
  }

  lemma GetHeader(d: Draft, name: string)
    ensures Get(Header(d), name) == HeaderMember(d, name)
  {
    GetLink(d, name);
    var c := Put(HeaderLinks(d), "created_at", String(d.createdAt.text));
    GetOfPut(HeaderLinks(d), "created_at", String(d.createdAt.text), name);
    GetOfPutOptional(c, "ttl_ms", Ttl(d.ttlMs), name);
    GetOfPut(HeaderTimes(d), "content", Array(Parts(d.content)), name);
  }

  lemma GetWire(d: Draft, security: seq<Member>, name: string)
    ensures Get(Wire(d, security), name) == if name == "security" then Some(Object(security)) else HeaderMember(d, name)
  {
    GetHeader(d, name);
    GetOfPut(Header(d), "security", Object(security), name);
  }

  /** Every member by its own name. */
  lemma WireMembers(d: Draft, security: seq<Member>)
    ensures var o := Wire(d, security);
            && Get(o, "version") == Some(String(Ids.ShowVersion(d.version))) && Get(o, "id") == Some(String(d.id))
            && Get(o, "from") == Some(String(d.source)) && Get(o, "to") == Some(String(d.target))
            && Get(o, "created_at") == Some(String(d.createdAt.text))
            && Get(o, "content") == Some(Array(Parts(d.content)))
            && Get(o, "security") == Some(Object(security))
  {
    GetWire(d, security, "version");
    GetWire(d, security, "id");
    GetWire(d, security, "from");
    GetWire(d, security, "to");
    GetWire(d, security, "created_at");
    GetWire(d, security, "content");
    GetWire(d, security, "security");
  }

  lemma WireOptions(d: Draft, security: seq<Member>)
    ensures var o := Wire(d, security);
            && Get(o, "conversation_id") == Text(d.conversationId) && Get(o, "reply_to") == Text(d.replyTo)
            && Get(o, "correlation_id") == Text(d.correlationId) && Get(o, "ttl_ms") == Ttl(d.ttlMs)
  {
    GetWire(d, security, "conversation_id");
    GetWire(d, security, "reply_to");
    GetWire(d, security, "correlation_id");
    GetWire(d, security, "ttl_ms");
  }

  // ---- what is sent is well formed ---------------------------------------------------------------

  lemma PutClean(members: seq<Member>, name: string, v: Json)
    requires Clean(Object(members)) && T.IsAscii(name) && Clean(v)
    ensures Clean(Object(Put(members, name, v)))
  {
    Ids.AsciiIsIjson(name);
    PutKeeps(members, name, v);
    var all := Put(members, name, v);
    forall i | 0 <= i < |all| ensures JsonText.IsIjson(all[i].name) && Clean(all[i].value) {
      assert all[i] in all;
    }
  }

  lemma PutOptionalClean(members: seq<Member>, name: string, v: Option<Json>)
    requires Clean(Object(members)) && T.IsAscii(name) && (v.Some? ==> Clean(v.value))
    ensures Clean(Object(PutOptional(members, name, v)))
  {
    if v.Some? {
      PutClean(members, name, v.value);
    }
  }

  lemma TokenClean(s: string)
    requires Ids.IsToken(s)
    ensures Clean(String(s))
  {
    Ids.TokenIsIjson(s);
  }

  lemma VersionClean(v: Ids.Version)
    ensures Clean(String(Ids.ShowVersion(v)))
  {
    assert T.IsAscii(Ids.ShowVersion(v));
    Ids.AsciiIsIjson(Ids.ShowVersion(v));
  }

  lemma PartsClean(content: seq<Part>)
    requires forall i :: 0 <= i < |content| ==> ProperPart(content[i])
    ensures Clean(Array(Parts(content)))
  {
    forall i | 0 <= i < |content| ensures Clean(Parts(content)[i]) {
      assert ProperPart(content[i]);
    }
  }

  lemma HeaderNamesClean(d: Draft)
    requires Ids.IsToken(d.id) && Octets.IsSessionId(d.source) && Octets.IsSessionId(d.target)
    ensures Clean(Object(HeaderNames(d)))
  {
    var v := Put([], "version", String(Ids.ShowVersion(d.version)));
    var i := Put(v, "id", String(d.id));
    var f := Put(i, "from", String(d.source));
    VersionClean(d.version);
    PutClean([], "version", String(Ids.ShowVersion(d.version)));
    TokenClean(d.id);
    PutClean(v, "id", String(d.id));
    Ids.SessionIdIsToken(d.source);
    TokenClean(d.source);
    PutClean(i, "from", String(d.source));
    Ids.SessionIdIsToken(d.target);
    TokenClean(d.target);
    PutClean(f, "to", String(d.target));
  }

  lemma LinkClean(members: seq<Member>, name: string, t: Option<string>)
    requires Clean(Object(members)) && T.IsAscii(name) && TokenOrNone(t)
    ensures Clean(Object(PutOptional(members, name, Text(t))))
  {
    if t.Some? {
      TokenClean(t.value);
    }
    PutOptionalClean(members, name, Text(t));
  }

  lemma HeaderLinksClean(parse: T.Parser, d: Draft)
    requires ProperDraft(parse, d)
    ensures Clean(Object(HeaderLinks(d)))
  {
    HeaderNamesClean(d);
    var c := PutOptional(HeaderNames(d), "conversation_id", Text(d.conversationId));
    LinkClean(HeaderNames(d), "conversation_id", d.conversationId);
    LinkClean(c, "reply_to", d.replyTo);
    LinkClean(PutOptional(c, "reply_to", Text(d.replyTo)), "correlation_id", d.correlationId);
  }

  lemma TtlClean(t: Option<nat>)
    ensures Ttl(t).Some? ==> Clean(Ttl(t).value)
  {
    if t.Some? {
      Ids.DecimalIsNumber(t.value);
    }
  }

  lemma StampClean(parse: T.Parser, t: T.Stamp)
    requires T.KeepsText(parse) && parse(t.text) == Some(t)
    ensures Clean(String(t.text))
  {
    Ids.AsciiIsIjson(t.text);
  }

  lemma HeaderTimesClean(parse: T.Parser, d: Draft)
    requires T.KeepsText(parse) && ProperDraft(parse, d)
    ensures Clean(Object(HeaderTimes(d)))
  {
    HeaderLinksClean(parse, d);
    StampClean(parse, d.createdAt);
    TimesClean(HeaderLinks(d), String(d.createdAt.text), d.ttlMs);
  }

  lemma TimesClean(members: seq<Member>, created: Json, ttl: Option<nat>)
    requires Clean(Object(members)) && Clean(created)
    ensures Clean(Object(PutOptional(Put(members, "created_at", created), "ttl_ms", Ttl(ttl))))
  {
    PutClean(members, "created_at", created);
    TtlClean(ttl);
    PutOptionalClean(Put(members, "created_at", created), "ttl_ms", Ttl(ttl));
  }

  lemma HeaderClean(parse: T.Parser, d: Draft)
    requires T.KeepsText(parse) && ProperDraft(parse, d)
    ensures Clean(Object(Header(d)))
  {
    HeaderTimesClean(parse, d);
    PartsClean(d.content);
    PutClean(HeaderTimes(d), "content", Array(Parts(d.content)));
  }

  /** The signer's values are ASCII: a token, a key id and base64url texts. */
  predicate ProperSecurity(s: Security) {
    T.IsAscii(s.principal) && T.IsAscii(s.keyId) && T.IsAscii(s.nonce) && T.IsAscii(s.signature)
  }

  lemma SecurityClean(s: Security)
    requires ProperSecurity(s)
    ensures Clean(Object(Signed(s)))
  {
    Ids.AsciiIsIjson(s.principal);
    Ids.AsciiIsIjson(s.keyId);
    Ids.AsciiIsIjson(s.nonce);
    Ids.AsciiIsIjson(s.signature);
    var p := Put([], "principal", String(s.principal));
    PutClean([], "principal", String(s.principal));
    PutClean(p, "key_id", String(s.keyId));
    PutClean(Put(p, "key_id", String(s.keyId)), "nonce", String(s.nonce));
    PutClean(Unsigned(s), "signature", String(s.signature));
  }

  lemma WireClean(parse: T.Parser, d: Draft, s: Security)
    requires T.KeepsText(parse) && ProperDraft(parse, d) && ProperSecurity(s)
    ensures Clean(Object(Wire(d, Signed(s))))
  {
    HeaderClean(parse, d);
    SecurityClean(s);
    PutClean(Header(d), "security", Object(Signed(s)));
  }

  // ---- what is sent is read back -----------------------------------------------------------------

  lemma TokenRead(o: seq<Member>, name: string, t: Option<string>)
    requires Get(o, name) == Text(t) && TokenOrNone(t)
    ensures TokenMember(o, name) == Ok(t)
  {
  }

  lemma NamesRead(parse: T.Parser, d: Draft, security: seq<Member>)
    requires ProperDraft(parse, d)
    ensures ReadNames(Wire(d, security))
         == Ok(Names(d.id, d.source, d.target, d.conversationId, d.replyTo, d.correlationId))
    ensures Missing(Wire(d, security)).None?
  {
    var o := Wire(d, security);
    WireMembers(d, security);
    WireOptions(d, security);
    Ids.SessionIdIsToken(d.source);
    Ids.SessionIdIsToken(d.target);
    TokenRead(o, "id", Some(d.id));
    TokenRead(o, "from", Some(d.source));
    TokenRead(o, "to", Some(d.target));
    TokenRead(o, "conversation_id", d.conversationId);
    TokenRead(o, "reply_to", d.replyTo);
    TokenRead(o, "correlation_id", d.correlationId);
  }

  lemma {:induction false} PartsRead(content: seq<Part>)
    requires forall i :: 0 <= i < |content| ==> ProperPart(content[i])
    ensures ReadParts(Parts(content)) == Ok(content)
  {
    if content != [] {
      assert Parts(content)[1..] == Parts(content[1..]);
      PartsRead(content[1..]);
      assert ReadPart(Object(content[0].wire)) == Ok(content[0]);
      assert [content[0]] + content[1..] == content;
    }
  }

  lemma TtlRead(t: Option<nat>)
    requires t.Some? ==> 1 <= t.value <= MAX_TTL_MS
    ensures ReadTtl(Ttl(t)) == Ok(t)
  {
    if t.Some? {
      Ids.PlainIntegers(Ids.Decimal(t.value), 1, MAX_TTL_MS, t.value);
    }
  }

  lemma SecurityMembers(s: Security)
    ensures Get(Signed(s), "principal") == Some(String(s.principal))
    ensures Get(Signed(s), "key_id") == Some(String(s.keyId))
    ensures Get(Signed(s), "nonce") == Some(String(s.nonce)) && Get(Signed(s), "signature") == Some(String(s.signature))
    ensures Get(Unsigned(s), "signature").None?
  {
    GetSecurity(s, "principal");
    GetSecurity(s, "key_id");
    GetSecurity(s, "nonce");
    GetSecurity(s, "signature");
    GetOfPut(Unsigned(s), "signature", String(s.signature), "principal");
    GetOfPut(Unsigned(s), "signature", String(s.signature), "key_id");
    GetOfPut(Unsigned(s), "signature", String(s.signature), "nonce");
    GetOfPut(Unsigned(s), "signature", String(s.signature), "signature");
  }

  lemma GetSecurity(s: Security, name: string)
    ensures Get(Unsigned(s), name) == if name == "nonce" then Some(String(s.nonce))
                                      else if name == "key_id" then Some(String(s.keyId))
                                      else if name == "principal" then Some(String(s.principal)) else None
  {
    var p := Put([], "principal", String(s.principal));
    GetOfPut([], "principal", String(s.principal), name);
    GetOfPut(p, "key_id", String(s.keyId), name);
    GetOfPut(Put(p, "key_id", String(s.keyId)), "nonce", String(s.nonce), name);
  }

  lemma PutSecurity(members: seq<Member>, name: string, v: Json)
    requires IsSecurityMember(name) && DistinctNames(members)
    requires forall i :: 0 <= i < |members| ==> IsSecurityMember(members[i].name)
    ensures DistinctNames(Put(members, name, v))
    ensures forall i :: 0 <= i < |Put(members, name, v)| ==> IsSecurityMember(Put(members, name, v)[i].name)
  {
    PutKeeps(members, name, v);
    var all := Put(members, name, v);
    forall i | 0 <= i < |all| ensures IsSecurityMember(all[i].name) {
      assert all[i] in all;
    }
  }

  lemma SecurityNames(s: Security)
    ensures forall i :: 0 <= i < |Signed(s)| ==> IsSecurityMember(Signed(s)[i].name)
  {
    var p := Put([], "principal", String(s.principal));
    PutSecurity([], "principal", String(s.principal));
    PutSecurity(p, "key_id", String(s.keyId));
    PutSecurity(Put(p, "key_id", String(s.keyId)), "nonce", String(s.nonce));
    PutSecurity(Unsigned(s), "signature", String(s.signature));
  }

  lemma SecurityRead(s: Security)
    ensures ReadSecurity(Some(Object(Signed(s)))) == Ok(s)
  {
    SecurityMembers(s);
    SecurityNames(s);
  }

  lemma StructureOfParts(parse: T.Parser, text: string, o: seq<Member>, d: Draft, s: Security)
    requires NoNull(Object(o)) && Missing(o).None?
    requires ReadNames(o) == Ok(Names(d.id, d.source, d.target, d.conversationId, d.replyTo, d.correlationId))
    requires Get(o, "created_at") == Some(String(d.createdAt.text)) && parse(d.createdAt.text) == Some(d.createdAt)
    requires ReadTtl(Get(o, "ttl_ms")) == Ok(d.ttlMs) && ReadContent(Get(o, "content")) == Ok(d.content)
    requires ReadSecurity(Get(o, "security")) == Ok(s)
    ensures Structure(parse, text, o, d.version) == Ok(Envelope(text, o, d, s))
  {
  }

  lemma ContentRead(parse: T.Parser, d: Draft)
    requires ProperDraft(parse, d)
    ensures ReadContent(Some(Array(Parts(d.content)))) == Ok(d.content) && ReadTtl(Ttl(d.ttlMs)) == Ok(d.ttlMs)
  {
    PartsRead(d.content);
    TtlRead(d.ttlMs);
  }

  lemma StructureRead(parse: T.Parser, d: Draft, s: Security, text: string)
    requires T.KeepsText(parse) && ProperDraft(parse, d) && ProperSecurity(s)
    ensures Structure(parse, text, Wire(d, Signed(s)), d.version) == Ok(Envelope(text, Wire(d, Signed(s)), d, s))
  {
    WireClean(parse, d, s);
    NamesRead(parse, d, Signed(s));
    WireMembers(d, Signed(s));
    WireOptions(d, Signed(s));
    ContentRead(parse, d);
    SecurityRead(s);
    StructureOfParts(parse, text, Wire(d, Signed(s)), d, s);
  }

  /** Reading a sealed envelope comes as far as its version; where that reads back, to the draft's members. */
  lemma SealedReceived(parse: T.Parser, limits: Limits, now: int, d: Draft, s: Security)
    requires T.KeepsText(parse) && ProperDraft(parse, d) && ProperSecurity(s)
    ensures Receive(parse, limits, now, Seal(d, s).text)
         == if OctetLength(Seal(d, s).text) > limits.maxOctets then Err(TooLarge)
            else if d.version.major > 9999 || d.version.minor > 9999 then Err(Malformed("SC-ENV-020"))
            else if d.version.major !in limits.majors then Err(UnsupportedVersion)
            else Admit(limits, now, Ok(Seal(d, s)))
  {
    WireClean(parse, d, s);
    ParseOfPrint(Object(Wire(d, Signed(s))));
    WireMembers(d, Signed(s));
    Ids.VersionRoundTrip(d.version);
    StructureRead(parse, d, s, Seal(d, s).text);
  }

  predicate OtherType(limits: Limits, p: Part) {
    p.OtherPart? && p.partType != "text" && p.partType !in limits.partTypes
  }

  lemma AdmitSteps(limits: Limits, now: int, e: Envelope)
    ensures Admit(limits, now, Ok(e))
         == if exists i :: 0 <= i < |e.header.content| && OtherType(limits, e.header.content[i])
            then Err(UnsupportedContentType)
            else if e.header.ttlMs.Some? && now >= e.header.createdAt.unixNanos + e.header.ttlMs.value * 1_000_000
            then Err(Expired)
            else Ok(e)
  {
    forall i | 0 <= i < |e.header.content|
      ensures Supported(limits, e.header.content[i]) <==> !OtherType(limits, e.header.content[i])
    {
    }
  }

  /** What becomes of every sealed envelope at every receiver, step by step: it is too large; or a part of its
      version is over 9999, and so the version it shows is malformed; or its major version, or the type of one
      of its parts, is one the receiver does not have; or its time is over; or it is received as it was
      sealed. */
  lemma ReceiveOfSeal(parse: T.Parser, limits: Limits, now: int, d: Draft, s: Security)
    requires T.KeepsText(parse) && ProperDraft(parse, d) && ProperSecurity(s)
    ensures Receive(parse, limits, now, Seal(d, s).text)
         == if OctetLength(Seal(d, s).text) > limits.maxOctets then Err(TooLarge)
            else if d.version.major > 9999 || d.version.minor > 9999 then Err(Malformed("SC-ENV-020"))
            else if d.version.major !in limits.majors then Err(UnsupportedVersion)
            else if exists i :: 0 <= i < |d.content| && OtherType(limits, d.content[i]) then Err(UnsupportedContentType)
            else if d.ttlMs.Some? && now >= d.createdAt.unixNanos + d.ttlMs.value * 1_000_000 then Err(Expired)
            else Ok(Seal(d, s))
  {
    SealedReceived(parse, limits, now, d, s);
    AdmitSteps(limits, now, Seal(d, s));
  }

  /** The signing input of a sealed envelope is the one its draft was signed for. */
  lemma SealedSigningInput(number: C.Numbers, d: Draft, s: Security)
    ensures C.SigningInput(number, C.SigningDomain.Envelope, Seal(d, s).wire)
         == C.SigningInput(number, C.SigningDomain.Envelope, Wire(d, Unsigned(s)))
  {
    GetHeader(d, "security");
    SecurityMembers(s);
    PutNew(Header(d), "security", Object(Signed(s)));
    PutNew(Header(d), "security", Object(Unsigned(s)));
    C.SignatureLeftOut(number, C.SigningDomain.Envelope, Header(d), Unsigned(s), String(s.signature));
  }

  lemma ReceivedWire(parse: T.Parser, limits: Limits, now: int, text: string)
    requires Receive(parse, limits, now, text).Ok?
    ensures var e := Receive(parse, limits, now, text).value;
            e.text == text && Parse(text) == Ok(Object(e.wire)) && WellFormed(Object(e.wire))
  {
    ParsedIsWellFormed(text);
    var o := Parse(text).value.members;
    StructureKeeps(parse, text, o, Ids.ParseVersion(AsString(Get(o, "version")).value).value);
  }

  lemma StructureKeeps(parse: T.Parser, text: string, o: seq<Member>, version: Ids.Version)
    ensures var e := Structure(parse, text, o, version); e.Ok? ==> e.value.text == text && e.value.wire == o
  {
  }

  /** Two envelopes, each received under its own limits and clock, have the same signing input exactly when
      all their members but the signature are the same value: a signature verified for one says nothing of
      any other content. */
  lemma SigningInputFixesContent(parse: T.Parser, number: C.Numbers, limits: Limits, now: int, x: string,
                                 limits': Limits, now': int, y: string)
    requires C.SpellsNumbers(number) && Receive(parse, limits, now, x).Ok? && Receive(parse, limits', now', y).Ok?
    requires C.SigningInput(number, C.SigningDomain.Envelope, Receive(parse, limits, now, x).value.wire).Ok?
    requires C.SigningInput(number, C.SigningDomain.Envelope, Receive(parse, limits', now', y).value.wire).Ok?
    ensures var (a, b) := (Receive(parse, limits, now, x).value.wire, Receive(parse, limits', now', y).value.wire);
            C.SigningInput(number, C.SigningDomain.Envelope, a) == C.SigningInput(number, C.SigningDomain.Envelope, b)
            <==> C.Alike(number, Object(C.SignedPart(a).value), Object(C.SignedPart(b).value))
  {
    ReceivedWire(parse, limits, now, x);
    ReceivedWire(parse, limits', now', y);
    C.SigningInputDecides(number, C.SigningDomain.Envelope, Receive(parse, limits, now, x).value.wire,
                          C.SigningDomain.Envelope, Receive(parse, limits', now', y).value.wire);
  }

  // ---- the loop over content parts ---------------------------------------------------------------

  /** The parts in order; the first that is malformed ends the loop. */
  method CollectParts(items: seq<Json>) returns (r: Result<seq<Part>, Rejection>)
    ensures r == ReadParts(items)
  {
    var content: seq<Part> := [];
    assert items[0..] == items;
    AfterNone(ReadParts(items));
    for i := 0 to |items|
      invariant ReadParts(items) == After(content, ReadParts(items[i..]))
    {
      assert items[i..][1..] == items[i + 1..];
      var part := ReadPart(items[i]);
      if part.Err? {
        return Err(part.error);
      }
      AfterOne(content, part.value, ReadParts(items[i + 1..]));
      content := content + [part.value];
    }
    assert content + [] == content;
    r := Ok(content);
  }

  function After(content: seq<Part>, rest: Result<seq<Part>, Rejection>): Result<seq<Part>, Rejection> {
    if rest.Err? then rest else Ok(content + rest.value)
  }

  lemma AfterNone(rest: Result<seq<Part>, Rejection>)
    ensures After([], rest) == rest
  {
    if rest.Ok? {
      assert [] + rest.value == rest.value;
    }
  }

  lemma AfterOne(content: seq<Part>, part: Part, rest: Result<seq<Part>, Rejection>)
    ensures After(content, if rest.Err? then rest else Ok([part] + rest.value)) == After(content + [part], rest)
  {
    if rest.Ok? {
      assert content + ([part] + rest.value) == content + [part] + rest.value;
    }
  }
}
