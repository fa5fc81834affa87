/** What a receiver accepts: exactly the texts within its limits and in time whose members say what the
    envelope it makes of them says, and no `null` anywhere. */
module EnvelopeReceipt {
  import opened Common
  import opened Json
  import opened Envelopes
  import T = Timestamp
  import Ids
  import Octets
  import W = JsonWriter

  // ---- no null -------------------------------------------------------------------------------------

  lemma {:induction false} ItemsNull(items: seq<Json>)
    ensures W.Scalar(Null) in W.EventsOfItems(items) <==> exists i :: 0 <= i < |items| && !NoNull(items[i])
    decreases items, 0
  {
    if items != [] {
      NullIsAnEvent(items[0]);
      ItemsNull(items[1..]);
      assert forall i :: 1 <= i < |items| ==> items[i] == items[1..][i - 1];
    }
  }

  lemma {:induction false} MembersNull(members: seq<Member>)
    ensures W.Scalar(Null) in W.EventsOfMembers(members)
       <==> exists i :: 0 <= i < |members| && !NoNull(members[i].value)
    decreases members, 0
  {
    if members != [] {
      MemberNull(members[0]);
      MembersNull(members[1..]);
      assert forall i :: 1 <= i < |members| ==> members[i] == members[1..][i - 1];
    }
  }

  lemma {:induction false} MemberNull(m: Member)
    ensures W.Scalar(Null) in W.EventsOf(m.value) <==> !NoNull(m.value)
    decreases m
  {
    NullIsAnEvent(m.value);
  }

  /** A tree holds no `null` exactly when walking it meets none. */
  lemma {:induction false} NullIsAnEvent(v: Json)
    ensures W.Scalar(Null) in W.EventsOf(v) <==> !NoNull(v)
    decreases v
  {
    if v.Array? {
      ItemsNull(v.items);
    } else if v.Object? {
      MembersNull(v.members);
    }
  }

  /** The walk stops at the first `null`. */
  method ContainsNull(v: Json) returns (found: bool)
    ensures found <==> !NoNull(v)
  {
    NullIsAnEvent(v);
    var events := new W.Events(v);
    while true
      invariant W.Scalar(Null) in events.Left() <==> !NoNull(v)
      decreases |events.Left()|
    {
      var e := events.Next();
      if e.None? {
        return false;
      }
      if e.value == W.Scalar(Null) {
        return true;
      }
    }
  }

  // ---- what each member says -----------------------------------------------------------------------

  /** A content part is an object with a type; a text part has a text that is not empty. */
  predicate PartSays(v: Json, p: Part) {
    && v == Object(p.wire)
    && match p
       case TextPart(text, wire) =>
         Get(wire, "type") == Some(String("text")) && Get(wire, "text") == Some(String(text)) && text != ""
       case OtherPart(partType, wire) => Get(wire, "type") == Some(String(partType)) && partType != "text"
  }

  predicate PartsSay(items: seq<Json>, content: seq<Part>) {
    |items| == |content| && forall i :: 0 <= i < |items| ==> PartSays(items[i], content[i])
  }

  lemma PartSaid(v: Json, p: Part)
    ensures ReadPart(v) == Ok(p) <==> PartSays(v, p)
  {
  }

  lemma {:induction false} PartsSaid(items: seq<Json>, content: seq<Part>)
    ensures ReadParts(items) == Ok(content) <==> PartsSay(items, content)
  {
    if items != [] && content != [] {
      PartSaid(items[0], content[0]);
      PartsSaid(items[1..], content[1..]);
      assert content == [content[0]] + content[1..];
      assert PartsSay(items, content) <==> PartSays(items[0], content[0]) && PartsSay(items[1..], content[1..]) by {
        assert forall i :: 1 <= i < |items| ==> items[i] == items[1..][i - 1];
        assert forall i :: 1 <= i < |content| ==> content[i] == content[1..][i - 1];
      }
      ReadPartsOfFront(items, content);
    }
  }

  lemma ReadPartsOfFront(items: seq<Json>, content: seq<Part>)
    requires items != [] && content != []
    ensures ReadParts(items) == Ok(content)
       <==> ReadPart(items[0]) == Ok(content[0]) && ReadParts(items[1..]) == Ok(content[1..])
  {
    assert content == [content[0]] + content[1..];
    if ReadParts(items).Ok? {
      assert ReadParts(items).value[1..] == ReadParts(items[1..]).value;
    }
  }

  /** `security` is an object of four strings and nothing else. */
  ghost predicate SecuritySays(v: Option<Json>, s: Security) {
    && v.Some? && v.value.Object? && FourSay(v.value.members, s) && NothingElse(v.value.members)
  }

  predicate FourSay(sec: seq<Member>, s: Security) {
    && Get(sec, "principal") == Some(String(s.principal)) && Get(sec, "key_id") == Some(String(s.keyId))
    && Get(sec, "nonce") == Some(String(s.nonce)) && Get(sec, "signature") == Some(String(s.signature))
  }

  ghost predicate NothingElse(sec: seq<Member>) {
    forall name :: name != "principal" && name != "key_id" && name != "nonce" && name != "signature" ==>
      Get(sec, name).None?
  }

  lemma OnlyThese(sec: seq<Member>)
    ensures (exists i :: 0 <= i < |sec| && !IsSecurityMember(sec[i].name)) <==> !NothingElse(sec)
  {
    forall name ensures Get(sec, name).None? <==> forall i :: 0 <= i < |sec| ==> sec[i].name != name {
      GetFinds(sec, name);
    }
    forall i | 0 <= i < |sec| ensures Get(sec, sec[i].name).Some? {
      GetFinds(sec, sec[i].name);
    }
  }

  lemma SecuritySaid(v: Option<Json>, s: Security)
    ensures ReadSecurity(v) == Ok(s) <==> SecuritySays(v, s)
  {
    if v.Some? && v.value.Object? {
      OnlyThese(v.value.members);
    }
  }

  /** The identifiers: a token and two session ids, and up to three tokens more. */
  predicate NamesSay(o: seq<Member>, n: Names) {
    && Get(o, "id") == Some(String(n.id)) && Ids.IsToken(n.id)
    && Get(o, "from") == Some(String(n.source)) && Octets.IsSessionId(n.source)
    && Get(o, "to") == Some(String(n.target)) && Octets.IsSessionId(n.target)
    && LinkSays(Get(o, "conversation_id"), n.conversationId) && LinkSays(Get(o, "reply_to"), n.replyTo)
    && LinkSays(Get(o, "correlation_id"), n.correlationId)
  }

  predicate LinkSays(v: Option<Json>, t: Option<string>) {
    if t.None? then v.None? else v == Some(String(t.value)) && Ids.IsToken(t.value)
  }

  lemma LinkSaid(o: seq<Member>, name: string, t: Option<string>)
    ensures TokenMember(o, name) == Ok(t) <==> LinkSays(Get(o, name), t)
  {
  }

  lemma NamesSaid(o: seq<Member>, n: Names)
    ensures ReadNames(o) == Ok(n) <==> NamesSay(o, n)
  {
    LinkSaid(o, "id", Some(n.id));
    LinkSaid(o, "from", Some(n.source));
    LinkSaid(o, "to", Some(n.target));
    LinkSaid(o, "conversation_id", n.conversationId);
    LinkSaid(o, "reply_to", n.replyTo);
    LinkSaid(o, "correlation_id", n.correlationId);
    if Octets.IsSessionId(n.source) {
      Ids.SessionIdIsToken(n.source);
    }
    if Octets.IsSessionId(n.target) {
      Ids.SessionIdIsToken(n.target);
    }
  }

  predicate TtlSays(v: Option<Json>, t: Option<nat>) {
    if t.None? then v.None? else v == Some(Number(Ids.Decimal(t.value))) && 1 <= t.value <= 86_400_000
  }

  lemma TtlSaid(v: Option<Json>, t: Option<nat>)
    ensures ReadTtl(v) == Ok(t) <==> TtlSays(v, t)
  {
    if v.Some? && v.value.Number? && t.Some? {
      Ids.PlainIntegers(v.value.raw, 1, MAX_TTL_MS, t.value);
    }
  }

  predicate CreatedSays(parse: T.Parser, v: Option<Json>, t: T.Stamp) {
    v == Some(String(t.text)) && parse(t.text) == Some(t)
  }

  predicate ContentSays(v: Option<Json>, content: seq<Part>) {
    v.Some? && v.value.Array? && content != [] && PartsSay(v.value.items, content)
  }

  lemma ContentSaid(v: Option<Json>, content: seq<Part>)
    ensures ReadContent(v) == Ok(content) <==> ContentSays(v, content)
  {
    if v.Some? && v.value.Array? {
      PartsSaid(v.value.items, content);
    }
  }

  // ---- the whole object ----------------------------------------------------------------------------

  function NamesOf(d: Draft): Names {
    Names(d.id, d.source, d.target, d.conversationId, d.replyTo, d.correlationId)
  }

  /** The members say what the envelope says, and there is no `null`. */
  ghost predicate Says(parse: T.Parser, text: string, o: seq<Member>, version: Ids.Version, e: Envelope) {
    && e.text == text && e.wire == o && e.header.version == version
    && W.Scalar(Null) !in W.EventsOf(Object(o))
    && NamesSay(o, NamesOf(e.header)) && CreatedSays(parse, Get(o, "created_at"), e.header.createdAt)
    && TtlSays(Get(o, "ttl_ms"), e.header.ttlMs) && ContentSays(Get(o, "content"), e.header.content)
    && SecuritySays(Get(o, "security"), e.security)
  }

  ghost predicate Reads(parse: T.Parser, text: string, o: seq<Member>, version: Ids.Version, e: Envelope) {
    && e.text == text && e.wire == o && e.header.version == version && NoNull(Object(o))
    && ReadNames(o) == Ok(NamesOf(e.header)) && CreatedSays(parse, Get(o, "created_at"), e.header.createdAt)
    && ReadTtl(Get(o, "ttl_ms")) == Ok(e.header.ttlMs) && ReadContent(Get(o, "content")) == Ok(e.header.content)
    && ReadSecurity(Get(o, "security")) == Ok(e.security)
  }

  lemma NothingMissing(o: seq<Member>, names: Names, created: string)
    requires ReadNames(o) == Ok(names) && Get(o, "created_at") == Some(String(created))
    requires ReadContent(Get(o, "content")).Ok? && ReadSecurity(Get(o, "security")).Ok?
    ensures Missing(o).None?
  {
    NamesSaid(o, names);
  }

  lemma StructureReads(parse: T.Parser, text: string, o: seq<Member>, version: Ids.Version, e: Envelope)
    requires T.KeepsText(parse)
    ensures Structure(parse, text, o, version) == Ok(e) <==> Reads(parse, text, o, version, e)
  {
    if Reads(parse, text, o, version, e) {
      NothingMissing(o, NamesOf(e.header), e.header.createdAt.text);
    }
  }

  /** The members make an envelope exactly when they say what it says. */
  lemma StructureExactly(parse: T.Parser, text: string, o: seq<Member>, version: Ids.Version, e: Envelope)
    requires T.KeepsText(parse)
    ensures Structure(parse, text, o, version) == Ok(e) <==> Says(parse, text, o, version, e)
  {
    StructureReads(parse, text, o, version, e);
    NullIsAnEvent(Object(o));
    NamesSaid(o, NamesOf(e.header));
    TtlSaid(Get(o, "ttl_ms"), e.header.ttlMs);
    ContentSaid(Get(o, "content"), e.header.content);
    SecuritySaid(Get(o, "security"), e.security);
  }

  // ---- the receiver --------------------------------------------------------------------------------

  /** The receiver has the type of every part. */
  predicate HasTypes(limits: Limits, content: seq<Part>) {
    forall i :: 0 <= i < |content| ==> content[i].TextPart? || content[i].partType in limits.partTypes
  }

  predicate InTime(d: Draft, now: int) {
    d.ttlMs.Some? ==> now < d.createdAt.unixNanos + d.ttlMs.value * 1_000_000
  }

  lemma SupportedExactly(limits: Limits, p: Part)
    requires p.OtherPart? ==> p.partType != "text"
    ensures Supported(limits, p) <==> p.TextPart? || p.partType in limits.partTypes
  {
  }

  predicate PartsTyped(content: seq<Part>) {
    forall i :: 0 <= i < |content| && content[i].OtherPart? ==> content[i].partType != "text"
  }

  lemma AdmitExactly(limits: Limits, now: int, r: Result<Envelope, Rejection>, e: Envelope)
    requires r.Ok? ==> PartsTyped(r.value.header.content)
    ensures Admit(limits, now, r) == Ok(e)
       <==> r == Ok(e) && HasTypes(limits, e.header.content) && InTime(e.header, now)
  {
    if r.Ok? {
      forall i | 0 <= i < |r.value.header.content|
        ensures Supported(limits, r.value.header.content[i])
           <==> r.value.header.content[i].TextPart? || r.value.header.content[i].partType in limits.partTypes
      {
        SupportedExactly(limits, r.value.header.content[i]);
      }
    }
  }

  lemma StructureTyped(parse: T.Parser, text: string, o: seq<Member>, version: Ids.Version)
    requires T.KeepsText(parse)
    ensures var r := Structure(parse, text, o, version); r.Ok? ==> PartsTyped(r.value.header.content)
  {
    var r := Structure(parse, text, o, version);
    if r.Ok? {
      StructureExactly(parse, text, o, version, r.value);
    }
  }

  /** What `version` shows, and the receiver's reading of it. */
  lemma VersionShown(v: Option<Json>, version: Ids.Version)
    ensures (AsString(v).Some? && Ids.ParseVersion(AsString(v).value) == Some(version))
       <==> v == Some(String(Ids.ShowVersion(version))) && version.major <= 9999 && version.minor <= 9999
  {
    if AsString(v).Some? && Ids.ParseVersion(AsString(v).value) == Some(version) {
      Ids.VersionText(AsString(v).value);
    }
    Ids.VersionRoundTrip(version);
  }

  /** The receiver accepts a text as an envelope exactly when the text is within its size, is an object whose
      members say what the envelope says, with a version it can show and a major version and part types the
      receiver has, and its time is not over. */
  lemma ReceiveExactly(parse: T.Parser, limits: Limits, now: int, text: string, e: Envelope)
    requires T.KeepsText(parse)
    ensures Receive(parse, limits, now, text) == Ok(e) <==> Receivable(parse, limits, now, text, e)
  {
    if Parse(text).Ok? && Parse(text).value.Object? {
      ReadExactly(parse, limits, now, text, Parse(text).value.members, e);
    }
  }

  ghost predicate Receivable(parse: T.Parser, limits: Limits, now: int, text: string, e: Envelope) {
    && OctetLength(text) <= limits.maxOctets && Parse(text) == Ok(Object(e.wire))
    && Get(e.wire, "version") == Some(String(Ids.ShowVersion(e.header.version)))
    && e.header.version.major <= 9999 && e.header.version.minor <= 9999 && e.header.version.major in limits.majors
    && Says(parse, text, e.wire, e.header.version, e)
    && HasTypes(limits, e.header.content) && InTime(e.header, now)
  }

  lemma ReadExactly(parse: T.Parser, limits: Limits, now: int, text: string, o: seq<Member>, e: Envelope)
    requires T.KeepsText(parse) && Parse(text) == Ok(Object(o))
    ensures Receive(parse, limits, now, text) == Ok(e) <==> Receivable(parse, limits, now, text, e)
  {
    var shown := AsString(Get(o, "version"));
    var version := if shown.None? then None else Ids.ParseVersion(shown.value);
    VersionShown(Get(o, "version"), e.header.version);
    if version.Some? {
      VersionShown(Get(o, "version"), version.value);
      StructureTyped(parse, text, o, version.value);
      StructureExactly(parse, text, o, version.value, e);
      AdmitExactly(limits, now, Structure(parse, text, o, version.value), e);
    }
  }

  // ---- refusals ------------------------------------------------------------------------------------

  predicate NoToken(v: Option<Json>) {
    v.Some? && (!v.value.String? || !Ids.IsToken(v.value.s))
  }

  predicate NoSession(v: Option<Json>) {
    v.Some? && (!v.value.String? || !Octets.IsSessionId(v.value.s))
  }

  predicate NoType(v: Json) {
    !v.Object? || Get(v.members, "type").None? || !Get(v.members, "type").value.String?
  }

  predicate NoText(v: Json) {
    && v.Object? && Get(v.members, "type") == Some(String("text"))
    && (Get(v.members, "text").None? || !Get(v.members, "text").value.String? || Get(v.members, "text").value.s == "")
  }

  predicate NoString(sec: seq<Member>, name: string) {
    Get(sec, name).Some? && !Get(sec, name).value.String?
  }

  /** How members break the requirement of that name. */
  ghost predicate Breaks(parse: T.Parser, o: seq<Member>, requirement: string) {
    || (requirement == "SC-ENV-003" && W.Scalar(Null) in W.EventsOf(Object(o)))
    || (requirement == "SC-ENV-022" && Get(o, "id").None?)
    || (requirement == "SC-ENV-025" && Get(o, "from").None?)
    || (requirement == "SC-ENV-026" && Get(o, "to").None?)
    || (requirement == "SC-ENV-040" && Get(o, "created_at").None?)
    || NamesBreak(o, requirement)
    || (requirement == "SC-ENV-041" && forall t :: !CreatedSays(parse, Get(o, "created_at"), t))
    || (requirement == "SC-ENV-050" && forall t :: !TtlSays(Get(o, "ttl_ms"), t))
    || ContentBreaks(Get(o, "content"), requirement)
    || SecurityBreaks(Get(o, "security"), requirement)
  }

  predicate NamesBreak(o: seq<Member>, requirement: string) {
    || (requirement == "SC-ENV-010" &&
        (NoToken(Get(o, "id")) || NoToken(Get(o, "from")) || NoToken(Get(o, "to")) || NoToken(Get(o, "conversation_id"))
         || NoToken(Get(o, "reply_to")) || NoToken(Get(o, "correlation_id"))))
    || (requirement == "SC-ID-001" && (NoSession(Get(o, "from")) || NoSession(Get(o, "to"))))
  }

  predicate ContentBreaks(v: Option<Json>, requirement: string) {
    || (requirement == "SC-ENV-060" && (v.None? || !v.value.Array? || v.value.items == []))
    || (v.Some? && v.value.Array? && PartsBreak(v.value.items, requirement))
  }

  predicate PartsBreak(items: seq<Json>, requirement: string) {
    || (requirement == "SC-ENV-061" && exists i :: 0 <= i < |items| && NoType(items[i]))
    || (requirement == "SC-ENV-062" && exists i :: 0 <= i < |items| && NoText(items[i]))
  }

  ghost predicate SecurityBreaks(v: Option<Json>, requirement: string) {
    || (requirement == "SC-ENV-070" && (v.None? || !v.value.Object?))
    || (v.Some? && v.value.Object? && MembersBreak(v.value.members, requirement))
  }

  ghost predicate MembersBreak(sec: seq<Member>, requirement: string) {
    || (requirement == "SC-ENV-071" &&
        (Get(sec, "principal").None? || Get(sec, "key_id").None? || Get(sec, "nonce").None?
         || Get(sec, "signature").None?))
    || (requirement == "SC-ENV-072" &&
        (NoString(sec, "principal") || NoString(sec, "key_id") || NoString(sec, "nonce") || NoString(sec, "signature")))
    || (requirement == "SC-ENV-073" && !NothingElse(sec))
  }

  /** A refusal that names a requirement that `breaks` says is broken. */
  ghost predicate Refuses<X(!new)>(r: Result<X, Rejection>, breaks: string -> bool) {
    r.Err? ==> r.error.Malformed? && breaks(r.error.requirement)
  }

  lemma NamesRefused(o: seq<Member>)
    requires Missing(o).None?
    ensures Refuses(ReadNames(o), r => NamesBreak(o, r))
  {
  }

  lemma {:induction false} PartsRefused(items: seq<Json>)
    ensures Refuses(ReadParts(items), r => PartsBreak(items, r))
  {
    if items != [] && ReadPart(items[0]).Ok? {
      PartsRefused(items[1..]);
      assert forall i :: 0 <= i < |items| - 1 ==> items[1..][i] == items[i + 1];
    }
  }

  lemma ContentRefused(v: Option<Json>)
    ensures Refuses(ReadContent(v), r => ContentBreaks(v, r))
  {
    if v.Some? && v.value.Array? {
      PartsRefused(v.value.items);
    }
  }

  lemma SecurityRefused(v: Option<Json>)
    ensures Refuses(ReadSecurity(v), r => SecurityBreaks(v, r))
  {
    if v.Some? && v.value.Object? {
      OnlyThese(v.value.members);
    }
  }

  lemma TtlRefused(v: Option<Json>)
    ensures Refuses(ReadTtl(v), r => r == "SC-ENV-050" && forall t :: !TtlSays(v, t))
  {
    if ReadTtl(v).Err? {
      forall t ensures !TtlSays(v, t) {
        TtlSaid(v, t);
      }
    }
  }

  lemma MissingBreaks(parse: T.Parser, o: seq<Member>)
    ensures Missing(o).Some? ==> Breaks(parse, o, Missing(o).value)
  {
  }

  lemma CreatedRefused(parse: T.Parser, v: Option<Json>)
    requires T.KeepsText(parse) && (AsString(v).None? || parse(AsString(v).value).None?)
    ensures forall t :: !CreatedSays(parse, v, t)
  {
  }

  /** Members are refused only for a requirement that they break. */
  lemma StructureRefuses(parse: T.Parser, text: string, o: seq<Member>, version: Ids.Version)
    requires T.KeepsText(parse)
    ensures Refuses(Structure(parse, text, o, version), r => Breaks(parse, o, r))
  {
    NullIsAnEvent(Object(o));
    MissingBreaks(parse, o);
    if Missing(o).None? {
      NamesRefused(o);
    }
    var created := AsString(Get(o, "created_at"));
    if created.None? || parse(created.value).None? {
      CreatedRefused(parse, Get(o, "created_at"));
    }
    TtlRefused(Get(o, "ttl_ms"));
    ContentRefused(Get(o, "content"));
    SecurityRefused(Get(o, "security"));
  }

  predicate ShowsVersion(o: seq<Member>, v: Ids.Version) {
    Get(o, "version") == Some(String(Ids.ShowVersion(v))) && v.major <= 9999 && v.minor <= 9999
  }

  /** Why an object is refused: its version, a requirement on its members, or what the receiver does not have
      or no longer takes. */
  ghost predicate ObjectRefused(parse: T.Parser, limits: Limits, now: int, text: string, o: seq<Member>,
                                why: Rejection) {
    match why
    case TooLarge => false
    case Malformed(r) => (r == "SC-ENV-020" && forall v :: !ShowsVersion(o, v)) || Breaks(parse, o, r)
    case UnsupportedVersion => exists v :: ShowsVersion(o, v) && v.major !in limits.majors
    case UnsupportedContentType => exists v, e :: Says(parse, text, o, v, e) && !HasTypes(limits, e.header.content)
    case Expired => exists v, e :: Says(parse, text, o, v, e) && !InTime(e.header, now)
  }

  lemma AdmitRefuses(limits: Limits, now: int, e: Envelope)
    requires PartsTyped(e.header.content)
    ensures match Admit(limits, now, Ok(e)) {
              case Ok(x) => true
              case Err(why) => (why == UnsupportedContentType && !HasTypes(limits, e.header.content))
                               || (why == Expired && !InTime(e.header, now))
            }
  {
  }

  lemma ObjectRefuses(parse: T.Parser, limits: Limits, now: int, text: string, o: seq<Member>)
    requires T.KeepsText(parse) && Parse(text) == Ok(Object(o)) && OctetLength(text) <= limits.maxOctets
    ensures var r := Receive(parse, limits, now, text);
            r.Err? ==> ObjectRefused(parse, limits, now, text, o, r.error)
  {
    var shown := AsString(Get(o, "version"));
    var version := if shown.None? then None else Ids.ParseVersion(shown.value);
    if version.None? {
      forall v ensures !ShowsVersion(o, v) {
        VersionShown(Get(o, "version"), v);
      }
    } else {
      VersionShown(Get(o, "version"), version.value);
      assert ShowsVersion(o, version.value);
      var r := Structure(parse, text, o, version.value);
      StructureRefuses(parse, text, o, version.value);
      if r.Ok? {
        StructureTyped(parse, text, o, version.value);
        StructureExactly(parse, text, o, version.value, r.value);
        AdmitRefuses(limits, now, r.value);
      }
    }
  }

  /** Every refusal is for something that holds of the text, of the receiver's limits or of its clock. */
  lemma ReceiveRefuses(parse: T.Parser, limits: Limits, now: int, text: string)
    requires T.KeepsText(parse) && Receive(parse, limits, now, text).Err?
    ensures var why := Receive(parse, limits, now, text).error;
            if OctetLength(text) > limits.maxOctets then why == TooLarge
            else match Parse(text) {
                   case Err(_) => why == Malformed("SC-ENV-002")
                   case Ok(Object(o)) => ObjectRefused(parse, limits, now, text, o, why)
                   case Ok(_) => why == Malformed("SC-ENV-001")
                 }
  {
    if OctetLength(text) <= limits.maxOctets && Parse(text).Ok? && Parse(text).value.Object? {
      ObjectRefuses(parse, limits, now, text, Parse(text).value.members);
    }
  }
}
