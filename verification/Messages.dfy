/** Application messages: validation of a received document, serialisation to a tree, and the server's replies. */
module Messages {
  import opened Prelude
  import opened Json
  import opened Profiles
  import Utf8

  const PROTOCOL_VERSION: int := 1
  const MAX_MESSAGE_ID: nat := 128

  datatype MessageType = Ping | Echo | Telemetry | Capabilities | Close | Acknowledgement | Pong | Error

  datatype Message = Message(
    version: int,
    id: string,
    mtype: MessageType,
    timestamp: string,
    status: Option<string>,
    payload: Value)

  const EMPTY_OBJECT := JObject([])

  function TypeName(t: MessageType): string {
    match t
    case Ping => "ping"
    case Echo => "echo"
    case Telemetry => "telemetry"
    case Capabilities => "capabilities"
    case Close => "close"
    case Acknowledgement => "acknowledgement"
    case Pong => "pong"
    case Error => "error"
  }

  function TypeFromName(name: string): Option<MessageType> {
    if name == "ping" then Some(Ping)
    else if name == "echo" then Some(Echo)
    else if name == "telemetry" then Some(Telemetry)
    else if name == "capabilities" then Some(Capabilities)
    else if name == "close" then Some(Close)
    else if name == "acknowledgement" then Some(Acknowledgement)
    else if name == "pong" then Some(Pong)
    else if name == "error" then Some(Error)
    else None
  }

  lemma TypeNamesRoundTrip(t: MessageType)
    ensures TypeFromName(TypeName(t)) == Some(t)
  {
  }

  /** A name is taken for a type exactly when it is that type's name; every other name is unknown. */
  lemma TypeNamesAreExact(name: string, t: MessageType)
    ensures TypeFromName(name) == Some(t) <==> TypeName(t) == name
    ensures TypeFromName(name).None? <==> !IsTypeName(name)
  {
    TypeNamesRoundTrip(t);
    if IsTypeName(name) {
      var u :| TypeName(u) == name;
      TypeNamesRoundTrip(u);
    }
    if TypeFromName(name).Some? {
      assert TypeName(TypeFromName(name).value) == name;
    }
  }

  ghost predicate IsTypeName(name: string) {
    exists t: MessageType :: TypeName(t) == name
  }

  // ---------------------------------------------------------------- parse

  /** The conversion of a 64-bit JSON integer to a 32-bit `int`, which keeps the low 32 bits. */
  function NarrowToInt(n: int): int {
    (n + 0x8000_0000) % 0x1_0000_0000 - 0x8000_0000
  }

  predicate HasDeviceId(payload: Value) {
    payload.JObject? && Lookup(payload.members, "device_id").Some?
    && Lookup(payload.members, "device_id").value.JString?
  }

  /** An optional string field: absent, present and well-typed, or a violation. */
  function OptionalString(members: seq<Member>, key: string): Result<Option<string>> {
    match Lookup(members, key)
    case None => Ok(None)
    case Some(JString(s)) => Ok(Some(s))
    case Some(_) => Err(Protocol)
  }

  /** `Message::parse` after the depth check; `freshId` and `now` stand for the generated id and the clock. */
  function ParseFields(members: seq<Member>, freshId: string, now: string): Result<Message> {
    var version := Lookup(members, "protocol_version");
    if version.None? || !version.value.JInt? then Err(Protocol)
    else if NarrowToInt(version.value.n) != PROTOCOL_VERSION then Err(Protocol)
    else
      var typeName := Lookup(members, "type");
      if typeName.None? || !typeName.value.JString? then Err(Protocol)
      else if TypeFromName(typeName.value.s).None? then Err(Protocol)
      else
        var mtype := TypeFromName(typeName.value.s).value;
        var id := OptionalString(members, "message_id");
        if id.Err? || (id.value.Some? && |id.value.value| > MAX_MESSAGE_ID) then Err(Protocol)
        else
          var timestamp := OptionalString(members, "timestamp");
          var status := OptionalString(members, "status");
          var payload := Lookup(members, "payload");
          if timestamp.Err? || status.Err? then Err(Protocol)
          else if payload.Some? && !payload.value.JObject? then Err(Protocol)
          else
            var body := if payload.Some? then payload.value else EMPTY_OBJECT;
            if mtype == Telemetry && !HasDeviceId(body) then Err(Protocol)
            else Ok(Message(
                      NarrowToInt(version.value.n),
                      if id.value.Some? then id.value.value else freshId,
                      mtype,
                      if timestamp.value.Some? then timestamp.value.value else now,
                      status.value,
                      body))
  }

  predicate AbsentOrString(members: seq<Member>, key: string) {
    Lookup(members, key).None? || Lookup(members, key).value.JString?
  }

  /** The string under `key`, or the default if there is none. */
  function StringOr(members: seq<Member>, key: string, default: string): string {
    match Lookup(members, key)
    case Some(JString(s)) => s
    case _ => default
  }

  /** The documents that are acceptable, field by field. */
  ghost predicate AcceptableFields(members: seq<Member>) {
    var version, kind, payload :=
      Lookup(members, "protocol_version"), Lookup(members, "type"), Lookup(members, "payload");
    && version.Some? && version.value.JInt? && version.value.n % 0x1_0000_0000 == 1
    && kind.Some? && kind.value.JString? && IsTypeName(kind.value.s)
    && AbsentOrString(members, "message_id") && |StringOr(members, "message_id", "")| <= 128
    && AbsentOrString(members, "timestamp")
    && AbsentOrString(members, "status")
    && (payload.Some? ==> payload.value.JObject?)
    && (kind.value.s == "telemetry" ==>
          && payload.Some?
          && Lookup(payload.value.members, "device_id").Some?
          && Lookup(payload.value.members, "device_id").value.JString?)
  }

  /** What the message obtained says, field by field, with the three defaults. */
  predicate Carries(members: seq<Member>, freshId: string, now: string, m: Message) {
    && m.version == 1
    && Lookup(members, "type") == Some(JString(TypeName(m.mtype)))
    && m.id == StringOr(members, "message_id", freshId)
    && m.timestamp == StringOr(members, "timestamp", now)
    && m.status == (match Lookup(members, "status") case Some(JString(s)) => Some(s) case _ => None)
    && m.payload == (match Lookup(members, "payload") case Some(v) => v case None => EMPTY_OBJECT)
  }

  /** `Message::parse` accepts exactly the acceptable documents, and the message is what the document says. */
  lemma ParseAcceptsExactly(members: seq<Member>, freshId: string, now: string)
    ensures ParseFields(members, freshId, now).Ok? <==> AcceptableFields(members)
    ensures ParseFields(members, freshId, now).Err? ==> ParseFields(members, freshId, now).category == Protocol
    ensures ParseFields(members, freshId, now).Ok?
            ==> Carries(members, freshId, now, ParseFields(members, freshId, now).value)
  {
    assert Lookup([], "device_id").None?;
    hide Lookup, NarrowToInt, TypeFromName, TypeName, IsTypeName;
    var version, kind := Lookup(members, "protocol_version"), Lookup(members, "type");
    if version.Some? && version.value.JInt? {
      NarrowingIsModular(version.value.n);
    }
    if kind.Some? && kind.value.JString? {
      TypeNamesAreExact(kind.value.s, Telemetry);
      TelemetryName();
      if TypeFromName(kind.value.s).Some? {
        TypeNamesAreExact(kind.value.s, TypeFromName(kind.value.s).value);
      }
    }
  }

  lemma TelemetryName()
    ensures TypeName(Telemetry) == "telemetry"
  {
  }

  function ParseDocument(doc: Value, freshId: string, now: string): Result<Message> {
    if !doc.JObject? then Err(Protocol)
    else if Depth(doc) > MAX_JSON_DEPTH then Err(Protocol)
    else ParseFields(doc.members, freshId, now)
  }

  lemma NarrowingIsModular(n: int)
    ensures NarrowToInt(n) == PROTOCOL_VERSION <==> n % 0x1_0000_0000 == PROTOCOL_VERSION
  {
    var q := (n + 0x8000_0000) / 0x1_0000_0000;
    assert NarrowToInt(n) == n - q * 0x1_0000_0000;
  }

  /**
    The documentation promises that only version 1 is accepted. The code compares after narrowing, so
    an integer version is rejected when it is not congruent to 1 modulo 2^32, and otherwise treated as 1
    (`VersionTestIgnoresHighBits`). On versions of 32 bits the promise and the code agree.
    */
  lemma VersionRejectedWhen(members: seq<Member>, freshId: string, now: string, n: int)
    requires Lookup(members, "protocol_version") == Some(JInt(n))
    ensures n % 0x1_0000_0000 != PROTOCOL_VERSION ==> ParseFields(members, freshId, now) == Err(Protocol)
    ensures -0x8000_0000 <= n < 0x8000_0000 && n != PROTOCOL_VERSION
            ==> ParseFields(members, freshId, now) == Err(Protocol)
  {
    NarrowingIsModular(n);
  }

  lemma VersionTestIgnoresHighBits(members: seq<Member>, members': seq<Member>, freshId: string, now: string, n: int)
    requires n % 0x1_0000_0000 == 1
    requires Lookup(members, "protocol_version") == Some(JInt(n))
    requires Lookup(members', "protocol_version") == Some(JInt(1))
    requires forall key :: key != "protocol_version" ==> Lookup(members, key) == Lookup(members', key)
    ensures ParseFields(members, freshId, now) == ParseFields(members', freshId, now)
  {
    hide Lookup, NarrowToInt, TypeFromName, HasDeviceId;
    NarrowingIsModular(n);
    NarrowingIsModular(1);
    assert |"protocol_version"| == 16;
  }

  /** A document with version `n` is accepted exactly when `n` is 1 modulo 2^32 and it would be with version 1. */
  lemma VersionAcceptedExactlyWhen(members: seq<Member>, members': seq<Member>, freshId: string, now: string, n: int)
    requires Lookup(members, "protocol_version") == Some(JInt(n))
    requires Lookup(members', "protocol_version") == Some(JInt(1))
    requires forall key :: key != "protocol_version" ==> Lookup(members, key) == Lookup(members', key)
    ensures ParseFields(members, freshId, now).Ok? <==>
            n % 0x1_0000_0000 == 1 && ParseFields(members', freshId, now).Ok?
  {
    hide Lookup, NarrowToInt, ParseFields;
    VersionRejectedWhen(members, freshId, now, n);
    if n % 0x1_0000_0000 == 1 {
      VersionTestIgnoresHighBits(members, members', freshId, now, n);
    }
  }

  /** An integer other than 1 that the code accepts as protocol version 1. */
  lemma OtherVersionAccepted()
    ensures ParseDocument(JObject([Member("protocol_version", JInt(0x1_0000_0001)), Member("type", JString("ping"))]),
                          "id", "now")
            == Ok(Message(1, "id", Ping, "now", None, EMPTY_OBJECT))
  {
    var v, t := Member("protocol_version", JInt(0x1_0000_0001)), Member("type", JString("ping"));
    var members := [v, t];
    assert members[1..] == [t] && [t][1..] == [];
    assert members[..1] == [v] && [v][..0] == [];
    assert MembersDepth([v]) == 1;
    assert Lookup(members, "type") == Lookup([t], "type") == Some(t.value);
    assert forall key :: key != v.key && key != t.key ==>
             Lookup(members, key) == Lookup([t], key) == Lookup([], key) == None;
  }

  // ---------------------------------------------------------------- to_json

  predicate IsEmptyPayload(payload: Value) {
    payload.JNull? || payload == JArray([]) || payload == EMPTY_OBJECT
  }

  function ToJson(m: Message): Value {
    JObject(
      [Member("message_id", JString(m.id))]
      + (if IsEmptyPayload(m.payload) then [] else [Member("payload", m.payload)])
      + [Member("protocol_version", JInt(m.version))]
      + (if m.status.Some? then [Member("status", JString(m.status.value))] else [])
      + [Member("timestamp", JString(m.timestamp)), Member("type", JString(TypeName(m.mtype)))])
  }

  /** The messages that survive being serialised and parsed. */
  predicate Sendable(m: Message) {
    && m.version == PROTOCOL_VERSION
    && |m.id| <= MAX_MESSAGE_ID
    && m.payload.JObject?
    && Depth(m.payload) < MAX_JSON_DEPTH
    && (m.mtype == Telemetry ==> HasDeviceId(m.payload))
  }

  lemma {:induction false} LookupConcat(a: seq<Member>, b: seq<Member>, key: string)
    ensures Lookup(a + b, key) == if Lookup(a, key).Some? then Lookup(a, key) else Lookup(b, key)
  {
    if a == [] {
      assert a + b == b;
    } else {
      assert (a + b)[1..] == a[1..] + b;
      LookupConcat(a[1..], b, key);
    }
  }

  lemma LookupOne(member: Member, key: string)
    ensures Lookup([member], key) == if member.key == key then Some(member.value) else None
  {
    assert [member][1..] == [];
  }

  lemma ToJsonLookup(m: Message, key: string)
    ensures Lookup(ToJson(m).members, key) ==
            if key == "message_id" then Some(JString(m.id))
            else if key == "payload" then (if IsEmptyPayload(m.payload) then None else Some(m.payload))
            else if key == "protocol_version" then Some(JInt(m.version))
            else if key == "status" then (if m.status.Some? then Some(JString(m.status.value)) else None)
            else if key == "timestamp" then Some(JString(m.timestamp))
            else if key == "type" then Some(JString(TypeName(m.mtype)))
            else None
  {
    var id, version := Member("message_id", JString(m.id)), Member("protocol_version", JInt(m.version));
    var stamp, kind := Member("timestamp", JString(m.timestamp)), Member("type", JString(TypeName(m.mtype)));
    var payload := if IsEmptyPayload(m.payload) then [] else [Member("payload", m.payload)];
    var status := if m.status.Some? then [Member("status", JString(m.status.value))] else [];
    LookupConcat([id] + payload + [version] + status, [stamp, kind], key);
    LookupConcat([id] + payload + [version], status, key);
    LookupConcat([id] + payload, [version], key);
    LookupConcat([id], payload, key);
    assert [stamp, kind][1..] == [kind];
    LookupOne(id, key);
    LookupOne(version, key);
    LookupOne(kind, key);
    LookupOne(Member("payload", m.payload), key);
    LookupOne(Member("status", if m.status.Some? then JString(m.status.value) else JNull), key);
  }

  lemma OneMemberDepth(member: Member)
    ensures MembersDepth([member]) == 1 + Depth(member.value)
  {
    assert [member][..0] == [];
  }

  lemma ToJsonDepth(m: Message)
    ensures Depth(ToJson(m)) == 1 + (if IsEmptyPayload(m.payload) then 0 else Depth(m.payload))
  {
    var id, version := Member("message_id", JString(m.id)), Member("protocol_version", JInt(m.version));
    var stamp, kind := Member("timestamp", JString(m.timestamp)), Member("type", JString(TypeName(m.mtype)));
    var payload := if IsEmptyPayload(m.payload) then [] else [Member("payload", m.payload)];
    var status := if m.status.Some? then [Member("status", JString(m.status.value))] else [];
    MembersDepthConcat([id] + payload + [version] + status, [stamp, kind]);
    MembersDepthConcat([id] + payload + [version], status);
    MembersDepthConcat([id] + payload, [version]);
    MembersDepthConcat([id], payload);
    MembersDepthConcat([stamp], [kind]);
    assert [stamp] + [kind] == [stamp, kind];
    OneMemberDepth(id);
    OneMemberDepth(version);
    OneMemberDepth(stamp);
    OneMemberDepth(kind);
    OneMemberDepth(Member("payload", m.payload));
    OneMemberDepth(Member("status", if m.status.Some? then JString(m.status.value) else JNull));
  }

  /** A message survives serialising and parsing exactly when it is sendable. */
  lemma MessageRoundTrip(m: Message, freshId: string, now: string)
    ensures ParseDocument(ToJson(m), freshId, now) == Ok(m) <==> Sendable(m)
  {
    ToJsonDepth(m);
    TypeNamesRoundTrip(m.mtype);
    ToJsonLookup(m, "message_id");
    ToJsonLookup(m, "payload");
    ToJsonLookup(m, "protocol_version");
    ToJsonLookup(m, "status");
    ToJsonLookup(m, "timestamp");
    ToJsonLookup(m, "type");
  }

  /** Whatever document was accepted, the message obtained is sendable; so parsing again gives it back. */
  lemma ParsedIsSendable(doc: Value, freshId: string, now: string)
    requires ParseDocument(doc, freshId, now).Ok?
    requires |freshId| <= MAX_MESSAGE_ID
    ensures Sendable(ParseDocument(doc, freshId, now).value)
  {
    LookupIsShallower(doc.members, "payload");
  }

  // ---------------------------------------------------------------- replies

  datatype HandshakeOutcome = HandshakeOutcome(
    tlsVersion: string,
    negotiatedGroup: string,
    cipherSuite: string,
    peerSignature: string,
    sessionReused: bool)

  function MakeAcknowledgement(request: Message, now: string): Message {
    Message(PROTOCOL_VERSION, request.id, Acknowledgement, now, Some("accepted"), EMPTY_OBJECT)
  }

  /** `make_error`; `id` is the request's id, or a generated one when there is no parsed request. */
  function MakeError(id: string, reason: string, now: string): Message {
    Message(PROTOCOL_VERSION, id, Error, now, Some("rejected"), JObject([Member("reason", JString(reason))]))
  }

  function CapabilitiesPayload(profile: Definition, outcome: HandshakeOutcome): Value {
    JObject([
      Member("authentication", JString(AuthenticationName(profile.authentication))),
      Member("cipher_suite", JString(outcome.cipherSuite)),
      Member("hybrid_key_establishment", JBool(IsHybrid(outcome.negotiatedGroup))),
      Member("negotiated_group", JString(outcome.negotiatedGroup)),
      Member("pq_authentication", JBool(IsPostQuantumAuthentication(profile.authentication))),
      Member("pq_key_establishment", JBool(IsPostQuantum(outcome.negotiatedGroup))),
      Member("server_profile", JString(profile.id)),
      Member("tls_version", JString(outcome.tlsVersion))])
  }

  /** `handle_message`: the reply to a validated request, or none for `close`. */
  function HandleMessage(request: Message, profile: Definition, outcome: HandshakeOutcome, now: string)
    : Option<Message>
  {
    match request.mtype
    case Ping => Some(MakeAcknowledgement(request, now).(mtype := Pong))
    case Echo => Some(MakeAcknowledgement(request, now).(payload := request.payload))
    case Telemetry => Some(MakeAcknowledgement(request, now))
    case Capabilities => Some(MakeAcknowledgement(request, now).(payload := CapabilitiesPayload(profile, outcome)))
    case Close => None
    case Acknowledgement | Pong | Error =>
      Some(MakeError(request.id,
                     "message type '" + TypeName(request.mtype)
                     + "' is a response type and is not accepted from a client",
                     now))
  }

  lemma {:induction false} FlatMembersDepth(members: seq<Member>)
    requires forall i :: 0 <= i < |members| ==> !IsStructured(members[i].value)
    ensures MembersDepth(members) <= 1
  {
    if members == [] {
    } else {
      FlatMembersDepth(members[..|members| - 1]);
    }
  }

  /**
    Every request the server can have parsed gets a reply unless it is `close`; the reply carries the
    request's id, is never of a request type, and is accepted unchanged by the client's parser. An echo gives the
    payload back, and only a request that has the type of a response is rejected.
    */
  lemma RepliesAreAccepted(doc: Value, freshId: string, now: string, profile: Definition, outcome: HandshakeOutcome,
                           now': string, freshId'': string, now'': string)
    requires ParseDocument(doc, freshId, now).Ok? && |freshId| <= MAX_MESSAGE_ID
    ensures var request := ParseDocument(doc, freshId, now).value;
            var reply := HandleMessage(request, profile, outcome, now');
            && (reply.None? <==> request.mtype == Close)
            && (reply.Some? ==>
                  && ProperReply(profile, outcome, request, reply.value)
                  && reply.value.timestamp == now'
                  && ParseDocument(ToJson(reply.value), freshId'', now'') == Ok(reply.value))
  {
    hide ParseDocument, CapabilitiesPayload, Sendable, ToJson, TypeName;
    var request := ParseDocument(doc, freshId, now).value;
    ParsedIsSendable(doc, freshId, now);
    ReplyIsSendable(request, profile, outcome, now');
    var reply := HandleMessage(request, profile, outcome, now');
    RepliesAreProper(request, profile, outcome, now');
    if reply.Some? {
      MessageRoundTrip(reply.value, freshId'', now'');
    }
  }

  /** The server tells a client what was negotiated and how it classifies it. */
  predicate Tells(profile: Definition, outcome: HandshakeOutcome, payload: Value) {
    && payload.JObject?
    && Lookup(payload.members, "server_profile") == Some(JString(profile.id))
    && Lookup(payload.members, "tls_version") == Some(JString(outcome.tlsVersion))
    && Lookup(payload.members, "negotiated_group") == Some(JString(outcome.negotiatedGroup))
    && Lookup(payload.members, "cipher_suite") == Some(JString(outcome.cipherSuite))
    && Lookup(payload.members, "pq_key_establishment") == Some(JBool(IsPostQuantum(outcome.negotiatedGroup)))
    && Lookup(payload.members, "hybrid_key_establishment") == Some(JBool(IsHybrid(outcome.negotiatedGroup)))
    && Lookup(payload.members, "authentication") == Some(JString(AuthenticationName(profile.authentication)))
    && Lookup(payload.members, "pq_authentication")
       == Some(JBool(IsPostQuantumAuthentication(profile.authentication)))
  }

  predicate GivesAReason(payload: Value) {
    payload.JObject? && Lookup(payload.members, "reason").Some? && Lookup(payload.members, "reason").value.JString?
  }

  /** Which reply a request gets: none to `close`, and else one that carries its id and fits its type. */
  predicate ProperReply(profile: Definition, outcome: HandshakeOutcome, request: Message, reply: Message) {
    && request.mtype != Close
    && reply.id == request.id
    && reply.mtype in {Acknowledgement, Pong, Error}
    && (reply.mtype == Pong <==> request.mtype == Ping)
    && (reply.mtype == Error <==> request.mtype in {Acknowledgement, Pong, Error})
    && reply.status == Some(if reply.mtype == Error then "rejected" else "accepted")
    && (request.mtype == Echo ==> reply.payload == request.payload)
    && (request.mtype in {Ping, Telemetry} ==> reply.payload == EMPTY_OBJECT)
    && (request.mtype == Capabilities ==> Tells(profile, outcome, reply.payload))
    && (reply.mtype == Error ==> GivesAReason(reply.payload))
  }

  lemma RepliesAreProper(request: Message, profile: Definition, outcome: HandshakeOutcome, now: string)
    ensures var reply := HandleMessage(request, profile, outcome, now);
            && (reply.None? <==> request.mtype == Close)
            && (reply.Some? ==> ProperReply(profile, outcome, request, reply.value) && reply.value.timestamp == now)
  {
    hide CapabilitiesPayload, Tells, GivesAReason, MakeError, TypeName;
    CapabilitiesMembers(profile, outcome);
    var reason := "message type '" + TypeName(request.mtype) + "' is a response type and is not accepted from a client";
    ErrorsGiveAReason(request.id, reason, now);
  }

  /** A rejection has type `error`, status "rejected" and the given reason. */
  lemma ErrorsGiveAReason(id: string, reason: string, now: string)
    ensures var m := MakeError(id, reason, now);
            && m.id == id && m.mtype == Error && m.status == Some("rejected") && m.timestamp == now
            && GivesAReason(m.payload) && Lookup(m.payload.members, "reason") == Some(JString(reason))
  {
    LookupFirst(MakeError(id, reason, now).payload.members, "reason", 0);
  }

  lemma CapabilitiesMembers(profile: Definition, outcome: HandshakeOutcome)
    ensures Tells(profile, outcome, CapabilitiesPayload(profile, outcome))
  {
    hide IsHybrid, IsPostQuantum, AuthenticationName, Lookup;
    var members := CapabilitiesPayload(profile, outcome).members;
    LookupFirst(members, "authentication", 0);
    LookupFirst(members, "cipher_suite", 1);
    LookupFirst(members, "server_profile", 6);
    LookupFirst(members, "tls_version", 7);
    LookupFirst(members, "hybrid_key_establishment", 2);
    LookupFirst(members, "negotiated_group", 3);
    LookupFirst(members, "pq_authentication", 4);
    LookupFirst(members, "pq_key_establishment", 5);
  }

  lemma {:induction false} LookupFirst(members: seq<Member>, key: string, k: nat)
    requires k < |members| && members[k].key == key && forall i :: 0 <= i < k ==> members[i].key != key
    ensures Lookup(members, key) == Some(members[k].value)
  {
    if k == 0 {
    } else {
      LookupFirst(members[1..], key, k - 1);
    }
  }

  lemma CapabilitiesAreFlat(profile: Definition, outcome: HandshakeOutcome)
    ensures Depth(CapabilitiesPayload(profile, outcome)) <= 1
  {
    hide IsHybrid, IsPostQuantum, AuthenticationName;
    FlatMembersDepth(CapabilitiesPayload(profile, outcome).members);
  }

  lemma ErrorReplyIsSendable(id: string, reason: string, now: string)
    requires |id| <= MAX_MESSAGE_ID
    ensures Sendable(MakeError(id, reason, now))
  {
    FlatMembersDepth(MakeError(id, reason, now).payload.members);
  }

  lemma ReplyIsSendable(request: Message, profile: Definition, outcome: HandshakeOutcome, now: string)
    requires Sendable(request)
    ensures var reply := HandleMessage(request, profile, outcome, now);
            reply.Some? ==> Sendable(reply.value) && reply.value.id == request.id
  {
    hide CapabilitiesPayload, TypeName, HasDeviceId;
    CapabilitiesAreFlat(profile, outcome);
    assert CapabilitiesPayload(profile, outcome).JObject? by {
      CapabilitiesAreObject(profile, outcome);
    }
    if request.mtype in {Acknowledgement, Pong, Error} {
      ErrorReplyIsSendable(request.id,
        "message type '" + TypeName(request.mtype) + "' is a response type and is not accepted from a client", now);
    }
  }

  lemma CapabilitiesAreObject(profile: Definition, outcome: HandshakeOutcome)
    ensures CapabilitiesPayload(profile, outcome).JObject?
  {
  }

  // ---------------------------------------------------------------- text

  /**
    The JSON library: `dump` may refuse a tree (a string that is not UTF-8) and `load` a text.
    */
  datatype TextCodec = TextCodec(dump: Value -> Option<seq<byte>>, load: seq<byte> -> Option<Value>)

  /** What is assumed of the library: text it produces is non-empty UTF-8 and reads back as the same tree. */
  ghost predicate Faithful(codec: TextCodec) {
    forall v :: codec.dump(v).Some? ==>
      && codec.dump(v).value != []
      && Utf8.WellFormed(codec.dump(v).value)
      && codec.load(codec.dump(v).value) == Some(v)
  }

  ghost function ParseText(codec: TextCodec, text: seq<byte>, freshId: string, now: string): Result<Message> {
    if text == [] then Err(Protocol)
    else if !Utf8.WellFormed(text) then Err(Protocol)
    else if codec.load(text).None? then Err(Protocol)
    else ParseDocument(codec.load(text).value, freshId, now)
  }

  /** Non-empty UTF-8 that the library reads as an object, not too deep, with acceptable fields. */
  ghost predicate AcceptableText(codec: TextCodec, text: seq<byte>) {
    && text != []
    && Utf8.WellFormed(text)
    && codec.load(text).Some?
    && codec.load(text).value.JObject?
    && Depth(codec.load(text).value) <= 16
    && AcceptableFields(codec.load(text).value.members)
  }

  lemma TextAcceptedExactly(codec: TextCodec, text: seq<byte>, freshId: string, now: string)
    ensures var r := ParseText(codec, text, freshId, now);
            && (r.Ok? <==> AcceptableText(codec, text))
            && (r.Ok? ==> Carries(codec.load(text).value.members, freshId, now, r.value))
            && (r.Err? ==> r.category == Protocol)
  {
    hide AcceptableFields, Carries, ParseFields, Utf8.WellFormed, Depth;
    if codec.load(text).Some? && codec.load(text).value.JObject? {
      ParseAcceptsExactly(codec.load(text).value.members, freshId, now);
    }
  }

  /** `Message::parse` on text, with the two checks performed by the loops that perform them. */
  method ParseMessage(codec: TextCodec, text: seq<byte>, freshId: string, now: string) returns (r: Result<Message>)
    ensures r == ParseText(codec, text, freshId, now)
    ensures r.Ok? <==> AcceptableText(codec, text)
    ensures r.Ok? ==> Carries(codec.load(text).value.members, freshId, now, r.value)
    ensures r.Err? ==> r.category == Protocol
  {
    TextAcceptedExactly(codec, text, freshId, now);
    hide AcceptableText, Carries, AcceptableFields, Utf8.WellFormed;
    if text == [] {
      return Err(Protocol);
    }
    var valid := Utf8.IsValidUtf8(text);
    if !valid {
      return Err(Protocol);
    }
    var doc := codec.load(text);
    if doc.None? || !doc.value.JObject? {
      return Err(Protocol);
    }
    var depth := JsonDepth(doc.value, 0);
    if depth > MAX_JSON_DEPTH {
      return Err(Protocol);
    }
    r := ParseFields(doc.value.members, freshId, now);
  }

  /** Round trip through text for every sendable message that the library can write. */
  lemma TextRoundTrip(codec: TextCodec, m: Message, freshId: string, now: string)
    requires Faithful(codec) && codec.dump(ToJson(m)).Some?
    ensures ParseText(codec, codec.dump(ToJson(m)).value, freshId, now) == Ok(m) <==> Sendable(m)
  {
    MessageRoundTrip(m, freshId, now);
  }
}
