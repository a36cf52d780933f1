/**
  The structural half of the validator: which fields a record must have and of which kind. It reads a record as JSON,
  and so the peers' records appear here.
  */
module Structure {
  import opened Prelude
  import opened Json
  import opened Records
  import opened Uuid

  /** The fields the check looks at, as `record.get` returns them. */
  datatype JsonRecord = JsonRecord(
    schemaVersion: Option<Value>,
    connectionId: Option<Value>,
    role: Option<Value>,
    requestedProfile: Option<Value>,
    tlsVersion: Option<Value>,
    negotiatedGroup: Option<Value>,
    cipherSuite: Option<Value>,
    handshakeMs: Option<Value>,
    connectionMs: Option<Value>,
    success: Option<Value>,
    timestamp: Option<Value>,
    errorCategory: Option<Value>)

  datatype Field =
    | SchemaVersion | ConnectionId | RoleField | RequestedProfile | TlsVersion | NegotiatedGroup | CipherSuite
    | HandshakeMs | ConnectionMs | Success | Timestamp

  /** `REQUIRED_FIELDS`. */
  const REQUIRED: seq<Field> := [
    SchemaVersion, ConnectionId, RoleField, RequestedProfile, TlsVersion, NegotiatedGroup, CipherSuite, HandshakeMs,
    ConnectionMs, Success, Timestamp]

  function Get(r: JsonRecord, f: Field): Option<Value> {
    match f
    case SchemaVersion => r.schemaVersion
    case ConnectionId => r.connectionId
    case RoleField => r.role
    case RequestedProfile => r.requestedProfile
    case TlsVersion => r.tlsVersion
    case NegotiatedGroup => r.negotiatedGroup
    case CipherSuite => r.cipherSuite
    case HandshakeMs => r.handshakeMs
    case ConnectionMs => r.connectionMs
    case Success => r.success
    case Timestamp => r.timestamp
  }

  /** Booleans are integers to Python: the check excludes them where an integer is meant, not where a number is. */
  predicate HasKind(f: Field, v: Value) {
    match f
    case SchemaVersion => v.JInt?
    case HandshakeMs => v.JInt? || v.JFloat? || v.JBool?
    case ConnectionMs => v.JInt? || v.JFloat? || v.JBool?
    case Success => v.JBool?
    case _ => v.JString?
  }

  datatype StructuralProblem =
    | Missing(field: Field) | Mistyped(field: Field) | WrongVersion | NotAUuid | WrongRole | UnknownCategory
    | Negative(field: Field)

  function FieldProblems(r: JsonRecord, fields: seq<Field>): seq<StructuralProblem> {
    if fields == [] then []
    else
      var last := fields[|fields| - 1];
      FieldProblems(r, fields[..|fields| - 1])
      + (if Get(r, last).None? then [Missing(last)]
         else When(!HasKind(last, Get(r, last).value), Mistyped(last)))
  }

  /** What equals 1 in Python. */
  predicate IsOne(v: Value) {
    v == JInt(1) || v == JBool(true) || v == JFloat(1.0)
  }

  /** `re.match` with a final `$`, which also matches before a line end. */
  predicate MatchesPattern(s: string) {
    MatchesUuidV4(s) || (|s| == LENGTH + 1 && s[LENGTH] == '\n' && MatchesUuidV4(s[..LENGTH]))
  }

  const CATEGORIES: set<string> := {
    "none", "configuration", "capability", "certificate", "tls-policy", "handshake", "network", "protocol", "timeout",
    "internal"}

  predicate IsNegative(v: Option<Value>) {
    v.Some? && ((v.value.JInt? && v.value.n < 0) || (v.value.JFloat? && v.value.x < 0.0))
  }

  function OtherProblems(r: JsonRecord): seq<StructuralProblem> {
    When(r.schemaVersion.None? || !IsOne(r.schemaVersion.value), WrongVersion)
    + When(r.connectionId.Some? && r.connectionId.value.JString? && !MatchesPattern(r.connectionId.value.s), NotAUuid)
    + When(r.role != Some(JString("client")) && r.role != Some(JString("server")), WrongRole)
    + When(r.errorCategory.Some? && !r.errorCategory.value.JNull?
           && !(r.errorCategory.value.JString? && r.errorCategory.value.s in CATEGORIES), UnknownCategory)
    + When(IsNegative(r.handshakeMs), Negative(HandshakeMs))
    + When(IsNegative(r.connectionMs), Negative(ConnectionMs))
  }

  predicate IsText(v: Option<Value>) {
    v.Some? && v.value.JString?
  }

  /** A number that is not negative; a boolean passes for one. */
  predicate IsDuration(v: Option<Value>) {
    && v.Some?
    && match v.value
       case JInt(n) => n >= 0
       case JFloat(x) => x >= 0.0
       case JBool(_) => true
       case _ => false
  }

  /** What the check accepts, said of the record. */
  predicate Conforms(r: JsonRecord) {
    && r.schemaVersion == Some(JInt(1))
    && IsText(r.connectionId) && MatchesPattern(r.connectionId.value.s)
    && r.role in {Some(JString("client")), Some(JString("server"))}
    && IsText(r.requestedProfile) && IsText(r.tlsVersion) && IsText(r.negotiatedGroup) && IsText(r.cipherSuite)
    && IsDuration(r.handshakeMs) && IsDuration(r.connectionMs)
    && r.success.Some? && r.success.value.JBool?
    && IsText(r.timestamp)
    && (r.errorCategory in {None, Some(JNull)}
        || (IsText(r.errorCategory) && exists c: ErrorCategory :: r.errorCategory.value.s == CategoryName(c)))
  }

  ghost predicate KindsAreRight(r: JsonRecord) {
    forall f: Field :: Get(r, f).Some? && HasKind(f, Get(r, f).value)
  }

  predicate IsNumber(v: Option<Value>) {
    v.Some? && (v.value.JInt? || v.value.JFloat? || v.value.JBool?)
  }

  /** The kinds, field by field. */
  lemma KindsOf(r: JsonRecord)
    ensures KindsAreRight(r) <==>
            && r.schemaVersion.Some? && r.schemaVersion.value.JInt?
            && IsText(r.connectionId) && IsText(r.role) && IsText(r.requestedProfile) && IsText(r.tlsVersion)
            && IsText(r.negotiatedGroup) && IsText(r.cipherSuite) && IsText(r.timestamp)
            && IsNumber(r.handshakeMs) && IsNumber(r.connectionMs)
            && r.success.Some? && r.success.value.JBool?
  {
    if KindsAreRight(r) {
      assert HasKind(SchemaVersion, Get(r, SchemaVersion).value) && HasKind(ConnectionId, Get(r, ConnectionId).value);
      assert HasKind(RoleField, Get(r, RoleField).value) && HasKind(TlsVersion, Get(r, TlsVersion).value);
      assert HasKind(RequestedProfile, Get(r, RequestedProfile).value);
      assert HasKind(NegotiatedGroup, Get(r, NegotiatedGroup).value) && HasKind(CipherSuite, Get(r, CipherSuite).value);
      assert HasKind(HandshakeMs, Get(r, HandshakeMs).value) && HasKind(ConnectionMs, Get(r, ConnectionMs).value);
      assert HasKind(Success, Get(r, Success).value) && HasKind(Timestamp, Get(r, Timestamp).value);
    }
  }

  lemma NoOtherProblems(r: JsonRecord)
    ensures KindsAreRight(r) && OtherProblems(r) == [] <==> Conforms(r)
  {
    KindsOf(r);
    if IsText(r.errorCategory) {
      KnownCategories(r.errorCategory.value.s);
    }
    NothingElse(r);
    hide MatchesPattern, CATEGORIES, CategoryName, KindsAreRight, OtherProblems;
  }

  lemma NothingElse(r: JsonRecord)
    ensures OtherProblems(r) == [] <==>
            && r.schemaVersion.Some? && IsOne(r.schemaVersion.value)
            && (IsText(r.connectionId) ==> MatchesPattern(r.connectionId.value.s))
            && r.role in {Some(JString("client")), Some(JString("server"))}
            && (r.errorCategory in {None, Some(JNull)}
                || (IsText(r.errorCategory) && r.errorCategory.value.s in CATEGORIES))
            && !IsNegative(r.handshakeMs) && !IsNegative(r.connectionMs)
  {
    hide MatchesPattern, CATEGORIES, IsOne, IsNegative;
  }

  /** The validator's categories are the writer's. */
  lemma KnownCategories(name: string)
    ensures name in CATEGORIES <==> exists c: ErrorCategory :: name == CategoryName(c)
  {
    if name in CATEGORIES {
      if name == "none" { assert name == CategoryName(NoError); }
      else if name == "configuration" { assert name == CategoryName(Configuration); }
      else if name == "capability" { assert name == CategoryName(Capability); }
      else if name == "certificate" { assert name == CategoryName(Certificate); }
      else if name == "tls-policy" { assert name == CategoryName(TlsPolicy); }
      else if name == "handshake" { assert name == CategoryName(Handshake); }
      else if name == "network" { assert name == CategoryName(Network); }
      else if name == "protocol" { assert name == CategoryName(Protocol); }
      else if name == "timeout" { assert name == CategoryName(Timeout); }
      else { assert name == CategoryName(Internal); }
    }
  }

  /** `builtin_structural_check`. */
  method StructuralCheck(r: JsonRecord) returns (problems: seq<StructuralProblem>)
    ensures problems == FieldProblems(r, REQUIRED) + OtherProblems(r)
    ensures problems == [] <==> Conforms(r)
  {
    ConformsExactlyWhen(r);
    hide REQUIRED, OtherProblems, HasKind, Conforms;
    problems := [];
    for i := 0 to |REQUIRED|
      invariant problems == FieldProblems(r, REQUIRED[..i])
    {
      var value := Get(r, REQUIRED[i]);
      assert REQUIRED[..i + 1][..i] == REQUIRED[..i];
      if value.None? {
        problems := problems + [Missing(REQUIRED[i])];
      } else if !HasKind(REQUIRED[i], value.value) {
        problems := problems + [Mistyped(REQUIRED[i])];
      }
    }
    assert REQUIRED[..|REQUIRED|] == REQUIRED;
    problems := problems + OtherProblems(r);
  }

  lemma EveryFieldIsRequired(f: Field)
    ensures f in REQUIRED
  {
    match f
    case SchemaVersion => assert REQUIRED[0] == f;
    case ConnectionId => assert REQUIRED[1] == f;
    case RoleField => assert REQUIRED[2] == f;
    case RequestedProfile => assert REQUIRED[3] == f;
    case TlsVersion => assert REQUIRED[4] == f;
    case NegotiatedGroup => assert REQUIRED[5] == f;
    case CipherSuite => assert REQUIRED[6] == f;
    case HandshakeMs => assert REQUIRED[7] == f;
    case ConnectionMs => assert REQUIRED[8] == f;
    case Success => assert REQUIRED[9] == f;
    case Timestamp => assert REQUIRED[10] == f;
  }

  predicate StructurallySound(r: JsonRecord) {
    FieldProblems(r, REQUIRED) + OtherProblems(r) == []
  }

  lemma ConformsExactlyWhen(r: JsonRecord)
    ensures StructurallySound(r) <==> Conforms(r)
  {
    forall f: Field ensures f in REQUIRED {
      EveryFieldIsRequired(f);
    }
    NoFieldProblems(r, REQUIRED);
    hide REQUIRED, OtherProblems, HasKind, FieldProblems, Conforms;
    assert FieldProblems(r, REQUIRED) == [] <==> KindsAreRight(r);
    NoOtherProblems(r);
  }

  lemma {:induction false} NoFieldProblems(r: JsonRecord, fields: seq<Field>)
    ensures FieldProblems(r, fields) == [] <==>
            forall f :: f in fields ==> Get(r, f).Some? && HasKind(f, Get(r, f).value)
  {
    if fields == [] {
    } else {
      var init, last := fields[..|fields| - 1], fields[|fields| - 1];
      NoFieldProblems(r, init);
      assert fields == init + [last];
      assert forall f :: f in fields <==> f in init || f == last;
    }
  }

  // ---------------------------------------------------------------- the peers' records

  /** What the clock contributes to a record. */
  datatype Timing = Timing(handshakeMs: real, connectionMs: real, timestamp: string)

  /** `ConnectionMetrics::to_json`, as far as the check reads it. */
  function ToJsonFields(m: Metrics, t: Timing): JsonRecord {
    JsonRecord(
      Some(JInt(1)),
      Some(JString(m.connectionId)),
      Some(JString(if m.role == Client then "client" else "server")),
      Some(JString(m.requestedProfile)),
      Some(JString(m.tlsVersion)),
      Some(JString(m.negotiatedGroup)),
      Some(JString(m.cipherSuite)),
      Some(JFloat(t.handshakeMs)),
      Some(JFloat(t.connectionMs)),
      Some(JBool(m.success)),
      Some(JString(t.timestamp)),
      Some(if m.errorCategory == NoError then JNull else JString(CategoryName(m.errorCategory))))
  }

  /** The two halves of the validator read the same record. */
  lemma HalvesReadTheSameRecord(m: Metrics, t: Timing)
    ensures var r, f := ToJsonRecord(m), ToJsonFields(m, t);
            && f.role == Some(JString(r.role))
            && f.requestedProfile == Some(JString(r.requestedProfile))
            && f.tlsVersion == Some(JString(r.tlsVersion))
            && f.negotiatedGroup == Some(JString(r.negotiatedGroup))
            && f.success == Some(JBool(r.success))
            && f.errorCategory == Some(match r.errorCategory case None => JNull case Some(name) => JString(name))
  {
  }

  lemma CategoryIsKnown(c: ErrorCategory)
    ensures CategoryName(c) in CATEGORIES
  {
  }

  /** A record is structurally sound exactly when its id is a UUID text and no duration is negative, on any outcome. */
  lemma SoundExactlyWhen(m: Metrics, t: Timing)
    ensures StructurallySound(ToJsonFields(m, t)) <==>
            MatchesPattern(m.connectionId) && t.handshakeMs >= 0.0 && t.connectionMs >= 0.0
  {
    hide MatchesPattern, CategoryName, CATEGORIES, FieldProblems;
    var r := ToJsonFields(m, t);
    CategoryIsKnown(m.errorCategory);
    NoFieldProblems(r, REQUIRED);
    assert forall f: Field :: Get(r, f).Some? && HasKind(f, Get(r, f).value);
  }
}
