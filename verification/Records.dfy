/**
  Metrics records and the independent validator. `SemanticCheck` restates the Python validator on the records the
  C++ writer emits; nothing in it refers to how those records were filled in.
  */
module Records {
  import opened Prelude
  import opened Profiles

  datatype Role = Client | Server

  /** `ConnectionMetrics`, without timings and resource samples. */
  datatype Metrics = Metrics(
    connectionId: string,
    role: Role,
    requestedProfile: string,
    negotiatedProfile: string,
    tlsVersion: string,
    negotiatedGroup: string,
    cipherSuite: string,
    authentication: string,
    bytesSent: nat,
    bytesReceived: nat,
    sessionReused: bool,
    success: bool,
    errorCategory: ErrorCategory,
    messageCount: nat,
    pqKeyEstablishment: bool,
    hybridKeyEstablishment: bool,
    pqAuthentication: bool)

  /** A default-constructed record. */
  const BLANK := Metrics("", Client, "", "", "", "", "", "", 0, 0, false, false, NoError, 0, false, false, false)

  function CategoryName(c: ErrorCategory): string {
    match c
    case NoError => "none"
    case Configuration => "configuration"
    case Capability => "capability"
    case Certificate => "certificate"
    case TlsPolicy => "tls-policy"
    case Handshake => "handshake"
    case Network => "network"
    case Protocol => "protocol"
    case Timeout => "timeout"
    case Internal => "internal"
  }

  /** The fields of the JSON record that the validator and the analyser read; a null category is None. */
  datatype Record = Record(
    role: string,
    requestedProfile: string,
    tlsVersion: string,
    negotiatedGroup: string,
    authentication: string,
    success: bool,
    errorCategory: Option<string>,
    pqKeyEstablishment: bool,
    hybridKeyEstablishment: bool,
    pqAuthentication: bool)

  function ToJsonRecord(m: Metrics): Record {
    Record(
      if m.role == Client then "client" else "server",
      m.requestedProfile,
      m.tlsVersion,
      m.negotiatedGroup,
      m.authentication,
      m.success,
      if m.errorCategory == NoError then None else Some(CategoryName(m.errorCategory)),
      m.pqKeyEstablishment,
      m.hybridKeyEstablishment,
      m.pqAuthentication)
  }

  /** `error_category_from_string`: an unknown name stands for an internal error. */
  function CategoryFromName(name: string): ErrorCategory {
    if name == "none" then NoError
    else if name == "configuration" then Configuration
    else if name == "capability" then Capability
    else if name == "certificate" then Certificate
    else if name == "tls-policy" then TlsPolicy
    else if name == "handshake" then Handshake
    else if name == "network" then Network
    else if name == "protocol" then Protocol
    else if name == "timeout" then Timeout
    else Internal
  }

  /** A category is read back from its name, and two categories never have the same name. */
  lemma CategoryNamesRoundTrip(a: ErrorCategory, b: ErrorCategory)
    ensures CategoryFromName(CategoryName(a)) == a
    ensures CategoryName(a) == CategoryName(b) <==> a == b
  {
    CategoryIsReadBack(a);
    CategoryIsReadBack(b);
    hide CategoryName, CategoryFromName;
  }

  lemma CategoryIsReadBack(c: ErrorCategory)
    ensures CategoryFromName(CategoryName(c)) == c
  {
  }

  // ---------------------------------------------------------------- the validator

  const PY_HYBRID_GROUPS: set<string> := {"x25519mlkem768", "secp256r1mlkem768", "secp384r1mlkem1024"}
  const PY_PURE_GROUPS: set<string> := {"mlkem512", "mlkem768", "mlkem1024"}
  const PY_PQ_GROUPS: set<string> := PY_HYBRID_GROUPS + PY_PURE_GROUPS

  datatype Problem =
    | NoTlsVersion | NoGroup | SuccessWithError | WrongTlsVersion
    | ClaimsPqOnClassical | PqNotClaimed | ClaimsHybridOnOther | HybridWithoutPq
    | ClaimsPqAuthentication | Downgrade

  predicate OccursAt(s: string, sub: string, i: int) {
    0 <= i <= |s| - |sub| && s[i..i + |sub|] == sub
  }

  predicate HasSubstring(s: string, sub: string) {
    exists i | 0 <= i <= |s| :: OccursAt(s, sub, i)
  }

  predicate HasPqSignatureMarker(auth: string) {
    HasSubstring(auth, "mldsa") || HasSubstring(auth, "ml-dsa") || HasSubstring(auth, "dilithium")
    || HasSubstring(auth, "falcon") || HasSubstring(auth, "sphincs")
  }

  predicate PromisesPostQuantum(profileId: string) {
    StartsWith(profileId, "hybrid-") || StartsWith(profileId, "pure-")
  }

  function SuccessProblems(r: Record): seq<Problem> {
    When(r.tlsVersion == "", NoTlsVersion)
    + When(r.negotiatedGroup == "", NoGroup)
    + When(r.errorCategory.Some? && r.errorCategory.value != "none", SuccessWithError)
    + When(r.tlsVersion != "" && r.tlsVersion != "TLSv1.3" && r.tlsVersion != "TLS1.3", WrongTlsVersion)
  }

  function GroupProblems(r: Record): seq<Problem> {
    var group := Lower(r.negotiatedGroup);
    When(r.pqKeyEstablishment && group !in PY_PQ_GROUPS, ClaimsPqOnClassical)
    + When(group in PY_PQ_GROUPS && r.success && !r.pqKeyEstablishment, PqNotClaimed)
    + When(r.hybridKeyEstablishment && group !in PY_HYBRID_GROUPS, ClaimsHybridOnOther)
  }

  /** `semantic_check`. */
  function SemanticCheck(r: Record): seq<Problem> {
    var group := Lower(r.negotiatedGroup);
    var auth := Lower(r.authentication);
    (if r.success then SuccessProblems(r) else [])
    + (if group != "" then GroupProblems(r) else [])
    + When(r.hybridKeyEstablishment && !r.pqKeyEstablishment, HybridWithoutPq)
    + When(r.pqAuthentication && auth != "" && !HasPqSignatureMarker(auth), ClaimsPqAuthentication)
    + When(r.success && PromisesPostQuantum(r.requestedProfile) && group != "" && group !in PY_PQ_GROUPS, Downgrade)
  }

  /** What each problem says of the record. */
  predicate Shows(r: Record, p: Problem) {
    var group, auth := Lower(r.negotiatedGroup), Lower(r.authentication);
    match p
    case NoTlsVersion => r.success && r.tlsVersion == ""
    case NoGroup => r.success && r.negotiatedGroup == ""
    case SuccessWithError => r.success && r.errorCategory !in {None, Some("none")}
    case WrongTlsVersion => r.success && r.tlsVersion !in {"", "TLSv1.3", "TLS1.3"}
    case ClaimsPqOnClassical => r.pqKeyEstablishment && group != "" && group !in PY_PQ_GROUPS
    case PqNotClaimed => r.success && !r.pqKeyEstablishment && group in PY_PQ_GROUPS
    case ClaimsHybridOnOther => r.hybridKeyEstablishment && group != "" && group !in PY_HYBRID_GROUPS
    case HybridWithoutPq => r.hybridKeyEstablishment && !r.pqKeyEstablishment
    case ClaimsPqAuthentication => r.pqAuthentication && auth != "" && !HasPqSignatureMarker(auth)
    case Downgrade => r.success && PromisesPostQuantum(r.requestedProfile) && group != "" && group !in PY_PQ_GROUPS
  }

  /** Each problem is reported exactly when the record shows it. */
  lemma ReportedExactlyWhen(r: Record, p: Problem)
    ensures p in SemanticCheck(r) <==> Shows(r, p)
  {
    SuccessReports(r, p);
    GroupReports(r, p);
    hide HasPqSignatureMarker, PromisesPostQuantum, Lower, SuccessProblems, GroupProblems;
    if p in {HybridWithoutPq, ClaimsPqAuthentication, Downgrade} {
      assert p !in SuccessProblems(r) && p !in GroupProblems(r);
    }
  }

  lemma SuccessReports(r: Record, p: Problem)
    ensures r.success && p in SuccessProblems(r) <==>
            p in {NoTlsVersion, NoGroup, SuccessWithError, WrongTlsVersion} && Shows(r, p)
    ensures p in {HybridWithoutPq, ClaimsPqAuthentication, Downgrade} ==> p !in SuccessProblems(r)
  {
    hide HasPqSignatureMarker, PromisesPostQuantum, Lower;
  }

  lemma GroupReports(r: Record, p: Problem)
    ensures Lower(r.negotiatedGroup) != "" && p in GroupProblems(r) <==>
            p in {ClaimsPqOnClassical, PqNotClaimed, ClaimsHybridOnOther} && Shows(r, p)
    ensures p in {HybridWithoutPq, ClaimsPqAuthentication, Downgrade} ==> p !in GroupProblems(r)
  {
    EmptyIsClassical();
    hide HasPqSignatureMarker, PromisesPostQuantum, Lower;
  }

  lemma EmptyIsClassical()
    ensures "" !in PY_PQ_GROUPS
  {
    assert forall g :: g in PY_PQ_GROUPS ==> |g| > 0;
  }

  /** The records the validator lets pass: what they claim is what the group, the version and the algorithm bear out. */
  predicate Credible(r: Record) {
    var group, auth := Lower(r.negotiatedGroup), Lower(r.authentication);
    && (r.success ==>
          && r.tlsVersion in {"TLSv1.3", "TLS1.3"}
          && r.negotiatedGroup != ""
          && r.errorCategory in {None, Some("none")}
          && (group in PY_PQ_GROUPS ==> r.pqKeyEstablishment)
          && (PromisesPostQuantum(r.requestedProfile) ==> group in PY_PQ_GROUPS))
    && (r.pqKeyEstablishment ==> group == "" || group in PY_PQ_GROUPS)
    && (r.hybridKeyEstablishment ==> r.pqKeyEstablishment && (group == "" || group in PY_HYBRID_GROUPS))
    && (r.pqAuthentication ==> auth == "" || HasPqSignatureMarker(auth))
  }

  /** A record passes exactly when it is credible. */
  lemma PassesExactlyWhenCredible(r: Record)
    ensures SemanticCheck(r) == [] <==> Credible(r)
  {
    hide SemanticCheck, HasPqSignatureMarker, PromisesPostQuantum, Lower;
    EmptyIsClassical();
    LowerKeepsLength(r.negotiatedGroup);
    forall p: Problem ensures p in SemanticCheck(r) <==> Shows(r, p) {
      ReportedExactlyWhen(r, p);
    }
    if SemanticCheck(r) != [] {
      assert Shows(r, SemanticCheck(r)[0]);
    } else {
      assert forall p: Problem :: !Shows(r, p);
      assert !Shows(r, NoTlsVersion) && !Shows(r, NoGroup) && !Shows(r, SuccessWithError) && !Shows(r, WrongTlsVersion);
      assert !Shows(r, ClaimsPqOnClassical) && !Shows(r, PqNotClaimed) && !Shows(r, ClaimsHybridOnOther);
      assert !Shows(r, HybridWithoutPq) && !Shows(r, ClaimsPqAuthentication) && !Shows(r, Downgrade);
    }
  }

  // ---------------------------------------------------------------- the two classifications agree

  lemma LowerOfHybridNames()
    ensures Lower(HYBRID_GROUPS[0]) == "x25519mlkem768"
    ensures Lower(HYBRID_GROUPS[1]) == "secp256r1mlkem768"
    ensures Lower(HYBRID_GROUPS[2]) == "secp384r1mlkem1024"
  {
  }

  lemma LowerOfPureNames()
    ensures Lower(PURE_MLKEM_GROUPS[0]) == "mlkem512"
    ensures Lower(PURE_MLKEM_GROUPS[1]) == "mlkem768"
    ensures Lower(PURE_MLKEM_GROUPS[2]) == "mlkem1024"
  {
  }

  /** The C++ lists compared ignoring case and the Python sets of lower-case names classify every name alike. */
  lemma ClassifiersAgree(group: string)
    ensures IsHybrid(group) <==> Lower(group) in PY_HYBRID_GROUPS
    ensures IsPostQuantum(group) <==> Lower(group) in PY_PQ_GROUPS
  {
    hide Lower;
    LowerOfHybridNames();
    LowerOfPureNames();
    ThreeNames(HYBRID_GROUPS, group);
    ThreeNames(PURE_MLKEM_GROUPS, group);
  }

  lemma ThreeNames(names: seq<string>, group: string)
    requires |names| == 3
    ensures ContainsIgnoringCase(names, group) <==>
            Lower(group) == Lower(names[0]) || Lower(group) == Lower(names[1]) || Lower(group) == Lower(names[2])
  {
    hide Lower;
    assert SameIgnoringCase(names[0], group) <==> Lower(group) == Lower(names[0]);
    assert SameIgnoringCase(names[1], group) <==> Lower(group) == Lower(names[1]);
    assert SameIgnoringCase(names[2], group) <==> Lower(group) == Lower(names[2]);
  }

  // ---------------------------------------------------------------- signature markers

  /** What the client looks for in the peer's signature algorithm. */
  predicate ClientSeesPqSignature(sig: string) {
    HasSubstring(sig, "mldsa") || HasSubstring(sig, "ML-DSA") || HasSubstring(sig, "dilithium")
  }

  lemma SubstringSurvivesLowering(s: string, sub: string)
    requires HasSubstring(s, sub)
    ensures HasSubstring(Lower(s), Lower(sub))
  {
    var i :| 0 <= i <= |s| && OccursAt(s, sub, i);
    assert OccursAt(Lower(s), Lower(sub), i);
  }

  lemma LowerOfMarkers()
    ensures Lower("mldsa") == "mldsa" && Lower("ML-DSA") == "ml-dsa" && Lower("dilithium") == "dilithium"
    ensures Lower("ml-dsa-65") == "ml-dsa-65"
    ensures HasSubstring("ml-dsa-65", "ml-dsa")
  {
    assert OccursAt("ml-dsa-65", "ml-dsa", 0);
  }

  /** Whatever signature the client classifies as post-quantum, the validator's marker list accepts. */
  lemma ClientSignatureIsMarked(sig: string)
    requires ClientSeesPqSignature(sig)
    ensures HasPqSignatureMarker(Lower(sig))
  {
    hide Lower;
    LowerOfMarkers();
    if HasSubstring(sig, "mldsa") {
      SubstringSurvivesLowering(sig, "mldsa");
    } else if HasSubstring(sig, "ML-DSA") {
      SubstringSurvivesLowering(sig, "ML-DSA");
    } else {
      SubstringSurvivesLowering(sig, "dilithium");
    }
  }

  // ---------------------------------------------------------------- honest records

  /** What both peers guarantee about a record they write for profile `p`, on success and on every failure. */
  predicate Honest(p: Definition, m: Metrics) {
    && m.requestedProfile == p.id
    && (m.pqKeyEstablishment <==> IsPostQuantum(m.negotiatedGroup))
    && (m.hybridKeyEstablishment <==> IsHybrid(m.negotiatedGroup))
    && (m.pqAuthentication ==> HasPqSignatureMarker(Lower(m.authentication)))
    && (m.success ==> m.errorCategory == NoError && PermitsNegotiatedGroup(p, m.negotiatedGroup))
    && (!m.success ==> m.errorCategory != NoError)
  }

  /**
    An honest record of a TLS 1.3 connection has no semantic problem, except the downgrade report, and that one exactly
    when a profile whose id promises post-quantum protection permitted a classical group.
    */
  lemma HonestRecordsPass(p: Definition, m: Metrics)
    requires Honest(p, m) && (m.success ==> m.tlsVersion == "TLSv1.3")
    ensures SemanticCheck(ToJsonRecord(m)) ==
            if m.success && PromisesPostQuantum(p.id) && !IsPostQuantum(m.negotiatedGroup) then [Downgrade] else []
  {
    hide IsHybrid, IsPostQuantum, HasPqSignatureMarker, PromisesPostQuantum, Lower, ContainsIgnoringCase;
    ClassifiersAgree(m.negotiatedGroup);
    HybridIsPostQuantum(m.negotiatedGroup);
    LowerKeepsLength(m.negotiatedGroup);
    LowerKeepsLength(m.authentication);
  }

  lemma HybridIsPostQuantum(group: string)
    ensures IsHybrid(group) ==> IsPostQuantum(group)
  {
  }

  lemma LowerKeepsLength(s: string)
    ensures Lower(s) == "" <==> s == ""
  {
    assert |Lower(s)| == |s|;
  }

  /** A successful TLS 1.3 record that a peer running profile `p` could write. */
  predicate PossibleSuccess(p: Definition, m: Metrics) {
    Honest(p, m) && m.success && m.tlsVersion == "TLSv1.3"
  }

  function SuccessWith(p: Definition, group: string): Metrics {
    BLANK.(requestedProfile := p.id, tlsVersion := "TLSv1.3", negotiatedGroup := group, success := true,
           pqKeyEstablishment := IsPostQuantum(group), hybridKeyEstablishment := IsHybrid(group))
  }

  /** The id makes no post-quantum promise, or every group that can be negotiated is post-quantum. */
  predicate KeepsItsPromise(p: Definition) {
    PromisesPostQuantum(p.id) ==> !CanNegotiateClassical(p)
  }

  /** Under such a profile every honest record passes, of a successful TLS 1.3 connection or of a failed one. */
  lemma RecordsPass(p: Definition, m: Metrics)
    requires IsProfile(p) && KeepsItsPromise(p)
    requires Honest(p, m) && (m.success ==> m.tlsVersion == "TLSv1.3")
    ensures SemanticCheck(ToJsonRecord(m)) == []
  {
    hide SemanticCheck, IsHybrid, IsPostQuantum, HasPqSignatureMarker, ToJsonRecord, PermitsNegotiatedGroup, IsProfile;
    AlwaysPostQuantumExactlyWhen(p);
    HonestRecordsPass(p, m);
  }

  /**
    Profile by profile: every successful record passes the validator if and only if the profile's id makes no
    post-quantum promise or every group it lists is post-quantum. `create` accepts profiles on both sides.
    */
  lemma CleanExactlyWhen(p: Definition)
    requires IsProfile(p)
    ensures (forall m :: PossibleSuccess(p, m) ==> SemanticCheck(ToJsonRecord(m)) == [])
            <==> KeepsItsPromise(p)
  {
    hide SemanticCheck, IsHybrid, IsPostQuantum, HasPqSignatureMarker, ToJsonRecord;
    AlwaysPostQuantumExactlyWhen(p);
    if KeepsItsPromise(p) {
      forall m | PossibleSuccess(p, m) ensures SemanticCheck(ToJsonRecord(m)) == [] {
        HonestRecordsPass(p, m);
      }
    } else {
      var group :| PermitsNegotiatedGroup(p, group) && !IsPostQuantum(group);
      var m := SuccessWith(p, group);
      HonestRecordsPass(p, m);
      assert PossibleSuccess(p, m);
    }
  }

  const MISNAMED: Definition :=
    Definition("hybrid-x", "d", ["x25519"], ["TLS_AES_128_GCM_SHA256"], EcdsaP256, false, false, false)

  /** The failing family is inhabited: a profile accepted by `create` whose records the validator reports. */
  lemma MisnamedProfile()
    ensures var p := MISNAMED; IsProfile(p) && PromisesPostQuantum(p.id) && CanNegotiateClassical(p)
    ensures !OffersPostQuantum(MISNAMED) && !MISNAMED.allowClassicalFallback
    ensures PermitsNegotiatedGroup(MISNAMED, "x25519") && !IsPostQuantum("x25519")
    ensures !(forall m :: PossibleSuccess(MISNAMED, m) ==> SemanticCheck(ToJsonRecord(m)) == [])
  {
    var p := MISNAMED;
    assert p.groups[0] == "x25519";
    ClassicalX25519();
    assert (set g | g in p.groups) == {"x25519"};
    assert StartsWith("TLS_AES_128_GCM_SHA256", "TLS_");
    assert !StartsWith("x25519", "TLS_") by { assert "x25519"[0] != "TLS_"[0]; }
    assert Create(p) == Ok(p);
    assert StartsWith("hybrid-x", "hybrid-");
    CleanExactlyWhen(p);
    assert SameIgnoringCase(p.groups[0], "x25519");
    PermitsExactlyTheListedGroups(p, "x25519");
  }

  lemma ClassicalX25519()
    ensures !IsPostQuantum("x25519")
  {
    ClassifiersAgree("x25519");
    assert |Lower("x25519")| == 6;
    assert forall g :: g in PY_PQ_GROUPS ==> |g| > 6;
  }
}
