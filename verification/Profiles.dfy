/**
  Security profiles: group classification, construction-time validation, the run-time group check
  and the profile registry.
  */
module Profiles {
  import opened Prelude

  // ---------------------------------------------------------------- comparison ignoring ASCII case

  function LowerChar(c: char): char {
    if 'A' <= c <= 'Z' then c + 32 as char else c
  }

  function Lower(s: string): (r: string)
    ensures |r| == |s|
    ensures forall i :: 0 <= i < |s| ==> r[i] == LowerChar(s[i])
  {
    seq(|s|, i requires 0 <= i < |s| => LowerChar(s[i]))
  }

  predicate SameIgnoringCase(a: string, b: string) {
    Lower(a) == Lower(b)
  }

  /** `iequals`: the loop of the source decides equality of the lower-cased strings. */
  method IEquals(a: string, b: string) returns (r: bool)
    ensures r <==> SameIgnoringCase(a, b)
  {
    if |a| != |b| {
      return false;
    }
    var i := 0;
    while i < |a|
      invariant 0 <= i <= |a|
      invariant forall k :: 0 <= k < i ==> LowerChar(a[k]) == LowerChar(b[k])
    {
      if LowerChar(a[i]) != LowerChar(b[i]) {
        assert Lower(a)[i] != Lower(b)[i];
        return false;
      }
      i := i + 1;
    }
    return true;
  }

  predicate ContainsIgnoringCase(haystack: seq<string>, needle: string) {
    exists i :: 0 <= i < |haystack| && SameIgnoringCase(haystack[i], needle)
  }

  // ---------------------------------------------------------------- group classification

  const HYBRID_GROUPS: seq<string> := ["X25519MLKEM768", "SecP256r1MLKEM768", "SecP384r1MLKEM1024"]
  const PURE_MLKEM_GROUPS: seq<string> := ["MLKEM512", "MLKEM768", "MLKEM1024"]

  predicate IsHybrid(group: string) {
    ContainsIgnoringCase(HYBRID_GROUPS, group)
  }

  predicate IsPostQuantum(group: string) {
    IsHybrid(group) || ContainsIgnoringCase(PURE_MLKEM_GROUPS, group)
  }

  /** The classifiers cannot tell apart what the comparison identifies. */
  lemma ClassifiersRespectCase(a: string, b: string)
    requires SameIgnoringCase(a, b)
    ensures IsHybrid(a) <==> IsHybrid(b)
    ensures IsPostQuantum(a) <==> IsPostQuantum(b)
  {
    ContainsRespectsCase(HYBRID_GROUPS, a, b);
    ContainsRespectsCase(PURE_MLKEM_GROUPS, a, b);
  }

  lemma ContainsRespectsCase(haystack: seq<string>, a: string, b: string)
    requires SameIgnoringCase(a, b)
    ensures ContainsIgnoringCase(haystack, a) <==> ContainsIgnoringCase(haystack, b)
  {
    assert forall i :: 0 <= i < |haystack| ==> (SameIgnoringCase(haystack[i], a) <==> SameIgnoringCase(haystack[i], b));
  }

  // ---------------------------------------------------------------- profiles

  datatype AuthenticationType = EcdsaP256 | EcdsaP384 | MlDsa65

  function AuthenticationName(t: AuthenticationType): string {
    match t
    case EcdsaP256 => "ecdsa-p256"
    case EcdsaP384 => "ecdsa-p384"
    case MlDsa65 => "ml-dsa-65"
  }

  /** `authentication_type_from_string`: the name in either case throughout, and nothing in between. */
  function AuthenticationFromName(name: string): Option<AuthenticationType> {
    if name == "ecdsa-p256" || name == "ECDSA-P256" then Some(EcdsaP256)
    else if name == "ecdsa-p384" || name == "ECDSA-P384" then Some(EcdsaP384)
    else if name == "ml-dsa-65" || name == "ML-DSA-65" then Some(MlDsa65)
    else None
  }

  /** A type is read back from its name, and only names that are its name up to case are read as it. */
  lemma AuthenticationNamesRoundTrip(t: AuthenticationType, name: string)
    ensures AuthenticationFromName(AuthenticationName(t)) == Some(t)
    ensures AuthenticationFromName(name) == Some(t) ==> SameIgnoringCase(name, AuthenticationName(t))
  {
    assert SameIgnoringCase("ECDSA-P256", "ecdsa-p256") && SameIgnoringCase("ECDSA-P384", "ecdsa-p384");
    assert SameIgnoringCase("ML-DSA-65", "ml-dsa-65");
  }

  predicate IsPostQuantumAuthentication(t: AuthenticationType) {
    t == MlDsa65
  }

  datatype Definition = Definition(
    id: string,
    description: string,
    groups: seq<string>,
    cipherSuites: seq<string>,
    authentication: AuthenticationType,
    requireClientCertificate: bool,
    allowClassicalFallback: bool,
    experimental: bool)

  const DEFAULT_CIPHER_SUITES: seq<string> :=
    ["TLS_AES_256_GCM_SHA384", "TLS_CHACHA20_POLY1305_SHA256", "TLS_AES_128_GCM_SHA256"]

  predicate StartsWith(s: string, prefix: string) {
    prefix <= s
  }

  predicate AnyPostQuantum(groups: seq<string>) {
    exists i :: 0 <= i < |groups| && IsPostQuantum(groups[i])
  }

  predicate AnyClassical(groups: seq<string>) {
    exists i :: 0 <= i < |groups| && !IsPostQuantum(groups[i])
  }

  predicate AnyPurePostQuantum(groups: seq<string>) {
    exists i :: 0 <= i < |groups| && IsPostQuantum(groups[i]) && !IsHybrid(groups[i])
  }

  /** `SecurityProfile::create`: fill defaults, then validate, in the source's order. */
  function Create(d: Definition): Result<Definition> {
    if d.id == "" then Err(Configuration)
    else if d.groups == [] then Err(Configuration)
    else if |set g | g in d.groups| != |d.groups| then Err(Configuration)
    else
      var suites := if d.cipherSuites == [] then DEFAULT_CIPHER_SUITES else d.cipherSuites;
      if exists s :: s in suites && !StartsWith(s, "TLS_") then Err(Configuration)
      else if exists g :: g in d.groups && StartsWith(g, "TLS_") then Err(Configuration)
      else if AnyPostQuantum(d.groups) && AnyClassical(d.groups) && !d.allowClassicalFallback then Err(Configuration)
      else if AnyPurePostQuantum(d.groups) && !d.experimental then Err(Configuration)
      else if d.authentication == MlDsa65 && !d.experimental then Err(Configuration)
      else
        var description := if d.description == "" then d.id else d.description;
        Ok(d.(cipherSuites := suites, description := description))
  }

  /** `p` is a profile some call of `create` returned; a profile has no other origin. */
  ghost predicate IsProfile(p: Definition) {
    exists d :: Create(d) == Ok(p)
  }

  predicate AllDistinct(names: seq<string>) {
    forall i, j :: 0 <= i < j < |names| ==> names[i] != names[j]
  }

  /** The size test of the source detects exactly the lists with a repetition. */
  lemma {:induction false} SetSizeDetectsRepetition(names: seq<string>)
    ensures |set g | g in names| == |names| <==> AllDistinct(names)
    ensures |set g | g in names| <= |names|
  {
    if names == [] {
    } else {
      var init, last := names[..|names| - 1], names[|names| - 1];
      SetSizeDetectsRepetition(init);
      assert names == init + [last];
      assert (set g | g in names) == (set g | g in init) + {last};
      if last in init {
        assert (set g | g in names) == (set g | g in init);
      }
    }
  }

  /** What every profile satisfies, said of the finished value. */
  predicate WellMade(p: Definition) {
    && p.id != "" && p.description != ""
    && p.groups != [] && AllDistinct(p.groups)
    && p.cipherSuites != []
    && (forall s :: s in p.cipherSuites ==> StartsWith(s, "TLS_"))
    && (forall g :: g in p.groups ==> !StartsWith(g, "TLS_"))
    && (AnyPostQuantum(p.groups) ==> p.allowClassicalFallback || !AnyClassical(p.groups))
    && (AnyPurePostQuantum(p.groups) || p.authentication == MlDsa65 ==> p.experimental)
  }

  /** Profiles are exactly the well-made definitions, and validating one again changes nothing. */
  lemma ProfilesAreWellMade(p: Definition)
    ensures IsProfile(p) <==> WellMade(p)
    ensures IsProfile(p) <==> Create(p) == Ok(p)
  {
    hide IsPostQuantum, IsHybrid, AnyPostQuantum, AnyClassical, AnyPurePostQuantum, AllDistinct;
    SetSizeDetectsRepetition(p.groups);
    DefaultSuitesAreSuites();
    if IsProfile(p) {
      var d :| Create(d) == Ok(p);
      assert d.groups == p.groups;
    }
  }

  /** An empty list of cipher suites and an empty description are filled in, and nothing else is touched. */
  function WithDefaults(d: Definition): Definition {
    d.(cipherSuites := if d.cipherSuites == [] then DEFAULT_CIPHER_SUITES else d.cipherSuites,
       description := if d.description == "" then d.id else d.description)
  }

  /** Every definition is accepted as it stands, up to the defaults, or refused as a configuration error. */
  lemma CreateAcceptsExactly(d: Definition)
    ensures Create(d).Ok? <==> WellMade(WithDefaults(d))
    ensures Create(d).Ok? ==> Create(d).value == WithDefaults(d)
    ensures Create(d).Err? ==> Create(d) == Err(Configuration)
  {
    hide IsPostQuantum, IsHybrid, AnyPostQuantum, AnyClassical, AnyPurePostQuantum, AllDistinct;
    SetSizeDetectsRepetition(d.groups);
    DefaultSuitesAreSuites();
  }

  lemma DefaultSuitesAreSuites()
    ensures forall s :: s in DEFAULT_CIPHER_SUITES ==> StartsWith(s, "TLS_")
  {
  }

  predicate OffersPostQuantum(p: Definition) {
    AnyPostQuantum(p.groups)
  }

  predicate PermitsNegotiatedGroup(p: Definition, group: string) {
    if group == "" then false
    else if !ContainsIgnoringCase(p.groups, group) then false
    else if !p.allowClassicalFallback && !IsPostQuantum(group) && OffersPostQuantum(p) then false
    else true
  }

  /**
    For every profile the run-time check is membership in the configured list, ignoring case:
    construction already rules out what the separate fallback test would reject.
    */
  lemma PermitsExactlyTheListedGroups(p: Definition, group: string)
    requires IsProfile(p)
    ensures PermitsNegotiatedGroup(p, group) <==> group != "" && ContainsIgnoringCase(p.groups, group)
  {
    if group != "" && ContainsIgnoringCase(p.groups, group) && !IsPostQuantum(group) && OffersPostQuantum(p) {
      var i :| 0 <= i < |p.groups| && SameIgnoringCase(p.groups[i], group);
      ClassifiersRespectCase(p.groups[i], group);
      assert AnyClassical(p.groups);
    }
  }

  /** If the profile offers a post-quantum group and forbids fallback, only post-quantum groups pass the check. */
  lemma NoDowngrade(p: Definition, group: string)
    requires IsProfile(p) && PermitsNegotiatedGroup(p, group)
    requires OffersPostQuantum(p) && !p.allowClassicalFallback
    ensures IsPostQuantum(group)
    ensures forall i :: 0 <= i < |p.groups| ==> IsPostQuantum(p.groups[i])
  {
    assert !AnyClassical(p.groups);
  }

  /** The profile lists a group that can be negotiated and is not post-quantum. */
  predicate CanNegotiateClassical(p: Definition) {
    exists i :: 0 <= i < |p.groups| && p.groups[i] != "" && !IsPostQuantum(p.groups[i])
  }

  /**
    Every permitted connection of a profile is post-quantum exactly when every listed group is.
    The flags of the profile do not enter: a classical-only profile that forbids fallback is accepted.
    */
  lemma AlwaysPostQuantumExactlyWhen(p: Definition)
    requires IsProfile(p)
    ensures (forall group :: PermitsNegotiatedGroup(p, group) ==> IsPostQuantum(group)) <==> !CanNegotiateClassical(p)
  {
    if !CanNegotiateClassical(p) {
      forall group | PermitsNegotiatedGroup(p, group)
        ensures IsPostQuantum(group)
      {
        var i :| 0 <= i < |p.groups| && SameIgnoringCase(p.groups[i], group);
        assert |Lower(p.groups[i])| == |Lower(group)|;
        ClassifiersRespectCase(p.groups[i], group);
      }
    } else {
      var i :| 0 <= i < |p.groups| && p.groups[i] != "" && !IsPostQuantum(p.groups[i]);
      assert SameIgnoringCase(p.groups[i], p.groups[i]);
      PermitsExactlyTheListedGroups(p, p.groups[i]);
    }
  }

  // ---------------------------------------------------------------- registry

  predicate UniqueIds(profiles: seq<Definition>) {
    forall i, j :: 0 <= i < j < |profiles| ==> profiles[i].id != profiles[j].id
  }

  /** The profile that `find` returns: the first with that id. */
  function FindIn(profiles: seq<Definition>, id: string): Option<Definition> {
    if profiles == [] then None
    else if profiles[0].id == id then Some(profiles[0])
    else FindIn(profiles[1..], id)
  }

  lemma {:induction false} FindInMeaning(profiles: seq<Definition>, id: string)
    ensures FindIn(profiles, id).Some? ==> FindIn(profiles, id).value in profiles && FindIn(profiles, id).value.id == id
    ensures FindIn(profiles, id).None? <==> forall i :: 0 <= i < |profiles| ==> profiles[i].id != id
  {
    if profiles == [] {
    } else {
      FindInMeaning(profiles[1..], id);
      if profiles[0].id != id && FindIn(profiles, id).None? {
        forall i | 0 <= i < |profiles| ensures profiles[i].id != id {
          if i > 0 {
            assert profiles[i] == profiles[1..][i - 1];
          }
        }
      }
    }
  }

  lemma UniqueFind(profiles: seq<Definition>, k: nat)
    requires UniqueIds(profiles) && k < |profiles|
    ensures FindIn(profiles, profiles[k].id) == Some(profiles[k])
  {
    if k > 0 {
      UniqueFind(profiles[1..], k - 1);
    }
  }

  /** Replacing the entry of the same id, or appending where there is none, keeps ids unique. */
  lemma PlacedKeepsIds(profiles: seq<Definition>, i: nat, profile: Definition)
    requires UniqueIds(profiles) && i <= |profiles|
    requires if i < |profiles| then profiles[i].id == profile.id
             else forall k :: 0 <= k < |profiles| ==> profiles[k].id != profile.id
    ensures UniqueIds(if i < |profiles| then profiles[i := profile] else profiles + [profile])
  {
  }

  class ProfileRegistry {
    var profiles: seq<Definition>

    /** What every registry keeps: only validated profiles, one per id. */
    ghost predicate Valid()
      reads this
    {
      UniqueIds(profiles) && forall i :: 0 <= i < |profiles| ==> IsProfile(profiles[i])
    }

    constructor Empty()
      ensures Valid() && profiles == []
    {
      profiles := [];
    }

    method Find(id: string) returns (r: Option<Definition>)
      requires Valid()
      ensures r == FindIn(profiles, id)
      ensures r.Some? ==> IsProfile(r.value) && r.value.id == id
    {
      FindInMeaning(profiles, id);
      var i := 0;
      while i < |profiles|
        invariant 0 <= i <= |profiles|
        invariant forall k :: 0 <= k < i ==> profiles[k].id != id
      {
        if profiles[i].id == id {
          UniqueFind(profiles, i);
          return Some(profiles[i]);
        }
        i := i + 1;
      }
      r := None;
    }

    /** `add_or_replace` updates in place: the new profile is found under its id, every other id as before. */
    method AddOrReplace(profile: Definition)
      requires Valid() && IsProfile(profile)
      modifies this
      ensures Valid()
      ensures FindIn(profiles, profile.id) == Some(profile)
      ensures forall id :: id != profile.id ==> FindIn(profiles, id) == FindIn(old(profiles), id)
      ensures |profiles| == |old(profiles)| + (if FindIn(old(profiles), profile.id).None? then 1 else 0)
    {
      hide IsProfile, FindIn, UniqueIds;
      FindInMeaning(profiles, profile.id);
      var i: nat := 0;
      while i < |profiles| && profiles[i].id != profile.id
        invariant i <= |profiles|
        invariant forall k :: 0 <= k < i ==> profiles[k].id != profile.id
      {
        i := i + 1;
      }
      ghost var before := profiles;
      PlacedKeepsIds(profiles, i, profile);
      if i == |profiles| {
        profiles := profiles + [profile];
      } else {
        profiles := profiles[i := profile];
      }
      UniqueFind(profiles, i);
      forall id | id != profile.id
        ensures FindIn(profiles, id) == FindIn(before, id)
      {
        FindElsewhere(before, profiles, i, id);
      }
    }
  }

  /** Changing or appending position `k` does not affect lookups of ids that sit neither before nor after there. */
  lemma {:induction false} FindElsewhere(a: seq<Definition>, b: seq<Definition>, k: nat, id: string)
    requires k < |b| && |a| <= |b| && (|a| == |b| || (|b| == |a| + 1 && k == |a|))
    requires forall i :: 0 <= i < |a| && i != k ==> a[i] == b[i]
    requires b[k].id != id && (k < |a| ==> a[k].id != id)
    ensures FindIn(a, id) == FindIn(b, id)
  {
    if k > 0 {
      FindElsewhere(a[1..], b[1..], k - 1, id);
    } else if a != [] {
      assert a[1..] == b[1..];
    } else {
      assert b[1..] == [];
    }
  }
}
