/** The built-in profile catalogue: every entry passes validation and keeps the promise of its name. */
module Builtin {
  import opened Prelude
  import opened Profiles
  import opened Records

  const CATALOGUE: seq<Definition> := [
    Definition("classical-x25519", "Classical TLS 1.3 baseline using X25519 key establishment",
               ["X25519"], DEFAULT_CIPHER_SUITES, EcdsaP256, false, true, false),
    Definition("classical-p256", "Classical TLS 1.3 baseline using NIST P-256 key establishment",
               ["secp256r1"], DEFAULT_CIPHER_SUITES, EcdsaP256, false, true, false),
    Definition("hybrid-x25519-mlkem768",
               "Primary profile: hybrid X25519 + ML-KEM-768 key establishment, ECDSA P-256 authentication",
               ["X25519MLKEM768"], DEFAULT_CIPHER_SUITES, EcdsaP256, false, false, false),
    Definition("hybrid-p256-mlkem768", "Secondary profile: hybrid NIST P-256 + ML-KEM-768 key establishment",
               ["SecP256r1MLKEM768"], DEFAULT_CIPHER_SUITES, EcdsaP256, false, false, false),
    Definition("hybrid-p384-mlkem1024", "High-security experiment: hybrid P-384 + ML-KEM-1024, ECDSA P-384",
               ["SecP384r1MLKEM1024"], ["TLS_AES_256_GCM_SHA384"], EcdsaP384, false, false, false),
    Definition("pure-mlkem768",
               "EXPERIMENTAL: standalone ML-KEM-768 key establishment, no classical component. Disabled by default.",
               ["MLKEM768"], DEFAULT_CIPHER_SUITES, EcdsaP256, false, false, true),
    Definition("hybrid-pq-auth",
               "EXPERIMENTAL: hybrid X25519 + ML-KEM-768 key establishment with ML-DSA-65 authentication. "
               + "Capability-gated.",
               ["X25519MLKEM768"], DEFAULT_CIPHER_SUITES, MlDsa65, false, false, true)]

  /** What a one-group catalogue entry needs to pass `create`, given how its group is classified. */
  lemma OneGroupIsCreated(d: Definition, group: string)
    requires d.id != "" && d.description != "" && d.groups == [group] && !StartsWith(group, "TLS_")
    requires d.cipherSuites == DEFAULT_CIPHER_SUITES || d.cipherSuites == ["TLS_AES_256_GCM_SHA384"]
    requires d.experimental || (d.authentication != MlDsa65 && (IsHybrid(group) || !IsPostQuantum(group)))
    ensures Create(d) == Ok(d)
    ensures IsPostQuantum(group) ==> !CanNegotiateClassical(d)
  {
    hide IsHybrid, IsPostQuantum;
    assert d.groups[0] == group;
    assert (set g | g in d.groups) == {group};
    forall s | s in d.cipherSuites ensures StartsWith(s, "TLS_") {
    }
  }

  lemma Classified()
    ensures !IsPostQuantum("X25519") && !IsPostQuantum("secp256r1")
    ensures IsHybrid("X25519MLKEM768") && IsHybrid("SecP256r1MLKEM768") && IsHybrid("SecP384r1MLKEM1024")
    ensures IsPostQuantum("MLKEM768")
  {
    assert HYBRID_GROUPS[0] == "X25519MLKEM768" && HYBRID_GROUPS[1] == "SecP256r1MLKEM768";
    assert HYBRID_GROUPS[2] == "SecP384r1MLKEM1024" && PURE_MLKEM_GROUPS[1] == "MLKEM768";
    assert SameIgnoringCase("X25519MLKEM768", "X25519MLKEM768");
    ClassifiersAgree("X25519");
    ClassifiersAgree("secp256r1");
    assert |Lower("X25519")| == 6 && |Lower("secp256r1")| == 9;
    assert Lower("secp256r1")[0] == 's' && "mlkem1024"[0] == 'm';
    assert forall g :: g in PY_PQ_GROUPS ==> |g| > 6 && (|g| == 9 ==> g == "mlkem1024");
  }

  lemma NotSuites()
    ensures !StartsWith("X25519", "TLS_") && !StartsWith("secp256r1", "TLS_") && !StartsWith("X25519MLKEM768", "TLS_")
    ensures !StartsWith("SecP256r1MLKEM768", "TLS_") && !StartsWith("SecP384r1MLKEM1024", "TLS_")
    ensures !StartsWith("MLKEM768", "TLS_")
  {
    assert "TLS_"[0] == 'T';
    assert "X25519"[0] == 'X' && "secp256r1"[0] == 's' && "X25519MLKEM768"[0] == 'X';
    assert "SecP256r1MLKEM768"[0] == 'S' && "SecP384r1MLKEM1024"[0] == 'S' && "MLKEM768"[0] == 'M';
  }

  lemma EntryIsCreated(k: nat)
    requires k < |CATALOGUE|
    ensures Create(CATALOGUE[k]) == Ok(CATALOGUE[k])
    ensures IsPostQuantum(CATALOGUE[k].groups[0]) ==> !CanNegotiateClassical(CATALOGUE[k])
    ensures k >= 2 ==> IsPostQuantum(CATALOGUE[k].groups[0])
  {
    hide IsHybrid, IsPostQuantum, Create, StartsWith;
    Classified();
    HybridIsPostQuantum(CATALOGUE[k].groups[0]);
    NotSuites();
    OneGroupIsCreated(CATALOGUE[k], CATALOGUE[k].groups[0]);
  }

  lemma IdsAreDistinct()
    ensures UniqueIds(CATALOGUE)
  {
    assert |CATALOGUE[0].id| == 16 && |CATALOGUE[1].id| == 14 && |CATALOGUE[2].id| == 22 && |CATALOGUE[3].id| == 20;
    assert |CATALOGUE[4].id| == 21 && |CATALOGUE[5].id| == 13 && |CATALOGUE[6].id| == 14;
    assert CATALOGUE[1].id[0] == 'c' && CATALOGUE[6].id[0] == 'h';
  }

  lemma ClassicalIdsPromiseNothing()
    ensures !PromisesPostQuantum(CATALOGUE[0].id) && !PromisesPostQuantum(CATALOGUE[1].id)
  {
    assert CATALOGUE[0].id[0] == 'c' && CATALOGUE[1].id[0] == 'c';
    assert "hybrid-"[0] == 'h' && "pure-"[0] == 'p';
  }

  /** Every built-in profile is one that `create` accepts and keeps the promise its id makes. */
  lemma CatalogueKeepsItsPromises(k: nat)
    requires k < |CATALOGUE|
    ensures IsProfile(CATALOGUE[k]) && KeepsItsPromise(CATALOGUE[k])
  {
    hide Create, IsPostQuantum, PromisesPostQuantum, CanNegotiateClassical;
    EntryIsCreated(k);
    if k < 2 {
      ClassicalIdsPromiseNothing();
    }
  }

  /** `ProfileRegistry::builtin`: validate and append each entry. */
  method BuiltinRegistry() returns (registry: ProfileRegistry)
    ensures fresh(registry) && registry.Valid() && registry.profiles == CATALOGUE
  {
    hide Create, IsPostQuantum, CanNegotiateClassical;
    registry := new ProfileRegistry.Empty();
    IdsAreDistinct();
    for i := 0 to |CATALOGUE|
      invariant registry.profiles == CATALOGUE[..i]
      invariant forall k :: 0 <= k < i ==> IsProfile(CATALOGUE[k])
    {
      EntryIsCreated(i);
      var created := Create(CATALOGUE[i]);
      assert IsProfile(CATALOGUE[i]);
      registry.profiles := registry.profiles + [created.value];
    }
  }
}
