/**
  From a connection to the analyser's report: what the separately written parts guarantee together. Each peer's code
  fills in a record, the validator checks it knowing nothing of that code, and the analyser groups and warns.
  */
module EndToEnd {
  import opened Profiles
  import opened Records
  import opened Messages
  import opened Sessions
  import opened Builtin
  import opened Analysis
  import opened Structure
  import Uuid
  import Prelude

  /** OpenSSL negotiates nothing but TLS 1.3, as both contexts demand. */
  predicate Tls13Only(env: Environment) {
    env.handshake.Completed? ==> env.handshake.outcome.tlsVersion == "TLSv1.3"
  }

  /** No clock runs backwards. */
  predicate Measured(t: Timing) {
    t.handshakeMs >= 0.0 && t.connectionMs >= 0.0
  }

  /** Both halves of the validator accept the record of `m`. */
  predicate Passes(m: Metrics, t: Timing) {
    SemanticCheck(ToJsonRecord(m)) == [] && StructurallySound(ToJsonFields(m, t))
  }

  /** Whatever happens to a connection, the record the client writes for it passes the validator. */
  method ClientRecordPasses(config: Config, profile: Definition, env: Environment, messages: seq<Message>,
                            codec: TextCodec, octets: seq<Prelude.byte>, t: Timing)
    returns (m: Metrics)
    requires config.profileId == profile.id && IsProfile(profile) && KeepsItsPromise(profile) && Tls13Only(env)
    requires |octets| == 16 && Measured(t)
    ensures Passes(m, t)
    ensures m.requestedProfile == profile.id && m.role == Client
    ensures m.success ==> GatesPassed(config, profile, env, true)
  {
    hide SemanticCheck, StructurallySound, IsProfile, KeepsItsPromise, GatesPassed, Honest, Uuid.MatchesUuidV4;
    var id := Uuid.Generate(octets);
    var responses, link;
    ghost var frames;
    m, responses, link, frames := RunOnce(config, profile, env, messages, codec, id);
    assert m.success ==> env.handshake.Completed? by {
      GatesNeedAHandshake(config, profile, env, true);
    }
    RecordsPass(profile, m);
    SoundExactlyWhen(m, t);
    HonestNamesItsProfile(profile, m);
  }

  /** The same for the server. */
  method ServerRecordPasses(config: Config, profile: Definition, env: Environment, codec: TextCodec,
                            octets: seq<Prelude.byte>, t: Timing)
    returns (m: Metrics)
    requires config.profileId == profile.id && IsProfile(profile) && KeepsItsPromise(profile) && Tls13Only(env)
    requires |octets| == 16 && Measured(t)
    ensures Passes(m, t)
    ensures m.requestedProfile == profile.id && m.role == Server
    ensures m.success ==> GatesPassed(config, profile, env, WantsCertificate(config, profile))
  {
    hide SemanticCheck, StructurallySound, IsProfile, KeepsItsPromise, GatesPassed, Honest, Uuid.MatchesUuidV4;
    var id := Uuid.Generate(octets);
    var link;
    ghost var frames;
    m, link, frames := HandleConnection(config, profile, env, codec, id);
    assert m.success ==> env.handshake.Completed? by {
      GatesNeedAHandshake(config, profile, env, WantsCertificate(config, profile));
    }
    RecordsPass(profile, m);
    SoundExactlyWhen(m, t);
    HonestNamesItsProfile(profile, m);
  }

  lemma GatesNeedAHandshake(config: Config, profile: Definition, env: Environment, requireCertificate: bool)
    ensures GatesPassed(config, profile, env, requireCertificate) ==> env.handshake.Completed?
  {
  }

  lemma HonestNamesItsProfile(p: Definition, m: Metrics)
    requires Honest(p, m)
    ensures m.requestedProfile == p.id
  {
  }

  /** An entry of a results file written by a peer running a built-in profile. */
  ghost predicate FromBuiltinPeer(e: Entry) {
    exists k: nat, m: Metrics :: BuiltinRecord(e, k, m)
  }

  predicate BuiltinRecord(e: Entry, k: nat, m: Metrics) {
    && k < |CATALOGUE|
    && Honest(CATALOGUE[k], m)
    && (m.success ==> m.tlsVersion == "TLSv1.3")
    && e.record == ToJsonRecord(m)
  }

  /** Results of built-in profiles, from either peer, never make the analyser warn, however they are grouped. */
  lemma BuiltinPeersNeverWarn(entries: seq<Entry>, fields: seq<string>, rows: seq<GroupSummary>, i: nat)
    requires forall e :: e in entries ==> FromBuiltinPeer(e)
    requires IsReport(entries, fields, rows) && i < |rows|
    ensures |rows[i].key| == |fields| && !Warns(rows[i], fields)
  {
    hide SemanticCheck, IsReport, Warns, Honest, ToJsonRecord, IsProfile, KeepsItsPromise;
    forall e | e in entries ensures SemanticCheck(e.record) == [] {
      var k: nat, m: Metrics :| BuiltinRecord(e, k, m);
      CatalogueKeepsItsPromises(k);
      RecordsPass(CATALOGUE[k], m);
    }
    AcceptedRecordsNeverWarn(entries, fields, rows, i);
  }

  // ---------------------------------------------------------------- a whole campaign

  /** One connection of a campaign, on either peer, with everything the outside contributes to it. */
  datatype Trial = Trial(
    role: Role,
    config: Config,
    env: Environment,
    messages: seq<Message>,
    octets: seq<Prelude.byte>,
    timing: Timing,
    otherFields: map<string, string>)

  predicate Proper(trial: Trial) {
    Tls13Only(trial.env) && |trial.octets| == 16 && Measured(trial.timing)
  }

  /** The line of the results file for a record, as the analyser reads it. */
  function EntryOf(m: Metrics, trial: Trial): Entry {
    var t := trial.timing;
    Entry(ToJsonRecord(m), m.sessionReused, Prelude.Some(t.handshakeMs), Prelude.Some(t.connectionMs),
          trial.otherFields)
  }

  /** The record of a trial: there is one exactly for a known profile, it is the trial's, and both checks accept it. */
  predicate Recorded(trial: Trial, record: Prelude.Option<Metrics>) {
    && (record.Some? <==> FindIn(CATALOGUE, trial.config.profileId).Some?)
    && (record.Some? ==> && record.value.requestedProfile == trial.config.profileId
                         && record.value.role == trial.role
                         && Passes(record.value, trial.timing))
  }

  /** One trial under a built-in profile; none if there is no profile of that id, since then no peer can be made. */
  method RunTrial(trial: Trial, registry: ProfileRegistry, codec: TextCodec)
    returns (record: Prelude.Option<Metrics>, problems: seq<StructuralProblem>)
    requires Proper(trial) && registry.Valid() && registry.profiles == CATALOGUE
    ensures Recorded(trial, record) && problems == []
  {
    hide SemanticCheck, IsProfile, KeepsItsPromise, GatesPassed, ToJsonRecord, Tls13Only, ToJsonFields;
    hide FieldProblems, OtherProblems;
    record, problems := Prelude.None, [];
    FindInMeaning(CATALOGUE, trial.config.profileId);
    var profile := registry.Find(trial.config.profileId);
    if profile.None? {
      return;
    }
    ghost var k: nat :| k < |CATALOGUE| && CATALOGUE[k] == profile.value;
    CatalogueKeepsItsPromises(k);
    var m;
    if trial.role == Client {
      m := ClientRecordPasses(trial.config, profile.value, trial.env, trial.messages, codec, trial.octets,
                              trial.timing);
    } else {
      m := ServerRecordPasses(trial.config, profile.value, trial.env, codec, trial.octets, trial.timing);
    }
    record := Prelude.Some(m);
    problems := StructuralCheck(ToJsonFields(m, trial.timing));
  }

  /** The results file: one line for each record, in order. */
  function EntriesOf(trials: seq<Trial>, records: seq<Prelude.Option<Metrics>>): seq<Entry>
    requires |trials| == |records|
  {
    if trials == [] then []
    else
      var k := |trials| - 1;
      EntriesOf(trials[..k], records[..k]) + (if records[k].Some? then [EntryOf(records[k].value, trials[k])] else [])
  }

  lemma {:induction false} EntriesPass(trials: seq<Trial>, records: seq<Prelude.Option<Metrics>>, e: Entry)
    requires |trials| == |records| && forall i :: 0 <= i < |trials| ==> Recorded(trials[i], records[i])
    requires e in EntriesOf(trials, records)
    ensures SemanticCheck(e.record) == []
  {
    hide SemanticCheck, StructurallySound, FindIn;
    var k := |trials| - 1;
    if records[k].Some? && e == EntryOf(records[k].value, trials[k]) {
      assert Recorded(trials[k], records[k]);
    } else {
      EntriesPass(trials[..k], records[..k], e);
    }
  }

  lemma EntriesSnoc(trials: seq<Trial>, records: seq<Prelude.Option<Metrics>>, trial: Trial,
                    record: Prelude.Option<Metrics>)
    requires |trials| == |records|
    ensures EntriesOf(trials + [trial], records + [record])
            == EntriesOf(trials, records) + (if record.Some? then [EntryOf(record.value, trial)] else [])
  {
    hide EntryOf;
    assert (trials + [trial])[..|trials|] == trials && (records + [record])[..|records|] == records;
  }

  /**
    End to end: any number of connections of either peer under built-in profiles, whatever the network, the peers and
    OpenSSL do, then the analyser. Each trial has its record, both halves of the validator accept it, the report is that
    of exactly these records, and no row of it warns, for any grouping.
    */
  method Campaign(trials: seq<Trial>, codec: TextCodec, fields: seq<string>)
    returns (records: seq<Prelude.Option<Metrics>>, rows: seq<GroupSummary>)
    requires forall i :: 0 <= i < |trials| ==> Proper(trials[i])
    ensures |records| == |trials| && forall i :: 0 <= i < |trials| ==> Recorded(trials[i], records[i])
    ensures IsReport(EntriesOf(trials, records), fields, rows)
    ensures forall i :: 0 <= i < |rows| ==> |rows[i].key| == |fields| && !Warns(rows[i], fields)
  {
    hide SemanticCheck, IsReport, Warns, Proper, Recorded, EntryOf, EntriesOf;
    var registry := BuiltinRegistry();
    records := [];
    var entries := [];
    NoEntries();
    for i := 0 to |trials|
      invariant registry.Valid() && registry.profiles == CATALOGUE
      invariant |records| == i && forall k :: 0 <= k < i ==> Recorded(trials[k], records[k])
      invariant entries == EntriesOf(trials[..i], records)
    {
      var record, problems := RunTrial(trials[i], registry, codec);
      EntriesSnoc(trials[..i], records, trials[i], record);
      assert trials[..i + 1] == trials[..i] + [trials[i]];
      records := records + [record];
      if record.Some? {
        entries := entries + [EntryOf(record.value, trials[i])];
      }
    }
    assert trials[..|trials|] == trials;
    rows := Summarise(entries, fields);
    forall e | e in entries ensures SemanticCheck(e.record) == [] {
      EntriesPass(trials, records, e);
    }
    forall i | 0 <= i < |rows| ensures |rows[i].key| == |fields| && !Warns(rows[i], fields) {
      AcceptedRecordsNeverWarn(entries, fields, rows, i);
    }
  }

  lemma NoEntries()
    ensures EntriesOf([], []) == []
  {
  }

  // ---------------------------------------------------------------- a profile that breaks its promise

  /** The client itself returns a record that the validator reports, under a profile that `create` accepts. */
  method MisnamedRun(codec: TextCodec, octets: seq<Prelude.byte>) returns (m: Metrics)
    requires |octets| == 16
    ensures m.success && m.requestedProfile == MISNAMED.id && m.cipherSuite == MISNAMED.cipherSuites[0]
    ensures SemanticCheck(ToJsonRecord(m)) == [Downgrade]
  {
    hide SemanticCheck, PermitsNegotiatedGroup, IsProfile, IsPostQuantum, PromisesPostQuantum, Honest, Create;
    MisnamedProfile();
    var outcome := HandshakeOutcome("TLSv1.3", "x25519", MISNAMED.cipherSuites[0], "", false);
    var env := Environment(Prelude.None, Completed(outcome), true, true, [], (_, _) => 1, _ => Prelude.Internal,
                           _ => false, _ => "", _ => "", _ => "");
    var config := Config(MISNAMED.id, false, 1024, 1, false);
    var id := Uuid.Generate(octets);
    var responses, link;
    ghost var frames;
    m, responses, link, frames := RunOnce(config, MISNAMED, env, [], codec, id);
    HonestNamesItsProfile(MISNAMED, m);
    HonestRecordsPass(MISNAMED, m);
  }
}
