/**
  The analyser: grouping metrics records, counting and summarising each group, and the downgrade warning. Counts are
  specified by what they count, over all records of a group, and not by how the loops produce them.
  */
module Analysis {
  import opened Prelude
  import Profiles
  import opened Records
  import opened KeyOrder
  import Statistics

  /** One parsed line of a results file. `otherFields` holds the text of the fields that only a group key can read. */
  datatype Entry = Entry(
    record: Record,
    sessionReused: bool,
    handshakeMs: Option<real>,
    connectionMs: Option<real>,
    otherFields: map<string, string>)

  function FlagText(b: bool): string {
    if b then "True" else "False"
  }

  /** `str(record.get(field, ""))`. */
  function FieldText(e: Entry, field: string): string {
    var r := e.record;
    if field == "requested_profile" then r.requestedProfile
    else if field == "negotiated_group" then r.negotiatedGroup
    else if field == "role" then r.role
    else if field == "tls_version" then r.tlsVersion
    else if field == "authentication" then r.authentication
    else if field == "success" then FlagText(r.success)
    else if field == "error_category" then (if r.errorCategory.Some? then r.errorCategory.value else "None")
    else if field == "pq_key_establishment" then FlagText(r.pqKeyEstablishment)
    else if field == "hybrid_key_establishment" then FlagText(r.hybridKeyEstablishment)
    else if field == "pq_authentication" then FlagText(r.pqAuthentication)
    else if field == "session_reused" then FlagText(e.sessionReused)
    else if field in e.otherFields then e.otherFields[field]
    else ""
  }

  /** What grouping by each field of a record goes by. */
  lemma FieldsByName(e: Entry)
    ensures FieldText(e, "requested_profile") == e.record.requestedProfile
    ensures FieldText(e, "negotiated_group") == e.record.negotiatedGroup
    ensures FieldText(e, "role") == e.record.role
    ensures FieldText(e, "tls_version") == e.record.tlsVersion
    ensures FieldText(e, "authentication") == e.record.authentication
    ensures FieldText(e, "error_category") == "None" <== e.record.errorCategory.None?
    ensures FieldText(e, "error_category") == e.record.errorCategory.value <== e.record.errorCategory.Some?
  {
  }

  /** Two records fall apart on a yes-or-no field exactly when they differ in it. */
  lemma FlagsByName(e: Entry, f: Entry)
    ensures FieldText(e, "success") == FieldText(f, "success") <==> e.record.success == f.record.success
    ensures FieldText(e, "pq_key_establishment") == FieldText(f, "pq_key_establishment") <==>
            e.record.pqKeyEstablishment == f.record.pqKeyEstablishment
    ensures FieldText(e, "hybrid_key_establishment") == FieldText(f, "hybrid_key_establishment") <==>
            e.record.hybridKeyEstablishment == f.record.hybridKeyEstablishment
    ensures FieldText(e, "pq_authentication") == FieldText(f, "pq_authentication") <==>
            e.record.pqAuthentication == f.record.pqAuthentication
    ensures FieldText(e, "session_reused") == FieldText(f, "session_reused") <==> e.sessionReused == f.sessionReused
  {
    assert |FlagText(true)| == 4 && |FlagText(false)| == 5;
    FlagsAreRead(e);
    FlagsAreRead(f);
    hide FieldText, FlagText;
  }

  lemma FlagsAreRead(e: Entry)
    ensures FieldText(e, "success") == FlagText(e.record.success)
    ensures FieldText(e, "pq_key_establishment") == FlagText(e.record.pqKeyEstablishment)
    ensures FieldText(e, "hybrid_key_establishment") == FlagText(e.record.hybridKeyEstablishment)
    ensures FieldText(e, "pq_authentication") == FlagText(e.record.pqAuthentication)
    ensures FieldText(e, "session_reused") == FlagText(e.sessionReused)
  {
    hide FlagText;
  }

  function GroupKey(e: Entry, fields: seq<string>): (key: Key)
    ensures |key| == |fields| && forall i :: 0 <= i < |fields| ==> key[i] == FieldText(e, fields[i])
  {
    seq(|fields|, i requires 0 <= i < |fields| => FieldText(e, fields[i]))
  }

  function OrUnknown(s: string): string {
    if s == "" then "unknown" else s
  }

  function CategoryLabel(e: Entry): string {
    if e.record.errorCategory.Some? then OrUnknown(e.record.errorCategory.value) else "unknown"
  }

  // ---------------------------------------------------------------- counting

  datatype Timed = HandshakeMs | ConnectionMs

  function Duration(e: Entry, which: Timed): Option<real> {
    if which == HandshakeMs then e.handshakeMs else e.connectionMs
  }

  /** A question about one entry. */
  datatype Test =
    | Any | Successful | Failing | Resumed | PostQuantum | Hybrid | Authenticated
    | FailedWith(category: string)
    | SucceededOn(group: string)
    | Took(which: Timed, ms: real)
    | Keyed(fields: seq<string>, key: Key, test: Test)

  predicate Holds(t: Test, e: Entry) {
    match t
    case Any => true
    case Successful => e.record.success
    case Failing => !e.record.success
    case Resumed => e.record.success && e.sessionReused
    case PostQuantum => e.record.success && e.record.pqKeyEstablishment
    case Hybrid => e.record.success && e.record.hybridKeyEstablishment
    case Authenticated => e.record.success && e.record.pqAuthentication
    case FailedWith(category) => !e.record.success && CategoryLabel(e) == category
    case SucceededOn(group) => e.record.success && OrUnknown(e.record.negotiatedGroup) == group
    case Took(which, ms) => e.record.success && Duration(e, which) == Some(ms)
    case Keyed(fields, key, test) => GroupKey(e, fields) == key && Holds(test, e)
  }

  function One(b: bool): nat {
    if b then 1 else 0
  }

  function Count(s: seq<Entry>, t: Test): (n: nat)
    ensures n <= |s|
  {
    if s == [] then 0 else Count(s[..|s| - 1], t) + One(Holds(t, s[|s| - 1]))
  }

  lemma CountSnoc(s: seq<Entry>, e: Entry, t: Test)
    ensures Count(s + [e], t) == Count(s, t) + One(Holds(t, e))
  {
    assert (s + [e])[..|s|] == s;
  }

  lemma {:induction false} CountConcat(a: seq<Entry>, b: seq<Entry>, t: Test)
    ensures Count(a + b, t) == Count(a, t) + Count(b, t)
  {
    hide Holds;
    if b == [] {
      assert a + b == a;
    } else {
      var init, last := b[..|b| - 1], b[|b| - 1];
      CountConcat(a, init, t);
      assert a + b == (a + init) + [last];
      CountSnoc(a + init, last, t);
    }
  }

  /** Taking one occurrence out of a list. */
  lemma Without(s: seq<Entry>, e: Entry) returns (a: seq<Entry>, b: seq<Entry>)
    requires e in s
    ensures s == a + [e] + b && multiset(a + b) == multiset(s) - multiset{e}
  {
    var i :| 0 <= i < |s| && s[i] == e;
    a, b := s[..i], s[i + 1..];
    assert s == a + [e] + b;
  }

  /** Two arrangements of the same records: the last of one is somewhere in the other, and the rest match. */
  lemma LastIsSomewhere(s: seq<Entry>, s': seq<Entry>) returns (a: seq<Entry>, b: seq<Entry>)
    requires multiset(s) == multiset(s') && s != []
    ensures s' == a + [s[|s| - 1]] + b && multiset(s[..|s| - 1]) == multiset(a + b)
  {
    var init, last := s[..|s| - 1], s[|s| - 1];
    assert s == init + [last];
    assert last in multiset(s');
    a, b := Without(s', last);
    assert multiset(init) == multiset(s) - multiset{last};
  }

  lemma CountAround(a: seq<Entry>, e: Entry, b: seq<Entry>, t: Test)
    ensures Count(a + [e] + b, t) == Count(a + b, t) + One(Holds(t, e))
  {
    hide Holds, Count;
    CountConcat(a, b, t);
    CountConcat(a + [e], b, t);
    CountSnoc(a, e, t);
  }

  /** A count does not depend on the order of the records. */
  lemma {:induction false} CountIgnoresOrder(s: seq<Entry>, s': seq<Entry>, t: Test)
    requires multiset(s) == multiset(s')
    ensures Count(s, t) == Count(s', t)
  {
    hide Holds;
    if s == [] {
      assert |multiset(s')| == 0;
    } else {
      var a, b := LastIsSomewhere(s, s');
      CountIgnoresOrder(s[..|s| - 1], a + b, t);
      CountAround(a, s[|s| - 1], b, t);
    }
  }

  lemma {:induction false} CountAny(s: seq<Entry>)
    ensures Count(s, Any) == |s|
    ensures Count(s, Successful) + Count(s, Failing) == |s|
  {
    if s == [] {
    } else {
      CountAny(s[..|s| - 1]);
    }
  }

  lemma InSnoc(s: seq<Entry>)
    requires s != []
    ensures forall e :: e in s <==> e in s[..|s| - 1] || e == s[|s| - 1]
  {
    assert s == s[..|s| - 1] + [s[|s| - 1]];
  }

  lemma {:induction false} CountPositive(s: seq<Entry>, t: Test)
    ensures Count(s, t) > 0 <==> exists e :: e in s && Holds(t, e)
  {
    hide Holds;
    if s == [] {
    } else {
      var init, last := s[..|s| - 1], s[|s| - 1];
      CountPositive(init, t);
      InSnoc(s);
      if exists e :: e in s && Holds(t, e) {
        var e :| e in s && Holds(t, e);
        assert e in init || e == last;
      }
      if Count(init, t) > 0 {
        var e :| e in init && Holds(t, e);
        assert e in s;
      }
      assert last in s;
    }
  }

  ghost predicate Implies(s: seq<Entry>, t: Test, t': Test) {
    forall e :: e in s && Holds(t, e) ==> Holds(t', e)
  }

  lemma ImpliesSnoc(s: seq<Entry>, t: Test, t': Test)
    requires s != []
    ensures Implies(s, t, t') <==>
            Implies(s[..|s| - 1], t, t') && (Holds(t, s[|s| - 1]) ==> Holds(t', s[|s| - 1]))
  {
    hide Holds;
    InSnoc(s);
  }

  /** If one test implies another its count is no larger, and equal only if the converse holds as well. */
  lemma {:induction false} CountSmaller(s: seq<Entry>, t: Test, t': Test)
    requires Implies(s, t, t')
    ensures Count(s, t) <= Count(s, t')
    ensures Count(s, t) == Count(s, t') <==> Implies(s, t', t)
  {
    hide Holds;
    if s == [] {
    } else {
      hide Implies;
      ImpliesSnoc(s, t, t');
      ImpliesSnoc(s, t', t);
      CountSmaller(s[..|s| - 1], t, t');
    }
  }

  // ---------------------------------------------------------------- groups

  /** The records of one group, in file order. */
  function Group(s: seq<Entry>, fields: seq<string>, key: Key): seq<Entry> {
    if s == [] then []
    else
      var e := s[|s| - 1];
      Group(s[..|s| - 1], fields, key) + (if GroupKey(e, fields) == key then [e] else [])
  }

  lemma GroupSnoc(s: seq<Entry>, e: Entry, fields: seq<string>, key: Key)
    ensures Group(s + [e], fields, key) ==
            if GroupKey(e, fields) == key then Group(s, fields, key) + [e] else Group(s, fields, key)
  {
    assert (s + [e])[..|s|] == s;
  }

  lemma {:induction false} GroupCount(s: seq<Entry>, fields: seq<string>, key: Key, t: Test)
    ensures Count(Group(s, fields, key), t) == Count(s, Keyed(fields, key, t))
  {
    if s == [] {
      NothingToCount(fields, key, t);
    } else {
      var init, last := s[..|s| - 1], s[|s| - 1];
      hide Count, Group, Holds;
      GroupCount(init, fields, key, t);
      assert s == init + [last];
      GroupCountSnoc(init, last, fields, key, t);
    }
  }

  lemma NothingToCount(fields: seq<string>, key: Key, t: Test)
    ensures Group([], fields, key) == [] && Count([], t) == Count([], Keyed(fields, key, t)) == 0
  {
  }

  lemma GroupCountSnoc(s: seq<Entry>, e: Entry, fields: seq<string>, key: Key, t: Test)
    requires Count(Group(s, fields, key), t) == Count(s, Keyed(fields, key, t))
    ensures Count(Group(s + [e], fields, key), t) == Count(s + [e], Keyed(fields, key, t))
  {
    assert Holds(Keyed(fields, key, t), e) <==> GroupKey(e, fields) == key && Holds(t, e);
    hide Count, Group, Holds, GroupKey;
    GroupSnoc(s, e, fields, key);
    CountSnoc(s, e, Keyed(fields, key, t));
    CountSnoc(Group(s, fields, key), e, t);
  }

  lemma {:induction false} GroupMembers(s: seq<Entry>, fields: seq<string>, key: Key, e: Entry)
    ensures e in Group(s, fields, key) <==> e in s && GroupKey(e, fields) == key
  {
    if s == [] {
    } else {
      GroupMembers(s[..|s| - 1], fields, key, e);
      assert s == s[..|s| - 1] + [s[|s| - 1]];
    }
  }

  // ---------------------------------------------------------------- the summary of one group

  /** The durations that are summarised, of successful records that have them. */
  function Durations(s: seq<Entry>, which: Timed): seq<real> {
    if s == [] then []
    else
      var e := s[|s| - 1];
      Durations(s[..|s| - 1], which)
      + (if e.record.success && Duration(e, which).Some? then [Duration(e, which).value] else [])
  }

  lemma OneMore(v: seq<real>, y: real, x: real)
    ensures multiset(v + [y])[x] == multiset(v)[x] + One(x == y)
  {
  }

  lemma DurationsSnoc(s: seq<Entry>, e: Entry, which: Timed)
    ensures Durations(s + [e], which) ==
            if e.record.success && Duration(e, which).Some? then Durations(s, which) + [Duration(e, which).value]
            else Durations(s, which)
  {
    assert (s + [e])[..|s|] == s;
  }

  /** How often a value occurs among the summarised ones. */
  function Times(s: seq<Entry>, which: Timed, x: real): nat {
    multiset(Durations(s, which))[x]
  }

  lemma {:induction false} TimesCount(s: seq<Entry>, which: Timed, x: real)
    ensures Times(s, which, x) == Count(s, Took(which, x))
  {
    if s == [] {
    } else {
      hide Times, Count;
      var init, last := s[..|s| - 1], s[|s| - 1];
      TimesCount(init, which, x);
      TimesStep(init, last, which, x);
      assert s == init + [last];
    }
  }

  lemma TimesStep(s: seq<Entry>, e: Entry, which: Timed, x: real)
    requires Times(s, which, x) == Count(s, Took(which, x))
    ensures Times(s + [e], which, x) == Count(s + [e], Took(which, x))
  {
    hide Durations, Count, Duration;
    DurationsSnoc(s, e, which);
    CountSnoc(s, e, Took(which, x));
    if Duration(e, which).Some? {
      OneMore(Durations(s, which), Duration(e, which).value, x);
    }
  }

  datatype Counter = Categories | Groups

  function LabelTest(which: Counter, name: string): Test {
    if which == Categories then FailedWith(name) else SucceededOn(name)
  }

  /** What a counter counts, and by which label. */
  function Subject(which: Counter): Test {
    if which == Categories then Failing else Successful
  }

  function LabelOf(which: Counter, e: Entry): string {
    if which == Categories then CategoryLabel(e) else OrUnknown(e.record.negotiatedGroup)
  }

  datatype Counts = Counts(
    successful: nat,
    failed: nat,
    resumed: nat,
    postQuantum: nat,
    hybrid: nat,
    authenticated: nat,
    errorCategories: map<string, nat>,
    negotiatedGroups: map<string, nat>)

  datatype GroupSummary = GroupSummary(
    key: Key,
    total: nat,
    counts: Counts,
    successRate: real,
    failureRate: real,
    handshake: Statistics.Distribution,
    connection: Statistics.Distribution)

  function At(m: map<string, nat>, name: string): nat {
    if name in m then m[name] else 0
  }

  /** A counter: its keys are the labels that occur, and each is mapped to how often. */
  ghost predicate IsTally(m: map<string, nat>, s: seq<Entry>, which: Counter) {
    forall name :: At(m, name) == Count(s, LabelTest(which, name)) && (name in m <==> At(m, name) > 0)
  }

  ghost predicate Counted(c: Counts, s: seq<Entry>) {
    && c.successful == Count(s, Successful)
    && c.failed == Count(s, Failing)
    && c.resumed == Count(s, Resumed)
    && c.postQuantum == Count(s, PostQuantum)
    && c.hybrid == Count(s, Hybrid)
    && c.authenticated == Count(s, Authenticated)
    && IsTally(c.errorCategories, s, Categories)
    && IsTally(c.negotiatedGroups, s, Groups)
  }

  function Rate(n: nat, total: nat): real {
    if total == 0 then 0.0 else n as real / total as real
  }

  ghost predicate Describes(g: GroupSummary, s: seq<Entry>) {
    && g.total == |s|
    && Counted(g.counts, s)
    && g.successRate == Rate(Count(s, Successful), |s|)
    && g.failureRate == Rate(Count(s, Failing), |s|)
    && g.handshake == Statistics.DistributionOf(Durations(s, HandshakeMs))
    && g.connection == Statistics.DistributionOf(Durations(s, ConnectionMs))
  }

  const NO_COUNTS := Counts(0, 0, 0, 0, 0, 0, map[], map[])

  function Bump(m: map<string, nat>, name: string): map<string, nat> {
    m[name := At(m, name) + 1]
  }

  function Tick(c: Counts, e: Entry): Counts {
    if e.record.success then
      c.(successful := c.successful + 1,
         resumed := c.resumed + One(e.sessionReused),
         postQuantum := c.postQuantum + One(e.record.pqKeyEstablishment),
         hybrid := c.hybrid + One(e.record.hybridKeyEstablishment),
         authenticated := c.authenticated + One(e.record.pqAuthentication),
         negotiatedGroups := Bump(c.negotiatedGroups, OrUnknown(e.record.negotiatedGroup)))
    else
      c.(failed := c.failed + 1, errorCategories := Bump(c.errorCategories, CategoryLabel(e)))
  }

  lemma TallySkips(m: map<string, nat>, s: seq<Entry>, which: Counter, e: Entry)
    requires IsTally(m, s, which) && (e.record.success <==> which == Categories)
    ensures IsTally(m, s + [e], which)
  {
    forall name ensures Count(s + [e], LabelTest(which, name)) == Count(s, LabelTest(which, name)) {
      CountSnoc(s, e, LabelTest(which, name));
    }
  }

  lemma TallyBumps(m: map<string, nat>, s: seq<Entry>, which: Counter, e: Entry, name: string)
    requires IsTally(m, s, which) && Holds(LabelTest(which, name), e)
    ensures IsTally(Bump(m, name), s + [e], which)
  {
    forall n ensures Count(s + [e], LabelTest(which, n)) == Count(s, LabelTest(which, n)) + One(n == name) {
      CountSnoc(s, e, LabelTest(which, n));
    }
  }

  lemma TickCounts(c: Counts, s: seq<Entry>, e: Entry)
    requires Counted(c, s)
    ensures Counted(Tick(c, e), s + [e])
  {
    hide Count, Bump, IsTally, OrUnknown, CategoryLabel;
    CountSnoc(s, e, Successful);
    CountSnoc(s, e, Failing);
    CountSnoc(s, e, Resumed);
    CountSnoc(s, e, PostQuantum);
    CountSnoc(s, e, Hybrid);
    CountSnoc(s, e, Authenticated);
    if e.record.success {
      TallySkips(c.errorCategories, s, Categories, e);
      TallyBumps(c.negotiatedGroups, s, Groups, e, OrUnknown(e.record.negotiatedGroup));
    } else {
      TallySkips(c.negotiatedGroups, s, Groups, e);
      TallyBumps(c.errorCategories, s, Categories, e, CategoryLabel(e));
    }
  }

  method SummariseGroup(key: Key, group: seq<Entry>) returns (g: GroupSummary)
    ensures g.key == key && Describes(g, group)
  {
    var counts, handshake, connection := NO_COUNTS, [], [];
    hide Counted, Tick, Durations, Statistics.DistributionOf;
    NothingCounted();
    for i := 0 to |group|
      invariant Counted(counts, group[..i])
      invariant handshake == Durations(group[..i], HandshakeMs) && connection == Durations(group[..i], ConnectionMs)
    {
      var e := group[i];
      assert group[..i + 1] == group[..i] + [e];
      TickCounts(counts, group[..i], e);
      DurationsSnoc(group[..i], e, HandshakeMs);
      DurationsSnoc(group[..i], e, ConnectionMs);
      counts := Tick(counts, e);
      if e.record.success && e.handshakeMs.Some? {
        handshake := handshake + [e.handshakeMs.value];
      }
      if e.record.success && e.connectionMs.Some? {
        connection := connection + [e.connectionMs.value];
      }
    }
    assert group[..|group|] == group;
    g := GroupSummary(key, |group|, counts, Rate(counts.successful, |group|), Rate(counts.failed, |group|),
                      Statistics.DistributionOf(handshake), Statistics.DistributionOf(connection));
    CountedRates(counts, group);
  }

  lemma CountedRates(c: Counts, s: seq<Entry>)
    requires Counted(c, s)
    ensures c.successful == Count(s, Successful) && c.failed == Count(s, Failing)
  {
  }

  lemma DurationsMembers(s: seq<Entry>, which: Timed, x: real)
    ensures x in Durations(s, which) <==> exists e :: e in s && e.record.success && Duration(e, which) == Some(x)
  {
    TimesCount(s, which, x);
    CountPositive(s, Took(which, x));
    assert forall e :: Holds(Took(which, x), e) <==> e.record.success && Duration(e, which) == Some(x);
    hide Durations, Count, Holds, Duration;
    assert x in Durations(s, which) <==> multiset(Durations(s, which))[x] > 0;
  }

  lemma RangeOf(s: seq<Entry>, which: Timed, d: Statistics.Distribution)
    requires d == Statistics.DistributionOf(Durations(s, which))
    ensures forall e :: e in s && e.record.success && Duration(e, which).Some? ==>
              d.summary.Some? && d.summary.value.minimum <= Duration(e, which).value <= d.summary.value.maximum
    ensures d.summary.Some? ==>
              && (exists e :: e in s && e.record.success && Duration(e, which) == Some(d.summary.value.minimum))
              && (exists e :: e in s && e.record.success && Duration(e, which) == Some(d.summary.value.maximum))
  {
    NoValuesNoSummary();
    hide Durations, Duration, Statistics.DistributionOf;
    var v := Durations(s, which);
    if v != [] {
      Statistics.DistributionIsOrdered(v);
      DurationsMembers(s, which, d.summary.value.minimum);
      DurationsMembers(s, which, d.summary.value.maximum);
    }
    forall e | e in s && e.record.success && Duration(e, which).Some? ensures Duration(e, which).value in v {
      DurationsMembers(s, which, Duration(e, which).value);
    }
  }

  lemma NoValuesNoSummary()
    ensures Statistics.DistributionOf([]).summary.None?
  {
  }

  /** Each of the two distributions of a row ranges exactly over its own duration, of the successful records. */
  lemma TimesOfTheRow(g: GroupSummary, s: seq<Entry>)
    requires Describes(g, s)
    ensures forall e :: e in s && e.record.success && e.handshakeMs.Some? ==>
              && g.handshake.summary.Some?
              && g.handshake.summary.value.minimum <= e.handshakeMs.value <= g.handshake.summary.value.maximum
    ensures forall e :: e in s && e.record.success && e.connectionMs.Some? ==>
              && g.connection.summary.Some?
              && g.connection.summary.value.minimum <= e.connectionMs.value <= g.connection.summary.value.maximum
    ensures g.handshake.summary.Some? ==> var h := g.handshake.summary.value;
              && (exists e :: e in s && e.record.success && e.handshakeMs == Some(h.minimum))
              && (exists e :: e in s && e.record.success && e.handshakeMs == Some(h.maximum))
    ensures g.connection.summary.Some? ==> var c := g.connection.summary.value;
              && (exists e :: e in s && e.record.success && e.connectionMs == Some(c.minimum))
              && (exists e :: e in s && e.record.success && e.connectionMs == Some(c.maximum))
  {
    hide Durations, Counted, Statistics.DistributionOf, Rate;
    RangeOf(s, HandshakeMs, g.handshake);
    RangeOf(s, ConnectionMs, g.connection);
    assert forall e :: Duration(e, HandshakeMs) == e.handshakeMs && Duration(e, ConnectionMs) == e.connectionMs;
  }

  lemma NothingCounted()
    ensures Counted(NO_COUNTS, []) && Durations([], HandshakeMs) == [] && Durations([], ConnectionMs) == []
  {
    hide Holds, LabelTest;
  }

  // ---------------------------------------------------------------- the whole report

  function Keys(rows: seq<GroupSummary>): (keys: seq<Key>)
    ensures |keys| == |rows| && forall i :: 0 <= i < |rows| ==> keys[i] == rows[i].key
  {
    seq(|rows|, i requires 0 <= i < |rows| => rows[i].key)
  }

  /** One row for each non-empty group, in key order. */
  ghost predicate IsReport(entries: seq<Entry>, fields: seq<string>, rows: seq<GroupSummary>) {
    && Ascending(Keys(rows))
    && (forall key :: key in Keys(rows) <==> Group(entries, fields, key) != [])
    && (forall i :: 0 <= i < |rows| ==> Describes(rows[i], Group(entries, fields, rows[i].key)))
  }

  /** The first loop of `summarise`: one list per key, each in file order. */
  method GroupEntries(entries: seq<Entry>, fields: seq<string>) returns (groups: map<Key, seq<Entry>>)
    ensures forall key :: key in groups <==> Group(entries, fields, key) != []
    ensures forall key :: key in groups ==> groups[key] == Group(entries, fields, key)
  {
    hide GroupKey;
    groups := map[];
    for i := 0 to |entries|
      invariant forall key :: key in groups <==> Group(entries[..i], fields, key) != []
      invariant forall key :: key in groups ==> groups[key] == Group(entries[..i], fields, key)
    {
      var e := entries[i];
      assert entries[..i + 1] == entries[..i] + [e];
      forall key ensures Group(entries[..i + 1], fields, key) ==
                         if GroupKey(e, fields) == key then Group(entries[..i], fields, key) + [e]
                         else Group(entries[..i], fields, key)
      {
        GroupSnoc(entries[..i], e, fields, key);
      }
      var key := GroupKey(e, fields);
      groups := groups[key := (if key in groups then groups[key] else []) + [e]];
    }
    assert entries[..|entries|] == entries;
  }

  /** `summarise`. */
  method Summarise(entries: seq<Entry>, fields: seq<string>) returns (rows: seq<GroupSummary>)
    ensures IsReport(entries, fields, rows)
  {
    hide Describes, Ascending, Group;
    var groups := GroupEntries(entries, fields);
    var keys := SortKeys(groups.Keys);
    rows := [];
    for i := 0 to |keys|
      invariant |rows| == i
      invariant forall k :: 0 <= k < i ==> rows[k].key == keys[k] && Describes(rows[k], Group(entries, fields, keys[k]))
    {
      assert keys[i] in groups;
      var row := SummariseGroup(keys[i], groups[keys[i]]);
      rows := rows + [row];
    }
    assert Keys(rows) == keys;
  }

  // ---------------------------------------------------------------- order independence

  lemma GroupsKeepMultiplicity(s: seq<Entry>, s': seq<Entry>, fields: seq<string>, key: Key, t: Test)
    requires multiset(s) == multiset(s')
    ensures Count(Group(s, fields, key), t) == Count(Group(s', fields, key), t)
  {
    GroupCount(s, fields, key, t);
    GroupCount(s', fields, key, t);
    CountIgnoresOrder(s, s', Keyed(fields, key, t));
  }

  ghost predicate SameCounts(s: seq<Entry>, s': seq<Entry>) {
    forall t :: Count(s, t) == Count(s', t)
  }

  lemma TallyDetermined(m: map<string, nat>, m': map<string, nat>, s: seq<Entry>, s': seq<Entry>, which: Counter)
    requires SameCounts(s, s') && IsTally(m, s, which) && IsTally(m', s', which)
    ensures m == m'
  {
    assert forall name :: name in m <==> name in m' by {
      forall name ensures At(m, name) == At(m', name) {
        assert Count(s, LabelTest(which, name)) == Count(s', LabelTest(which, name));
      }
    }
    forall name | name in m ensures m[name] == m'[name] {
      assert At(m, name) == At(m', name) by {
        assert Count(s, LabelTest(which, name)) == Count(s', LabelTest(which, name));
      }
    }
  }

  lemma DurationsDetermined(s: seq<Entry>, s': seq<Entry>, which: Timed)
    requires SameCounts(s, s')
    ensures multiset(Durations(s, which)) == multiset(Durations(s', which))
  {
    hide Count;
    forall x: real ensures multiset(Durations(s, which))[x] == multiset(Durations(s', which))[x] {
      TimesCount(s, which, x);
      TimesCount(s', which, x);
      assert Count(s, Took(which, x)) == Count(s', Took(which, x));
    }
  }

  /** The counts of a group determine its row. */
  lemma RowDetermined(g: GroupSummary, g': GroupSummary, s: seq<Entry>, s': seq<Entry>)
    requires g.key == g'.key && Describes(g, s) && Describes(g', s') && SameCounts(s, s')
    ensures g == g'
  {
    CountAny(s);
    CountAny(s');
    hide Count;
    TallyDetermined(g.counts.errorCategories, g'.counts.errorCategories, s, s', Categories);
    TallyDetermined(g.counts.negotiatedGroups, g'.counts.negotiatedGroups, s, s', Groups);
    DurationsDetermined(s, s', HandshakeMs);
    DurationsDetermined(s, s', ConnectionMs);
    Statistics.DistributionIgnoresOrder(Durations(s, HandshakeMs), Durations(s', HandshakeMs));
    Statistics.DistributionIgnoresOrder(Durations(s, ConnectionMs), Durations(s', ConnectionMs));
    assert Count(s, Any) == Count(s', Any);
    assert Count(s, Successful) == Count(s', Successful) && Count(s, Failing) == Count(s', Failing);
    assert Count(s, Resumed) == Count(s', Resumed) && Count(s, PostQuantum) == Count(s', PostQuantum);
    assert Count(s, Hybrid) == Count(s', Hybrid) && Count(s, Authenticated) == Count(s', Authenticated);
  }

  lemma PermutedGroups(s: seq<Entry>, s': seq<Entry>, fields: seq<string>, key: Key)
    requires multiset(s) == multiset(s')
    ensures SameCounts(Group(s, fields, key), Group(s', fields, key))
    ensures Group(s, fields, key) == [] <==> Group(s', fields, key) == []
  {
    hide Count, Group;
    forall t ensures Count(Group(s, fields, key), t) == Count(Group(s', fields, key), t) {
      GroupsKeepMultiplicity(s, s', fields, key, t);
    }
    CountAny(Group(s, fields, key));
    CountAny(Group(s', fields, key));
  }

  /** Reordering the records, as reading the files in another order would, leaves the whole report unchanged. */
  lemma ReportIgnoresRecordOrder(entries: seq<Entry>, entries': seq<Entry>, fields: seq<string>,
                                 rows: seq<GroupSummary>, rows': seq<GroupSummary>)
    requires multiset(entries) == multiset(entries')
    requires IsReport(entries, fields, rows) && IsReport(entries', fields, rows')
    ensures rows == rows'
  {
    hide Describes, Ascending, Group, SameCounts;
    forall key ensures key in Keys(rows) <==> key in Keys(rows') {
      PermutedGroups(entries, entries', fields, key);
    }
    AscendingUnique(Keys(rows), Keys(rows'));
    forall i | 0 <= i < |rows| ensures rows[i] == rows'[i] {
      var key := rows[i].key;
      assert Keys(rows)[i] == Keys(rows')[i];
      PermutedGroups(entries, entries', fields, key);
      RowDetermined(rows[i], rows'[i], Group(entries, fields, key), Group(entries', fields, key));
    }
  }

  // ---------------------------------------------------------------- nothing is lost or counted twice

  /** A column of the report, and what it counts. */
  datatype Column =
    | Total | Successes | Failures | Resumptions | PqKeyEstablishment | HybridKeyEstablishment | PqAuthentication
    | Category(name: string) | Negotiated(name: string)

  function Cell(g: GroupSummary, column: Column): nat {
    match column
    case Total => g.total
    case Successes => g.counts.successful
    case Failures => g.counts.failed
    case Resumptions => g.counts.resumed
    case PqKeyEstablishment => g.counts.postQuantum
    case HybridKeyEstablishment => g.counts.hybrid
    case PqAuthentication => g.counts.authenticated
    case Category(name) => At(g.counts.errorCategories, name)
    case Negotiated(name) => At(g.counts.negotiatedGroups, name)
  }

  function Meaning(column: Column): Test {
    match column
    case Total => Any
    case Successes => Successful
    case Failures => Failing
    case Resumptions => Resumed
    case PqKeyEstablishment => PostQuantum
    case HybridKeyEstablishment => Hybrid
    case PqAuthentication => Authenticated
    case Category(name) => FailedWith(name)
    case Negotiated(name) => SucceededOn(name)
  }

  function ColumnSum(rows: seq<GroupSummary>, column: Column): nat {
    if rows == [] then 0 else Cell(rows[0], column) + ColumnSum(rows[1..], column)
  }

  /** Counts by key, added up over a list of keys. */
  function KeyedSum(s: seq<Entry>, fields: seq<string>, keys: seq<Key>, t: Test): nat {
    if keys == [] then 0 else Count(s, Keyed(fields, keys[0], t)) + KeyedSum(s, fields, keys[1..], t)
  }

  predicate Distinct(keys: seq<Key>) {
    forall i, j :: 0 <= i < j < |keys| ==> keys[i] != keys[j]
  }

  lemma {:induction false} KeyedSumSnoc(s: seq<Entry>, e: Entry, fields: seq<string>, keys: seq<Key>, t: Test)
    requires Distinct(keys)
    ensures KeyedSum(s + [e], fields, keys, t)
            == KeyedSum(s, fields, keys, t) + One(GroupKey(e, fields) in keys && Holds(t, e))
  {
    if keys == [] {
    } else {
      CountSnoc(s, e, Keyed(fields, keys[0], t));
      KeyedSumSnoc(s, e, fields, keys[1..], t);
      assert keys == [keys[0]] + keys[1..];
    }
  }

  lemma {:induction false} KeyedSumOfNothing(fields: seq<string>, keys: seq<Key>, t: Test)
    ensures KeyedSum([], fields, keys, t) == 0
  {
    if keys == [] {
    } else {
      KeyedSumOfNothing(fields, keys[1..], t);
    }
  }

  lemma {:induction false} KeysPartition(s: seq<Entry>, fields: seq<string>, keys: seq<Key>, t: Test)
    requires Distinct(keys) && (forall e :: e in s ==> GroupKey(e, fields) in keys)
    ensures KeyedSum(s, fields, keys, t) == Count(s, t)
  {
    hide GroupKey, Holds;
    if s == [] {
      KeyedSumOfNothing(fields, keys, t);
    } else {
      var init, last := s[..|s| - 1], s[|s| - 1];
      assert s == init + [last];
      KeysPartition(init, fields, keys, t);
      KeyedSumSnoc(init, last, fields, keys, t);
    }
  }

  lemma CellMeaning(g: GroupSummary, s: seq<Entry>, column: Column)
    requires Describes(g, s)
    ensures Cell(g, column) == Count(s, Meaning(column))
  {
    CountAny(s);
    match column
    case Category(name) => assert LabelTest(Categories, name) == FailedWith(name);
    case Negotiated(name) => assert LabelTest(Groups, name) == SucceededOn(name);
    case _ =>
  }

  lemma {:induction false} ColumnIsKeyedSum(entries: seq<Entry>, fields: seq<string>, rows: seq<GroupSummary>,
                                            column: Column)
    requires forall i :: 0 <= i < |rows| ==> Describes(rows[i], Group(entries, fields, rows[i].key))
    ensures ColumnSum(rows, column) == KeyedSum(entries, fields, Keys(rows), Meaning(column))
  {
    hide Describes, Cell, Count, Group;
    if rows == [] {
    } else {
      ColumnIsKeyedSum(entries, fields, rows[1..], column);
      assert Keys(rows)[1..] == Keys(rows[1..]);
      CellMeaning(rows[0], Group(entries, fields, rows[0].key), column);
      GroupCount(entries, fields, rows[0].key, Meaning(column));
    }
  }

  lemma ReportCoversKeys(entries: seq<Entry>, fields: seq<string>, rows: seq<GroupSummary>, e: Entry)
    requires IsReport(entries, fields, rows) && e in entries
    ensures GroupKey(e, fields) in Keys(rows)
  {
    GroupMembers(entries, fields, GroupKey(e, fields), e);
  }

  /**
    Every column of the report adds up to the count of what it names over the input: totals to the number of records,
    successes and failures to the successful and failed ones, each error category to the failures of that category.
    */
  lemma ColumnsAccountForEveryRecord(entries: seq<Entry>, fields: seq<string>, rows: seq<GroupSummary>, column: Column)
    requires IsReport(entries, fields, rows)
    ensures ColumnSum(rows, column) == Count(entries, Meaning(column))
    ensures ColumnSum(rows, Total) == |entries|
    ensures ColumnSum(rows, Successes) + ColumnSum(rows, Failures) == |entries|
  {
    hide Count, IsReport, ColumnSum;
    CountAny(entries);
    ColumnTotal(entries, fields, rows, column);
    ColumnTotal(entries, fields, rows, Total);
    ColumnTotal(entries, fields, rows, Successes);
    ColumnTotal(entries, fields, rows, Failures);
  }

  lemma ColumnTotal(entries: seq<Entry>, fields: seq<string>, rows: seq<GroupSummary>, column: Column)
    requires IsReport(entries, fields, rows)
    ensures ColumnSum(rows, column) == Count(entries, Meaning(column))
  {
    ColumnIsKeyedSum(entries, fields, rows, column);
    AscendingIsDistinct(Keys(rows));
    hide Group, GroupKey, Count, Meaning, Describes;
    forall e | e in entries ensures GroupKey(e, fields) in Keys(rows) {
      ReportCoversKeys(entries, fields, rows, e);
    }
    KeysPartition(entries, fields, Keys(rows), Meaning(column));
  }

  function TallySum(m: map<string, nat>, names: seq<string>): nat {
    if names == [] then 0 else At(m, names[0]) + TallySum(m, names[1..])
  }

  predicate DistinctNames(names: seq<string>) {
    forall i, j :: 0 <= i < j < |names| ==> names[i] != names[j]
  }

  function LabelSum(s: seq<Entry>, which: Counter, names: seq<string>): nat {
    if names == [] then 0 else Count(s, LabelTest(which, names[0])) + LabelSum(s, which, names[1..])
  }

  lemma {:induction false} LabelSumSnoc(s: seq<Entry>, e: Entry, which: Counter, names: seq<string>)
    requires DistinctNames(names)
    ensures LabelSum(s + [e], which, names)
            == LabelSum(s, which, names) + One(Holds(Subject(which), e) && LabelOf(which, e) in names)
  {
    if names == [] {
    } else {
      CountSnoc(s, e, LabelTest(which, names[0]));
      LabelSumSnoc(s, e, which, names[1..]);
      assert names == [names[0]] + names[1..];
    }
  }

  lemma {:induction false} LabelSumOfNothing(which: Counter, names: seq<string>)
    ensures LabelSum([], which, names) == 0
  {
    if names == [] {
    } else {
      LabelSumOfNothing(which, names[1..]);
    }
  }

  lemma {:induction false} LabelsPartition(s: seq<Entry>, which: Counter, names: seq<string>)
    requires DistinctNames(names)
    requires forall e :: e in s && Holds(Subject(which), e) ==> LabelOf(which, e) in names
    ensures LabelSum(s, which, names) == Count(s, Subject(which))
  {
    hide Holds, LabelOf;
    if s == [] {
      LabelSumOfNothing(which, names);
    } else {
      var init, last := s[..|s| - 1], s[|s| - 1];
      assert s == init + [last];
      LabelsPartition(init, which, names);
      LabelSumSnoc(init, last, which, names);
    }
  }

  lemma {:induction false} TallySumIsLabelSum(m: map<string, nat>, s: seq<Entry>, which: Counter, names: seq<string>)
    requires IsTally(m, s, which)
    ensures TallySum(m, names) == LabelSum(s, which, names)
  {
    hide Count;
    if names == [] {
    } else {
      TallySumIsLabelSum(m, s, which, names[1..]);
    }
  }

  lemma LabelIsListed(m: map<string, nat>, s: seq<Entry>, which: Counter, e: Entry)
    requires IsTally(m, s, which) && e in s && Holds(Subject(which), e)
    ensures LabelOf(which, e) in m
  {
    hide Count;
    CountPositive(s, LabelTest(which, LabelOf(which, e)));
    assert Holds(LabelTest(which, LabelOf(which, e)), e);
  }

  /** The labels of a counter account for everything it counts. */
  lemma TallyAccounts(m: map<string, nat>, s: seq<Entry>, which: Counter, names: seq<string>)
    requires IsTally(m, s, which) && DistinctNames(names) && forall name :: name in m <==> name in names
    ensures TallySum(m, names) == Count(s, Subject(which))
  {
    hide Holds, Count, IsTally, LabelOf, TallySum, LabelSum;
    forall e | e in s && Holds(Subject(which), e) ensures LabelOf(which, e) in names {
      LabelIsListed(m, s, which, e);
    }
    LabelsPartition(s, which, names);
    TallySumIsLabelSum(m, s, which, names);
  }

  lemma RatesAddUp(a: nat, b: nat, total: nat)
    requires total > 0 && a + b == total
    ensures Rate(a, total) + Rate(b, total) == 1.0
  {
    assert (a + b) as real == a as real + b as real;
  }

  /**
    In each row error categories add up to the failures, negotiated groups to the successes, successes and failures to
    the total, and the rates to one.
    */
  lemma CountersAccountForTheRow(g: GroupSummary, s: seq<Entry>, categories: seq<string>, groups: seq<string>)
    requires Describes(g, s)
    requires DistinctNames(categories) && forall name :: name in g.counts.errorCategories <==> name in categories
    requires DistinctNames(groups) && forall name :: name in g.counts.negotiatedGroups <==> name in groups
    ensures TallySum(g.counts.errorCategories, categories) == g.counts.failed
    ensures TallySum(g.counts.negotiatedGroups, groups) == g.counts.successful
    ensures g.counts.successful + g.counts.failed == g.total
    ensures g.total > 0 ==> g.successRate + g.failureRate == 1.0
  {
    hide Count, IsTally, Durations, Statistics.DistributionOf, TallySum;
    CountAny(s);
    if |s| > 0 {
      RatesAddUp(g.counts.successful, g.counts.failed, |s|);
    }
    TallyAccounts(g.counts.errorCategories, s, Categories, categories);
    TallyAccounts(g.counts.negotiatedGroups, s, Groups, groups);
  }

  // ---------------------------------------------------------------- the downgrade warning

  /** `dict(zip(by, key)).get(field, "")`. */
  function ValueOf(fields: seq<string>, key: Key, field: string): string
    requires |fields| == |key|
  {
    if fields == [] then ""
    else if fields[|fields| - 1] == field then key[|fields| - 1]
    else ValueOf(fields[..|fields| - 1], key[..|fields| - 1], field)
  }

  lemma {:induction false} ValueOfGroupKey(e: Entry, fields: seq<string>, field: string)
    ensures ValueOf(fields, GroupKey(e, fields), field) == if field in fields then FieldText(e, field) else ""
  {
    hide FieldText;
    if fields == [] {
    } else {
      var init := fields[..|fields| - 1];
      ValueOfGroupKey(e, init, field);
      assert GroupKey(e, fields)[..|init|] == GroupKey(e, init);
      assert fields == init + [fields[|fields| - 1]];
    }
  }

  /** The test at the end of `main`. */
  predicate Warns(g: GroupSummary, fields: seq<string>)
    requires |g.key| == |fields|
  {
    && PromisesPostQuantum(ValueOf(fields, g.key, "requested_profile"))
    && g.counts.successful > 0
    && g.counts.postQuantum < g.counts.successful
  }

  /** A successful connection of a profile that promises post-quantum protection, not marked as having it. */
  predicate Downgraded(e: Entry) {
    e.record.success && PromisesPostQuantum(e.record.requestedProfile) && !e.record.pqKeyEstablishment
  }

  lemma RowKeys(entries: seq<Entry>, fields: seq<string>, rows: seq<GroupSummary>, i: nat)
    requires IsReport(entries, fields, rows) && i < |rows|
    ensures exists e :: e in Group(entries, fields, rows[i].key)
    ensures |rows[i].key| == |fields|
  {
    var group := Group(entries, fields, rows[i].key);
    assert Keys(rows)[i] in Keys(rows);
    assert group[0] in group;
    GroupMembers(entries, fields, rows[i].key, group[0]);
  }

  lemma RowCounts(entries: seq<Entry>, fields: seq<string>, rows: seq<GroupSummary>, i: nat)
    requires IsReport(entries, fields, rows) && i < |rows|
    ensures rows[i].counts.successful == Count(Group(entries, fields, rows[i].key), Successful)
    ensures rows[i].counts.postQuantum == Count(Group(entries, fields, rows[i].key), PostQuantum)
  {
    hide Group, Count, IsTally, Rate, Statistics.DistributionOf, Durations;
  }

  lemma NoPromiseInNothing()
    ensures !PromisesPostQuantum("")
  {
    assert |"hybrid-"| == 7 && |"pure-"| == 5;
  }

  lemma ProfileField(e: Entry)
    ensures FieldText(e, "requested_profile") == e.record.requestedProfile
  {
  }

  /** All records of a group have the requested profile that the row's key shows. */
  lemma RowProfile(entries: seq<Entry>, fields: seq<string>, key: Key, e: Entry)
    requires e in Group(entries, fields, key)
    ensures |key| == |fields|
    ensures ValueOf(fields, key, "requested_profile")
            == if "requested_profile" in fields then e.record.requestedProfile else ""
  {
    hide Group, FieldText, ValueOf;
    GroupMembers(entries, fields, key, e);
    ValueOfGroupKey(e, fields, "requested_profile");
    ProfileField(e);
  }

  lemma UnmarkedExactlyWhen(s: seq<Entry>)
    ensures Count(s, PostQuantum) <= Count(s, Successful)
    ensures Count(s, PostQuantum) < Count(s, Successful) <==>
            exists e :: e in s && e.record.success && !e.record.pqKeyEstablishment
  {
    hide Count;
    CountSmaller(s, PostQuantum, Successful);
  }

  /** A row warns exactly when its group holds a downgraded record and the profile is one of the grouping fields. */
  lemma RowWarnsExactlyWhen(entries: seq<Entry>, fields: seq<string>, rows: seq<GroupSummary>, i: nat)
    requires IsReport(entries, fields, rows) && i < |rows|
    ensures |rows[i].key| == |fields|
    ensures Warns(rows[i], fields) <==>
            "requested_profile" in fields && exists e :: e in Group(entries, fields, rows[i].key) && Downgraded(e)
  {
    hide IsReport, PromisesPostQuantum, Group, Count, ValueOf, Keys;
    RowKeys(entries, fields, rows, i);
    RowCounts(entries, fields, rows, i);
    NoPromiseInNothing();
    var g, group := rows[i], Group(entries, fields, rows[i].key);
    UnmarkedExactlyWhen(group);
    forall e | e in group
      ensures ValueOf(fields, g.key, "requested_profile")
              == if "requested_profile" in fields then e.record.requestedProfile else ""
    {
      RowProfile(entries, fields, g.key, e);
    }
  }

  /** The report warns exactly when the input holds a downgraded record and groups by requested profile. */
  lemma WarningExactlyWhen(entries: seq<Entry>, fields: seq<string>, rows: seq<GroupSummary>)
    requires IsReport(entries, fields, rows)
    ensures (exists i :: 0 <= i < |rows| && |rows[i].key| == |fields| && Warns(rows[i], fields)) <==>
            "requested_profile" in fields && exists e :: e in entries && Downgraded(e)
  {
    hide Warns, Downgraded, Describes, Group, GroupKey;
    forall i | 0 <= i < |rows|
      ensures |rows[i].key| == |fields|
      ensures Warns(rows[i], fields) ==> "requested_profile" in fields && exists e :: e in entries && Downgraded(e)
    {
      RowWarnsExactlyWhen(entries, fields, rows, i);
      if Warns(rows[i], fields) {
        var e :| e in Group(entries, fields, rows[i].key) && Downgraded(e);
        GroupMembers(entries, fields, rows[i].key, e);
      }
    }
    if "requested_profile" in fields && exists e :: e in entries && Downgraded(e) {
      var e :| e in entries && Downgraded(e);
      ReportCoversKeys(entries, fields, rows, e);
      var i :| 0 <= i < |rows| && Keys(rows)[i] == GroupKey(e, fields);
      GroupMembers(entries, fields, rows[i].key, e);
      RowWarnsExactlyWhen(entries, fields, rows, i);
    }
  }

  /** A record that the validator accepts is not downgraded. */
  lemma AcceptedIsNotDowngraded(e: Entry)
    requires SemanticCheck(e.record) == []
    ensures !Downgraded(e)
  {
    hide PromisesPostQuantum, HasPqSignatureMarker;
    LowerKeepsLength(e.record.negotiatedGroup);
    ProblemsAreEmpty(e.record);
  }

  lemma ProblemsAreEmpty(r: Record)
    requires SemanticCheck(r) == []
    ensures r.success ==> SuccessProblems(r) == []
    ensures Profiles.Lower(r.negotiatedGroup) != "" ==> GroupProblems(r) == []
    ensures r.success && PromisesPostQuantum(r.requestedProfile) && Profiles.Lower(r.negotiatedGroup) != ""
            ==> Profiles.Lower(r.negotiatedGroup) in PY_PQ_GROUPS
  {
    hide PromisesPostQuantum, HasPqSignatureMarker, SuccessProblems, GroupProblems;
  }

  /** Validator and analyser agree: if every record passes the validator, no group of any grouping makes it warn. */
  lemma AcceptedRecordsNeverWarn(entries: seq<Entry>, fields: seq<string>, rows: seq<GroupSummary>, i: nat)
    requires IsReport(entries, fields, rows) && i < |rows|
    requires forall e :: e in entries ==> SemanticCheck(e.record) == []
    ensures |rows[i].key| == |fields| && !Warns(rows[i], fields)
  {
    hide SemanticCheck, IsReport, Warns, Downgraded;
    forall e | e in entries ensures !Downgraded(e) {
      AcceptedIsNotDowngraded(e);
    }
    RowWarnsExactlyWhen(entries, fields, rows, i);
    WarningExactlyWhen(entries, fields, rows);
  }
}
