/** Release evidence: every provider and every scenario exactly once, and no request id
    used twice anywhere. */
module ReleaseGate {
  import opened Text
  import opened Counting

  const MAXIMUM_REQUEST_ID_LENGTH := 128

  /** `text` says that the free texts of an entry pass their own checks. */
  datatype Scenario = Scenario(
    name: string, passed: bool, observedAt: int, utc: bool, requestIds: seq<string>, text: bool)

  /** `runtime` says that the operator, execution time and environment pass theirs. */
  datatype ProviderEvidence = ProviderEvidence(provider: string, executedAt: int, runtime: bool, scenarios: seq<Scenario>)

  /** The least number of request ids of each scenario a provider requires. */
  type Requirements = map<string, nat>

  predicate IdCharacter(c: char) {
    'a' <= c <= 'z' || 'A' <= c <= 'Z' || '0' <= c <= '9' || c in "._:-"
  }

  predicate ValidRequestId(id: string) {
    && id != "" && |id| <= MAXIMUM_REQUEST_ID_LENGTH
    && !("REPLACE-" <= id)
    && forall i | 0 <= i < |id| :: IdCharacter(id[i])
  }

  // ---------------------------------------------------------- what is meant

  function Names(scenarios: seq<Scenario>): (names: seq<string>)
    ensures |names| == |scenarios|
    ensures forall i | 0 <= i < |names| :: names[i] == scenarios[i].name
  {
    seq(|scenarios|, i requires 0 <= i < |scenarios| => scenarios[i].name)
  }

  function Providers(evidence: seq<ProviderEvidence>): (names: seq<string>)
    ensures |names| == |evidence|
    ensures forall i | 0 <= i < |names| :: names[i] == evidence[i].provider
  {
    seq(|evidence|, i requires 0 <= i < |evidence| => evidence[i].provider)
  }

  /** All request ids in order, with repetitions. */
  function ScenarioIds(scenarios: seq<Scenario>): seq<string> {
    if scenarios == [] then [] else ScenarioIds(scenarios[..|scenarios| - 1]) + scenarios[|scenarios| - 1].requestIds
  }

  function EvidenceIds(evidence: seq<ProviderEvidence>): seq<string> {
    if evidence == [] then []
    else EvidenceIds(evidence[..|evidence| - 1]) + ScenarioIds(evidence[|evidence| - 1].scenarios)
  }

  predicate ScenarioOk(s: Scenario, minimum: nat, executedAt: int) {
    && s.passed && s.observedAt != 0 && s.utc && s.observedAt <= executedAt
    && |s.requestIds| >= minimum && (forall i | 0 <= i < |s.requestIds| :: ValidRequestId(s.requestIds[i])) && s.text
  }

  ghost predicate ScenariosOk(scenarios: seq<Scenario>, required: Requirements, executedAt: int) {
    && ExactlyOnce(Names(scenarios), required.Keys)
    && forall i | 0 <= i < |scenarios| && scenarios[i].name in required ::
         ScenarioOk(scenarios[i], required[scenarios[i].name], executedAt)
  }

  ghost predicate EvidenceOk(evidence: seq<ProviderEvidence>, required: map<string, Requirements>) {
    && ExactlyOnce(Providers(evidence), required.Keys)
    && (forall i | 0 <= i < |evidence| && evidence[i].provider in required ::
          evidence[i].runtime && ScenariosOk(evidence[i].scenarios, required[evidence[i].provider], evidence[i].executedAt))
    && NoDuplicates(EvidenceIds(evidence))
  }

  // ------------------------------------------------------------- validation

  /** The request ids seen so far, with the scenario that used each. */
  class RequestIdentities {
    var owners: map<string, string>

    constructor ()
      ensures owners == map[]
    {
      owners := map[];
    }

    ghost predicate Holds(ids: seq<string>)
      reads this
    {
      NoDuplicates(ids) && forall x :: x in owners <==> x in ids
    }

    /** Records the request ids of one scenario, unless one is invalid or already used. */
    method Claim(requestIds: seq<string>, owner: string, ghost ids: seq<string>) returns (ok: bool)
      requires Holds(ids)
      modifies this
      ensures ok <==> (forall i | 0 <= i < |requestIds| :: ValidRequestId(requestIds[i])) && NoDuplicates(ids + requestIds)
      ensures ok ==> Holds(ids + requestIds)
    {
      hide ValidRequestId;
      for i := 0 to |requestIds|
        invariant Holds(ids + requestIds[..i])
        invariant forall j | 0 <= j < i :: ValidRequestId(requestIds[j])
      {
        var id := requestIds[i];
        assert ids + requestIds[..i + 1] == ids + requestIds[..i] + [id];
        if !ValidRequestId(id) {
          return false;
        }
        if id in owners {
          Repeated(ids, requestIds, i);
          return false;
        }
        owners := owners[id := owner];
      }
      assert requestIds[..|requestIds|] == requestIds;
      return true;
    }
  }

  lemma Repeated(ids: seq<string>, more: seq<string>, i: nat)
    requires i < |more| && more[i] in ids + more[..i]
    ensures !NoDuplicates(ids + more)
  {
    var j :| 0 <= j < |ids + more[..i]| && (ids + more[..i])[j] == more[i];
    assert (ids + more)[j] == (ids + more)[|ids| + i];
  }

  lemma {:induction false} ScenarioIdsPrefix(scenarios: seq<Scenario>, i: nat) returns (rest: seq<string>)
    requires i <= |scenarios|
    ensures ScenarioIds(scenarios) == ScenarioIds(scenarios[..i]) + rest
    decreases |scenarios|
  {
    if i == |scenarios| {
      assert scenarios[..i] == scenarios;
      rest := [];
    } else {
      var front := scenarios[..|scenarios| - 1];
      var r := ScenarioIdsPrefix(front, i);
      assert front[..i] == scenarios[..i];
      rest := r + scenarios[|scenarios| - 1].requestIds;
    }
  }

  lemma {:induction false} EvidenceIdsPrefix(evidence: seq<ProviderEvidence>, i: nat) returns (rest: seq<string>)
    requires i <= |evidence|
    ensures EvidenceIds(evidence) == EvidenceIds(evidence[..i]) + rest
    decreases |evidence|
  {
    if i == |evidence| {
      assert evidence[..i] == evidence;
      rest := [];
    } else {
      var front := evidence[..|evidence| - 1];
      var r := EvidenceIdsPrefix(front, i);
      assert front[..i] == evidence[..i];
      rest := r + ScenarioIds(evidence[|evidence| - 1].scenarios);
    }
  }

  lemma LaterNamesRepeat(names: seq<string>, i: nat)
    requires i < |names| && names[i] in names[..i]
    ensures !NoDuplicates(names)
  {
    var j :| 0 <= j < i && names[j] == names[i];
  }

  lemma OneMoreName(names: seq<string>, i: nat)
    requires i < |names| && NoDuplicates(names[..i]) && names[i] !in names[..i]
    ensures NoDuplicates(names[..i + 1])
    ensures forall x :: x in names[..i + 1] <==> x in names[..i] || x == names[i]
  {
    assert names[..i + 1] == names[..i] + [names[i]];
  }

  lemma NotDistinctLater(a: seq<string>, rest: seq<string>, b: seq<string>)
    requires !NoDuplicates(a) && b == a + rest
    ensures !NoDuplicates(b)
  {
    var i, j :| 0 <= i < j < |a| && a[i] == a[j];
    assert b[i] == b[j];
  }

  lemma Regroup(a: seq<string>, b: seq<string>, c: seq<string>, d: seq<string>)
    ensures a + ((b + c) + d) == ((a + b) + c) + d
    ensures a + (b + c) == (a + b) + c
  {
  }

  lemma ScenarioIdsStep(scenarios: seq<Scenario>, i: nat)
    requires i < |scenarios|
    ensures ScenarioIds(scenarios[..i + 1]) == ScenarioIds(scenarios[..i]) + scenarios[i].requestIds
  {
    assert scenarios[..i + 1][..i] == scenarios[..i];
  }

  lemma EvidenceIdsStep(evidence: seq<ProviderEvidence>, i: nat)
    requires i < |evidence|
    ensures EvidenceIds(evidence[..i + 1]) == EvidenceIds(evidence[..i]) + ScenarioIds(evidence[i].scenarios)
  {
    hide ScenarioIds;
    assert evidence[..i + 1][..i] == evidence[..i];
  }

  lemma FailsEarly(prior: seq<string>, scenarios: seq<Scenario>, i: nat)
    requires i < |scenarios|
    requires !NoDuplicates(prior + ScenarioIds(scenarios[..i]) + scenarios[i].requestIds)
    ensures !NoDuplicates(prior + ScenarioIds(scenarios))
  {
    hide NoDuplicates, ScenarioIds;
    var rest := ScenarioIdsPrefix(scenarios, i + 1);
    ScenarioIdsStep(scenarios, i);
    Regroup(prior, ScenarioIds(scenarios[..i]), scenarios[i].requestIds, rest);
    NotDistinctLater(prior + ScenarioIds(scenarios[..i]) + scenarios[i].requestIds, rest, prior + ScenarioIds(scenarios));
  }

  lemma NothingRepeats()
    ensures NoDuplicates<string>([])
  {
  }

  predicate ScenarioFits(s: Scenario, required: Requirements, executedAt: int) {
    s.name in required && ScenarioOk(s, required[s.name], executedAt)
  }

  /** As many scenarios as required, none named twice, each fitting its requirement. */
  lemma ScenariosByCount(scenarios: seq<Scenario>, required: Requirements, executedAt: int)
    ensures ScenariosOk(scenarios, required, executedAt) <==>
            && |scenarios| == |required| && NoDuplicates(Names(scenarios))
            && forall i | 0 <= i < |scenarios| :: ScenarioFits(scenarios[i], required, executedAt)
  {
    hide ScenarioOk, ExactlyOnce, NoDuplicates;
    assert |required.Keys| == |required|;
    var names := Names(scenarios);
    Pigeonhole(names, required.Keys);
    if |scenarios| == |required| && (forall i | 0 <= i < |scenarios| :: ScenarioFits(scenarios[i], required, executedAt)) {
      assert forall i | 0 <= i < |names| :: names[i] in required.Keys;
    }
    if ScenariosOk(scenarios, required, executedAt) {
      forall i | 0 <= i < |scenarios| ensures ScenarioFits(scenarios[i], required, executedAt) {
        assert names[i] in required.Keys;
      }
    }
  }

  /** The provider's closed lifecycle matrix, exactly once. */
  method ValidateScenarios(provider: string, scenarios: seq<Scenario>, required: Requirements, executedAt: int,
                           ids: RequestIdentities, ghost prior: seq<string>) returns (ok: bool)
    requires ids.Holds(prior)
    modifies ids
    ensures ok <==> ScenariosOk(scenarios, required, executedAt) && NoDuplicates(prior + ScenarioIds(scenarios))
    ensures ok ==> ids.Holds(prior + ScenarioIds(scenarios))
  {
    var names := Names(scenarios);
    ScenariosByCount(scenarios, required, executedAt);
    assert prior + ScenarioIds(scenarios[..0]) == prior;
    NothingRepeats();
    assert names[..0] == [];
    hide ValidRequestId, ScenariosOk, ids.Holds, NoDuplicates, ScenarioIds;
    if |scenarios| != |required| {
      return false;
    }
    var seen: set<string> := {};
    for i := 0 to |scenarios|
      invariant forall j | 0 <= j < i :: ScenarioFits(scenarios[j], required, executedAt)
      invariant NoDuplicates(names[..i]) && forall x :: x in seen <==> x in names[..i]
      invariant ids.Holds(prior + ScenarioIds(scenarios[..i]))
    {
      var scenario := scenarios[i];
      if scenario.name !in required {
        return false;
      }
      if scenario.name in seen {
        LaterNamesRepeat(names, i);
        return false;
      }
      OneMoreName(names, i);
      seen := seen + {scenario.name};
      if !scenario.passed || scenario.observedAt == 0 || !scenario.utc || scenario.observedAt > executedAt {
        return false;
      }
      if |scenario.requestIds| < required[scenario.name] {
        return false;
      }
      var claimed := ids.Claim(scenario.requestIds, provider + "/" + scenario.name, prior + ScenarioIds(scenarios[..i]));
      if !claimed {
        if !NoDuplicates(prior + ScenarioIds(scenarios[..i]) + scenario.requestIds) {
          FailsEarly(prior, scenarios, i);
        }
        return false;
      }
      if !scenario.text {
        return false;
      }
      ScenarioIdsStep(scenarios, i);
      Regroup(prior, ScenarioIds(scenarios[..i]), scenario.requestIds, []);
    }
    assert names[..|names|] == names && scenarios[..|scenarios|] == scenarios;
    HeldIdsDiffer(ids, prior + ScenarioIds(scenarios));
    return true;
  }

  lemma HeldIdsDiffer(ids: RequestIdentities, list: seq<string>)
    requires ids.Holds(list)
    ensures NoDuplicates(list)
  {
  }

  lemma EvidenceFailsEarly(evidence: seq<ProviderEvidence>, i: nat)
    requires i < |evidence|
    ensures NoDuplicates(EvidenceIds(evidence)) ==>
              NoDuplicates(EvidenceIds(evidence[..i]) + ScenarioIds(evidence[i].scenarios))
  {
    hide NoDuplicates, ScenarioIds, EvidenceIds;
    if !NoDuplicates(EvidenceIds(evidence[..i]) + ScenarioIds(evidence[i].scenarios)) {
      var rest := EvidenceIdsPrefix(evidence, i + 1);
      EvidenceIdsStep(evidence, i);
      NotDistinctLater(EvidenceIds(evidence[..i + 1]), rest, EvidenceIds(evidence));
    }
  }

  ghost predicate ProviderFits(e: ProviderEvidence, required: map<string, Requirements>) {
    e.provider in required && e.runtime && ScenariosOk(e.scenarios, required[e.provider], e.executedAt)
  }

  /** As many gates as required providers, none twice, each fitting its matrix. */
  lemma EvidenceByCount(evidence: seq<ProviderEvidence>, required: map<string, Requirements>)
    ensures EvidenceOk(evidence, required) <==>
            && |evidence| == |required| && NoDuplicates(Providers(evidence))
            && (forall i | 0 <= i < |evidence| :: ProviderFits(evidence[i], required))
            && NoDuplicates(EvidenceIds(evidence))
  {
    hide ScenariosOk, ExactlyOnce, NoDuplicates, EvidenceIds;
    assert |required.Keys| == |required|;
    var names := Providers(evidence);
    Pigeonhole(names, required.Keys);
    if |evidence| == |required| && (forall i | 0 <= i < |evidence| :: ProviderFits(evidence[i], required)) {
      assert forall i | 0 <= i < |names| :: names[i] in required.Keys;
    }
    if EvidenceOk(evidence, required) {
      forall i | 0 <= i < |evidence| ensures ProviderFits(evidence[i], required) {
        assert names[i] in required.Keys;
      }
    }
  }

  lemma FitMeans(e: ProviderEvidence, required: map<string, Requirements>)
    ensures ProviderFits(e, required) <==>
            e.provider in required && e.runtime && ScenariosOk(e.scenarios, required[e.provider], e.executedAt)
  {
  }

  /** Evidence is accepted exactly when it names every required provider once, each with
      every one of its required scenarios once and passing, and uses no request id twice
      across all providers and scenarios. */
  method ValidateProviders(evidence: seq<ProviderEvidence>, required: map<string, Requirements>) returns (ok: bool)
    ensures ok <==> EvidenceOk(evidence, required)
  {
    var names := Providers(evidence);
    EvidenceByCount(evidence, required);
    NothingRepeats();
    assert names[..0] == [];
    var ids := new RequestIdentities();
    assert ids.Holds(EvidenceIds(evidence[..0]));
    hide EvidenceOk, ids.Holds, ScenariosOk, NoDuplicates, ScenarioIds, EvidenceIds, ProviderFits, Providers;
    if |evidence| != |required| {
      return false;
    }
    var seen: set<string> := {};
    for i := 0 to |evidence|
      invariant forall j | 0 <= j < i :: ProviderFits(evidence[j], required)
      invariant NoDuplicates(names[..i]) && forall x :: x in seen <==> x in names[..i]
      invariant fresh(ids) && ids.Holds(EvidenceIds(evidence[..i]))
    {
      var provider := evidence[i];
      FitMeans(provider, required);
      if provider.provider !in required {
        return false;
      }
      if provider.provider in seen {
        LaterNamesRepeat(names, i);
        return false;
      }
      OneMoreName(names, i);
      seen := seen + {provider.provider};
      if !provider.runtime {
        return false;
      }
      var valid := ValidateScenarios(provider.provider, provider.scenarios, required[provider.provider],
                                     provider.executedAt, ids, EvidenceIds(evidence[..i]));
      EvidenceFailsEarly(evidence, i);
      if !valid {
        return false;
      }
      EvidenceIdsStep(evidence, i);
    }
    assert names[..|names|] == names && evidence[..|evidence|] == evidence;
    HeldIdsDiffer(ids, EvidenceIds(evidence));
    return true;
  }
}
