/** Which release evidence is accepted, in terms of its entries alone. */
module EvidenceRules {
  import opened Text
  import opened ReleaseGate

  /** A request id: 1 to 128 letters, digits, dots, underscores, colons or hyphens, and not
      a placeholder. */
  predicate IsRequestId(id: string) {
    && 1 <= |id| <= 128 && (|id| < 8 || id[..8] != "REPLACE-")
    && forall i | 0 <= i < |id| :: IsIdCharacter(id[i])
  }

  predicate IsIdCharacter(c: char) {
    'a' <= c <= 'z' || 'A' <= c <= 'Z' || '0' <= c <= '9' || c == '.' || c == '_' || c == ':' || c == '-'
  }

  lemma RequestIdsAre(id: string)
    ensures ValidRequestId(id) <==> IsRequestId(id)
  {
    if 1 <= |id| <= 128 && (|id| < 8 || id[..8] != "REPLACE-") {
      assert !("REPLACE-" <= id);
      forall i | 0 <= i < |id| ensures IdCharacter(id[i]) <==> IsIdCharacter(id[i]) {
        CharactersAre(id[i]);
      }
      hide IdCharacter, IsIdCharacter;
    } else if |id| >= 8 && id[..8] == "REPLACE-" {
      assert "REPLACE-" <= id;
    }
  }

  lemma CharactersAre(c: char)
    ensures IdCharacter(c) <==> IsIdCharacter(c)
  {
    assert "._:-" == ['.', '_', ':', '-'];
  }

  ghost predicate HasPassed(s: Scenario, minimum: nat, executedAt: int) {
    && s.passed && s.utc && s.text && s.observedAt != 0 && s.observedAt <= executedAt
    && |s.requestIds| >= minimum && forall id | id in s.requestIds :: IsRequestId(id)
  }

  lemma PassedScenarios(s: Scenario, minimum: nat, executedAt: int)
    ensures ScenarioOk(s, minimum, executedAt) <==> HasPassed(s, minimum, executedAt)
  {
    hide ValidRequestId, IsRequestId;
    forall id ensures ValidRequestId(id) <==> IsRequestId(id) {
      RequestIdsAre(id);
    }
  }

  /** Evidence is accepted exactly when it has as many entries as there are required
      providers, for different ones, each with as many scenarios as required, different,
      required and passed, and when no request id occurs twice. */
  lemma EvidenceIsAcceptedExactly(evidence: seq<ProviderEvidence>, required: map<string, Requirements>)
    ensures EvidenceOk(evidence, required) <==>
            && |evidence| == |required|
            && (forall i, j | 0 <= i < j < |evidence| :: evidence[i].provider != evidence[j].provider)
            && (forall i | 0 <= i < |evidence| :: evidence[i].provider in required && IsComplete(evidence[i], required[evidence[i].provider]))
            && NoDuplicates(EvidenceIds(evidence))
  {
    hide ScenariosOk, IsComplete, EvidenceIds, EvidenceOk;
    EvidenceByCount(evidence, required);
    NamesDiffer(evidence);
    forall i | 0 <= i < |evidence|
      ensures ProviderFits(evidence[i], required) <==>
              evidence[i].provider in required && IsComplete(evidence[i], required[evidence[i].provider])
    {
      if evidence[i].provider in required {
        CompleteMatrix(evidence[i], required[evidence[i].provider]);
      }
    }
    hide ProviderFits;
  }

  lemma NamesDiffer(evidence: seq<ProviderEvidence>)
    ensures NoDuplicates(Providers(evidence)) <==>
            forall i, j | 0 <= i < j < |evidence| :: evidence[i].provider != evidence[j].provider
  {
    var names := Providers(evidence);
    if NoDuplicates(names) {
      forall i, j | 0 <= i < j < |evidence| ensures evidence[i].provider != evidence[j].provider {
        assert names[i] != names[j];
      }
    }
  }

  ghost predicate IsComplete(e: ProviderEvidence, required: Requirements) {
    && e.runtime && |e.scenarios| == |required|
    && (forall i, j | 0 <= i < j < |e.scenarios| :: e.scenarios[i].name != e.scenarios[j].name)
    && forall i | 0 <= i < |e.scenarios| ::
         e.scenarios[i].name in required && HasPassed(e.scenarios[i], required[e.scenarios[i].name], e.executedAt)
  }

  lemma CompleteMatrix(e: ProviderEvidence, required: Requirements)
    ensures e.runtime && ScenariosOk(e.scenarios, required, e.executedAt) <==> IsComplete(e, required)
  {
    ScenariosByCount(e.scenarios, required, e.executedAt);
    hide ScenariosOk, ScenarioOk, HasPassed;
    var names := Names(e.scenarios);
    forall i | 0 <= i < |e.scenarios| && e.scenarios[i].name in required
      ensures ScenarioOk(e.scenarios[i], required[e.scenarios[i].name], e.executedAt)
              <==> HasPassed(e.scenarios[i], required[e.scenarios[i].name], e.executedAt)
    {
      PassedScenarios(e.scenarios[i], required[e.scenarios[i].name], e.executedAt);
    }
    if NoDuplicates(names) {
      forall i, j | 0 <= i < j < |e.scenarios| ensures e.scenarios[i].name != e.scenarios[j].name {
        assert names[i] != names[j];
      }
    }
  }
}
