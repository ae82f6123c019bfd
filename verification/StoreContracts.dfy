/** What an accepted provider verification result guarantees. */
module StoreContracts {
  import opened Text
  import opened Counting

  datatype Reference = Reference(role: string, kind: string, value: string)

  const QUERY := "query"
  const CUSTOMER_BINDING := "customer_binding"

  /** One observed purchase line. `valid` says that its own fields pass their checks. */
  datatype Observation = Observation(
    id: string, application: string, store: string, product: string, productKind: string,
    references: seq<Reference>, valid: bool)

  datatype PostCommitAction = PostCommitAction(
    kind: string, product: string, productKind: string, queryReferences: seq<Reference>, valid: bool)

  datatype VerificationResult = VerificationResult(
    verified: bool, artifacts: nat, artifactsValid: bool,
    observations: seq<Observation>, named: seq<string>, namedValid: bool, actions: seq<PostCommitAction>)

  /** What the result is checked against. */
  datatype Expectation = Expectation(
    application: string, store: string, products: seq<string>, bindings: seq<Reference>, queries: seq<Reference>)

  function ReferencesFor(references: seq<Reference>, role: string): seq<Reference> {
    if references == [] then []
    else
      var last := references[|references| - 1];
      ReferencesFor(references[..|references| - 1], role) + if last.role == role then [last] else []
  }

  ghost predicate ShareReference(actual: seq<Reference>, expected: seq<Reference>) {
    exists r :: r in actual && r in expected
  }

  method HasMatchingReference(actual: seq<Reference>, expected: seq<Reference>) returns (r: bool)
    ensures r <==> ShareReference(actual, expected)
  {
    for i := 0 to |actual|
      invariant forall k | 0 <= k < i :: actual[k] !in expected
    {
      for j := 0 to |expected|
        invariant forall k | 0 <= k < j :: actual[i] != expected[k]
      {
        if actual[i] == expected[j] {
          assert actual[i] in actual && actual[i] in expected;
          return true;
        }
      }
    }
    return false;
  }

  /** Valid references of one role, none twice. */
  method ValidateReferencesWithRole(references: seq<Reference>, role: string,
                                    valid: Reference -> bool) returns (ok: bool)
    ensures ok <==> NoDuplicates(references)
                    && forall i | 0 <= i < |references| :: valid(references[i]) && references[i].role == role
  {
    for i := 0 to |references|
      invariant NoDuplicates(references[..i])
      invariant forall k | 0 <= k < i :: valid(references[k]) && references[k].role == role
    {
      if !valid(references[i]) || references[i].role != role {
        return false;
      }
      for j := 0 to i
        invariant forall k | 0 <= k < j :: references[k] != references[i]
      {
        if references[i] == references[j] {
          return false;
        }
      }
    }
    return true;
  }

  // ----------------------------------------------------- post-commit actions

  predicate SameTarget(left: PostCommitAction, right: PostCommitAction) {
    && left.kind == right.kind && left.product == right.product && left.productKind == right.productKind
    && |left.queryReferences| == |right.queryReferences|
  }

  ghost predicate SameAction(left: PostCommitAction, right: PostCommitAction) {
    SameTarget(left, right) && forall r | r in left.queryReferences :: r in right.queryReferences
  }

  method SamePostCommitAction(left: PostCommitAction, right: PostCommitAction) returns (r: bool)
    ensures r <==> SameAction(left, right)
  {
    if !SameTarget(left, right) {
      return false;
    }
    for i := 0 to |left.queryReferences|
      invariant forall k | 0 <= k < i :: left.queryReferences[k] in right.queryReferences
    {
      var reference := left.queryReferences[i];
      var found := HasMatchingReference([reference], right.queryReferences);
      if !found {
        assert reference !in right.queryReferences by {
          assert reference in [reference];
        }
        return false;
      }
    }
    return true;
  }

  /** Two actions with as many references are the same both ways exactly when their
      reference sets are equal. */
  lemma SameBothWays(left: PostCommitAction, right: PostCommitAction)
    ensures SameAction(left, right) && SameAction(right, left) <==>
            SameTarget(left, right) && Elements(left.queryReferences) == Elements(right.queryReferences)
  {
    if SameAction(left, right) && SameAction(right, left) {
      assert Elements(left.queryReferences) == Elements(right.queryReferences);
    }
    if SameTarget(left, right) && Elements(left.queryReferences) == Elements(right.queryReferences) {
      forall r | r in left.queryReferences ensures r in right.queryReferences {
        assert r in Elements(left.queryReferences);
      }
      forall r | r in right.queryReferences ensures r in left.queryReferences {
        assert r in Elements(right.queryReferences);
      }
    }
  }

  /** The comparison goes one way only, and is symmetric because the references of a valid
      action are duplicate-free. */
  lemma SameActionIsSymmetric(left: PostCommitAction, right: PostCommitAction)
    requires SameAction(left, right) && NoDuplicates(left.queryReferences)
    ensures SameAction(right, left) && NoDuplicates(right.queryReferences)
  {
    var l, r := left.queryReferences, right.queryReferences;
    CountElements(l);
    CountElements(r);
    assert Elements(l) <= Elements(r);
    SubsetOfEqualSize(Elements(l), Elements(r));
    SameBothWays(left, right);
  }

  /** With a repeated reference on the left the comparison is not symmetric. */
  lemma RepeatedReferencesBreakSymmetry(a: Reference, b: Reference)
    requires a != b
    ensures var left := PostCommitAction("k", "p", "s", [a, a], false);
            var right := PostCommitAction("k", "p", "s", [a, b], false);
            SameAction(left, right) && !SameAction(right, left)
  {
    var right := PostCommitAction("k", "p", "s", [a, b], false);
    assert b in right.queryReferences;
  }

  // -------------------------------------------------------------- the result

  function Products(observations: seq<Observation>): set<string> {
    set o | o in observations :: o.product
  }

  ghost predicate ObservationOk(o: Observation, e: Expectation) {
    && o.valid && o.application == e.application && o.store == e.store
    && (e.bindings != [] ==> ShareReference(ReferencesFor(o.references, CUSTOMER_BINDING), e.bindings))
    && (e.queries != [] ==> ShareReference(ReferencesFor(o.references, QUERY), e.queries))
  }

  ghost predicate ObservationsOk(observations: seq<Observation>, e: Expectation) {
    && (forall i | 0 <= i < |observations| :: ObservationOk(observations[i], e))
    && forall i, j | 0 <= i < j < |observations| :: observations[i].id != observations[j].id
  }

  ghost predicate NamesOk(r: VerificationResult) {
    r.namedValid && (r.named != [] ==> forall p | p in Products(r.observations) :: p in r.named)
  }

  ghost predicate Targets(a: PostCommitAction, o: Observation) {
    a.product == o.product && a.productKind == o.productKind
    && ShareReference(a.queryReferences, ReferencesFor(o.references, QUERY))
  }

  ghost predicate TargetsOne(a: PostCommitAction, observations: seq<Observation>) {
    exists o | o in observations :: Targets(a, o)
  }

  ghost predicate ActionsOk(actions: seq<PostCommitAction>, observations: seq<Observation>) {
    && (forall i | 0 <= i < |actions| :: actions[i].valid && TargetsOne(actions[i], observations))
    && forall i, j | 0 <= i < j < |actions| :: !SameAction(actions[j], actions[i])
  }

  /** No expectation, or the same number of products with each expected one observed. */
  ghost predicate ProductsOk(observations: seq<Observation>, expected: seq<string>) {
    expected == []
    || (|Products(observations)| == |expected| && forall i | 0 <= i < |expected| :: expected[i] in Products(observations))
  }

  ghost predicate ResultOk(r: VerificationResult, e: Expectation) {
    && r.verified && r.observations != [] && r.artifacts > 0 && r.artifactsValid
    && ObservationsOk(r.observations, e) && NamesOk(r) && ActionsOk(r.actions, r.observations)
    && ProductsOk(r.observations, e.products)
  }

  method ValidateObservations(observations: seq<Observation>, e: Expectation) returns (ok: bool, products: set<string>)
    ensures ok <==> ObservationsOk(observations, e)
    ensures ok ==> products == Products(observations)
  {
    hide ShareReference, ReferencesFor;
    products := {};
    var ids: set<string> := {};
    for i := 0 to |observations|
      invariant forall j | 0 <= j < i :: ObservationOk(observations[j], e)
      invariant forall j, k | 0 <= j < k < i :: observations[j].id != observations[k].id
      invariant forall x :: x in ids <==> exists j :: 0 <= j < i && observations[j].id == x
      invariant products == Products(observations[..i])
    {
      var o := observations[i];
      if !o.valid || o.application != e.application || o.store != e.store {
        return false, products;
      }
      if o.id in ids {
        return false, products;
      }
      ids := ids + {o.id};
      assert observations[..i + 1] == observations[..i] + [o];
      products := products + {o.product};
      if |e.bindings| > 0 {
        var bound := HasMatchingReference(ReferencesFor(o.references, CUSTOMER_BINDING), e.bindings);
        if !bound {
          return false, products;
        }
      }
      if |e.queries| > 0 {
        var queried := HasMatchingReference(ReferencesFor(o.references, QUERY), e.queries);
        if !queried {
          return false, products;
        }
      }
    }
    assert observations[..|observations|] == observations;
    return true, products;
  }

  lemma TargetMeans(a: PostCommitAction, o: Observation)
    ensures Targets(a, o) <==>
            a.product == o.product && a.productKind == o.productKind
            && ShareReference(a.queryReferences, ReferencesFor(o.references, QUERY))
  {
  }

  method ValidateActions(actions: seq<PostCommitAction>, observations: seq<Observation>) returns (ok: bool)
    ensures ok <==> ActionsOk(actions, observations)
  {
    hide SameAction, ShareReference, ReferencesFor, Targets;
    for index := 0 to |actions|
      invariant forall i | 0 <= i < index :: actions[i].valid && TargetsOne(actions[i], observations)
      invariant forall i, j | 0 <= i < j < index :: !SameAction(actions[j], actions[i])
    {
      var action := actions[index];
      if !action.valid {
        return false;
      }
      var matched := false;
      for i := 0 to |observations|
        invariant matched <==> exists k :: 0 <= k < i && Targets(action, observations[k])
      {
        var o := observations[i];
        TargetMeans(action, o);
        if !matched && action.product == o.product && action.productKind == o.productKind {
          var shares := HasMatchingReference(action.queryReferences, ReferencesFor(o.references, QUERY));
          matched := shares;
        }
      }
      assert matched <==> TargetsOne(action, observations);
      if !matched {
        return false;
      }
      for previous := 0 to index
        invariant forall i | 0 <= i < previous :: !SameAction(action, actions[i])
      {
        var same := SamePostCommitAction(action, actions[previous]);
        if same {
          return false;
        }
      }
    }
    return true;
  }

  /** The shared result, scope, product, binding and reference checks. */
  method Validate(r: VerificationResult, e: Expectation) returns (ok: bool)
    ensures ok <==> ResultOk(r, e)
  {
    hide ObservationsOk, ActionsOk, Products;
    if !r.verified || |r.observations| == 0 || r.artifacts == 0 || !r.artifactsValid {
      return false;
    }
    var valid, products := ValidateObservations(r.observations, e);
    if !valid {
      return false;
    }
    if !r.namedValid {
      return false;
    }
    if |r.named| > 0 && !(forall p | p in products :: p in r.named) {
      return false;
    }
    var actions := ValidateActions(r.actions, r.observations);
    if !actions {
      return false;
    }
    if |e.products| == 0 {
      return true;
    }
    if |products| != |e.products| {
      return false;
    }
    for i := 0 to |e.products|
      invariant forall j | 0 <= j < i :: e.products[j] in products
    {
      if e.products[i] !in products {
        return false;
      }
    }
    return true;
  }

  // ----------------------------------------------------------- what it means

  /** An accepted result observes exactly the expected products, when these are listed
      without repetition, as every request lists them. */
  lemma ObservesExactlyTheExpected(r: VerificationResult, e: Expectation)
    requires ResultOk(r, e) && e.products != [] && NoDuplicates(e.products)
    ensures ExactlyOnce(e.products, Products(r.observations))
  {
    hide ObservationsOk, NamesOk, ActionsOk, Products;
    Pigeonhole(e.products, Products(r.observations));
  }

  /** Accepted actions are pairwise different in both directions, whatever their order. */
  lemma ActionsAreDistinct(r: VerificationResult, e: Expectation, i: nat, j: nat)
    requires ResultOk(r, e) && i < |r.actions| && j < |r.actions| && i != j
    requires forall k | 0 <= k < |r.actions| :: NoDuplicates(r.actions[k].queryReferences)
    ensures !SameAction(r.actions[i], r.actions[j])
  {
    hide ObservationsOk, NamesOk, ProductsOk;
    if SameAction(r.actions[i], r.actions[j]) {
      SameActionIsSymmetric(r.actions[i], r.actions[j]);
    }
  }

  /** The products a result is checked against for one claim: the observed ones when the
      purchase names the claimed product, and the claim itself otherwise. */
  method ProductsForClaim(r: VerificationResult, claimed: seq<string>) returns (products: seq<string>)
    ensures Claimable(r, claimed) ==> ExactlyOnce(products, Products(r.observations))
    ensures !Claimable(r, claimed) ==> products == claimed
  {
    if |claimed| != 1 || |r.named| == 0 || claimed[0] !in r.named {
      return claimed;
    }
    products := [];
    for i := 0 to |r.observations|
      invariant ExactlyOnce(products, Products(r.observations[..i]))
    {
      var product := r.observations[i].product;
      assert r.observations[..i + 1] == r.observations[..i] + [r.observations[i]];
      assert Products(r.observations[..i + 1]) == Products(r.observations[..i]) + {product};
      if product !in products {
        products := products + [product];
      }
    }
    assert r.observations[..|r.observations|] == r.observations;
  }

  predicate Claimable(r: VerificationResult, claimed: seq<string>) {
    |claimed| == 1 && claimed[0] in r.named
  }

  /** A claim on a named product never fails the product check. */
  lemma NamedClaimsPass(r: VerificationResult, claimed: seq<string>, products: seq<string>)
    requires Claimable(r, claimed) && ExactlyOnce(products, Products(r.observations))
    ensures ProductsOk(r.observations, products)
  {
    hide Products;
    Pigeonhole(products, Products(r.observations));
  }

  /** An accepted result, field by field: verified, with artifacts and observations, each of
      the expected application and store and with an id of its own, bound to the customer
      and the query when these are given, on a named product when products are named, with
      actions that target an observed purchase, and with just as many products as expected. */
  lemma AcceptedExactly(r: VerificationResult, e: Expectation)
    ensures ResultOk(r, e) <==>
            && r.verified && r.artifacts > 0 && r.artifactsValid && r.namedValid && |r.observations| > 0
            && (forall o | o in r.observations ::
                  && o.valid && o.application == e.application && o.store == e.store
                  && (e.bindings == [] || HasReference(o.references, "customer_binding", e.bindings))
                  && (e.queries == [] || HasReference(o.references, "query", e.queries))
                  && (r.named == [] || o.product in r.named))
            && (forall i, j | 0 <= i < j < |r.observations| :: r.observations[i].id != r.observations[j].id)
            && (forall a | a in r.actions :: a.valid && exists o :: o in r.observations && IsTargetedBy(o, a))
            && (forall i, j | 0 <= i < j < |r.actions| :: !IsCoveredBy(r.actions[j], r.actions[i]))
            && (e.products == []
                || (|set o | o in r.observations :: o.product| == |e.products|
                    && forall p | p in e.products :: exists o :: o in r.observations && o.product == p))
  {
    forall o: Observation, role: string, expected: seq<Reference>
      ensures ShareReference(ReferencesFor(o.references, role), expected) <==> HasReference(o.references, role, expected)
    {
      SharedByRole(o.references, role, expected);
    }
    forall a: PostCommitAction, o: Observation ensures Targets(a, o) <==> IsTargetedBy(o, a) {
      TargetedByRole(a, o);
    }
    hide ReferencesFor, ShareReference, HasReference, Targets, IsTargetedBy, SameAction, IsCoveredBy;
    forall i, j | 0 <= i < |r.actions| && 0 <= j < |r.actions|
      ensures SameAction(r.actions[j], r.actions[i]) <==> IsCoveredBy(r.actions[j], r.actions[i])
    {
      CoveredMeansSame(r.actions[j], r.actions[i]);
    }
    ObservationsByMember(r, e);
    ActionsByMember(r);
    ProductsByMember(r, e);
  }

  lemma ObservationsByMember(r: VerificationResult, e: Expectation)
    ensures (forall i | 0 <= i < |r.observations| :: ObservationOk(r.observations[i], e)) <==>
            (forall o | o in r.observations :: ObservationOk(o, e))
    ensures (r.named == [] || forall p | p in Products(r.observations) :: p in r.named) <==>
            (forall o | o in r.observations :: r.named == [] || o.product in r.named)
  {
    hide ObservationOk;
    forall o | o in r.observations ensures o.product in Products(r.observations) {
    }
  }

  lemma ActionsByMember(r: VerificationResult)
    ensures (forall i | 0 <= i < |r.actions| :: r.actions[i].valid && TargetsOne(r.actions[i], r.observations)) <==>
            (forall a | a in r.actions :: a.valid && TargetsOne(a, r.observations))
  {
    hide TargetsOne;
  }

  lemma ProductsByMember(r: VerificationResult, e: Expectation)
    ensures (forall i | 0 <= i < |e.products| :: e.products[i] in Products(r.observations)) <==>
            (forall p | p in e.products :: exists o :: o in r.observations && o.product == p)
  {
    if forall i | 0 <= i < |e.products| :: e.products[i] in Products(r.observations) {
      forall p | p in e.products ensures exists o :: o in r.observations && o.product == p {
        assert p in Products(r.observations);
      }
    }
    if forall p | p in e.products :: exists o :: o in r.observations && o.product == p {
      forall i | 0 <= i < |e.products| ensures e.products[i] in Products(r.observations) {
        assert e.products[i] in e.products;
        var o :| o in r.observations && o.product == e.products[i];
      }
    }
  }

  /** A reference of the role is among the expected ones. */
  ghost predicate HasReference(references: seq<Reference>, role: string, expected: seq<Reference>) {
    exists r :: r in references && r.role == role && r in expected
  }

  ghost predicate IsTargetedBy(o: Observation, a: PostCommitAction) {
    && a.product == o.product && a.productKind == o.productKind
    && exists r :: r in a.queryReferences && r.role == "query" && r in o.references
  }

  /** Same target and as many references, each of them among the other's. */
  ghost predicate IsCoveredBy(a: PostCommitAction, b: PostCommitAction) {
    && a.kind == b.kind && a.product == b.product && a.productKind == b.productKind
    && |a.queryReferences| == |b.queryReferences|
    && forall r | r in a.queryReferences :: r in b.queryReferences
  }

  lemma CoveredMeansSame(a: PostCommitAction, b: PostCommitAction)
    ensures SameAction(a, b) <==> IsCoveredBy(a, b)
  {
  }

  lemma {:induction false} RoleMembers(references: seq<Reference>, role: string)
    ensures forall r :: r in ReferencesFor(references, role) <==> r in references && r.role == role
  {
    if references != [] {
      var front, last := references[..|references| - 1], references[|references| - 1];
      RoleMembers(front, role);
      assert references == front + [last];
    }
  }

  lemma SharedByRole(references: seq<Reference>, role: string, expected: seq<Reference>)
    ensures ShareReference(ReferencesFor(references, role), expected) <==> HasReference(references, role, expected)
  {
    RoleMembers(references, role);
    hide ReferencesFor;
  }

  lemma TargetedByRole(a: PostCommitAction, o: Observation)
    ensures Targets(a, o) <==> IsTargetedBy(o, a)
  {
    RoleMembers(o.references, QUERY);
    hide ReferencesFor;
  }
}
