/** What writing one subscriber does to any reachable identity store. */
module ImportOutcomes {
  import opened Text
  import opened Identity
  import opened IdentityRuns
  import opened IdentityOutcomes
  import opened ImportPlan
  import opened ImportApply

  predicate IsOpenTo(s: Tables, projectId: string, externalId: string, id: string) {
    var holder := Holder(s, ExternalKey(projectId, externalId));
    holder.None? || holder == Some(id)
  }

  /** Every id that was held is held by the same customer, and customers, primary ids and
      merges are as before. */
  ghost predicate OnlyAddsAliases(s: Tables, t: Tables) {
    && t == s.(aliases := t.aliases)
    && forall k :: Holder(s, k).Some? ==> Holder(t, k) == Holder(s, k)
  }

  lemma OneAlias(s: Tables, projectId: string, id: string, alias: string)
    requires Inv(s) && IsRoot(s, projectId, id) && ValidIdentifier(projectId) && ValidIdentifier(id) && ValidIdentifier(alias)
    ensures var (t, r) := AfterAlias(s, AliasFor(projectId, id, alias));
            && Inv(t) && OnlyAddsAliases(s, t)
            && (r.Ok? <==> IsOpenTo(s, projectId, alias, id)) && (r.Err? ==> r.error == Conflict)
            && (r.Ok? ==> Holder(t, ExternalKey(projectId, alias)) == Some(id))
            && (forall a | a != alias :: Holder(t, ExternalKey(projectId, a)) == Holder(s, ExternalKey(projectId, a)))
  {
    var w := AliasFor(projectId, id, alias);
    ActorIsValid();
    AliasOutcomes(s, w);
    AliasKeepsInv(s, w);
    hide ValidIdentifier, AfterAlias, Inv;
  }

  /** Aliases are attached exactly when nobody else holds one of them. */
  lemma {:induction false} AttachedExactly(s: Tables, projectId: string, id: string, aliases: seq<string>)
    requires Inv(s) && IsRoot(s, projectId, id) && ValidIdentifier(projectId) && ValidIdentifier(id)
    requires forall a | a in aliases :: ValidIdentifier(a)
    ensures var r := AttachAliases(s, projectId, id, aliases);
            && (r.Ok? <==> forall a | a in aliases :: IsOpenTo(s, projectId, a, id))
            && (r.Err? ==> r.error == SubscriberConflict)
            && (r.Ok? ==>
                  && Inv(r.value) && OnlyAddsAliases(s, r.value)
                  && (forall a | a in aliases :: Holder(r.value, ExternalKey(projectId, a)) == Some(id))
                  && (forall a | a !in aliases ::
                        Holder(r.value, ExternalKey(projectId, a)) == Holder(s, ExternalKey(projectId, a))))
  {
    if aliases != [] {
      hide Inv, ValidIdentifier, AfterAlias, Holder;
      var front, last := aliases[..|aliases| - 1], aliases[|aliases| - 1];
      assert forall a :: a in aliases <==> a in front || a == last;
      AttachedExactly(s, projectId, id, front);
      var r := AttachAliases(s, projectId, id, front);
      if r.Ok? {
        OneAlias(r.value, projectId, id, last);
      }
    }
  }

  /** The customer of a subscriber: the one that holds its id, or a new one. */
  function TargetOf(s: Tables, projectId: string, customerId: string, d: Draft): string {
    var holder := Holder(s, ExternalKey(projectId, d.externalId));
    if holder.Some? then holder.value else customerId
  }

  lemma ImportedCustomer(s: Tables, projectId: string, customerId: string, d: Draft)
    requires Inv(s) && ValidIdentifier(projectId) && ValidIdentifier(customerId) && ValidIdentifier(d.externalId)
    ensures var (t, r) := ImportCustomer(s, projectId, customerId, d.externalId);
            var key := ExternalKey(projectId, d.externalId); var held := Holder(s, key).Some?;
            && (r.Ok? <==> held || customerId !in s.customers)
            && (r.Err? ==> r.error == SubscriberConflict && t == s)
            && (r.Ok? ==>
                  && Inv(t) && r.value == TargetOf(s, projectId, customerId, d) && IsRoot(t, projectId, r.value)
                  && Holder(t, key) == Some(r.value)
                  && (held ==> t == s)
                  && (forall k | k != key :: Holder(t, k) == Holder(s, k)))
  {
    ResolvesToItsHolder(s, projectId, d.externalId);
    ResolveNeverConflicts(s, projectId, d.externalId);
    PutOutcomes(s, customerId, projectId, d.externalId);
    PutKeepsInv(s, customerId, projectId, d.externalId);
    var t := AfterPut(s, customerId, projectId, d.externalId).0;
    forall k | k in s.primary ensures t.primary[k] == s.primary[k] && s.primary[k] in s.customers {
    }
    hide ValidIdentifier, Audited, Resolve;
  }

  /** A subscriber is written exactly when its customer can be found or added and nobody
      else holds one of its aliases; then all its ids lead to that customer. Otherwise it
      is a conflict and nothing changes. */
  lemma SubscriberOutcomes(s: Tables, projectId: string, customerId: string, d: Draft)
    requires Inv(s) && ValidIdentifier(projectId) && ValidIdentifier(customerId) && ValidIdentifier(d.externalId)
    requires forall a | a in UniqueAliases(d.externalId, d.aliases) :: ValidIdentifier(a)
    requires forall id | id in s.customers :: ValidIdentifier(id)
    ensures var (t, r) := AfterSubscriber(s, projectId, customerId, d);
            var target, aliases := TargetOf(s, projectId, customerId, d), UniqueAliases(d.externalId, d.aliases);
            var held := Holder(s, ExternalKey(projectId, d.externalId)).Some?;
            && (r.Ok? <==> (held || customerId !in s.customers) && forall a | a in aliases :: IsOpenTo(s, projectId, a, target))
            && (r.Ok? ==>
                  && r.value == target && Holder(t, ExternalKey(projectId, d.externalId)) == Some(target)
                  && forall a | a in aliases :: Holder(t, ExternalKey(projectId, a)) == Some(target))
            && (r.Err? ==> r.error == SubscriberConflict && t == s)
  {
    hide Inv, ValidIdentifier, Holder, ImportCustomer, AttachAliases, UniqueAliases;
    ImportedCustomer(s, projectId, customerId, d);
    UniqueAliasesAre(d.externalId, d.aliases);
    var (t, r) := ImportCustomer(s, projectId, customerId, d.externalId);
    if r.Ok? {
      RootIsValid(s, projectId, customerId, d);
      AttachedExactly(t, projectId, r.value, UniqueAliases(d.externalId, d.aliases));
    }
  }

  lemma RootIsValid(s: Tables, projectId: string, customerId: string, d: Draft)
    requires Inv(s) && ValidIdentifier(customerId) && forall id | id in s.customers :: ValidIdentifier(id)
    ensures ValidIdentifier(TargetOf(s, projectId, customerId, d))
  {
    hide ValidIdentifier, Audited;
    var key := ExternalKey(projectId, d.externalId);
    if key in s.primary && s.primary[key] in s.customers && s.customers[s.primary[key]].mergedInto.Some? {
      assert IsRoot(s, s.customers[s.primary[key]].projectId, s.customers[s.primary[key]].mergedInto.value);
    }
  }
}
