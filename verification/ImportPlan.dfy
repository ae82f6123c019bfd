/** The import planner's alias-conflict pass: which subscribers it refuses. */
module ImportPlan {
  import opened Text
  import opened ImportRows

  datatype Draft = Draft(externalId: string, line: nat, aliases: seq<string>, rows: seq<SourceRow>)

  // ------------------------------------------------------------ the planner

  function AddAlias(canonicalId: string, found: seq<string>, alias: string): seq<string> {
    var trimmed := TrimSpace(alias);
    if trimmed == "" || trimmed == canonicalId || trimmed in found then found else found + [trimmed]
  }

  /** The trimmed alias ids that are not the canonical id, each once. */
  function UniqueAliases(canonicalId: string, aliases: seq<string>): seq<string> {
    if aliases == [] then []
    else AddAlias(canonicalId, UniqueAliases(canonicalId, aliases[..|aliases| - 1]), aliases[|aliases| - 1])
  }

  lemma {:induction false} UniqueAliasesAre(canonicalId: string, aliases: seq<string>)
    ensures NoDuplicates(UniqueAliases(canonicalId, aliases))
    ensures forall a :: a in UniqueAliases(canonicalId, aliases) <==>
      (a != "" && a != canonicalId && exists i :: 0 <= i < |aliases| && TrimSpace(aliases[i]) == a)
  {
    if aliases != [] {
      var n := |aliases| - 1;
      UniqueAliasesAre(canonicalId, aliases[..n]);
      forall a ensures a in UniqueAliases(canonicalId, aliases) <==>
        (a != "" && a != canonicalId && exists i :: 0 <= i < |aliases| && TrimSpace(aliases[i]) == a)
      {
        if i :| 0 <= i < |aliases| && TrimSpace(aliases[i]) == a {
          assert i < n ==> TrimSpace(aliases[..n][i]) == a;
        }
        if i :| 0 <= i < n && TrimSpace(aliases[..n][i]) == a {
          assert TrimSpace(aliases[i]) == a;
        }
      }
    }
  }

  predicate Claims(d: Draft, alias: string) {
    d.externalId != "" && alias in UniqueAliases(d.externalId, d.aliases)
  }

  /** Some draft of this canonical id claims an alias that another canonical id
      claims, or that is another canonical id. */
  ghost predicate Conflicted(drafts: seq<Draft>, externalId: string) {
    exists d, alias, other :: d in drafts && other in drafts && d.externalId == externalId && Overlap(d, alias, other)
  }

  predicate Overlap(d: Draft, alias: string, other: Draft) {
    && other.externalId != "" && other.externalId != d.externalId && Claims(d, alias)
    && (Claims(other, alias) || other.externalId == alias)
  }

  /** A refused draft gets one more row, which the planner reads back. */
  function Marked(d: Draft, refused: bool): Draft {
    if refused then d.(rows := d.rows + [MarkerRow(d.line)]) else d
  }

  /** The marker as the planner reads it back. */
  predicate HasConflict(d: Draft) {
    exists i | 0 <= i < |d.rows| :: d.rows[i].ambiguousProduct && d.rows[i].productIdentifier == "" && d.rows[i].entitlementIds == []
  }

  ghost predicate Owners(drafts: seq<Draft>, owners: map<string, set<string>>) {
    && (forall a, e | a in owners && e in owners[a] :: exists d :: d in drafts && d.externalId == e && Claims(d, a))
    && (forall d, a | d in drafts && Claims(d, a) :: a in owners && d.externalId in owners[a])
  }

  ghost predicate Canonicals(drafts: seq<Draft>, canonicals: set<string>) {
    && (forall e | e in canonicals :: e != "" && exists d :: d in drafts && d.externalId == e)
    && (forall d | d in drafts && d.externalId != "" :: d.externalId in canonicals)
  }

  method UniqueAliasesOf(canonicalId: string, aliases: seq<string>) returns (result: seq<string>)
    ensures result == UniqueAliases(canonicalId, aliases)
  {
    var seen: set<string> := {};
    result := [];
    for i := 0 to |aliases|
      invariant result == UniqueAliases(canonicalId, aliases[..i])
      invariant forall a :: a in seen <==> a in result
    {
      assert aliases[..i + 1][..i] == aliases[..i];
      var alias := TrimSpace(aliases[i]);
      if alias == "" || alias == canonicalId || alias in seen {
        continue;
      }
      seen := seen + {alias};
      result := result + [alias];
    }
    assert aliases[..|aliases|] == aliases;
  }

  /** Adds one canonical id as an owner of each alias. */
  method AddOwner(owners: map<string, set<string>>, aliases: seq<string>,
                  externalId: string) returns (more: map<string, set<string>>)
    ensures forall a :: a in more <==> a in owners || a in aliases
    ensures forall a | a in more ::
      more[a] == (if a in owners then owners[a] else {}) + (if a in aliases then {externalId} else {})
  {
    more := owners;
    for j := 0 to |aliases|
      invariant forall a :: a in more <==> a in owners || a in aliases[..j]
      invariant forall a | a in more ::
          more[a] == (if a in owners then owners[a] else {}) + (if a in aliases[..j] then {externalId} else {})
    {
      var a := aliases[j];
      assert forall x :: x in aliases[..j + 1] <==> x in aliases[..j] || x == a;
      more := more[a := (if a in more then more[a] else {}) + {externalId}];
    }
    assert aliases[..|aliases|] == aliases;
  }

  lemma OwnerAdded(before: seq<Draft>, after: seq<Draft>, d: Draft, owners: map<string, set<string>>,
                   more: map<string, set<string>>)
    requires Owners(before, owners) && d.externalId != "" && (forall x :: x in after <==> x in before || x == d)
    requires forall a :: a in more <==> a in owners || Claims(d, a)
    requires forall a | a in more ::
      more[a] == (if a in owners then owners[a] else {}) + (if Claims(d, a) then {d.externalId} else {})
    ensures Owners(after, more)
  {
    hide UniqueAliases, Claims;
    forall a, e | a in more && e in more[a] ensures exists x :: x in after && x.externalId == e && Claims(x, a) {
      if a in owners && e in owners[a] {
        var x :| x in before && x.externalId == e && Claims(x, a);
        assert x in after;
      } else {
        assert d in after && Claims(d, a);
      }
    }
  }

  method CollectOwners(drafts: seq<Draft>) returns (canonicals: set<string>, owners: map<string, set<string>>)
    ensures Canonicals(drafts, canonicals) && Owners(drafts, owners)
  {
    canonicals, owners := {}, map[];
    for i := 0 to |drafts|
      invariant Canonicals(drafts[..i], canonicals) && Owners(drafts[..i], owners)
    {
      var d := drafts[i];
      assert forall x :: x in drafts[..i + 1] <==> x in drafts[..i] || x == d;
      if d.externalId == "" {
        continue;
      }
      canonicals := canonicals + {d.externalId};
      var aliases := UniqueAliasesOf(d.externalId, d.aliases);
      var more := AddOwner(owners, aliases, d.externalId);
      OwnerAdded(drafts[..i], drafts[..i + 1], d, owners, more);
      owners := more;
    }
    assert drafts[..|drafts|] == drafts;
  }

  /** The canonical ids one alias refuses. */
  function RefusedBy(alias: string, ids: set<string>, canonicals: set<string>): set<string> {
    (if |ids| > 1 then ids else {}) + (if alias in canonicals then ids - {alias} else {})
  }

  /** Some alias already read refuses the canonical id. */
  ghost predicate RefusedOutside(owners: map<string, set<string>>, left: set<string>, canonicals: set<string>, e: string) {
    exists a :: a in owners && a !in left && e in RefusedBy(a, owners[a], canonicals)
  }

  lemma OneAliasMore(owners: map<string, set<string>>, left: set<string>, canonicals: set<string>, alias: string, e: string)
    requires alias in owners && alias in left
    ensures RefusedOutside(owners, left - {alias}, canonicals, e)
            <==> RefusedOutside(owners, left, canonicals, e) || e in RefusedBy(alias, owners[alias], canonicals)
  {
    hide RefusedBy;
  }

  /** Refuses subscribers that share an alias or claim another canonical id. */
  method ApplyAliasConflicts(drafts: seq<Draft>) returns (marked: seq<Draft>)
    ensures |marked| == |drafts|
    ensures forall i | 0 <= i < |drafts| :: marked[i] == Marked(drafts[i], Conflicted(drafts, drafts[i].externalId))
  {
    var canonicals, owners := CollectOwners(drafts);
    var conflicts: set<string> := {};
    var left := owners.Keys;
    hide RefusedBy, RefusedOutside, Conflicted, Marked;
    forall e ensures !RefusedOutside(owners, owners.Keys, canonicals, e) {
      NothingReadYet(owners, canonicals, e);
    }
    while left != {}
      invariant left <= owners.Keys
      invariant forall e :: e in conflicts <==> RefusedOutside(owners, left, canonicals, e)
      decreases left
    {
      var alias :| alias in left;
      forall e
        ensures RefusedOutside(owners, left - {alias}, canonicals, e)
                <==> RefusedOutside(owners, left, canonicals, e) || e in RefusedBy(alias, owners[alias], canonicals)
      {
        OneAliasMore(owners, left, canonicals, alias, e);
      }
      left := left - {alias};
      conflicts := conflicts + RefusedBy(alias, owners[alias], canonicals);
    }
    marked := [];
    for i := 0 to |drafts|
      invariant |marked| == i
      invariant forall j | 0 <= j < i :: marked[j] == Marked(drafts[j], drafts[j].externalId in conflicts)
    {
      marked := marked + [Marked(drafts[i], drafts[i].externalId in conflicts)];
    }
    forall e: string ensures e in conflicts <==> Conflicted(drafts, e) {
      RefusedIffConflicted(drafts, canonicals, owners, e);
    }
  }

  lemma TwoMembers(ids: set<string>, e: string)
    requires e in ids
    ensures |ids| > 1 <==> exists f :: f in ids && f != e
  {
    if |ids| > 1 {
      assert |ids - {e}| > 0;
      var f :| f in ids - {e};
    } else {
      assert |ids - {e}| == 0;
      assert ids - {e} == {};
      assert forall f | f in ids :: f in ids - {e} || f == e;
    }
  }

  lemma NothingReadYet(owners: map<string, set<string>>, canonicals: set<string>, e: string)
    ensures !RefusedOutside(owners, owners.Keys, canonicals, e)
  {
    hide RefusedBy;
  }

  lemma RefusedIffConflicted(drafts: seq<Draft>, canonicals: set<string>, owners: map<string, set<string>>, e: string)
    requires Canonicals(drafts, canonicals) && Owners(drafts, owners)
    ensures RefusedOutside(owners, {}, canonicals, e) <==> Conflicted(drafts, e)
  {
    if a :| a in owners && e in RefusedBy(a, owners[a], canonicals) {
      RefusedOverlaps(drafts, canonicals, owners, a, e);
    }
    if Conflicted(drafts, e) {
      var d, a, other :| d in drafts && other in drafts && d.externalId == e && Overlap(d, a, other);
      OverlapIsRefused(drafts, canonicals, owners, d, a, other);
    }
  }

  lemma RefusedOverlaps(drafts: seq<Draft>, canonicals: set<string>, owners: map<string, set<string>>, a: string,
                        e: string)
    requires Canonicals(drafts, canonicals) && Owners(drafts, owners)
    requires a in owners && e in RefusedBy(a, owners[a], canonicals)
    ensures Conflicted(drafts, e)
  {
    var d :| d in drafts && d.externalId == e && Claims(d, a);
    if |owners[a]| > 1 {
      TwoMembers(owners[a], e);
      var f :| f in owners[a] && f != e;
      var other :| other in drafts && other.externalId == f && Claims(other, a);
      assert Overlap(d, a, other);
    } else {
      var other :| other in drafts && other.externalId == a;
      assert Overlap(d, a, other);
    }
  }

  lemma OverlapIsRefused(drafts: seq<Draft>, canonicals: set<string>, owners: map<string, set<string>>, d: Draft,
                         a: string, other: Draft)
    requires Canonicals(drafts, canonicals) && Owners(drafts, owners)
    requires d in drafts && other in drafts && Overlap(d, a, other)
    ensures a in owners && d.externalId in RefusedBy(a, owners[a], canonicals)
  {
    TwoMembers(owners[a], d.externalId);
    if Claims(other, a) {
      assert other.externalId in owners[a];
    } else {
      assert a in canonicals;
    }
  }

  /** The place where an alias id first occurs. */
  ghost predicate FirstAt(aliases: seq<string>, a: string, k: nat) {
    k < |aliases| && TrimSpace(aliases[k]) == a && forall i | 0 <= i < k :: TrimSpace(aliases[i]) != a
  }

  ghost predicate FirstBefore(aliases: seq<string>, a: string, b: string) {
    exists k: nat :: FirstAt(aliases, a, k) && forall i | 0 <= i <= k :: TrimSpace(aliases[i]) != b
  }

  lemma FirstBeforeStays(aliases: seq<string>, a: string, b: string, n: nat)
    requires n <= |aliases| && FirstBefore(aliases[..n], a, b)
    ensures FirstBefore(aliases, a, b)
  {
    hide TrimSpace;
    var k: nat :| FirstAt(aliases[..n], a, k) && forall i | 0 <= i <= k :: TrimSpace(aliases[..n][i]) != b;
    assert forall i | 0 <= i < n :: aliases[..n][i] == aliases[i];
    assert FirstAt(aliases, a, k);
  }

  lemma {:induction false} HasFirst(aliases: seq<string>, a: string) returns (k: nat)
    requires exists i :: 0 <= i < |aliases| && TrimSpace(aliases[i]) == a
    ensures FirstAt(aliases, a, k)
  {
    hide TrimSpace;
    var n := |aliases| - 1;
    if i :| 0 <= i < n && TrimSpace(aliases[i]) == a {
      assert aliases[..n][i] == aliases[i];
      k := HasFirst(aliases[..n], a);
      assert forall i | 0 <= i < n :: aliases[..n][i] == aliases[i];
    } else {
      k := n;
    }
  }

  /** The unique aliases are in the order of their first occurrence. */
  lemma {:induction false} UniqueAliasesInOrder(canonicalId: string, aliases: seq<string>, i: nat, j: nat)
    requires i < j < |UniqueAliases(canonicalId, aliases)|
    ensures FirstBefore(aliases, UniqueAliases(canonicalId, aliases)[i], UniqueAliases(canonicalId, aliases)[j])
  {
    hide TrimSpace;
    var n := |aliases| - 1;
    var front, all := UniqueAliases(canonicalId, aliases[..n]), UniqueAliases(canonicalId, aliases);
    if j < |front| {
      UniqueAliasesInOrder(canonicalId, aliases[..n], i, j);
      FirstBeforeStays(aliases, all[i], all[j], n);
    } else {
      UniqueAliasesAre(canonicalId, aliases[..n]);
      assert all[i] in front;
      var k := HasFirst(aliases[..n], all[i]);
      assert forall l | 0 <= l < n :: aliases[..n][l] == aliases[l];
      assert FirstAt(aliases, all[i], k);
      forall l | 0 <= l <= k ensures TrimSpace(aliases[l]) != all[j] {
        assert TrimSpace(aliases[..n][l]) == TrimSpace(aliases[l]);
      }
    }
  }
}
