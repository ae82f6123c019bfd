# IAPStack: verified core

IAPStack turns store evidence into versioned customer access and delivers the changes to
applications. This project models the parts of it whose correctness depends on more than one
function, and proves what they promise. `dafny verify dfyconfig.toml` checks all of it.

**Entitlement projection.** `Entitlements`, `Projector` and `ProjectorLaws` model how the projector
chooses one source per entitlement: the latest per purchase lineage, store observations over
imports, several rankings, and a current source that is kept when it ties. Go maps are read in an
arbitrary order here too; `ProjectorTies` proves exactly when the result does not depend on it, and
that distinct ids of one kind are enough. `ProjectorRules` states the decision in the fields of the
inputs alone. `Refresh`, `RefreshRuns`, `RefreshTheorems` and `RefreshEvents` put the projector over
a store of versioned rows and an outbox, and reason about runs in which sources change and refreshes
happen in any order. In these runs a source key, once present, stays present, and a lineage key
determines its source kind; both conditions are stated in `RefreshRuns.Steps`. `SourceQuery` models
the query that finds a customer's sources among the stored records of its closure, and `SourceRuns`
proves that it meets those conditions: every history of identity operations, stored records and
refreshes is such a run, so rows follow the records before and after merges. What is assumed there
is that records are neither deleted nor moved to another lineage or customer.

**Customer identity.** `Identity` models customers, aliases, merges and the audit log as a class
over tables; `IdentityRuns` proves what every run of puts, aliases and merges keeps, and
`IdentityOutcomes` when exactly each operation answers what. `ImportPlan`, `ImportOutcomes` and
`ImportApply` model the static alias-conflict pass of a RevenueCat import and run its result against
that same identity store: what the pass leaves unmarked cannot conflict later. `ImportDecision`
models the access a single exported row grants and which row of a lineage decides; `ImportRows`
holds the row they share.

**Exact money.** `Digits`, `Decimal` and `DecimalText` model decimals and their text. `AppleReport`,
`AppleReportLaws` and `AppleReportTheorems` model the consolidated report parser line by line, and
`AppleReportExample` holds a concrete file; `AppleReportChecks` lists the checks as one table.
`ReportAmounts`, `ReportOutcomes`, `FinancialImports` and `FinancialRuns` model matching totals to
applications and the save, supersede and revive operations. `Revenue`, `Coverage` and `Recognition`
model the recognized revenue answer. `Proceeds` joins them: what an accepted file is worth once it
is saved and recognized.

**Delivery and durable work.** `WebhookReceiver` is a state machine of interleaved deliveries with
store failures and crashes; `Worker` is one queue job under an adversarial scheduler; and
`WebhookDelivery` joins the two. `Reconciliation` models the daily generations of a purchase
lineage. `Encodings`, `StoreContracts`, `ReleaseGate`, `EvidenceRules` and `Counting` hold the
smaller arguments: injective encodings and counting.

Where the code does not do what one would expect, it is kept as it is and the exact condition is
proved:

- A replacement of a financial report compares provider, kind and dates with the draft but not the
  project. A period loses its accepted import exactly when the draft passes every check as a new
  file of another project whose own period is free
  (`FinancialRuns.PeriodIsLostExactlyAcrossProjects`, with a concrete case). This is about the store
  interface: its only caller sets the draft's project to the one it asks for
  (internal/financialreports/service.go:121), so such a draft does not come from the service.
- Two sources of one kind and entitlement with one id tie, and the map order then decides which of
  them is written (`ProjectorTies.OrderMattersExactlyForTies`, with concrete cases).
- The report parser uses Go's zero time for "no period yet", so a row whose period starts on that
  day does not fix the period. The order of the rows of an accepted file matters exactly when there
  is such a row (`AppleReportTheorems.OrderMattersExactlyForTheZeroDay`, with a concrete file in
  `AppleReportExample.RowOrderCanMatter`).
- A store observation hides an import of another product even when the import lasts longer
  (`ProjectorLaws.EverySourceIsFollowedUnlessImportOutlasts`, with a concrete case).
- An event whose end had already passed when it was built reads differently in the SDK and on the
  server, exactly for instants before that end (`RefreshEvents.EventAgreesExactly`).
- An imported row that starts in the future, and would grant then, is stored as denied and stays
  denied until it is imported again (`ImportDecision.StoredDecisionsStayRight`).

Methods model the code that changes state or loops; each is tied by its `ensures` to a specification
function or relation, and the lemmas beside it prove what that specification means.

## Model

| member | source | states |
|---|---|---|
| Entitlements.RankingsAreTotal | internal/verification/projector.go:212-265 | the newest-of-lineage and the preferred-candidate rankings order any two different candidates of one entitlement once same-kind source ids differ, so every fold has one winner |
| Projector.ChooseBest | internal/verification/projector.go:104-119 | folding an entitlement's sources in any map order yields a best source that no other beats |
| Projector.Project | internal/verification/projector.go:54-146 | fails exactly when a current row is invalid or repeats an entitlement or a candidate is invalid, with the first such input; otherwise the result is, entitlement by entitlement, the decided one, in identifier order and without repetition |
| ProjectorLaws.OrderIndependence | internal/verification/projector.go:84-146 | permuting rows or candidates, or reading any map in another order, changes neither success nor the returned sequence |
| ProjectorTies.ProjectionExists | internal/verification/projector.go:84-146 | accepted inputs have a result, whatever the rows are |
| ProjectorTies.OrderMattersExactlyForTies | internal/verification/projector.go:84-146 | the result of an accepted call is the same for every order of rows, candidates and maps exactly when all ways of breaking the ties of its folds write the same projections |
| ProjectorTies.DistinctIdentitiesLeaveNoTies | internal/verification/projector.go:212-265 | distinct same-kind ids are enough: no tie is left to break |
| ProjectorTies.EqualIdentitiesTie | internal/verification/projector.go:225-243 | for any source, a second one that differs only in its product ties with it, and a call with both may return either projection |
| ProjectorLaws.NoWrongfulRevocation | internal/verification/projector.go:104-135 | the result is at least as strong as every source in force; an allowed row stops being allowed only if no source is allowed and its own source was reported or a best source shares its application product, and always if no source is allowed and every best source does |
| ProjectorLaws.RevokedExactly | internal/verification/projector.go:104-135 | with distinct ids, an allowed row stops being allowed exactly when no source is allowed and its own source was reported or the best source shares its application product |
| ProjectorLaws.StoreObservationsSupersedeImports | internal/verification/projector.go:84-103 | no resulting row cites an import whose entitlement, application and product have a store observation |
| ProjectorLaws.StickKeepsDecision | internal/verification/projector.go:120-135 | keeping a tied current source never changes access, kind or the end of an allowed period |
| ProjectorLaws.DecidedAsFromScratch | internal/verification/projector.go:104-135 | whatever the stored row was, a reported entitlement gets the decision a projection from nothing makes |
| ProjectorLaws.PointwiseAccess | internal/verification/projector.go:225-265 | at every instant the projection is allowed exactly when some source of its kind is allowed |
| ProjectorLaws.EverySourceIsFollowedUnlessImportOutlasts | internal/verification/projector.go:225-278 | a written projection follows the sources of every kind at every instant exactly unless some store source is allowed and an allowed import ends after every allowed store source |
| ProjectorLaws.AnImportCanOutlast | internal/verification/projector.go:225-278 | a concrete store observation until 10 hides an import of another product until 20 |
| ProjectorRules.ErrorNamesTheFirst | internal/verification/projector.go:54-83 | an error names the first row that is invalid or repeats an entitlement, or else the first invalid candidate; without any the input is accepted |
| ProjectorRules.ValidCandidatesAre | internal/verification/projector.go:149-155 | what a valid candidate is, field by field |
| ProjectorRules.GroupsHoldTheLatest | internal/verification/projector.go:84-103 | for each lineage that speaks for an entitlement the projector keeps its latest candidate: a store observation before an import, then the later one, then the smaller id; an import beside a store observation of its product does not speak |
| ProjectorRules.WrittenByTheRules | internal/verification/projector.go:104-146 | what is written for an entitlement, in fields of the inputs: from the latest candidates, one that ranks first (allowed before unresolved before denied, store before import, the later allowed end, the later observation, the smaller id), unless the current source has its access and lasts as long; nothing for an unreported row of another product with as strong an access |
| ProjectorRules.WhichAccessWins | internal/verification/projector.go:306-318 | without a row, or with a reported one, the written access is allowed if any latest source is, otherwise unresolved if any is, otherwise denied |
| ProjectorRules.SilenceWritesNothing | internal/verification/projector.go:104-146 | an entitlement without candidates is not written |
| Refresh.EntitlementStore.PutEntitlement | internal/persistence/postgres/entitlement.go:136-252 | inserts version one, leaves an equal row alone, or replaces the row under the next version; names the new state and whether it changed |
| RefreshRuns.PutOutcomes | internal/persistence/postgres/entitlement.go:136-252 | when a put is refused and with what, when it changes the row, and the version it writes |
| Refresh.EntitlementStore.CustomerEntitlements | internal/persistence/postgres/entitlement.go:354-388 | the customer's rows with their source origins, in whatever order they are read |
| Refresh.EntitlementStore.WriteProjection | internal/verification/refresh.go:63-91 | writes one projection and enqueues one event exactly when the row changed and webhooks are on |
| Refresh.EntitlementStore.RefreshCustomerProjection | internal/verification/refresh.go:34-94 | a successful refresh writes every projection the projector decides and counts changes and events; a failed one changes nothing |
| RefreshTheorems.RefreshAlwaysSucceeds | internal/verification/refresh.go:34-94 | no refresh of any run of source changes and refreshes fails |
| RefreshTheorems.RowsAreReported | internal/verification/projector.go:195-208 | in every reachable state each stored row is reported by its sources, because source keys persist and determine their kind |
| RefreshTheorems.PathIndependence | internal/verification/refresh.go:46-93 | right after any refresh of any run, a customer has rows for exactly the entitlements a projection from nothing selects, with that projection's access, kind and, when allowed, end |
| RefreshTheorems.RefreshIsIdempotent | internal/verification/refresh.go:63-94 | a second refresh over the same sources changes no row, version or event and counts nothing |
| RefreshTheorems.RowsFollowTheirSources | internal/verification/refresh.go:46-93 | right after a refresh in any run a stored row is allowed at an instant exactly when a source of its kind still in force is |
| SourceQuery.FirstExists | internal/persistence/postgres/entitlement.go:276-301 | every lineage that is read has one record that is kept |
| SourceQuery.FirstIsTheLatest | internal/persistence/postgres/entitlement.go:296-301 | the record kept of a lineage is one that no read record of the lineage was observed after; at equal times it is allowed if an observation is, and then has the smallest id |
| SourceQuery.AnswersAreOk | internal/persistence/postgres/entitlement.go:259-350 | the answer is what the projector needs: valid candidates, distinct same-kind ids, lineage keys that say the kind, and origins that agree with the records |
| SourceQuery.KeysOfTheAnswer | internal/persistence/postgres/entitlement.go:276-301 | the answer names exactly the lineages that some record of the closure has |
| SourceQuery.UnionPicksTheBetter | internal/persistence/postgres/entitlement.go:276-301 | asking about two sets of customers at once returns, per lineage, whichever of the two separate picks is ahead; a denied twin never hides an allowed observation of the same time |
| SourceQuery.ClosuresGrow | internal/persistence/postgres/identity.go:292-340 | under any identity operation the customers whose sources a customer shares only grow |
| SourceQuery.MergeUnites | internal/persistence/postgres/identity.go:116-221 | a new merge adds exactly the source customer, who had no one else, to the canonical closure, and both customers then have that closure |
| SourceRuns.HistoriesAreRuns | internal/verification/refresh.go:46-93 | every history of identity operations, stored records and refreshes is a run of the refresh model over what its queries returned |
| SourceRuns.RefreshIsPossible | internal/verification/refresh.go:34-94 | after any history every customer can be refreshed |
| SourceRuns.RowsFollowTheRecords | internal/verification/refresh.go:46-93 | after any history that ends with a refresh, the customer has rows for exactly the entitlements some record of its closure names, and a row is allowed at an instant exactly when a record of its kind is that is the latest of its lineage and, if an import, has no store observation of its product beside it |
| SourceRuns.RowsCiteARecord | internal/verification/refresh.go:63-91 | after such a history each row cites, field by field and with its owner, a record in force, whose access, kind and allowed end are those of a record that none in force ranks above |
| SourceRuns.MergedRowsFollowBoth | internal/transport/httpapi/identity.go:113-130 | after a merge and its refresh, whatever came before, the canonical customer's rows follow the records of both former closures together |
| RefreshRuns.WriteAllEvents | internal/verification/service.go:806-865 | a refresh appends exactly one event for each changed row, carrying its new version |
| RefreshEvents.VersionsWithoutGap | internal/persistence/postgres/entitlement.go:136-252 | in runs whose refreshes all enqueue, the events of a customer and entitlement carry versions 1 to n, each once |
| RefreshEvents.EventAgreesExactly | sdk/go/models.go:94-114 | the SDK's answer from an event payload equals the server's answer from the row at an instant, except exactly before an end that had already passed when the event was built |
| RefreshEvents.ClientsAgreeWithServer | internal/verification/service.go:806-865 | a client holding the last event of a row decides, at every instant from that event on, as the server does from the stored row |
| RefreshEvents.LastEventAnnouncesTheRow | internal/verification/service.go:806-865 | the last event of a row names its project, customer, entitlement, cited record and that record's application, product, period and version, and the access and reason it read with at the event's time |
| RefreshEvents.EventsComeFromRefreshes | internal/verification/refresh.go:63-91 | each queued event was written by an enqueueing refresh of its customer, at that refresh's time |
| RefreshEvents.CountsAreExact | internal/verification/refresh.go:63-94 | a refresh reports how many rows it changed and how many events it queued |
| Identity.IdentityStore.ResolveCustomer | internal/persistence/postgres/identity.go:24-66 | reads the canonical customer through at most one merge edge, or reports not found or conflict |
| Identity.IdentityStore.PutCustomer | internal/persistence/postgres/control.go:46-69 | adds a customer, or returns the stored id when the external id is already a primary one, and refuses an alias or a used id without a change |
| Identity.IdentityStore.PutCustomerAlias | internal/persistence/postgres/identity.go:69-113 | adds an alias to the canonical customer, confirms one it already owns, and rejects the rest without a change |
| Identity.IdentityStore.MergeCustomers | internal/persistence/postgres/identity.go:116-221 | adds one merge edge and its audit row, or replays the stored merge, or rejects (a source that owns an alias or a merge among others); replay and rejection change nothing |
| Identity.IdentityStore.CustomerClosure | internal/persistence/postgres/identity.go:292-340 | lists exactly the customers that share the root |
| IdentityRuns.ReachableInv | internal/persistence/postgres/identity.go:24-221 | over all runs: merge edges have depth one inside one project, alias targets are unmerged, alias and primary ids are disjoint, and edges and audit rows correspond one to one |
| IdentityRuns.ResolveNeverConflicts | internal/persistence/postgres/identity.go:24-66 | in every reachable state the conflict branches of resolution and closures are unreachable, and an id resolves exactly when it is a primary id or alias |
| IdentityRuns.ResolutionFollowsRoot | internal/persistence/postgres/identity.go:24-66 | an id that resolves keeps resolving after any run, and ids that share a canonical customer share it forever |
| IdentityRuns.CanonicalChangesAtMostOnce | internal/persistence/postgres/identity.go:116-221 | along any run the canonical customer of a stored customer changes at most once |
| IdentityRuns.ClosuresPartition | internal/persistence/postgres/identity.go:224-340 | closures are equal exactly for customers with one root and disjoint otherwise, and membership in a closure is sharing a root |
| IdentityRuns.MergesReplay | internal/persistence/postgres/identity.go:138-177 | after any later run, a merge repeated under its own key or any unused one changes nothing and returns the original audit row |
| IdentityOutcomes.ResolvesToItsHolder | internal/persistence/postgres/identity.go:24-66 | an external id resolves to the customer that holds it, by its primary id, its merge or an alias, and says which |
| IdentityOutcomes.PutOutcomes | internal/persistence/postgres/control.go:46-69 | a put returns the customer stored under the external id, which is the given id exactly when it was new or already there, and is refused exactly for an alias or a used id |
| IdentityOutcomes.AliasOutcomes | internal/persistence/postgres/identity.go:69-113 | an alias is stored exactly when the customer is canonical and nobody else holds the id, which then resolves to that customer |
| IdentityOutcomes.MergeIsRecordedExactly | internal/persistence/postgres/identity.go:116-221 | a merge is recorded exactly when both customers are stored and unmerged, the source has no alias, merge or audit row, the key is unused and no entitlement conflicts; it then redirects the source and nothing else |
| IdentityOutcomes.MergeReplaysExactly | internal/persistence/postgres/identity.go:138-162 | it is a replay exactly when the audit log has the pair under the key, or without that key under another, and the answer is that row |
| ImportPlan.UniqueAliasesOf | internal/revenuecatimport/plan.go:348-363 | the aliases other than the canonical id, each once, in first-occurrence order |
| ImportPlan.ApplyAliasConflicts | internal/revenuecatimport/plan.go:299-335 | marks exactly the drafts that share an alias with another canonical id or claim another canonical id as alias |
| ImportApply.ApplySubscriber | internal/revenuecatimport/apply.go:120-154 | applies one subscriber to the identity store, rolling back on conflict; names the state after either outcome |
| ImportApply.UnmarkedSubscribersNeverConflict | internal/revenuecatimport/apply.go:133-154 | applying the unmarked subscribers to an empty identity store in any order never conflicts, and every id and alias then resolves to its own customer |
| ImportApply.MarkerIsReadBack | internal/revenuecatimport/plan.go:338-345 | after the conflict pass the planner finds the marker on a draft exactly when the pass marked it or its own rows already had the marker's shape |
| ImportOutcomes.SubscriberOutcomes | internal/revenuecatimport/apply.go:120-154 | in any reachable identity store a subscriber is written exactly when its customer can be found or added and nobody else holds one of its aliases; all its ids then lead to that customer, and otherwise it is a conflict and nothing changes |
| ImportPlan.UniqueAliasesAre | internal/revenuecatimport/plan.go:348-363 | the unique aliases are exactly the trimmed ones that are neither empty nor the canonical id, each once |
| ImportPlan.UniqueAliasesInOrder | internal/revenuecatimport/plan.go:348-363 | and in the order of their first occurrence |
| ImportDecision.DecideAccess | internal/revenuecatimport/decide.go:21-93 | the exact failure code or the access, reason, period and refund disagreement of a row at the clock, in terms of its half-open period |
| ImportDecision.DecisionsAreStorable | internal/revenuecatimport/decide.go:67-93 | every decision carries a valid stored period, and an allowed one has begun and not ended |
| ImportDecision.StoredDecisionsStayRight | internal/revenuecatimport/decide.go:86-92 | a stored decision agrees with a fresh one at every later instant exactly unless the row starts in the future and would grant at its start |
| ImportDecision.RefusedExactly | internal/revenuecatimport/decide.go:21-81 | the condition of each refusal code in fields of the row |
| ImportDecision.DecidedExactly | internal/revenuecatimport/decide.go:34-93 | the condition of each access and reason, and the stored period, in fields of the row and the clock |
| ImportDecision.AfterIsAWeakOrder | internal/revenuecatimport/plan.go:374-400 | row recency is a strict weak order whose ties are the rows with equal updated time, end and start |
| ImportDecision.WinningRow | internal/revenuecatimport/plan.go:155-177 | the kept row is the first of the most recent rows of a lineage |
| ImportDecision.WinnerIsTheMostRecent | internal/revenuecatimport/plan.go:372-400 | the winner is the first row that is at least as recent as every other: updated later, then with the later end, then with the later start |
| ImportDecision.OrderOnlyBreaksTies | internal/revenuecatimport/plan.go:155-177 | another order of the same rows can change the winner only among tied rows |
| Decimal.DecimalPow10 | internal/persistence/decimal.go:199-209 | the loop computes the power of ten |
| Decimal.Cmp | internal/persistence/decimal.go:121-134 | scaling a copy of the coarser operand computes the comparison |
| Decimal.CompareIsRational | internal/persistence/decimal.go:121-134 | comparison is that of the rational values across scales, in all three outcomes |
| Decimal.AddIsExact | internal/persistence/decimal.go:99-107 | addition succeeds exactly for equal scales and is exact |
| Decimal.MulIsExact | internal/persistence/decimal.go:110-118 | multiplication is exact |
| Decimal.RescaleKeepsValue | internal/persistence/decimal.go:137-149 | rescaling succeeds exactly for a scale at least as fine and keeps the value |
| Decimal.ExactMinorUnits | internal/persistence/decimal.go:161-183 | the in-place division computes the minor units, none, or the error |
| Decimal.MinorUnitsAreExact | internal/persistence/decimal.go:161-183 | the result is v exactly when the coefficient is v times the power of ten and v fits 64 bits, none exactly when the scale is coarser, a scale error exactly when inexact, and an overflow when exact but too large |
| DecimalText.ParseAcceptsNumerals | internal/persistence/decimal.go:25-60 | accepted texts are exactly signed or unsigned plain numerals of at most 80 characters and 18 fraction digits |
| DecimalText.ParseNumeral | internal/persistence/decimal.go:25-60 | what a numeral parses to, and that longer ones are refused |
| DecimalText.RoundTrip | internal/persistence/decimal.go:63-83 | parsing the printed text returns the decimal exactly when it is set, has scale at most 18 and at most 80 characters |
| DecimalText.PrintIsCanonical | internal/persistence/decimal.go:63-83 | printing a parsed text yields it without plus sign and extra leading zeros, with a minus sign only on a non-zero value and its fraction digits kept |
| AppleReport.SplitIsExact | internal/financialreports/apple.go:260-266 | splitting a line loses nothing: joining the fields by tabs gives it back and no field holds a tab |
| AppleReportChecks.LineFields | internal/financialreports/apple.go:260-266 | each field is the text between two tabs without the white space around it |
| AppleReportChecks.BlankLinesAre | internal/financialreports/apple.go:116-119 | exactly the lines of nothing but white space are skipped |
| Text.TrimSpaceIs | internal/financialreports/apple.go:260-266 | trimming takes white space, and all of it, off both ends |
| AppleReport.HeaderIsTheContract | internal/financialreports/apple.go:232-257 | a header is accepted exactly when it has no empty or repeated column, every required one and none of the detailed report, and each column is read at its own position |
| AppleReport.KeyIsInjective | internal/financialreports/apple.go:184 | the totals key has one reading, because a currency has exactly three letters |
| AppleReport.AddSale | internal/financialreports/apple.go:180-195 | one accumulator update equals posting the sale, or fails with the same error |
| AppleReport.CollectTotals | internal/financialreports/apple.go:204-223 | reading the totals in any map order and sorting lists exactly them, or fails exactly when some minor units do |
| AppleReport.ParseAppleConsolidated | internal/financialreports/apple.go:97-224 | the row loop returns the first failure in reading order, or the period and the listed totals of the whole file |
| AppleReportLaws.AccumulatorNeverMixesScales | internal/financialreports/apple.go:180-193 | once the scale of the currency is checked, the later addition cannot fail |
| AppleReportLaws.RowStep | internal/financialreports/apple.go:131-195 | a data row is accepted exactly when it reads on its own, repeats the period, keeps its currency's scale and is within the limit |
| AppleReportLaws.SaleReadsExactly | internal/financialreports/apple.go:148-179 | a row's amounts are accepted exactly when it has an identifier, every money column and currency reads, the sign fits the sale marker, and the extended share is the quantity times the share as rational numbers |
| AppleReportChecks.HeaderIsChecked | internal/financialreports/apple.go:232-257 | why a header is refused: its first empty or repeated column, the first column of the detailed report, or the first missing one |
| AppleReportChecks.PeriodIsChecked | internal/financialreports/apple.go:134-147 | a row's period is read and repeats the one before exactly when its four checks pass; otherwise the first that fails is reported |
| AppleReportChecks.SaleIsChecked | internal/financialreports/apple.go:148-179 | a row's sale is read exactly when its ten checks pass, and is then what its cells say; otherwise the first that fails is reported |
| AppleReportChecks.RowIsChecked | internal/financialreports/apple.go:125-183 | a row is refused for the row limit, its width, its period, its sale or a second scale of its currency, in this order |
| AppleReportChecks.FirstRefusedLineIsReported | internal/financialreports/apple.go:116-195 | the first refused line decides what the file is refused with |
| AppleReportChecks.FilesAreRefusedAtTheEnd | internal/financialreports/apple.go:97-223 | when a file is refused for its row limit, for having no header or period, or for a total without minor units |
| AppleReportTheorems.AcceptedExactly | internal/financialreports/apple.go:116-223 | a file is accepted exactly when its header and rows are in order; each identifier and currency then has one total, the exact sum of its rows' extended shares, and every row is in one total |
| AppleReportChecks.TotalsAreSorted | internal/financialreports/apple.go:217-222 | the totals of a report are in the order of their identifiers and then currencies |
| AppleReportTheorems.BlankFileIsRefused | internal/financialreports/apple.go:197-199 | a file of blank lines is refused |
| AppleReportTheorems.RowOrderDoesNotMatter | internal/financialreports/apple.go:116-223 | if no row starts on the zero day, every reordering of the rows of an accepted file gives the same report |
| AppleReportTheorems.OrderMattersExactlyForTheZeroDay | internal/financialreports/apple.go:142-147 | the report of an accepted file survives every reordering of its rows exactly when no row starts on the zero day, which the parser takes for no period yet |
| AppleReportExample.OutcomeExists | internal/financialreports/apple.go:97-224 | every file has an outcome |
| AppleReportExample.RowOrderCanMatter | internal/financialreports/apple.go:142-147 | a concrete accepted file with a zero-day row whose reordering is refused |
| ReportAmounts.AddInt64 | internal/persistence/postgres/financial_report.go:1091-1099 | the sum exactly when it fits 64 bits, computed without overflow |
| ReportAmounts.FinancialMinorUnitsMatch | internal/persistence/postgres/financial_report.go:939-947 | finds whether some exponent up to the scale gives the minor units |
| ReportAmounts.MinorUnitsMatchMeaning | internal/persistence/postgres/financial_report.go:939-947 | minor units match exactly when the coefficient is that integer times a power of ten no larger than the scale allows |
| ReportAmounts.ResolveFinancialReportAmounts | internal/persistence/postgres/financial_report.go:438-471 | the loop over totals resolves them in order or stops at the first error |
| ReportAmounts.ResolvedIsExact | internal/persistence/postgres/financial_report.go:438-471 | on success each application and currency holds the exact sum of the totals that match it alone, and the sum of their minor units exactly when all carry them and no partial sum overflows; no total was invalid or matched several applications |
| ReportAmounts.AmbiguousOnlyIfShared | internal/persistence/postgres/financial_report.go:463-464 | an ambiguity error means that a total's identifier has several applications |
| ReportOutcomes.ResolvesExactly | internal/persistence/postgres/financial_report.go:438-471 | a report resolves exactly when each total is valid, has at most one application, and joins that application's totals before it at their scale, readable and with matching minor units; otherwise the first that does not refuses it, as ambiguous or invalid |
| ReportOutcomes.StoredStates | internal/persistence/postgres/financial_report.go:950-962 | a stored row includes commission, does not itemize tax, and is keyed by its application and currency |
| ReportOutcomes.MatchingAre | internal/persistence/postgres/financial_report.go:409-437 | a total matches exactly the applications with its identifier |
| FinancialImports.FinancialReportStore.SaveFinancialReport | internal/persistence/postgres/financial_report.go:116-136 | returns the stored import of the same file, or inserts the draft unless its period is taken; an error changes nothing |
| FinancialImports.FinancialReportStore.SupersedeFinancialReport | internal/persistence/postgres/financial_report.go:139-185 | replaces the accepted import by a new or revived file, with its amounts, or changes nothing |
| FinancialImports.FinancialReportStore.InsertFinancialReport | internal/persistence/postgres/financial_report.go:290-330 | returns the stored import of the same file, or inserts the draft and, when accepted, its resolved amounts, or reports the conflict or amount error |
| FinancialImports.FinancialReportStore.ReviveFinancialReport | internal/persistence/postgres/financial_report.go:333-354 | makes an unaccepted import of a free period accepted with rewritten amounts, or reports why not |
| FinancialImports.FinancialReportStore.MarkFinancialReportSuperseded | internal/persistence/postgres/financial_report.go:357-373 | supersedes an accepted import and deletes its amounts; any other import is a conflict |
| FinancialRuns.RunKeepsInv | internal/persistence/postgres/financial_report.go:116-185 | over all runs: at most one accepted import per scope, amount rows for exactly the accepted imports, one import per file, and links only to other stored imports |
| FinancialRuns.SaveOutcomes | internal/persistence/postgres/financial_report.go:116-136 | when exactly a save returns the stored import, conflicts, fails on amounts or inserts, and the tables after each |
| FinancialRuns.StoredFilesStayKnown | internal/persistence/postgres/financial_report.go:124-127 | however many operations later, saving a stored file again returns its import and changes nothing |
| FinancialRuns.ReplacementNeverConflicts | internal/persistence/postgres/financial_report.go:333-354 | for a draft of the import's own project the conflict branches of reviving and inserting are unreachable |
| FinancialRuns.ReplacementTakesOver | internal/persistence/postgres/financial_report.go:139-185 | a replacement happens only for an accepted import of the project with the draft's provider, kind and dates; the new import is then accepted with exactly the resolved amounts, the reason cleared if it was revived, and links to the old one, which is superseded without amounts; no other import or amount changes |
| FinancialRuns.ReplacementSucceedsExactly | internal/persistence/postgres/financial_report.go:139-185 | inside its project a replacement makes an import accepted exactly when the old one is accepted and covers what the draft covers, the draft is accepted and its totals resolve, and that import is the older one of the file or a fresh one for a new file; for its own file it returns the import and changes nothing |
| FinancialRuns.ReplacementIsRefusedExactly | internal/persistence/postgres/financial_report.go:139-185 | the condition of each error of a replacement inside its project |
| FinancialRuns.PeriodStaysAccepted | internal/persistence/postgres/financial_report.go:139-185 | in runs whose drafts stay in their project, a period once accepted always has exactly one accepted import |
| FinancialRuns.PeriodIsLostExactlyAcrossProjects | internal/persistence/postgres/financial_report.go:139-185 | a replacement leaves its import's period without an accepted import exactly when the import is of the project asked for, the draft is accepted, has the import's provider, kind and dates and resolvable amounts, and is a new file of another project whose own period is free |
| FinancialRuns.ADraftOfAnotherProjectLosesThePeriod | internal/persistence/postgres/financial_report.go:155-159 | a concrete replacement that passes every check and empties the period |
| Revenue.SumCurrency | internal/persistence/postgres/financial_report.go:830-882 | succeeds exactly when all rows read and the counted ones share scale and states (an empty commission state restarts the count); the total is their exact sum, and minor units are the sum of all rows' exactly when all are present and no partial sum overflows |
| Revenue.StoredRowsSumInFull | internal/persistence/postgres/financial_report.go:438-471 | for rows with a commission state, as the writer stores them, every row is counted |
| Revenue.CommonExponentCarriesOver | internal/persistence/postgres/financial_report.go:830-882 | if at one exponent every row's minor units are those of its decimal, the reported minor units are those of the reported total at that exponent |
| Revenue.SumRecognizedAmounts | internal/persistence/postgres/financial_report.go:815-884 | succeeds exactly when every currency adds up; one exact total per currency of the rows, in currency order |
| Proceeds.GroupingKeepsTheSum | internal/persistence/postgres/financial_report.go:438-471 | adding up group by group, over keys without repetition, is adding up once over the items of those keys |
| Proceeds.StoredFileSums | internal/persistence/postgres/financial_report.go:815-884 | the amount rows stored for one accepted file add up in every currency exactly when each reads back as a decimal: their scales and states cannot disagree |
| Proceeds.FileToRevenue | internal/financialreports/service.go:203-247 | an accepted report that is saved and recognized is worth, in each currency, exactly the sum of the extended shares of its rows whose identifier belongs to one application, at their common scale, and the currencies are exactly those of such rows |
| Coverage.ChooseFinancialImports | internal/persistence/postgres/financial_report.go:740-758 | keeps the first eligible import of each provider |
| Coverage.ChosenIsLatest | internal/persistence/postgres/financial_report.go:740-758 | a provider is chosen for exactly when an import is eligible, and its import is the latest one |
| Coverage.ChosenIsTheNewest | internal/persistence/postgres/financial_report.go:706-758 | a provider has a chosen import exactly when one is its own and for the period asked for, and none of these is for a later period or newer |
| Coverage.ProviderReportCoverage | internal/persistence/postgres/financial_report.go:778-812 | matched, complete and zero-filled in terms of which of the provider's applications have an amount row |
| Recognition.ProductionProviders | internal/persistence/postgres/financial_report.go:761-773 | each provider of an application once, in order |
| Recognition.RecognizeProviderAmounts | internal/persistence/postgres/financial_report.go:639-672 | uncovered providers, zero-filled applications, exact amounts per covered provider, and the all-covered flag exactly when the first two are empty |
| Recognition.CoveragePartitions | internal/persistence/postgres/financial_report.go:639-672 | every production application is exactly one of covered by a row, zero-filled, or under an uncovered provider |
| Recognition.AllCoveredExactly | internal/persistence/postgres/financial_report.go:639-672 | the all-covered flag holds exactly when every production application has an amount row in a report that counts |
| Recognition.OnlyItsOwnReportCounts | internal/persistence/postgres/financial_report.go:887-889 | a provider counts only with its own kind of report, a row of its applications and rows that add up, and only the three stores have a kind |
| Recognition.UncoveredForAReason | internal/persistence/postgres/financial_report.go:639-672 | a store's provider is left uncovered only for a missing or other report, one without its applications, or one that does not add up |
| WebhookReceiver.MemoryEventStore.Seen | sdk/go/webhook.go:279-283 | compares an event identity without recording it |
| WebhookReceiver.MemoryEventStore.Remember | sdk/go/webhook.go:286-298 | records a new identity, and leaves a duplicate or conflicting one alone |
| WebhookReceiver.WebhookHandler.ServeHTTP | sdk/go/webhook.go:172-196 | an unrecorded event reaches the callback and is answered 204 if it succeeds, which records it, and 503 if not; a recorded one does not, and is answered 204 or 409 by its fingerprint; as the three interleavable steps do |
| WebhookReceiver.RunGrows | sdk/go/webhook.go:286-310 | in every interleaving a recorded fingerprint never changes |
| WebhookReceiver.NoContentMeansHandled | sdk/go/webhook.go:172-196 | every 204 of every run means that the callback succeeded for that id and body and that the fingerprint is recorded, then and ever after |
| WebhookReceiver.ConflictMeansAnotherBody | sdk/go/webhook.go:301-310 | in every run a 409 is answered only to a body other than the one recorded under its id |
| WebhookReceiver.OneBodyPerEvent | sdk/go/webhook.go:301-310 | two different bodies are never both acknowledged under one id |
| WebhookReceiver.FewCallsAfterTheRecord | sdk/go/webhook.go:172-196 | after the record the callback runs for the event at most once per delivery that had already passed Seen |
| WebhookReceiver.SeenAfterTheRecordNeverCalls | sdk/go/webhook.go:204-252 | a delivery whose Seen follows the record never reaches the callback |
| WebhookReceiver.AnsweredOnlyThus | sdk/go/webhook.go:172-252 | the only steps and statuses by which a delivery is answered |
| WebhookReceiver.NewEventsAreHandedOver | sdk/go/webhook.go:172-196 | an unrecorded event is handed to the callback; a failure is answered 503 and leaves no record, a success is recorded and answered 204 |
| WebhookReceiver.PastSeenIsNeverRefused | sdk/go/webhook.go:172-196 | in every run a delivery that passed Seen is answered 204, 409 or 503, or not at all |
| WebhookDelivery.Deliver | internal/webhooks/service.go:127-197 | no error exactly on a readable 2xx within the size limit; otherwise the error can be retried exactly on the listed transport failures and statuses |
| WebhookDelivery.SuccessIsASmall2xx | internal/webhooks/service.go:183-197 | delivery succeeds exactly on a readable 2xx within the size limit |
| WebhookDelivery.StatusesAgree | internal/webhooks/service.go:183-197 | the receiver's 204, 503, 409 and other refusals are the sender's success, retry and final failures |
| WebhookDelivery.CompletedMeansHandled | internal/worker/runner.go:387-394 | in every run of sender, network and receiver, an outbox message is completed only after the callback succeeded for its id and payload and the receiver recorded it |
| WebhookDelivery.GivenUpOnlyForGood | internal/webhooks/service.go:127-197 | in every run of the whole system a message is given up only by an attempt that was not a readable small 2xx and was final or the last: never for a 408, 429 or 5xx, a transport failure or an unavailable endpoint or secret while attempts are left |
| Worker.Executor.Execute | internal/worker/runner.go:349-412 | the verdict, the row and the handler invocations after one run; with a committed audit write a permanent error fails and cancels at every attempt, a retryable one on the last, and a success completes |
| Worker.HandledRuns | internal/worker/runner.go:376-412 | verdict and row of a run that reaches its handler, for every result, attempt and audit write |
| Worker.UnhandledRuns | internal/worker/runner.go:357-375 | a run that does not reach its handler changes nothing, and its verdict |
| Worker.OutcomesHappened | internal/worker/runner.go:349-447 | over every run of one job from an open row, a completed row was left by a run whose handler succeeded and a failed one by a run whose error was permanent or met the last attempt |
| Worker.OpenJobsWereAbandoned | internal/worker/runner.go:369-447 | over every run of a job, it ends with an open row exactly when its last attempt died, could not load the row, was canceled or had no snooze left |
| Worker.PermanentErrorsEndTheJob | internal/worker/runner.go:400-411 | over every run of a job, after a permanent error whose audit write committed the row stays failed and the handler is not called again |
| Worker.HandlerCallsAreBounded | internal/worker/runner.go:369-447 | over every run of one job the handler is invoked at most maxAttempts - 1 + 20 times |
| Worker.BoundIsTight | internal/worker/runner.go:369-447 | for every number of attempts some run reaches the bound |
| Worker.NoCallsAfterTerminal | internal/worker/runner.go:376-379 | once the row is terminal it never changes and the handler is never invoked again |
| Reconciliation.NextIsTheNextBoundary | internal/processing/handlers.go:745-747 | the next time is the first UTC day boundary after now |
| Reconciliation.OneGenerationPerDay | internal/processing/handlers.go:745-747 | two times share a generation exactly when they are on one UTC day |
| Reconciliation.LineageEnded | internal/processing/handlers.go:729-742 | holds exactly for a non-empty list whose every observation is expired, denied and not renewing |
| Reconciliation.ReconciliationService.HandleReconciliation | internal/processing/handlers.go:544-595 | uninterrupted, handling a due job succeeds exactly when the request opens, the save succeeds and the provider answers; it then has saved the next generation and made one call, and closed that generation exactly for an ended answer whose retirement committed; as the steps save, call, answer and retire do in that order |
| Reconciliation.GenerationsAreSavedBeforeCalls | internal/processing/handlers.go:575-589 | in every run, a handling that is about to call the provider starts from a state that already stores its next generation, still ahead of the call exactly when no day boundary has passed since the save |
| Reconciliation.CallsNeedASave | internal/processing/handlers.go:575-589 | only a handling with a saved generation can call the provider |
| Reconciliation.EveryCallHasALaterGeneration | internal/processing/handlers.go:575-589 | in every run of interleaved handlings with failures and crashes, the generation saved for a provider call is stored ever after, at the day boundary after its save |
| Reconciliation.ChainStaysAlive | internal/processing/handlers.go:544-595 | until some answer reports the lineage ended, each generation saved for a call stays open until it is due |
| Reconciliation.OnlyEndedLineagesAreRetired | internal/processing/handlers.go:586-594 | a generation that is not due is closed only by a committed retirement of a handling that was told its lineage ended |
| Reconciliation.AnswersDecide | internal/processing/handlers.go:586-594 | a provider error fails a handling, an ended lineage is retired next, and any other answer finishes it |
| Reconciliation.RetiredIsNeverDue | internal/processing/handlers.go:586-594 | once a handling was told its lineage ended and its retirement commits, the generation it saved is closed and in no later run becomes due |
| Reconciliation.GenerationsMoveForward | internal/processing/handlers.go:637-670 | handling a due generation schedules a strictly later one |
| Encodings.MacInputIsInjective | internal/webhooks/service.go:228-236 | for newline-free ids the MAC input determines id, timestamp and body |
| Encodings.NewlineIdsCollide | sdk/go/webhook.go:372-382 | ids with a newline share their MAC input with another message, so refusing them is necessary |
| Encodings.AcceptedIdsAreBound | sdk/go/webhook.go:372-382 | for the ids the receiver accepts, one MAC input means one id, timestamp and body |
| Encodings.LengthPrefixedPurposeFields | internal/credentials/service.go:191-197 | the loop builds the length-prefixed encoding |
| Encodings.PrefixedIsInjective | internal/credentials/service.go:191-197 | the encoding determines the fields, their number and their order |
| StoreContracts.HasMatchingReference | internal/stores/contracts.go:383-392 | finds whether two lists share a reference |
| StoreContracts.ValidateReferencesWithRole | internal/stores/contracts.go:365-380 | accepts exactly valid references of the role without repetition |
| StoreContracts.SamePostCommitAction | internal/stores/contracts.go:351-362 | computes the one-way comparison of two actions |
| StoreContracts.SameBothWays | internal/stores/contracts.go:351-362 | the comparison holds both ways exactly for equal targets and equal reference sets |
| StoreContracts.SameActionIsSymmetric | internal/stores/contracts.go:351-362 | it is symmetric when the left references are duplicate-free |
| StoreContracts.RepeatedReferencesBreakSymmetry | internal/stores/contracts.go:351-362 | with a repeated reference it is not symmetric |
| StoreContracts.Validate | internal/stores/contracts.go:250-348 | accepts exactly the results that meet the scope, identity, binding, query, name, action and product conditions |
| StoreContracts.AcceptedExactly | internal/stores/contracts.go:250-348 | the accepted results, field by field |
| StoreContracts.ObservesExactlyTheExpected | internal/stores/contracts.go:336-347 | an accepted result observes each expected product and nothing else |
| StoreContracts.ActionsAreDistinct | internal/stores/contracts.go:313-334 | accepted actions differ pairwise in both directions, although each is compared only with earlier ones |
| StoreContracts.ProductsForClaim | internal/stores/contracts.go:202-213 | for a claim on a named product, the observed products each once; otherwise the claim |
| StoreContracts.NamedClaimsPass | internal/stores/contracts.go:202-213 | a claim on a named product passes the product check |
| ReleaseGate.RequestIdentities.Claim | internal/releasegate/evidence.go:327-337 | records valid request ids not used before, and refuses exactly the rest |
| ReleaseGate.ScenariosByCount | internal/releasegate/evidence.go:298-310 | counting plus no repetition means every required scenario exactly once |
| ReleaseGate.ValidateScenarios | internal/releasegate/evidence.go:290-343 | accepts exactly the closed scenario matrix with request ids new to the whole document |
| ReleaseGate.EvidenceByCount | internal/releasegate/evidence.go:220-240 | counting plus no repetition means every required provider exactly once |
| ReleaseGate.ValidateProviders | internal/releasegate/evidence.go:220-240 | accepts exactly evidence naming each provider and each required scenario once, with no request id used twice anywhere |
| EvidenceRules.EvidenceIsAcceptedExactly | internal/releasegate/evidence.go:220-343 | the accepted evidence, entry by entry and down to the characters of a request id |

## Left out

- SQL, transactions and drivers: tables are maps, and each transaction is one atomic step that either commits or leaves the state as it was. Serializable retry is assumed.
- HTTP, JSON, CSV, gzip, logging, metrics and process lifecycle.
- Cryptography: SHA-256 is an injective constructor, signatures are taken as unforgeable, and generated ids are parameters. Only the encodings fed to them are proved injective.
- How records are written: a record enters `SourceRuns` as given, joined with one entitlement of its product; that records, mappings and lineage references are never deleted or moved is taken from the repository, where only a schema downgrade deletes them. `SourceRuns` covers refreshes without a merge in flight: a merge is one step.
- Entitlement tables hold one project per run; entitlement keys, display names and the microsecond rounding of stored times are not modelled, and versions are unbounded integers.
- Whether a project, application or product exists: foreign keys are not modelled, except that supersede links point at stored imports.
- Field validators beyond identifiers, decimals, currencies, headers and request ids; entries carry a flag for the checks that are left out.
- Calendar parsing and the ISO exponent table: the report parser is given a date reader and an exponent map. Byte-order marks and line endings are handled before the lines the parser is given.
- Stored report metadata (size, content type, parser version, creation time) and the text form a numeric column gives back.
- A caller-supplied supersedes link on a plain save: only the supersede operation sets one.
- Acyclicity of supersede links: reviving an older file may close a cycle by design.
- A merge keeping every access: a store observation of one customer may supersede the other's import, so the code does not promise it.
- Provider adapters, `SaveObservation` and the queue tables behind `CompleteQueue` and `FailQueue`: steps of the environment with their documented idempotence.
- Rescheduling of an already retired generation on the same day: it depends on an insert that is not part of this model, so `Reconciliation.ChainStaysAlive` is about lineages that no answer has reported as ended.
- A receiver store that loses its events: the webhook run theorems assume a durable store, while `MemoryEventStore` (sdk/go/webhook.go:107-111) forgets them with its process.
- Reconciliation identities: a job's id is taken to determine its lineage and boundary, and opening or decoding a request is a condition of the environment.
- The rest of the RevenueCat planner (catalog mapping, anonymous subscribers, grants): only alias conflicts, row recency and access decisions are modelled.
- Dashboard, website, release scripts, SDK packaging and commands.
- Identity.IdentityStore.CustomerClosure: the order of members other than the root is not stated.
- WebhookDelivery.CompletedMeansHandled: responses come from deliveries that carried the message; a response forged by another party is not modelled.
- Projector.Project: an error value gives the kind and position of the failure, not the text of the validation error.
- ImportApply.ApplySubscriber: grants, closure locking and the refresh at the end of the same transaction are not part of it.
- ReportAmounts.ResolveFinancialReportAmounts: the final sorting of the rows by application and currency is not stated, because the rows are a map.
- FinancialImports.FinancialReportStore.SaveFinancialReport: the check that the project exists and a caller-supplied supersedes link are not modelled.
- FinancialImports.FinancialReportStore.SupersedeFinancialReport: the check that the project exists is not modelled.
- WebhookReceiver.WebhookHandler.ServeHTTP: authentication failures and store errors are part of the state machine, not of this method.
- StoreContracts.Validate: the field checks of artifacts, observations, names and actions are flags of the entries.
- ReleaseGate.ValidateScenarios: the check of the assertion text is a flag.
- ReleaseGate.ValidateProviders: the operator, environment and execution-time checks are a flag.
