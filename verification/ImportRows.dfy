/** One parsed row of a RevenueCat export. */
module ImportRows {
  import opened Text
  import opened Entitlements

  datatype SourceRow = SourceRow(
    line: nat,
    productIdentifier: string,
    entitlementIds: seq<string>,
    ambiguousProduct: bool,
    start: Option<Time>,
    end: Option<Time>,
    effectiveEnd: Option<Time>,
    grace: Option<Time>,
    unsubscribe: Option<Time>,
    billing: Option<Time>,
    refunded: Option<Time>,
    autoResume: Option<Time>,
    updated: Option<Time>,
    autoRenewable: bool)

  /** The row the planner appends to a refused draft: nothing but its line and a mark. */
  function MarkerRow(line: nat): SourceRow {
    SourceRow(line, "", [], true, None, None, None, None, None, None, None, None, None, false)
  }
}
