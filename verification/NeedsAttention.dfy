/** The needs-attention tile: b2b_dashboard/learner_queries.py,
    `needs_attention_aggregate`, and the suppression its route applies. */
module NeedsAttentionTile {
  import opened Common
  import opened SqlLogic
  import opened SqlOrder
  import opened SqlGroups
  import opened CohortPolicies
  import opened LearnerRows
  import opened LearnerProgress
  import A = Anonymization
  import Pages = LearnerPages

  /** The inner select. Rows without a learner id stay in, and count nobody. */
  predicate InScope(row: Row, org: string, contract: Option<int>) {
    && Holds(Eq3(row.org, org))
    && (contract.Some? ==> Holds(Eq3(row.contract, contract.value)))
    && row.active
  }

  function Scoped(table: seq<Row>, org: string, contract: Option<int>): seq<Row> {
    if table == [] then []
    else (if InScope(table[0], org, contract) then [table[0]] else []) + Scoped(table[1..], org, contract)
  }

  function Contracts(rows: seq<Row>): seq<Option<int>> {
    if rows == [] then [] else [rows[0].contract] + Contracts(rows[1..])
  }

  function OfContract(rows: seq<Row>, contract: Option<int>): seq<Row> {
    if rows == [] then []
    else (if rows[0].contract == contract then [rows[0]] else []) + OfContract(rows[1..], contract)
  }

  const CONSIDERED := "learners_considered"
  const NEEDING := "learners_needing_attention"
  const WITHHELD := "learners_outcomes_withheld"

  const POLICY := CohortPolicy(
    CONSIDERED, [NEEDING, WITHHELD], map[],
    map[NEEDING := CONSIDERED, WITHHELD := CONSIDERED], [NEEDING, WITHHELD], [])

  function GroupRow(rows: seq<Row>, contract: Option<int>, ctx: Context): A.Row {
    var group := OfContract(rows, contract);
    map[
      "contract_id" := contract,
      CONSIDERED := Some(|Pages.LearnersIn(group, Every, ctx)|),
      NEEDING := Some(|Pages.LearnersIn(group, Quiet, ctx)|),
      WITHHELD := Some(|Pages.LearnersIn(group, Withheld, ctx)|)
    ]
  }

  function ContractKey(contract: Option<int>): SortKey {
    [Asc(if contract.None? then Null else Num(contract.value))]
  }

  /** GROUP BY contract_id HAVING COUNT(DISTINCT learner_id) >= floor. */
  function Gated(rows: seq<Row>, contracts: seq<Option<int>>, ctx: Context, floor: int): Keyed<A.Row> {
    if contracts == [] then []
    else
      (if |Pages.LearnersIn(OfContract(rows, contracts[0]), Every, ctx)| >= floor
       then [(ContractKey(contracts[0]), GroupRow(rows, contracts[0], ctx))] else [])
      + Gated(rows, contracts[1..], ctx, floor)
  }

  function GatedGroups(table: seq<Row>, org: string, contract: Option<int>, ctx: Context, floor: int): Keyed<A.Row> {
    var rows := Scoped(table, org, contract);
    Gated(rows, Distinct(Contracts(rows)), ctx, floor)
  }

  function Tiles(table: seq<Row>, org: string, contract: Option<int>, ctx: Context, floor: int): seq<A.Row> {
    Values(Sort(GatedGroups(table, org, contract, ctx, floor)))
  }

  function TotalCount(table: seq<Row>, org: string, contract: Option<int>, ctx: Context, floor: int): nat {
    |GatedGroups(table, org, contract, ctx, floor)|
  }

  // One population with the directory.

  lemma {:induction false} ScopedAre(table: seq<Row>, org: string, contract: Option<int>, row: Row)
    ensures row in Scoped(table, org, contract) <==> row in table && InScope(row, org, contract)
  {
    if table != [] {
      ScopedAre(table[1..], org, contract, row);
    }
  }

  lemma {:induction false} OfContractAre(rows: seq<Row>, contract: Option<int>, row: Row)
    ensures row in OfContract(rows, contract) <==> row in rows && row.contract == contract
  {
    if rows != [] {
      OfContractAre(rows[1..], contract, row);
    }
  }

  lemma {:induction false} RecordsAre(table: seq<Row>, org: string, contract: int, row: Row)
    ensures row in Records(table, org, contract, false) <==> row in table && InRecords(row, org, contract, false)
  {
    if table != [] {
      RecordsAre(table[1..], org, contract, row);
    }
  }

  /** Whom a tile counts: the learners with an active enrollment of the
      organization under exactly that contract, or under none, of its kind. */
  lemma TileCountsLearners(table: seq<Row>, org: string, scope: Option<int>, contract: Option<int>, bucket: Bucket, ctx: Context, id: string)
    requires scope == None || scope == contract
    ensures id in Pages.LearnersIn(OfContract(Scoped(table, org, scope), contract), bucket, ctx) <==>
            exists row :: row in table && row.learnerId == Some(id) && row.org == Some(org) && row.contract == contract && row.active
              && IsCounted(row, bucket, ctx)
  {
    var group := OfContract(Scoped(table, org, scope), contract);
    if row :| row in group && row.learnerId == Some(id) && InBucket(row, bucket, ctx) {
      OfContractAre(Scoped(table, org, scope), contract, row);
      ScopedAre(table, org, scope, row);
      BucketsCount(row, bucket, ctx);
    }
    if row :| row in table && row.learnerId == Some(id) && row.org == Some(org) && row.contract == contract && row.active
              && IsCounted(row, bucket, ctx) {
      OfContractAre(Scoped(table, org, scope), contract, row);
      ScopedAre(table, org, scope, row);
      BucketsCount(row, bucket, ctx);
    }
  }

  /** The directory request behind one bucket of a tile. */
  function Listing(org: string, contract: int, bucket: Bucket): Pages.Request {
    Pages.Request(org, contract, if bucket == Quiet then Narrowed(NO_FILTERS, Quiet) else NO_FILTERS)
  }

  lemma TileCountsTheListing(table: seq<Row>, org: string, scope: Option<int>, contract: int, bucket: Bucket, ctx: Context)
    requires scope == None || scope == Some(contract)
    requires bucket == Every || bucket == Quiet || bucket == Withheld
    ensures Pages.LearnersIn(OfContract(Scoped(table, org, scope), Some(contract)), bucket, ctx) ==
            Pages.LearnersIn(Pages.MatchedRows(table, Listing(org, contract, bucket), ctx),
                             if bucket == Quiet then Every else bucket, ctx)
  {
    var req := Listing(org, contract, bucket);
    var group, matched := OfContract(Scoped(table, org, scope), Some(contract)), Pages.MatchedRows(table, req, ctx);
    forall row: Row
      ensures row in group && row.learnerId.Some? && (bucket == Quiet ==> InBucket(row, Quiet, ctx)) <==> row in matched
    {
      TileReadsTheListing(table, org, scope, contract, bucket, ctx, row);
    }
    SameLearners(group, matched, bucket, ctx);
  }

  lemma TileReadsTheListing(table: seq<Row>, org: string, scope: Option<int>, contract: int, bucket: Bucket, ctx: Context, row: Row)
    requires scope == None || scope == Some(contract)
    requires bucket == Every || bucket == Quiet || bucket == Withheld
    ensures row in OfContract(Scoped(table, org, scope), Some(contract)) && row.learnerId.Some? && (bucket == Quiet ==> InBucket(row, Quiet, ctx))
            <==> row in Pages.MatchedRows(table, Listing(org, contract, bucket), ctx)
  {
    var req := Listing(org, contract, bucket);
    GroupIsTheRecords(table, org, scope, contract, row);
    MatchingAre(Pages.ActiveRecords(table, req), req.filters, ctx, row);
    SelectedIffMeets(row, req.filters, ctx);
    QuietMeansListed(row, bucket, ctx);
  }

  lemma GroupIsTheRecords(table: seq<Row>, org: string, scope: Option<int>, contract: int, row: Row)
    requires scope == None || scope == Some(contract)
    ensures row in OfContract(Scoped(table, org, scope), Some(contract)) && row.learnerId.Some?
            <==> row in Records(table, org, contract, false)
  {
    OfContractAre(Scoped(table, org, scope), Some(contract), row);
    ScopedAre(table, org, scope, row);
    RecordsAre(table, org, contract, row);
  }

  lemma QuietMeansListed(row: Row, bucket: Bucket, ctx: Context)
    requires bucket == Every || bucket == Quiet || bucket == Withheld
    ensures Meets(row, if bucket == Quiet then Narrowed(NO_FILTERS, Quiet) else NO_FILTERS, ctx) <==>
            (bucket == Quiet ==> InBucket(row, Quiet, ctx))
  {
  }

  lemma SameLearners(group: seq<Row>, matched: seq<Row>, bucket: Bucket, ctx: Context)
    requires forall row: Row :: row in group && row.learnerId.Some? && (bucket == Quiet ==> InBucket(row, Quiet, ctx)) <==> row in matched
    ensures Pages.LearnersIn(group, bucket, ctx) == Pages.LearnersIn(matched, if bucket == Quiet then Every else bucket, ctx)
  {
    var other := if bucket == Quiet then Every else bucket;
    forall id
      ensures id in Pages.LearnersIn(group, bucket, ctx) <==> id in Pages.LearnersIn(matched, other, ctx)
    {
      if row :| row in group && row.learnerId == Some(id) && InBucket(row, bucket, ctx) {
        assert row in matched && InBucket(row, other, ctx);
      }
      if row :| row in matched && row.learnerId == Some(id) && InBucket(row, other, ctx) {
        assert row in group && InBucket(row, bucket, ctx);
      }
    }
  }

  /** Every tile says what the directory under it lists: as many learners
      considered as it pages through unfiltered, as many needing attention as
      with that filter on, and as many withheld as it reports. */
  lemma TileEqualsDirectory(table: seq<Row>, org: string, scope: Option<int>, contract: int, ctx: Context)
    requires scope == None || scope == Some(contract)
    ensures var tile := GroupRow(Scoped(table, org, scope), Some(contract), ctx);
            && tile["contract_id"] == Some(contract)
            && tile[CONSIDERED] == Some(Pages.Total(table, Listing(org, contract, Every), ctx, Every))
            && tile[NEEDING] == Some(Pages.Total(table, Listing(org, contract, Quiet), ctx, Every))
            && tile[WITHHELD] == Some(Pages.Total(table, Listing(org, contract, Every), ctx, Withheld))
  {
    TileCountsTheListing(table, org, scope, contract, Every, ctx);
    TileCountsTheListing(table, org, scope, contract, Quiet, ctx);
    TileCountsTheListing(table, org, scope, contract, Withheld, ctx);
  }

  lemma {:induction false} GatedAre(rows: seq<Row>, contracts: seq<Option<int>>, ctx: Context, floor: int, x: (SortKey, A.Row))
    ensures x in Gated(rows, contracts, ctx, floor) <==>
            exists c :: c in contracts && x == (ContractKey(c), GroupRow(rows, c, ctx)) && x.1[CONSIDERED].value >= floor
  {
    if contracts != [] {
      GatedAre(rows, contracts[1..], ctx, floor, x);
      assert forall c :: c in contracts <==> c == contracts[0] || c in contracts[1..];
    }
  }

  lemma {:induction false} ContractsAre(rows: seq<Row>, contract: Option<int>)
    ensures contract in Contracts(rows) <==> exists row :: row in rows && row.contract == contract
  {
    if rows != [] {
      ContractsAre(rows[1..], contract);
      assert forall row :: row in rows <==> row == rows[0] || row in rows[1..];
    }
  }

  lemma {:induction false} GatedKeysDiffer(rows: seq<Row>, contracts: seq<Option<int>>, ctx: Context, floor: int)
    requires forall i, j | 0 <= i < j < |contracts| :: contracts[i] != contracts[j]
    ensures DistinctKeys(Gated(rows, contracts, ctx, floor))
  {
    if contracts != [] {
      GatedKeysDiffer(rows, contracts[1..], ctx, floor);
      var rest := Gated(rows, contracts[1..], ctx, floor);
      forall j | 0 <= j < |rest|
        ensures rest[j].0 != ContractKey(contracts[0])
      {
        GatedAre(rows, contracts[1..], ctx, floor, rest[j]);
        var c :| c in contracts[1..] && rest[j] == (ContractKey(c), GroupRow(rows, c, ctx)) && rest[j].1[CONSIDERED].value >= floor;
        assert ContractKey(c)[0] != ContractKey(contracts[0])[0];
      }
    }
  }

  /** A contract has a tile exactly when its directory has at least `floor`
      learners, and then one, in contract order. */
  lemma TilesAreTheLargeContracts(table: seq<Row>, org: string, scope: Option<int>, contract: int, ctx: Context, floor: int)
    requires floor >= 1 && (scope == None || scope == Some(contract))
    ensures StrictlyAscending(Sort(GatedGroups(table, org, scope, ctx, floor)))
    ensures (ContractKey(Some(contract)), GroupRow(Scoped(table, org, scope), Some(contract), ctx))
              in Sort(GatedGroups(table, org, scope, ctx, floor))
            <==> Pages.Total(table, Listing(org, contract, Every), ctx, Every) >= floor
  {
    var rows := Scoped(table, org, scope);
    var contracts := Distinct(Contracts(rows));
    var tile := (ContractKey(Some(contract)), GroupRow(rows, Some(contract), ctx));
    DistinctDiffer(Contracts(rows));
    GatedKeysDiffer(rows, contracts, ctx, floor);
    SortIsStrict(Gated(rows, contracts, ctx, floor));
    SortMembers(Gated(rows, contracts, ctx, floor), tile);
    GatedAre(rows, contracts, ctx, floor, tile);
    TileEqualsDirectory(table, org, scope, contract, ctx);
    DistinctMembers(Contracts(rows), Some(contract));
    ContractsAre(rows, Some(contract));
    if tile.1[CONSIDERED].value >= floor {
      var learners := Pages.LearnersIn(OfContract(rows, Some(contract)), Every, ctx);
      assert learners != {};
      var row :| row in OfContract(rows, Some(contract)) && row.learnerId.Some?;
      OfContractAre(rows, Some(contract), row);
    }
  }

  // The floor.

  lemma PolicyIsUsable()
    ensures A.Usable(POLICY)
  {
    var s, o := POLICY.secondary, POLICY.containedOrder;
    assert s[0] in s && s[1] in s && o[0] in o && o[1] in o;
    forall c | c in POLICY.containedIn
      ensures Walk(POLICY.containedIn, c, {c}).Some?
    {
      assert POLICY.containedIn[c] == CONSIDERED && CONSIDERED !in POLICY.containedIn;
      assert Walk(POLICY.containedIn, CONSIDERED, {c} + {CONSIDERED}) == Some([]);
    }
    WalksFinishIffAcyclic(POLICY.containedIn);
  }

  /** What the route's suppression makes of a tile, and of a page of them. */
  function ShownRow(row: A.Row, floor: int): Option<A.Row>
    requires floor >= 1
  {
    PolicyIsUsable();
    A.SuppressRow(row, POLICY, floor)
  }

  function Shown(rows: seq<A.Row>, floor: int): seq<A.Row>
    requires floor >= 1
  {
    PolicyIsUsable();
    A.SuppressAll(rows, POLICY, floor)
  }

  lemma {:induction false} GatedRowsAllPass(rows: seq<A.Row>, floor: int)
    requires floor >= 1
    requires forall row | row in rows :: A.Get(row, CONSIDERED).GetOr(0) >= floor
    ensures |Shown(rows, floor)| == |rows|
    ensures forall i | 0 <= i < |rows| ::
              && ShownRow(rows[i], floor) == Some(Shown(rows, floor)[i])
              && A.Get(Shown(rows, floor)[i], "contract_id") == A.Get(rows[i], "contract_id")
  {
    if rows != [] {
      assert rows[0] in rows;
      GatedRowsAllPass(rows[1..], floor);
      GatedRowPasses(rows[0], floor);
      assert Shown(rows, floor) == [ShownRow(rows[0], floor).value] + Shown(rows[1..], floor);
    }
  }

  lemma GatedRowPasses(row: A.Row, floor: int)
    requires floor >= 1 && A.Get(row, CONSIDERED).GetOr(0) >= floor
    ensures ShownRow(row, floor).Some? && A.Get(ShownRow(row, floor).value, "contract_id") == A.Get(row, "contract_id")
  {
    PolicyIsUsable();
    A.KeptRowColumn(row, POLICY, floor, "contract_id");
    if "contract_id" in A.Suppressed(row, POLICY, floor) {
      A.SuppressedAreSecondary(row, POLICY, floor, "contract_id");
    }
  }

  lemma TilesClearTheGate(table: seq<Row>, org: string, scope: Option<int>, ctx: Context, floor: int)
    ensures forall row | row in Tiles(table, org, scope, ctx, floor) :: A.Get(row, CONSIDERED).GetOr(0) >= floor
  {
    var rows := Scoped(table, org, scope);
    var sorted := Sort(GatedGroups(table, org, scope, ctx, floor));
    forall row | row in Tiles(table, org, scope, ctx, floor)
      ensures A.Get(row, CONSIDERED).GetOr(0) >= floor
    {
      var i :| 0 <= i < |sorted| && Values(sorted)[i] == row;
      SortMembers(GatedGroups(table, org, scope, ctx, floor), sorted[i]);
      GatedAre(rows, Distinct(Contracts(rows)), ctx, floor, sorted[i]);
    }
  }

  /** Suppression drops no row of a gated page, so the pages hold `total_count`
      rows between them and every contract keeps its place. */
  lemma GatedPagesLoseNoRow(
    table: seq<Row>, org: string, scope: Option<int>, ctx: Context, floor: int, limit: nat, offset: nat)
    requires floor >= 1
    ensures var page := Slice(Tiles(table, org, scope, ctx, floor), offset, limit);
            var shown := Shown(page, floor);
            && |shown| == |page|
            && forall i | 0 <= i < |page| :: A.Get(shown[i], "contract_id") == A.Get(page[i], "contract_id")
    ensures TotalCount(table, org, scope, ctx, floor) == |Shown(Tiles(table, org, scope, ctx, floor), floor)|
  {
    TilesClearTheGate(table, org, scope, ctx, floor);
    var tiles := Tiles(table, org, scope, ctx, floor);
    assert forall row | row in Slice(tiles, offset, limit) :: row in tiles;
    GatedRowsAllPass(Slice(tiles, offset, limit), floor);
    GatedRowsAllPass(tiles, floor);
    var groups := GatedGroups(table, org, scope, ctx, floor);
    SortSorts(groups);
    assert |multiset(Sort(groups))| == |multiset(groups)|;
  }

  /** The learners of a group outside a bucket. */
  function Outside(group: seq<Row>, bucket: Bucket, ctx: Context): set<string> {
    Pages.LearnersIn(group, Every, ctx) - Pages.LearnersIn(group, bucket, ctx)
  }

  lemma Subtracting(all: set<string>, part: set<string>)
    requires part <= all
    ensures |all - part| == |all| - |part|
  {
    assert all == part + (all - part);
  }

  /** Both secondary counts are parts of the considered, as the policy declares,
      so a count a tile shows leaves nobody in a group smaller than the floor:
      neither the learners it counts nor the learners it leaves out. */
  lemma ShownCountsHideFewLearners(rows: seq<Row>, contract: Option<int>, ctx: Context, floor: int, column: Column)
    requires floor >= 1 && column in [NEEDING, WITHHELD]
    requires ShownRow(GroupRow(rows, contract, ctx), floor).Some?
    requires A.Get(ShownRow(GroupRow(rows, contract, ctx), floor).value, column).Some?
    ensures var group, bucket := OfContract(rows, contract), if column == NEEDING then Quiet else Withheld;
            && Pages.LearnersIn(group, bucket, ctx) <= Pages.LearnersIn(group, Every, ctx)
            && (Pages.LearnersIn(group, bucket, ctx) == {} || |Pages.LearnersIn(group, bucket, ctx)| >= floor)
            && (Outside(group, bucket, ctx) == {} || |Outside(group, bucket, ctx)| >= floor)
  {
    var group, bucket := OfContract(rows, contract), if column == NEEDING then Quiet else Withheld;
    var raw := GroupRow(rows, contract, ctx);
    var out := ShownRow(raw, floor).value;
    PolicyIsUsable();
    Subtracting(Pages.LearnersIn(group, Every, ctx), Pages.LearnersIn(group, bucket, ctx));
    A.PublishedRowKeepsFloor(raw, POLICY, floor);
    assert POLICY.secondary == [NEEDING, WITHHELD] && column in POLICY.secondary;
    A.PublishedCohort(raw, POLICY, floor, column);
    A.PublishedCohort(raw, POLICY, floor, CONSIDERED);
    assert Outwards(POLICY.containedIn, column, 0) == Some(column);
    assert Outwards(POLICY.containedIn, column, 1) == Some(CONSIDERED);
  }

  // Consent.

  lemma {:induction false} RedactedScope(table: seq<Row>, org: string, scope: Option<int>, ctx: Context)
    ensures Scoped(RedactAll(table, ctx), org, scope) == RedactAll(Scoped(table, org, scope), ctx)
    ensures Contracts(RedactAll(table, ctx)) == Contracts(table)
  {
    if table != [] {
      var rest := Scoped(table[1..], org, scope);
      RedactedScope(table[1..], org, scope, ctx);
      var redacted := RedactAll(table, ctx);
      assert redacted[0] == Redact(table[0], ctx) && redacted[1..] == RedactAll(table[1..], ctx);
      if InScope(table[0], org, scope) {
        RedactCons(table[0], rest, ctx);
      } else {
        assert [] + rest == rest && [] + RedactAll(rest, ctx) == RedactAll(rest, ctx);
      }
    }
  }

  lemma {:induction false} RedactedContract(rows: seq<Row>, contract: Option<int>, ctx: Context)
    ensures OfContract(RedactAll(rows, ctx), contract) == RedactAll(OfContract(rows, contract), ctx)
  {
    if rows != [] {
      var rest := OfContract(rows[1..], contract);
      RedactedContract(rows[1..], contract, ctx);
      var redacted := RedactAll(rows, ctx);
      assert redacted[0] == Redact(rows[0], ctx) && redacted[1..] == RedactAll(rows[1..], ctx);
      if rows[0].contract == contract {
        RedactCons(rows[0], rest, ctx);
      } else {
        assert [] + rest == rest && [] + RedactAll(rest, ctx) == RedactAll(rest, ctx);
      }
    }
  }

  lemma {:induction false} RedactedGated(rows: seq<Row>, contracts: seq<Option<int>>, ctx: Context, floor: int)
    ensures Gated(RedactAll(rows, ctx), contracts, ctx, floor) == Gated(rows, contracts, ctx, floor)
  {
    if contracts != [] {
      RedactedGated(rows, contracts[1..], ctx, floor);
      RedactedContract(rows, contracts[0], ctx);
      var group := OfContract(rows, contracts[0]);
      Pages.RedactedLearnersIn(group, Every, ctx);
      Pages.RedactedLearnersIn(group, Quiet, ctx);
      Pages.RedactedLearnersIn(group, Withheld, ctx);
    }
  }

  lemma RedactionChangesNoTile(table: seq<Row>, org: string, scope: Option<int>, ctx: Context, floor: int)
    ensures GatedGroups(RedactAll(table, ctx), org, scope, ctx, floor) == GatedGroups(table, org, scope, ctx, floor)
  {
    var rows := Scoped(table, org, scope);
    RedactedScope(table, org, scope, ctx);
    RedactedScope(rows, org, scope, ctx);
    RedactedGated(rows, Distinct(Contracts(rows)), ctx, floor);
  }

  /** Nor does the tile, or which contracts have one, tell a withheld outcome. */
  lemma WithheldOutcomesDoNotShow(a: seq<Row>, b: seq<Row>, org: string, scope: Option<int>, ctx: Context, floor: int)
    requires DifferOnlyInWithheld(a, b, ctx)
    ensures Tiles(a, org, scope, ctx, floor) == Tiles(b, org, scope, ctx, floor)
    ensures TotalCount(a, org, scope, ctx, floor) == TotalCount(b, org, scope, ctx, floor)
  {
    RedactionHidesExactlyThat(a, b, ctx);
    RedactionChangesNoTile(a, org, scope, ctx, floor);
    RedactionChangesNoTile(b, org, scope, ctx, floor);
  }
}
