/** The guard between two grains of one table: core/anonymization.py,
    hidden_additive_columns and suppress_cross_grain_additives, and the endpoint
    in b2b_dashboard/routers/organizations.py that runs them. The two grains are
    read as one consistent snapshot. */
module CrossGrain {
  import opened Common
  import opened CohortPolicies
  import opened Anonymization

  /** One finer grain: its policy, the column both grains share, and the columns
      that sum exactly. */
  datatype FinerGrain = FinerGrain(policy: CohortPolicy, keyColumn: Column, additive: seq<Column>)

  ghost predicate GoodGrain(grain: FinerGrain) {
    && Usable(grain.policy)
    && Untouched(grain.keyColumn, grain.policy)
    && grain.keyColumn !in grain.additive
  }

  /** Suppression leaves the column alone. */
  ghost predicate Untouched(c: Column, policy: CohortPolicy) {
    c !in Cohorts(policy) && c !in policy.derived
  }

  /** Secondary cohorts no computed column reads. */
  function BareCohorts(policy: CohortPolicy): set<Column> {
    set c | c in policy.secondary && !exists d :: d in policy.derived && c in policy.derived[d]
  }

  /** The columns one finer row leaves a hole in. */
  function HiddenOfRow(row: Row, grain: FinerGrain, floor: int): set<Column>
    requires OrderedKeys(grain.policy) && WellDeclared(grain.policy) && floor >= 1
  {
    var additive := set c | c in grain.additive;
    match SuppressRow(row, grain.policy, floor)
    case None => additive
    case Some(kept) => set c | c in additive + BareCohorts(grain.policy) && Get(kept, c) == None
  }

  function HiddenFor(rows: seq<Row>, key: Cell, grain: FinerGrain, floor: int): set<Column>
    requires OrderedKeys(grain.policy) && WellDeclared(grain.policy) && floor >= 1
  {
    if rows == [] then {}
    else
      (if Get(rows[0], grain.keyColumn) == key then HiddenOfRow(rows[0], grain, floor) else {})
      + HiddenFor(rows[1..], key, grain, floor)
  }

  type Hidden = map<Cell, set<Column>>

  ghost predicate IsHiddenMap(hidden: Hidden, rows: seq<Row>, grain: FinerGrain, floor: int)
    requires OrderedKeys(grain.policy) && WellDeclared(grain.policy) && floor >= 1
  {
    forall key :: HiddenAt(hidden, key, HiddenFor(rows, key, grain, floor))
  }

  /** A key with nothing hidden has no entry. */
  ghost predicate HiddenAt(hidden: Hidden, key: Cell, columns: set<Column>) {
    if columns == {} then key !in hidden else key in hidden && hidden[key] == columns
  }

  lemma {:induction false} HiddenOneMore(rows: seq<Row>, i: nat, key: Cell, grain: FinerGrain, floor: int)
    requires OrderedKeys(grain.policy) && WellDeclared(grain.policy) && floor >= 1 && i < |rows|
    ensures HiddenFor(rows[..i + 1], key, grain, floor) ==
            HiddenFor(rows[..i], key, grain, floor)
            + if Get(rows[i], grain.keyColumn) == key then HiddenOfRow(rows[i], grain, floor) else {}
  {
    if i == 0 {
      assert rows[..1][1..] == [] && rows[..0] == [];
    } else {
      HiddenOneMore(rows[1..], i - 1, key, grain, floor);
      assert rows[..i + 1][1..] == rows[1..][..i] && rows[..i][1..] == rows[1..][..i - 1];
    }
  }

  lemma ExtendedHiddenMap(hidden: Hidden, rows: seq<Row>, i: nat, grain: FinerGrain, floor: int)
    requires OrderedKeys(grain.policy) && WellDeclared(grain.policy) && floor >= 1 && i < |rows|
    requires IsHiddenMap(hidden, rows[..i], grain, floor)
    ensures var key, columns := Get(rows[i], grain.keyColumn), HiddenOfRow(rows[i], grain, floor);
            IsHiddenMap(
              if columns == {} then hidden else hidden[key := (if key in hidden then hidden[key] else {}) + columns],
              rows[..i + 1], grain, floor)
  {
    var key, columns := Get(rows[i], grain.keyColumn), HiddenOfRow(rows[i], grain, floor);
    var next := if columns == {} then hidden else hidden[key := (if key in hidden then hidden[key] else {}) + columns];
    var longer := rows[..i + 1];
    forall k: Cell
      ensures HiddenAt(next, k, HiddenFor(longer, k, grain, floor))
    {
      HiddenOneMore(rows, i, k, grain, floor);
      assert HiddenAt(hidden, k, HiddenFor(rows[..i], k, grain, floor));
    }
  }

  /** Runs every finer row through the suppression its own endpoint applies. */
  method HiddenAdditiveColumns(rows: seq<Row>, grain: FinerGrain, floor: int) returns (hidden: Hidden)
    requires OrderedKeys(grain.policy) && WellDeclared(grain.policy) && floor >= 1
    ensures IsHiddenMap(hidden, rows, grain, floor)
  {
    var bare := BareCohorts(grain.policy);
    var additive := set c | c in grain.additive;
    hidden := map[];
    for i := 0 to |rows|
      invariant IsHiddenMap(hidden, rows[..i], grain, floor)
    {
      var row := rows[i];
      var kept := SuppressSmallCohorts([row], grain.policy, floor);
      assert [row][1..] == [];
      var columns := if kept == [] then additive else set c | c in additive + bare && Get(kept[0], c) == None;
      assert columns == HiddenOfRow(row, grain, floor);
      var key := Get(row, grain.keyColumn);
      ExtendedHiddenMap(hidden, rows, i, grain, floor);
      if columns != {} {
        hidden := hidden[key := (if key in hidden then hidden[key] else {}) + columns];
      }
    }
    assert rows[..|rows|] == rows;
  }

  /** The coarse columns blanked together, whatever was hidden. */
  function Guarded(policy: CohortPolicy): set<Column> {
    Cohorts(policy)
  }

  function BlankCoarseRow(row: Row, keyColumn: Column, guarded: set<Column>, hidden: Hidden): Row {
    var key := Get(row, keyColumn);
    if key in hidden && hidden[key] != {} then
      map c | c in row :: if c in hidden[key] || c in guarded then None else row[c]
    else row
  }

  /** `suppress_cross_grain_additives`. */
  function BlankCoarseRows(rows: seq<Row>, keyColumn: Column, guarded: set<Column>, hidden: Hidden): seq<Row> {
    if hidden == map[] then rows
    else seq(|rows|, i requires 0 <= i < |rows| => BlankCoarseRow(rows[i], keyColumn, guarded, hidden))
  }

  /** A finer row leaves a hole at `c`: it is dropped, or publishes nothing for
      it, and `c` sums over the finer grain or is a finer cohort that no computed
      column reads. */
  ghost predicate LeavesHole(row: Row, grain: FinerGrain, floor: int, c: Column)
    requires OrderedKeys(grain.policy) && WellDeclared(grain.policy) && floor >= 1
  {
    match SuppressRow(row, grain.policy, floor)
    case None => c in grain.additive
    case Some(kept) =>
      && Get(kept, c) == None
      && (c in grain.additive || (c in grain.policy.secondary && forall d | d in grain.policy.derived :: c !in grain.policy.derived[d]))
  }

  ghost predicate HoleAt(rows: seq<Row>, grain: FinerGrain, floor: int, key: Cell, c: Column)
    requires OrderedKeys(grain.policy) && WellDeclared(grain.policy) && floor >= 1
  {
    exists row :: row in rows && Get(row, grain.keyColumn) == key && LeavesHole(row, grain, floor, c)
  }

  lemma {:induction false} HiddenIffHole(rows: seq<Row>, key: Cell, grain: FinerGrain, floor: int, c: Column)
    requires OrderedKeys(grain.policy) && WellDeclared(grain.policy) && floor >= 1
    ensures c in HiddenFor(rows, key, grain, floor) <==> HoleAt(rows, grain, floor, key, c)
  {
    if rows != [] {
      HiddenIffHole(rows[1..], key, grain, floor, c);
      assert c in HiddenOfRow(rows[0], grain, floor) <==> LeavesHole(rows[0], grain, floor, c);
      assert forall row :: row in rows <==> row == rows[0] || row in rows[1..];
    }
  }

  /** What is shown of a suppressed coarse row: every column but those at which a
      finer row of its key leaves a hole, and every cohort count unless one
      leaves any hole at all. */
  ghost predicate ShownWithoutHoles(out: Row, kept: Row, policy: CohortPolicy, finerTable: seq<Row>, grain: FinerGrain, floor: int)
    requires OrderedKeys(grain.policy) && WellDeclared(grain.policy) && floor >= 1
  {
    var key := Get(kept, grain.keyColumn);
    && out.Keys == kept.Keys
    && forall c :: Get(out, c) ==
         if HoleAt(finerTable, grain, floor, key, c)
            || ((c == policy.primary || c in policy.secondary) && exists d :: HoleAt(finerTable, grain, floor, key, d))
         then None else Get(kept, c)
  }

  lemma BlankingLeavesTheRest(kept: Row, policy: CohortPolicy, finerTable: seq<Row>, grain: FinerGrain, hidden: Hidden, floor: int)
    requires OrderedKeys(grain.policy) && WellDeclared(grain.policy) && floor >= 1 && IsHiddenMap(hidden, finerTable, grain, floor)
    ensures ShownWithoutHoles(BlankCoarseRow(kept, grain.keyColumn, Guarded(policy), hidden), kept, policy, finerTable, grain, floor)
  {
    var key := Get(kept, grain.keyColumn);
    forall c
      ensures c in HiddenFor(finerTable, key, grain, floor) <==> HoleAt(finerTable, grain, floor, key, c)
    {
      HiddenIffHole(finerTable, key, grain, floor, c);
    }
    assert HiddenAt(hidden, key, HiddenFor(finerTable, key, grain, floor));
    assert HiddenFor(finerTable, key, grain, floor) != {} <==> exists d :: d in HiddenFor(finerTable, key, grain, floor);
  }

  /** For an additive column: blank exactly when some finer row of the key is
      dropped or shows no value for it. */
  lemma AdditiveBlankIff(out: Row, kept: Row, policy: CohortPolicy, finerTable: seq<Row>, grain: FinerGrain, floor: int, c: Column)
    requires OrderedKeys(grain.policy) && WellDeclared(grain.policy) && floor >= 1
    requires ShownWithoutHoles(out, kept, policy, finerTable, grain, floor)
    requires c in grain.additive && c != policy.primary && c !in policy.secondary && Get(kept, c).Some?
    ensures Get(out, c).None? <==>
            exists row :: row in finerTable && Get(row, grain.keyColumn) == Get(kept, grain.keyColumn)
              && (SuppressRow(row, grain.policy, floor).None? || Get(SuppressRow(row, grain.policy, floor).value, c).None?)
    ensures Get(out, c).Some? ==> Get(out, c) == Get(kept, c)
  {
    var key := Get(kept, grain.keyColumn);
    assert Get(out, c).None? <==> HoleAt(finerTable, grain, floor, key, c);
    if row :| row in finerTable && Get(row, grain.keyColumn) == key
              && (SuppressRow(row, grain.policy, floor).None? || Get(SuppressRow(row, grain.policy, floor).value, c).None?) {
      assert LeavesHole(row, grain, floor, c);
    }
  }

  /** A row whose key has no hole is returned as suppressed. */
  lemma WholeKeysAreUntouched(out: Row, kept: Row, policy: CohortPolicy, finerTable: seq<Row>, grain: FinerGrain, floor: int)
    requires OrderedKeys(grain.policy) && WellDeclared(grain.policy) && floor >= 1
    requires ShownWithoutHoles(out, kept, policy, finerTable, grain, floor)
    requires !exists d :: HoleAt(finerTable, grain, floor, Get(kept, grain.keyColumn), d)
    ensures out == kept
  {
    forall c | c in kept
      ensures out[c] == kept[c]
    {
      assert Get(out, c) == Get(kept, c);
    }
  }

  lemma RowsLeaveTheRest(kept: seq<Row>, policy: CohortPolicy, finerTable: seq<Row>, grain: FinerGrain, hidden: Hidden, floor: int)
    requires OrderedKeys(grain.policy) && WellDeclared(grain.policy) && floor >= 1 && IsHiddenMap(hidden, finerTable, grain, floor)
    ensures var rows := BlankCoarseRows(kept, grain.keyColumn, Guarded(policy), hidden);
            && |rows| == |kept|
            && forall i | 0 <= i < |rows| :: ShownWithoutHoles(rows[i], kept[i], policy, finerTable, grain, floor)
  {
    var rows := BlankCoarseRows(kept, grain.keyColumn, Guarded(policy), hidden);
    forall i | 0 <= i < |rows|
      ensures ShownWithoutHoles(rows[i], kept[i], policy, finerTable, grain, floor)
    {
      BlankingLeavesTheRest(kept[i], policy, finerTable, grain, hidden, floor);
    }
  }

  datatype EndpointError = ScanTruncated

  /** One request: scan the finer grain, refuse a truncated scan, suppress the
      page, then blank what the scan says would give something away. */
  method Endpoint(page: seq<Row>, policy: CohortPolicy, finer: Option<FinerGrain>, finerTable: seq<Row>, scanLimit: nat, floor: int)
    returns (response: Result<seq<Row>, EndpointError>)
    requires OrderedKeys(policy) && WellDeclared(policy) && floor >= 1
    requires finer.Some? ==> OrderedKeys(finer.value.policy) && WellDeclared(finer.value.policy)
    ensures finer.None? ==> response == Ok(SuppressAll(page, policy, floor))
    ensures finer.Some? ==> (response.Ok? <==> |finerTable| < scanLimit)
    ensures finer.Some? && response.Ok? ==>
              exists hidden ::
                IsHiddenMap(hidden, finerTable, finer.value, floor) &&
                response.value == BlankCoarseRows(SuppressAll(page, policy, floor), finer.value.keyColumn, Guarded(policy), hidden)
    ensures finer.Some? && response.Ok? ==>
              && |response.value| == |SuppressAll(page, policy, floor)|
              && forall i | 0 <= i < |response.value| ::
                   ShownWithoutHoles(response.value[i], SuppressAll(page, policy, floor)[i], policy, finerTable, finer.value, floor)
  {
    var hidden: Hidden := map[];
    if finer.Some? {
      var scanned := finerTable[..if |finerTable| < scanLimit then |finerTable| else scanLimit];
      if |scanned| >= scanLimit {
        return Err(ScanTruncated);
      }
      assert scanned == finerTable;
      hidden := HiddenAdditiveColumns(scanned, finer.value, floor);
    }
    var rows := SuppressSmallCohorts(page, policy, floor);
    if finer.Some? {
      var blanked := BlankCoarseRows(rows, finer.value.keyColumn, Guarded(policy), hidden);
      RowsLeaveTheRest(rows, policy, finerTable, finer.value, hidden, floor);
      rows := blanked;
    }
    return Ok(rows);
  }

  /** What one coarse row becomes, None when its own gate drops it. */
  ghost function Published(coarse: Row, policy: CohortPolicy, grain: FinerGrain, hidden: Hidden, floor: int): Option<Row>
    requires OrderedKeys(policy) && WellDeclared(policy) && floor >= 1
  {
    match SuppressRow(coarse, policy, floor)
    case None => None
    case Some(kept) => Some(BlankCoarseRow(kept, grain.keyColumn, Guarded(policy), hidden))
  }

  /** Every row of a response is the published form of a row of the page. */
  lemma ResponseRowsArePublished(page: seq<Row>, policy: CohortPolicy, grain: FinerGrain, hidden: Hidden, floor: int, out: Row)
    requires OrderedKeys(policy) && WellDeclared(policy) && floor >= 1
    requires out in BlankCoarseRows(SuppressAll(page, policy, floor), grain.keyColumn, Guarded(policy), hidden)
    ensures exists coarse :: coarse in page && Published(coarse, policy, grain, hidden, floor) == Some(out)
  {
    var kept := SuppressAll(page, policy, floor);
    var i :| 0 <= i < |kept| && out == BlankCoarseRow(kept[i], grain.keyColumn, Guarded(policy), hidden);
    KeptRowsHaveSources(page, policy, floor, kept[i]);
    var coarse :| coarse in page && SuppressRow(coarse, policy, floor) == Some(kept[i]);
    assert Published(coarse, policy, grain, hidden, floor) == Some(out);
  }

  lemma {:induction false} HiddenCoversRows(rows: seq<Row>, key: Cell, grain: FinerGrain, floor: int, row: Row)
    requires OrderedKeys(grain.policy) && WellDeclared(grain.policy) && floor >= 1
    requires row in rows && Get(row, grain.keyColumn) == key
    ensures HiddenOfRow(row, grain, floor) <= HiddenFor(rows, key, grain, floor)
  {
    if row != rows[0] {
      HiddenCoversRows(rows[1..], key, grain, floor, row);
    }
  }

  /** SUM over one key's rows; a NULL adds nothing. */
  function SumColumn(rows: seq<Row>, keyColumn: Column, key: Cell, c: Column): int {
    if rows == [] then 0
    else
      (if Get(rows[0], keyColumn) == key then Get(rows[0], c).GetOr(0) else 0) + SumColumn(rows[1..], keyColumn, key, c)
  }

  ghost predicate PublishesColumn(row: Row, grain: FinerGrain, floor: int, c: Column)
    requires OrderedKeys(grain.policy) && WellDeclared(grain.policy) && floor >= 1
  {
    var kept := SuppressRow(row, grain.policy, floor);
    kept.Some? && Get(kept.value, c).Some? && Get(kept.value, c) == Get(row, c)
  }

  /** When every row of a key publishes a column, what they publish sums to what they hold. */
  lemma {:induction false} PublishedSum(rows: seq<Row>, grain: FinerGrain, floor: int, key: Cell, c: Column)
    requires GoodGrain(grain) && floor >= 1
    requires forall row | row in rows && Get(row, grain.keyColumn) == key :: PublishesColumn(row, grain, floor, c)
    ensures SumColumn(SuppressAll(rows, grain.policy, floor), grain.keyColumn, key, c) ==
            SumColumn(rows, grain.keyColumn, key, c)
  {
    if rows != [] {
      assert rows[0] in rows && forall row | row in rows[1..] :: row in rows;
      PublishedSum(rows[1..], grain, floor, key, c);
      var head := SuppressRow(rows[0], grain.policy, floor);
      if head.Some? {
        KeptRowColumn(rows[0], grain.policy, floor, grain.keyColumn);
        KeyColumnSurvives(rows[0], grain.policy, floor, grain.keyColumn);
        var rest := SuppressAll(rows[1..], grain.policy, floor);
        assert ([head.value] + rest)[1..] == rest;
      } else {
        assert [] + SuppressAll(rows[1..], grain.policy, floor) == SuppressAll(rows[1..], grain.policy, floor);
      }
    }
  }

  lemma KeyColumnSurvives(row: Row, policy: CohortPolicy, floor: int, c: Column)
    requires Usable(policy) && floor >= 1 && SuppressRow(row, policy, floor).Some? && Untouched(c, policy)
    ensures Get(SuppressRow(row, policy, floor).value, c) == Get(row, c)
  {
    KeptRowColumn(row, policy, floor, c);
    if c in Suppressed(row, policy, floor) {
      SuppressedAreSecondary(row, policy, floor, c);
    }
  }

  /** A published coarse total is the sum of what the finer rows publish:
      every finer row of the key is kept and shows the column. */
  lemma CoarseTotalIsPublishedSum(
    coarse: Row, policy: CohortPolicy, finerTable: seq<Row>, grain: FinerGrain, hidden: Hidden, floor: int, out: Row, c: Column)
    requires Usable(policy) && Untouched(grain.keyColumn, policy) && GoodGrain(grain) && floor >= 1
    requires IsHiddenMap(hidden, finerTable, grain, floor)
    requires Published(coarse, policy, grain, hidden, floor) == Some(out)
    requires c in grain.additive && Get(out, c).Some?
    requires Get(coarse, c).GetOr(0) == SumColumn(finerTable, grain.keyColumn, Get(coarse, grain.keyColumn), c)
    ensures Get(out, grain.keyColumn) == Get(coarse, grain.keyColumn)
    ensures forall row | row in finerTable && Get(row, grain.keyColumn) == Get(out, grain.keyColumn) ::
              PublishesColumn(row, grain, floor, c)
    ensures Get(out, c).value ==
            SumColumn(SuppressAll(finerTable, grain.policy, floor), grain.keyColumn, Get(out, grain.keyColumn), c)
  {
    var key := Get(coarse, grain.keyColumn);
    KeyColumnSurvives(coarse, policy, floor, grain.keyColumn);
    KeptRowColumn(coarse, policy, floor, c);
    assert c !in HiddenFor(finerTable, key, grain, floor);
    forall row | row in finerTable && Get(row, grain.keyColumn) == key
      ensures PublishesColumn(row, grain, floor, c)
    {
      HiddenCoversRows(finerTable, key, grain, floor, row);
      assert c !in HiddenOfRow(row, grain, floor);
      KeptRowColumn(row, grain.policy, floor, c);
    }
    if key in hidden {
      assert grain.keyColumn !in Guarded(policy);
      KeyIsNeverHidden(finerTable, key, grain, floor);
    }
    PublishedSum(finerTable, grain, floor, key, c);
  }

  lemma {:induction false} KeyIsNeverHidden(rows: seq<Row>, key: Cell, grain: FinerGrain, floor: int)
    requires GoodGrain(grain) && floor >= 1
    ensures grain.keyColumn !in HiddenFor(rows, key, grain, floor)
  {
    if rows != [] {
      KeyIsNeverHidden(rows[1..], key, grain, floor);
    }
  }

  /** Two databases that publish the same finer rows cannot publish two
      different totals: a coarse total says nothing the finer rows do not. */
  lemma CoarseTotalsRevealNothing(
    coarse1: Row, table1: seq<Row>, hidden1: Hidden, out1: Row,
    coarse2: Row, table2: seq<Row>, hidden2: Hidden, out2: Row,
    policy: CohortPolicy, grain: FinerGrain, floor: int, c: Column)
    requires Usable(policy) && Untouched(grain.keyColumn, policy) && GoodGrain(grain) && floor >= 1
    requires IsHiddenMap(hidden1, table1, grain, floor) && IsHiddenMap(hidden2, table2, grain, floor)
    requires Published(coarse1, policy, grain, hidden1, floor) == Some(out1)
    requires Published(coarse2, policy, grain, hidden2, floor) == Some(out2)
    requires Get(coarse1, c).GetOr(0) == SumColumn(table1, grain.keyColumn, Get(coarse1, grain.keyColumn), c)
    requires Get(coarse2, c).GetOr(0) == SumColumn(table2, grain.keyColumn, Get(coarse2, grain.keyColumn), c)
    requires SuppressAll(table1, grain.policy, floor) == SuppressAll(table2, grain.policy, floor)
    requires Get(out1, grain.keyColumn) == Get(out2, grain.keyColumn)
    requires c in grain.additive && Get(out1, c).Some? && Get(out2, c).Some?
    ensures Get(out1, c) == Get(out2, c)
  {
    CoarseTotalIsPublishedSum(coarse1, policy, table1, grain, hidden1, floor, out1, c);
    CoarseTotalIsPublishedSum(coarse2, policy, table2, grain, hidden2, floor, out2, c);
  }

  /** Every secondary cohort a computed column reads is read by an additive one. */
  ghost predicate CohortsCovered(grain: FinerGrain) {
    forall d, c | d in grain.policy.derived && c in grain.policy.derived[d] && c in grain.policy.secondary ::
      exists a :: a in grain.additive && a in grain.policy.derived && c in grain.policy.derived[a]
  }

  ghost predicate FullyPublishes(row: Row, grain: FinerGrain, floor: int)
    requires OrderedKeys(grain.policy) && WellDeclared(grain.policy) && floor >= 1
  {
    var kept := SuppressRow(row, grain.policy, floor);
    kept.Some? && forall c | c in Cohorts(grain.policy) :: Get(kept.value, c).Some? && Get(kept.value, c) == Get(row, c)
  }

  lemma DroppedRowHidesAdditives(row: Row, grain: FinerGrain, floor: int, a: Column)
    requires OrderedKeys(grain.policy) && WellDeclared(grain.policy) && floor >= 1 && a in grain.additive
    ensures SuppressRow(row, grain.policy, floor).None? ==> a in HiddenOfRow(row, grain, floor)
  {
  }

  lemma NothingHiddenPublishesCohorts(row: Row, grain: FinerGrain, floor: int)
    requires GoodGrain(grain) && floor >= 1 && grain.additive != [] && CohortsCovered(grain)
    requires HiddenOfRow(row, grain, floor) == {}
    ensures FullyPublishes(row, grain, floor)
  {
    DroppedRowHidesAdditives(row, grain, floor, grain.additive[0]);
    var kept := SuppressRow(row, grain.policy, floor).value;
    forall c | c in Cohorts(grain.policy)
      ensures Get(kept, c).Some? && Get(kept, c) == Get(row, c)
    {
      PublishedCohort(row, grain.policy, floor, c);
      if c in grain.policy.secondary && c !in BareCohorts(grain.policy) {
        var d :| d in grain.policy.derived && c in grain.policy.derived[d];
        var a :| a in grain.additive && a in grain.policy.derived && c in grain.policy.derived[a];
        assert a !in HiddenOfRow(row, grain, floor);
        KeptRowColumn(row, grain.policy, floor, a);
      } else if c in grain.policy.secondary {
        assert c !in HiddenOfRow(row, grain, floor);
      }
    }
  }

  /** A finer row whose one withheld cohort is `s`. */
  function RowWithholding(policy: CohortPolicy, s: Column, floor: int): Row {
    map c | c in Cohorts(policy) + policy.derived.Keys :: if c == s then None else Some(floor)
  }

  lemma WithholdsOnlyOne(policy: CohortPolicy, s: Column, floor: int)
    requires Usable(policy) && floor >= 1 && s in policy.secondary
    ensures SuppressRow(RowWithholding(policy, s, floor), policy, floor).Some?
    ensures Suppressed(RowWithholding(policy, s, floor), policy, floor) == {s}
  {
    var row := RowWithholding(policy, s, floor);
    var pairs := ComplementPairs(policy);
    GatedRowIsIndexable(row, policy, floor);
    assert BelowFloor(row, policy, floor) == {s};
    forall p | p in pairs && p.0 !in {s} && p.1 !in {s}
      ensures !RawCause(row, p, floor)
    {
      PairsAreCohorts(policy, p.0, p.1);
    }
    SettledPassChangesNothing(row, pairs, floor, {s});
  }

  /** Nothing hidden for a key means every finer row of it shows all its
      cohorts, exactly when there is an additive column and every cohort that a
      computed column reads is also read by an additive one. */
  lemma NothingHiddenIffCovered(grain: FinerGrain, floor: int)
    requires GoodGrain(grain) && floor >= 1
    requires forall a | a in grain.additive :: a in grain.policy.derived
    ensures (grain.additive != [] && CohortsCovered(grain)) <==>
            (forall rows, key, row | row in rows && Get(row, grain.keyColumn) == key ::
               HiddenFor(rows, key, grain, floor) == {} ==> FullyPublishes(row, grain, floor))
  {
    if grain.additive != [] && CohortsCovered(grain) {
      forall rows, key, row | row in rows && Get(row, grain.keyColumn) == key && HiddenFor(rows, key, grain, floor) == {}
        ensures FullyPublishes(row, grain, floor)
      {
        HiddenCoversRows(rows, key, grain, floor, row);
        NothingHiddenPublishesCohorts(row, grain, floor);
      }
    } else if grain.additive == [] {
      var row: Row := map[];
      Unpublished(row, grain, floor);
    } else {
      var d, s :| d in grain.policy.derived && s in grain.policy.derived[d] && s in grain.policy.secondary
                  && forall a :: a in grain.additive && a in grain.policy.derived ==> s !in grain.policy.derived[a];
      var row := RowWithholding(grain.policy, s, floor);
      WithholdsOnlyOne(grain.policy, s, floor);
      forall c
        ensures c !in HiddenOfRow(row, grain, floor)
      {
        KeptRowColumn(row, grain.policy, floor, c);
      }
      KeptRowColumn(row, grain.policy, floor, s);
      Unpublished(row, grain, floor);
    }
  }

  lemma Unpublished(row: Row, grain: FinerGrain, floor: int)
    requires GoodGrain(grain) && floor >= 1
    requires HiddenOfRow(row, grain, floor) == {} && !FullyPublishes(row, grain, floor)
    ensures !(forall rows, key, r | r in rows && Get(r, grain.keyColumn) == key ::
                HiddenFor(rows, key, grain, floor) == {} ==> FullyPublishes(r, grain, floor))
  {
    assert row in [row] && [row][1..] == [];
    assert HiddenFor([row], Get(row, grain.keyColumn), grain, floor) == {};
  }

  /** A published coarse cohort count means the finer rows of its key publish
      every cohort they have; and where the finer rows share no learners, so
      that the count is their sum, it is the sum of what they publish. */
  lemma CoarseCohortsRevealNothing(
    coarse: Row, policy: CohortPolicy, finerTable: seq<Row>, grain: FinerGrain, hidden: Hidden, floor: int, out: Row, c: Column)
    requires Usable(policy) && Untouched(grain.keyColumn, policy) && GoodGrain(grain) && floor >= 1
    requires grain.additive != [] && CohortsCovered(grain)
    requires IsHiddenMap(hidden, finerTable, grain, floor)
    requires Published(coarse, policy, grain, hidden, floor) == Some(out)
    requires c in Guarded(policy) && Get(out, c).Some?
    ensures forall row | row in finerTable && Get(row, grain.keyColumn) == Get(out, grain.keyColumn) ::
              FullyPublishes(row, grain, floor)
    ensures c in Cohorts(grain.policy)
            && Get(coarse, c).GetOr(0) == SumColumn(finerTable, grain.keyColumn, Get(coarse, grain.keyColumn), c) ==>
              Get(out, c).value ==
              SumColumn(SuppressAll(finerTable, grain.policy, floor), grain.keyColumn, Get(out, grain.keyColumn), c)
  {
    var key := Get(coarse, grain.keyColumn);
    KeyColumnSurvives(coarse, policy, floor, grain.keyColumn);
    PublishedCohort(coarse, policy, floor, c);
    assert HiddenFor(finerTable, key, grain, floor) == {};
    forall row | row in finerTable && Get(row, grain.keyColumn) == key
      ensures FullyPublishes(row, grain, floor)
    {
      HiddenCoversRows(finerTable, key, grain, floor, row);
      NothingHiddenPublishesCohorts(row, grain, floor);
    }
    if c in Cohorts(grain.policy) {
      PublishedSum(finerTable, grain, floor, key, c);
    }
  }

  /** Two databases that publish the same finer rows cannot publish two different
      cohort counts either, where the finer rows share no learners. */
  lemma DisjointCohortsRevealNothing(
    coarse1: Row, table1: seq<Row>, hidden1: Hidden, out1: Row,
    coarse2: Row, table2: seq<Row>, hidden2: Hidden, out2: Row,
    policy: CohortPolicy, grain: FinerGrain, floor: int, c: Column)
    requires Usable(policy) && Untouched(grain.keyColumn, policy) && GoodGrain(grain) && floor >= 1
    requires grain.additive != [] && CohortsCovered(grain)
    requires IsHiddenMap(hidden1, table1, grain, floor) && IsHiddenMap(hidden2, table2, grain, floor)
    requires Published(coarse1, policy, grain, hidden1, floor) == Some(out1)
    requires Published(coarse2, policy, grain, hidden2, floor) == Some(out2)
    requires c in Guarded(policy) && c in Cohorts(grain.policy)
    requires Get(coarse1, c).GetOr(0) == SumColumn(table1, grain.keyColumn, Get(coarse1, grain.keyColumn), c)
    requires Get(coarse2, c).GetOr(0) == SumColumn(table2, grain.keyColumn, Get(coarse2, grain.keyColumn), c)
    requires SuppressAll(table1, grain.policy, floor) == SuppressAll(table2, grain.policy, floor)
    requires Get(out1, grain.keyColumn) == Get(out2, grain.keyColumn)
    requires Get(out1, c).Some? && Get(out2, c).Some?
    ensures Get(out1, c) == Get(out2, c)
  {
    CoarseCohortsRevealNothing(coarse1, policy, table1, grain, hidden1, floor, out1, c);
    CoarseCohortsRevealNothing(coarse2, policy, table2, grain, hidden2, floor, out2, c);
  }

  datatype ClassificationError = AdditiveAndNot | NotDerived | LeftOut

  /** `_OrgEndpoint.__post_init__`: every computed column is one or the other. */
  function Classify(derived: set<Column>, additive: set<Column>, nonAdditive: set<Column>): (error: Option<ClassificationError>)
    ensures error == None <==> additive !! nonAdditive && additive + nonAdditive == derived
  {
    assert forall c :: c in additive * nonAdditive <==> c in additive && c in nonAdditive;
    assert forall c :: c in (additive + nonAdditive) - derived <==> (c in additive || c in nonAdditive) && c !in derived;
    assert forall c :: c in derived - additive - nonAdditive <==> c in derived && c !in additive && c !in nonAdditive;
    if additive * nonAdditive != {} then Some(AdditiveAndNot)
    else if (additive + nonAdditive) - derived != {} then Some(NotDerived)
    else if derived - additive - nonAdditive != {} then Some(LeftOut)
    else None
  }

  /** An endpoint that declares no non-additive column is always covered. */
  lemma AllAdditiveIsCovered(grain: FinerGrain)
    requires Classify(grain.policy.derived.Keys, set a | a in grain.additive, {}) == None
    ensures CohortsCovered(grain)
  {
    forall d, c | d in grain.policy.derived && c in grain.policy.derived[d] && c in grain.policy.secondary
      ensures exists a :: a in grain.additive && a in grain.policy.derived && c in grain.policy.derived[a]
    {
      assert d in set a | a in grain.additive;
    }
  }

  const TREND_SECONDARY: seq<Column> :=
    ["monthly_active_learners", "enrolling_learners", "newly_certified_learners", "certified_learners",
     "video_watchers", "problem_attempters", "chatbot_users"]

  const TREND_DERIVED: map<Column, seq<Column>> := map[
    "new_enrollments" := ["enrolling_learners"],
    "certificates_earned" := ["newly_certified_learners"],
    "total_videos_watched" := ["video_watchers"],
    "total_problems_attempted" := ["problem_attempters"],
    "total_chatbot_interactions" := ["chatbot_users"]
  ]

  const TREND_CONTAINED: map<Column, Column> := map[
    "video_watchers" := "monthly_active_learners",
    "problem_attempters" := "monthly_active_learners",
    "chatbot_users" := "monthly_active_learners"
  ]

  /** MonthlyEngagementTrend's policy, which ContractMonthlyEngagementTrend inherits. */
  const TREND_POLICY := CohortPolicy(
    "contributing_learners", TREND_SECONDARY, TREND_DERIVED, TREND_CONTAINED,
    ["video_watchers", "problem_attempters", "chatbot_users"],
    ["monthly_active_learners", "enrolling_learners", "newly_certified_learners", "certified_learners"])

  const TREND_GRAIN := FinerGrain(
    TREND_POLICY,
    "activity_year_and_month",
    ["new_enrollments", "certificates_earned", "total_videos_watched", "total_problems_attempted", "total_chatbot_interactions"])

  lemma TrendContainmentIsAcyclic()
    ensures !Cyclic(TREND_CONTAINED)
  {
    forall c | c in TREND_CONTAINED
      ensures Walk(TREND_CONTAINED, c, {c}).Some?
    {
      var active := "monthly_active_learners";
      assert TREND_CONTAINED[c] == active && active !in TREND_CONTAINED;
      assert Walk(TREND_CONTAINED, active, {c} + {active}) == Some([]);
    }
    WalksFinishIffAcyclic(TREND_CONTAINED);
  }

  lemma TrendSecondaryMembers()
    ensures "monthly_active_learners" in TREND_SECONDARY && "enrolling_learners" in TREND_SECONDARY
    ensures "newly_certified_learners" in TREND_SECONDARY && "certified_learners" in TREND_SECONDARY
    ensures "video_watchers" in TREND_SECONDARY && "problem_attempters" in TREND_SECONDARY
    ensures "chatbot_users" in TREND_SECONDARY
  {
    var s := TREND_SECONDARY;
    assert s[0] in s && s[1] in s && s[2] in s && s[3] in s && s[4] in s && s[5] in s && s[6] in s;
  }

  lemma TrendDerivedIsKnown()
    ensures DerivedCohortsKnown(TREND_POLICY)
  {
    TrendSecondaryMembers();
  }

  lemma TrendContainmentIsKnown()
    ensures ContainmentKnown(TREND_POLICY) && UncontainedKnown(TREND_POLICY)
  {
    TrendSecondaryMembers();
  }

  lemma TrendOrderIsComplete()
    ensures OrderedKeys(TREND_POLICY)
  {
    var o := TREND_POLICY.containedOrder;
    assert o[0] in o && o[1] in o && o[2] in o;
  }

  lemma TrendCohortsAreClassified()
    ensures ClassifiedOnce(TREND_POLICY)
  {
    var u := TREND_POLICY.uncontained;
    assert u[0] in u && u[1] in u && u[2] in u && u[3] in u;
  }

  lemma TrendNamesAreDistinct()
    ensures TREND_POLICY.primary !in TREND_POLICY.secondary
    ensures TREND_DERIVED.Keys !! Cohorts(TREND_POLICY)
    ensures Untouched(TREND_GRAIN.keyColumn, TREND_POLICY) && TREND_GRAIN.keyColumn !in TREND_GRAIN.additive
  {
  }

  lemma TrendIsAllAdditive()
    ensures TREND_GRAIN.additive != [] && CohortsCovered(TREND_GRAIN)
  {
    var a := TREND_GRAIN.additive;
    assert a[0] in a && a[1] in a && a[2] in a && a[3] in a && a[4] in a;
    assert (set c | c in a) == TREND_DERIVED.Keys;
    AllAdditiveIsCovered(TREND_GRAIN);
  }

  /** The one endpoint with a finer grain meets every condition used above. */
  lemma TrendEndpointIsGuarded()
    ensures GoodGrain(TREND_GRAIN) && TREND_GRAIN.additive != [] && CohortsCovered(TREND_GRAIN)
  {
    TrendContainmentIsAcyclic();
    TrendDerivedIsKnown();
    TrendContainmentIsKnown();
    TrendOrderIsComplete();
    TrendCohortsAreClassified();
    TrendNamesAreDistinct();
    TrendIsAllAdditive();
  }
}
