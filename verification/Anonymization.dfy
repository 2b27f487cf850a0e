/** The k-anonymity floor: core/anonymization.py, suppress_small_cohorts and the
    fixpoint under it. A row is a dictionary of nullable columns. Counts are
    integers, and a computed column's value is an integer too, standing for
    whatever rate or total it is: suppression only keeps or nulls it. */
module Anonymization {
  import opened Common
  import opened CohortPolicies
  import Order = SqlOrder

  type Cell = Option<int>
  type Row = map<Column, Cell>

  /** `row.get(column)`. */
  function Get(row: Row, c: Column): Cell {
    if c in row then row[c] else None
  }

  function IsDisclosive(count: Cell, floor: int): bool {
    count.None? || 0 < count.value < floor
  }

  function ComplementIsDisclosive(subset: int, container: int, floor: int): bool {
    container - subset != 0 && container - subset < floor
  }

  function BelowFloor(row: Row, policy: CohortPolicy, floor: int): set<Column> {
    set c | c in policy.secondary && IsDisclosive(Get(row, c), floor)
  }

  /** Whatever is not suppressed can be indexed and holds a number. */
  ghost predicate Indexable(row: Row, pairs: seq<(Column, Column)>, suppressed: set<Column>) {
    forall p | p in pairs ::
      (p.0 !in suppressed ==> p.0 in row && row[p.0].Some?) && (p.1 !in suppressed ==> p.1 in row && row[p.1].Some?)
  }

  ghost predicate RawCause(row: Row, p: (Column, Column), floor: int) {
    Get(row, p.0).Some? && Get(row, p.1).Some? && ComplementIsDisclosive(Get(row, p.0).value, Get(row, p.1).value, floor)
  }

  /** One visit of one pair. */
  function Visit(row: Row, p: (Column, Column), floor: int, suppressed: set<Column>): set<Column>
    requires Indexable(row, [p], suppressed)
  {
    assert p in [p];
    if p.0 in suppressed || p.1 in suppressed then suppressed
    else if ComplementIsDisclosive(row[p.0].value, row[p.1].value, floor) then suppressed + {p.0}
    else suppressed
  }

  /** One pass over the pairs, in order. */
  function OnePass(row: Row, pairs: seq<(Column, Column)>, floor: int, suppressed: set<Column>): (r: set<Column>)
    requires Indexable(row, pairs, suppressed)
    ensures suppressed <= r
  {
    if pairs == [] then suppressed
    else
      assert pairs[0] in pairs && forall p | p in pairs[1..] :: p in pairs;
      OnePass(row, pairs[1..], floor, Visit(row, pairs[0], floor, suppressed))
  }

  /** No pair has both sides visible and a disclosive complement. */
  ghost predicate Settled(row: Row, pairs: seq<(Column, Column)>, floor: int, suppressed: set<Column>) {
    forall p | p in pairs :: p.0 in suppressed || p.1 in suppressed || !RawCause(row, p, floor)
  }

  lemma {:induction false} OnePassSettles(row: Row, pairs: seq<(Column, Column)>, floor: int, suppressed: set<Column>)
    requires Indexable(row, pairs, suppressed)
    ensures Settled(row, pairs, floor, OnePass(row, pairs, floor, suppressed))
  {
    if pairs != [] {
      assert pairs[0] in pairs && forall p | p in pairs[1..] :: p in pairs;
      OnePassSettles(row, pairs[1..], floor, Visit(row, pairs[0], floor, suppressed));
      assert forall p | p in pairs :: p == pairs[0] || p in pairs[1..];
    }
  }

  lemma {:induction false} SettledPassChangesNothing(row: Row, pairs: seq<(Column, Column)>, floor: int, suppressed: set<Column>)
    requires Indexable(row, pairs, suppressed) && Settled(row, pairs, floor, suppressed)
    ensures OnePass(row, pairs, floor, suppressed) == suppressed
  {
    if pairs != [] {
      assert pairs[0] in pairs && forall p | p in pairs[1..] :: p in pairs;
      SettledPassChangesNothing(row, pairs[1..], floor, suppressed);
    }
  }

  /** Nothing is withheld without a reason of its own in the raw row. */
  lemma {:induction false} OnePassHasCauses(row: Row, pairs: seq<(Column, Column)>, floor: int, suppressed: set<Column>, c: Column)
    requires Indexable(row, pairs, suppressed) && c in OnePass(row, pairs, floor, suppressed)
    ensures c in suppressed || exists a :: (c, a) in pairs && RawCause(row, (c, a), floor)
  {
    if pairs != [] {
      assert pairs[0] in pairs && forall p | p in pairs[1..] :: p in pairs;
      OnePassHasCauses(row, pairs[1..], floor, Visit(row, pairs[0], floor, suppressed), c);
      if c !in suppressed && c == pairs[0].0 && c in Visit(row, pairs[0], floor, suppressed) {
        assert (c, pairs[0].1) in pairs && RawCause(row, (c, pairs[0].1), floor);
      } else if c !in suppressed {
        var a :| (c, a) in pairs[1..] && RawCause(row, (c, a), floor);
        assert (c, a) in pairs;
      }
    }
  }

  /** The fixpoint loop. It runs at most two passes, and the second only finds
      that the first settled everything. */
  method SuppressedCohorts(row: Row, policy: CohortPolicy, floor: int, pairs: seq<(Column, Column)>)
    returns (suppressed: set<Column>)
    requires Indexable(row, pairs, BelowFloor(row, policy, floor))
    ensures suppressed == OnePass(row, pairs, floor, BelowFloor(row, policy, floor))
    ensures Settled(row, pairs, floor, suppressed)
  {
    suppressed := BelowFloor(row, policy, floor);
    ghost var once := OnePass(row, pairs, floor, suppressed);
    OnePassSettles(row, pairs, floor, suppressed);
    SettledPassChangesNothing(row, pairs, floor, once);
    ghost var passes := 0;
    var changed := true;
    while changed
      invariant passes == 0 ==> suppressed == BelowFloor(row, policy, floor) && changed
      invariant passes > 0 ==> suppressed == once
      invariant changed ==> passes <= 1
      invariant !changed ==> passes > 0
      decreases 2 - passes
    {
      changed := false;
      ghost var before := suppressed;
      for i := 0 to |pairs|
        invariant before <= suppressed && (changed <==> suppressed != before)
        invariant Indexable(row, pairs, suppressed)
        invariant Indexable(row, pairs[i..], suppressed)
        invariant OnePass(row, pairs[i..], floor, suppressed) == once
      {
        var (subset, container) := pairs[i];
        assert pairs[i] in pairs && pairs[i..][1..] == pairs[i + 1..];
        if subset in suppressed || container in suppressed {
          continue;
        }
        if ComplementIsDisclosive(row[subset].value, row[container].value, floor) {
          suppressed := suppressed + {subset};
          changed := true;
        }
      }
      passes := passes + 1;
    }
  }

  /** Computed columns that read a suppressed cohort. */
  function NulledDerived(policy: CohortPolicy, suppressed: set<Column>): set<Column> {
    set d | d in policy.derived && exists c :: c in policy.derived[d] && c in suppressed
  }

  function Blank(row: Row, columns: set<Column>): Row {
    map c | c in row.Keys + columns :: if c in columns then None else row[c]
  }

  /** The model's assumptions on a policy, none of which `__post_init__` checks:
      the gate is not also a secondary count, and no computed column shares a
      cohort's name. Every policy the service ships meets them. */
  ghost predicate Usable(policy: CohortPolicy) {
    && OrderedKeys(policy)
    && WellDeclared(policy)
    && policy.primary !in policy.secondary
    && policy.derived.Keys !! Cohorts(policy)
  }

  /** A row that clears its own gate can be indexed at every pair. */
  lemma GatedRowIsIndexable(row: Row, policy: CohortPolicy, floor: int)
    requires OrderedKeys(policy) && WellDeclared(policy) && floor >= 1
    requires Get(row, policy.primary).GetOr(0) >= floor
    ensures Indexable(row, ComplementPairs(policy), BelowFloor(row, policy, floor))
  {
    forall p | p in ComplementPairs(policy)
      ensures p.0 in policy.secondary && p.1 in Cohorts(policy)
    {
      PairsAreCohorts(policy, p.0, p.1);
    }
  }

  function Suppressed(row: Row, policy: CohortPolicy, floor: int): (r: set<Column>)
    requires OrderedKeys(policy) && WellDeclared(policy) && floor >= 1
    requires Get(row, policy.primary).GetOr(0) >= floor
  {
    GatedRowIsIndexable(row, policy, floor);
    OnePass(row, ComplementPairs(policy), floor, BelowFloor(row, policy, floor))
  }

  /** What one row becomes: None when its gate drops it. */
  function SuppressRow(row: Row, policy: CohortPolicy, floor: int): Option<Row>
    requires OrderedKeys(policy) && WellDeclared(policy) && floor >= 1
  {
    if Get(row, policy.primary).GetOr(0) < floor then None
    else
      var suppressed := Suppressed(row, policy, floor);
      Some(Blank(row, suppressed + NulledDerived(policy, suppressed)))
  }

  function SuppressAll(rows: seq<Row>, policy: CohortPolicy, floor: int): seq<Row>
    requires OrderedKeys(policy) && WellDeclared(policy) && floor >= 1
  {
    if rows == [] then []
    else
      var head := SuppressRow(rows[0], policy, floor);
      if head.None? then SuppressAll(rows[1..], policy, floor)
      else [head.value] + SuppressAll(rows[1..], policy, floor)
  }

  /** `for column in suppressed: redacted[column] = None`. */
  method NullOut(row: Row, columns: set<Column>) returns (redacted: Row)
    ensures redacted == Blank(row, columns)
  {
    redacted := row;
    var rest := columns;
    while rest != {}
      invariant rest <= columns && redacted == Blank(row, columns - rest)
      decreases rest
    {
      var c :| c in rest;
      redacted := redacted[c := None];
      rest := rest - {c};
    }
    assert columns - rest == columns;
  }

  method SuppressSmallCohorts(rows: seq<Row>, policy: CohortPolicy, floor: int) returns (kept: seq<Row>)
    requires OrderedKeys(policy) && WellDeclared(policy) && floor >= 1
    ensures kept == SuppressAll(rows, policy, floor)
  {
    kept := [];
    var pairs := ComplementPairs(policy);
    for i := 0 to |rows|
      invariant kept == SuppressAll(rows[..i], policy, floor)
    {
      SuppressOneMore(rows, i, policy, floor);
      if Get(rows[i], policy.primary).GetOr(0) < floor {
        continue;
      }
      var redacted := Redact(rows[i], policy, floor, pairs);
      kept := kept + [redacted];
    }
    assert rows[..|rows|] == rows;
  }

  lemma SuppressOneMore(rows: seq<Row>, i: nat, policy: CohortPolicy, floor: int)
    requires OrderedKeys(policy) && WellDeclared(policy) && floor >= 1 && i < |rows|
    ensures SuppressAll(rows[..i + 1], policy, floor) ==
            SuppressAll(rows[..i], policy, floor) +
            if SuppressRow(rows[i], policy, floor).None? then [] else [SuppressRow(rows[i], policy, floor).value]
  {
    SuppressionCommutesWithPaging(rows[..i], [rows[i]], policy, floor);
    assert rows[..i + 1] == rows[..i] + [rows[i]];
    assert [rows[i]][1..] == [];
  }

  /** The loop body for a row that clears the gate. */
  method Redact(row: Row, policy: CohortPolicy, floor: int, pairs: seq<(Column, Column)>) returns (redacted: Row)
    requires OrderedKeys(policy) && WellDeclared(policy) && floor >= 1 && pairs == ComplementPairs(policy)
    requires Get(row, policy.primary).GetOr(0) >= floor
    ensures Some(redacted) == SuppressRow(row, policy, floor)
  {
    GatedRowIsIndexable(row, policy, floor);
    var suppressed := SuppressedCohorts(row, policy, floor, pairs);
    redacted := NullOut(row, suppressed);
    redacted := NullOut(redacted, NulledDerived(policy, suppressed));
    assert redacted == Blank(row, suppressed + NulledDerived(policy, suppressed));
  }

  /** What a kept row publishes in one column. */
  lemma KeptRowColumn(row: Row, policy: CohortPolicy, floor: int, c: Column)
    requires Usable(policy) && floor >= 1 && SuppressRow(row, policy, floor).Some?
    ensures var suppressed := Suppressed(row, policy, floor);
            Get(SuppressRow(row, policy, floor).value, c) ==
            if c in suppressed || c in NulledDerived(policy, suppressed) then None else Get(row, c)
  {
  }

  lemma SuppressedAreSecondary(row: Row, policy: CohortPolicy, floor: int, c: Column)
    requires Usable(policy) && floor >= 1 && SuppressRow(row, policy, floor).Some?
    requires c in Suppressed(row, policy, floor)
    ensures c in policy.secondary && c !in policy.derived
    ensures IsDisclosive(Get(row, c), floor)
            || exists a :: (c, a) in ComplementPairs(policy) && RawCause(row, (c, a), floor)
  {
    GatedRowIsIndexable(row, policy, floor);
    var pairs := ComplementPairs(policy);
    OnePassHasCauses(row, pairs, floor, BelowFloor(row, policy, floor), c);
    if c !in BelowFloor(row, policy, floor) {
      var a :| (c, a) in pairs && RawCause(row, (c, a), floor);
      PairsAreCohorts(policy, c, a);
    }
  }

  /** A published cohort is published as the row held it. */
  lemma PublishedCohort(row: Row, policy: CohortPolicy, floor: int, c: Column)
    requires Usable(policy) && floor >= 1 && SuppressRow(row, policy, floor).Some? && c in Cohorts(policy)
    ensures var shown := Get(SuppressRow(row, policy, floor).value, c);
            if c in policy.secondary && c in Suppressed(row, policy, floor) then shown == None
            else shown == Get(row, c) && shown.Some?
  {
    KeptRowColumn(row, policy, floor, c);
    if c in Suppressed(row, policy, floor) {
      SuppressedAreSecondary(row, policy, floor, c);
    } else if c in policy.secondary {
      GatedRowIsIndexable(row, policy, floor);
      assert c !in BelowFloor(row, policy, floor);
    }
  }

  /** What the floor promises of a published row. Every secondary count shown
      is 0 or at least the floor, and so is every complement between two shown
      cohorts, at any depth of nesting; the gate itself is at least the floor. */
  lemma PublishedRowKeepsFloor(row: Row, policy: CohortPolicy, floor: int)
    requires Usable(policy) && floor >= 1 && SuppressRow(row, policy, floor).Some?
    requires forall c | c in policy.secondary && Get(row, c).Some? :: Get(row, c).value >= 0
    ensures var out := SuppressRow(row, policy, floor).value;
            && Get(out, policy.primary).Some? && Get(out, policy.primary).value >= floor
            && (forall c | c in policy.secondary && Get(out, c).Some? ::
                  Get(out, c).value == 0 || Get(out, c).value >= floor)
            && (forall s, a, n: nat ::
                  n > 0 && s in policy.containedIn && Outwards(policy.containedIn, s, n) == Some(a)
                  && Get(out, s).Some? && Get(out, a).Some? ==>
                    Get(out, a).value - Get(out, s).value == 0 || Get(out, a).value - Get(out, s).value >= floor)
            && (forall d, c | d in policy.derived && c in policy.derived[d] && Get(out, d).Some? :: Get(out, c).Some?)
  {
    var out := SuppressRow(row, policy, floor).value;
    var pairs := ComplementPairs(policy);
    var suppressed := Suppressed(row, policy, floor);
    GatedRowIsIndexable(row, policy, floor);
    OnePassSettles(row, pairs, floor, BelowFloor(row, policy, floor));
    PublishedCohort(row, policy, floor, policy.primary);
    forall c | c in policy.secondary && Get(out, c).Some?
      ensures Get(out, c).value == 0 || Get(out, c).value >= floor
    {
      PublishedCohort(row, policy, floor, c);
      assert c !in BelowFloor(row, policy, floor);
    }
    forall s, a, n: nat | n > 0 && s in policy.containedIn && Outwards(policy.containedIn, s, n) == Some(a)
                          && Get(out, s).Some? && Get(out, a).Some?
      ensures Get(out, a).value - Get(out, s).value == 0 || Get(out, a).value - Get(out, s).value >= floor
    {
      ComplementPairsAreTransitive(policy, s, a);
      assert exists m: nat :: m > 0 && Outwards(policy.containedIn, s, m) == Some(a);
      PairsAreCohorts(policy, s, a);
      PublishedCohort(row, policy, floor, s);
      PublishedCohort(row, policy, floor, a);
      assert !RawCause(row, (s, a), floor);
    }
    forall d, c | d in policy.derived && c in policy.derived[d] && Get(out, d).Some?
      ensures Get(out, c).Some?
    {
      PublishedCohort(row, policy, floor, c);
      KeptRowColumn(row, policy, floor, d);
    }
  }

  /** Nothing is withheld without need: a count that is no one's or at least the
      floor's is published, unless some cohort around it exceeds it by fewer
      than the floor. */
  lemma SafeCountsAreShown(row: Row, policy: CohortPolicy, floor: int, c: Column)
    requires Usable(policy) && floor >= 1 && SuppressRow(row, policy, floor).Some?
    requires c in policy.secondary && Get(row, c).Some? && (Get(row, c).value <= 0 || Get(row, c).value >= floor)
    requires forall a, n: nat | n > 0 && Outwards(policy.containedIn, c, n) == Some(a) && Get(row, a).Some? ::
               Get(row, a).value == Get(row, c).value || Get(row, a).value - Get(row, c).value >= floor
    ensures Get(SuppressRow(row, policy, floor).value, c) == Get(row, c)
  {
    PublishedCohort(row, policy, floor, c);
    if c in Suppressed(row, policy, floor) {
      SuppressedAreSecondary(row, policy, floor, c);
      if a :| (c, a) in ComplementPairs(policy) && RawCause(row, (c, a), floor) {
        ComplementPairsAreTransitive(policy, c, a);
      }
    }
  }

  /** A count of fewer learners than the floor is never published, nor one that
      leaves fewer in a cohort around it that is. */
  lemma SmallCountsAreHidden(row: Row, policy: CohortPolicy, floor: int, c: Column)
    requires Usable(policy) && floor >= 1 && SuppressRow(row, policy, floor).Some? && c in policy.secondary
    ensures Get(row, c).None? || 0 < Get(row, c).value < floor ==> Get(SuppressRow(row, policy, floor).value, c) == None
  {
    GatedRowIsIndexable(row, policy, floor);
    PublishedCohort(row, policy, floor, c);
    assert Get(row, c).None? || 0 < Get(row, c).value < floor ==> c in BelowFloor(row, policy, floor);
  }

  /** A computed column is withheld exactly when a cohort it reads is, and any
      column that is neither it nor a secondary count is left alone. */
  lemma OtherColumnsFollow(row: Row, policy: CohortPolicy, floor: int, d: Column)
    requires Usable(policy) && floor >= 1 && SuppressRow(row, policy, floor).Some? && d !in policy.secondary
    ensures var out := SuppressRow(row, policy, floor).value;
            Get(out, d) == if d in policy.derived && exists c :: c in policy.derived[d] && Get(out, c).None? then None else Get(row, d)
  {
    var out := SuppressRow(row, policy, floor).value;
    KeptRowColumn(row, policy, floor, d);
    if d in Suppressed(row, policy, floor) {
      SuppressedAreSecondary(row, policy, floor, d);
    }
    if d in policy.derived {
      forall c | c in policy.derived[d]
        ensures Get(out, c).None? <==> c in Suppressed(row, policy, floor)
      {
        PublishedCohort(row, policy, floor, c);
        if c in Suppressed(row, policy, floor) {
          SuppressedAreSecondary(row, policy, floor, c);
        }
      }
    }
  }

  /** The gate. */
  lemma DroppedIff(row: Row, policy: CohortPolicy, floor: int)
    requires OrderedKeys(policy) && WellDeclared(policy) && floor >= 1
    ensures SuppressRow(row, policy, floor).None? <==> Get(row, policy.primary).None? || Get(row, policy.primary).value < floor
  {
  }

  /** Suppressing what is already suppressed changes nothing. */
  lemma SuppressionIsIdempotent(row: Row, policy: CohortPolicy, floor: int)
    requires Usable(policy) && floor >= 1 && SuppressRow(row, policy, floor).Some?
    ensures SuppressRow(SuppressRow(row, policy, floor).value, policy, floor) == SuppressRow(row, policy, floor)
  {
    var out := SuppressRow(row, policy, floor).value;
    var pairs := ComplementPairs(policy);
    var suppressed := Suppressed(row, policy, floor);
    PublishedCohort(row, policy, floor, policy.primary);
    GatedRowIsIndexable(row, policy, floor);
    GatedRowIsIndexable(out, policy, floor);
    forall c
      ensures c in BelowFloor(out, policy, floor) <==> c in suppressed
    {
      if c in suppressed {
        SuppressedAreSecondary(row, policy, floor, c);
      }
      if c in policy.secondary {
        PublishedCohort(row, policy, floor, c);
      }
    }
    assert BelowFloor(out, policy, floor) == suppressed;
    OnePassSettles(row, pairs, floor, BelowFloor(row, policy, floor));
    forall p | p in pairs && p.0 !in suppressed && p.1 !in suppressed
      ensures !RawCause(out, p, floor)
    {
      PairsAreCohorts(policy, p.0, p.1);
      PublishedCohort(row, policy, floor, p.0);
      PublishedCohort(row, policy, floor, p.1);
      assert !RawCause(row, p, floor);
    }
    SettledPassChangesNothing(out, pairs, floor, suppressed);
    assert Suppressed(out, policy, floor) == suppressed;
    var nulled := suppressed + NulledDerived(policy, suppressed);
    assert out == Blank(row, nulled);
    assert Blank(out, nulled) == out;
  }

  /** Pages suppress independently, so paging and suppression commute. */
  lemma {:induction false} SuppressionCommutesWithPaging(first: seq<Row>, rest: seq<Row>, policy: CohortPolicy, floor: int)
    requires OrderedKeys(policy) && WellDeclared(policy) && floor >= 1
    ensures SuppressAll(first + rest, policy, floor) == SuppressAll(first, policy, floor) + SuppressAll(rest, policy, floor)
  {
    if first == [] {
      assert first + rest == rest;
    } else {
      SuppressionCommutesWithPaging(first[1..], rest, policy, floor);
      assert (first + rest)[1..] == first[1..] + rest;
    }
  }

  /** Suppressing a suppressed table changes nothing, and drops nothing more. */
  lemma {:induction false} TableSuppressionIsIdempotent(rows: seq<Row>, policy: CohortPolicy, floor: int)
    requires Usable(policy) && floor >= 1
    ensures SuppressAll(SuppressAll(rows, policy, floor), policy, floor) == SuppressAll(rows, policy, floor)
  {
    if rows != [] {
      TableSuppressionIsIdempotent(rows[1..], policy, floor);
      var head := SuppressRow(rows[0], policy, floor);
      if head.Some? {
        SuppressionIsIdempotent(rows[0], policy, floor);
        var rest := SuppressAll(rows[1..], policy, floor);
        assert ([head.value] + rest)[1..] == rest;
      }
    }
  }

  /** The responses for the first `count` pages of a table, laid end to end. */
  function SuppressedPages(rows: seq<Row>, size: nat, count: nat, policy: CohortPolicy, floor: int): seq<Row>
    requires OrderedKeys(policy) && WellDeclared(policy) && floor >= 1
  {
    if count == 0 then []
    else
      SuppressedPages(rows, size, count - 1, policy, floor)
      + SuppressAll(Order.Slice(rows, Order.PageStart(size, count - 1), size), policy, floor)
  }

  lemma {:induction false} SuppressedPagesAre(rows: seq<Row>, size: nat, count: nat, policy: CohortPolicy, floor: int)
    requires OrderedKeys(policy) && WellDeclared(policy) && floor >= 1
    ensures SuppressedPages(rows, size, count, policy, floor) == SuppressAll(Order.Pages(rows, size, count), policy, floor)
  {
    if count > 0 {
      SuppressedPagesAre(rows, size, count - 1, policy, floor);
      SuppressionCommutesWithPaging(
        Order.Pages(rows, size, count - 1), Order.Slice(rows, Order.PageStart(size, count - 1), size), policy, floor);
    }
  }

  /** Walking the suppressed pages gives the suppressed table, whatever their
      size, and as many rows as the gated count says. */
  lemma PagesOfAnySizeCoverTheTable(rows: seq<Row>, size: nat, count: nat, policy: CohortPolicy, floor: int)
    requires OrderedKeys(policy) && WellDeclared(policy) && floor >= 1 && count * size >= |rows|
    ensures SuppressedPages(rows, size, count, policy, floor) == SuppressAll(rows, policy, floor)
    ensures |SuppressedPages(rows, size, count, policy, floor)| == VisibleCount(rows, policy, floor)
  {
    SuppressedPagesAre(rows, size, count, policy, floor);
    Order.PagesTile(rows, size, count);
    VisibleCountIsKeptCount(rows, policy, floor);
  }

  /** `SELECT COUNT(*) ... WHERE primary >= floor`: a NULL primary is not counted. */
  function VisibleCount(rows: seq<Row>, policy: CohortPolicy, floor: int): nat {
    if rows == [] then 0
    else
      var primary := Get(rows[0], policy.primary);
      (if primary.Some? && primary.value >= floor then 1 else 0) + VisibleCount(rows[1..], policy, floor)
  }

  /** `total_count` is the number of rows paging can reach. */
  lemma {:induction false} VisibleCountIsKeptCount(rows: seq<Row>, policy: CohortPolicy, floor: int)
    requires OrderedKeys(policy) && WellDeclared(policy) && floor >= 1
    ensures VisibleCount(rows, policy, floor) == |SuppressAll(rows, policy, floor)|
  {
    if rows != [] {
      VisibleCountIsKeptCount(rows[1..], policy, floor);
    }
  }

  /** A published row always comes from one row of the table. */
  lemma {:induction false} KeptRowsHaveSources(rows: seq<Row>, policy: CohortPolicy, floor: int, out: Row)
    requires OrderedKeys(policy) && WellDeclared(policy) && floor >= 1
    ensures out in SuppressAll(rows, policy, floor) <==>
            exists row :: row in rows && SuppressRow(row, policy, floor) == Some(out)
  {
    if rows != [] {
      KeptRowsHaveSources(rows[1..], policy, floor, out);
      if row :| row in rows[1..] && SuppressRow(row, policy, floor) == Some(out) {
        assert row in rows;
      }
      assert rows[0] in rows;
      assert forall row | row in rows :: row == rows[0] || row in rows[1..];
    }
  }
}
