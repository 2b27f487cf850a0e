/** What ORDER BY means: rows sorted by a list of column values. */
module SqlOrder {
  /** Text compared code point by code point; a proper prefix comes first. */
  predicate TextBefore(a: string, b: string) {
    b != [] && (a == [] || a[0] < b[0] || (a[0] == b[0] && TextBefore(a[1..], b[1..])))
  }

  lemma {:induction false} TextOrderIsTotal(a: string, b: string)
    ensures TextBefore(a, b) || TextBefore(b, a) <==> a != b
    ensures !(TextBefore(a, b) && TextBefore(b, a))
  {
    if a != [] && b != [] {
      TextOrderIsTotal(a[1..], b[1..]);
      assert a == [a[0]] + a[1..] && b == [b[0]] + b[1..];
    }
  }

  lemma {:induction false} TextOrderIsTransitive(a: string, b: string, c: string)
    requires TextBefore(a, b) && TextBefore(b, c)
    ensures TextBefore(a, c)
  {
    if a != [] && a[0] == b[0] == c[0] {
      TextOrderIsTransitive(a[1..], b[1..], c[1..]);
    }
  }

  /** A column's value. */
  datatype Value = Null | Flag(b: bool) | Num(n: int) | Text(s: string)

  /** One ORDER BY term and its direction. */
  datatype Cell = Asc(v: Value) | Desc(v: Value)

  function Rank(v: Value): int {
    match v
    case Null => 0
    case Flag(_) => 1
    case Num(_) => 2
    case Text(_) => 3
  }

  predicate ValueBefore(a: Value, b: Value) {
    match (a, b)
    case (Flag(x), Flag(y)) => !x && y
    case (Num(x), Num(y)) => x < y
    case (Text(x), Text(y)) => TextBefore(x, y)
    case _ => Rank(a) < Rank(b)
  }

  predicate CellBefore(a: Cell, b: Cell) {
    match (a, b)
    case (Asc(x), Asc(y)) => ValueBefore(x, y)
    case (Desc(x), Desc(y)) => ValueBefore(y, x)
    case _ => a.Asc? && b.Desc?
  }

  lemma ValueOrderIsTransitive(a: Value, b: Value, c: Value)
    requires ValueBefore(a, b) && ValueBefore(b, c)
    ensures ValueBefore(a, c)
  {
    if a.Text? && b.Text? && c.Text? {
      TextOrderIsTransitive(a.s, b.s, c.s);
    }
  }

  lemma CellOrderIsTotal(a: Cell, b: Cell)
    ensures CellBefore(a, b) || CellBefore(b, a) <==> a != b
    ensures !(CellBefore(a, b) && CellBefore(b, a))
  {
    if a.v.Text? && b.v.Text? {
      TextOrderIsTotal(a.v.s, b.v.s);
    }
  }

  lemma CellOrderIsTransitive(a: Cell, b: Cell, c: Cell)
    requires CellBefore(a, b) && CellBefore(b, c)
    ensures CellBefore(a, c)
  {
    if a.Asc? && c.Asc? {
      ValueOrderIsTransitive(a.v, b.v, c.v);
    } else if a.Desc? {
      ValueOrderIsTransitive(c.v, b.v, a.v);
    }
  }

  type SortKey = seq<Cell>

  predicate KeyBefore(a: SortKey, b: SortKey) {
    b != [] && (a == [] || CellBefore(a[0], b[0]) || (a[0] == b[0] && KeyBefore(a[1..], b[1..])))
  }

  lemma {:induction false} KeyOrderIsTotal(a: SortKey, b: SortKey)
    ensures KeyBefore(a, b) || KeyBefore(b, a) <==> a != b
    ensures !(KeyBefore(a, b) && KeyBefore(b, a))
  {
    if a != [] && b != [] {
      CellOrderIsTotal(a[0], b[0]);
      KeyOrderIsTotal(a[1..], b[1..]);
      assert a == [a[0]] + a[1..] && b == [b[0]] + b[1..];
    }
  }

  lemma {:induction false} KeyOrderIsTransitive(a: SortKey, b: SortKey, c: SortKey)
    requires KeyBefore(a, b) && KeyBefore(b, c)
    ensures KeyBefore(a, c)
  {
    if a != [] {
      CellOrderIsTotal(a[0], b[0]);
      CellOrderIsTotal(b[0], c[0]);
      if a[0] == b[0] == c[0] {
        KeyOrderIsTransitive(a[1..], b[1..], c[1..]);
      } else if a[0] != b[0] && b[0] != c[0] {
        CellOrderIsTransitive(a[0], b[0], c[0]);
      }
    }
  }

  /** Rows already paired with their sort keys. */
  type Keyed<T> = seq<(SortKey, T)>

  function Insert<T>(x: (SortKey, T), sorted: Keyed<T>): Keyed<T> {
    if sorted == [] || !KeyBefore(sorted[0].0, x.0) then [x] + sorted
    else [sorted[0]] + Insert(x, sorted[1..])
  }

  function Sort<T>(rows: Keyed<T>): Keyed<T> {
    if rows == [] then [] else Insert(rows[0], Sort(rows[1..]))
  }

  ghost predicate Ascending<T>(rows: Keyed<T>) {
    forall i, j | 0 <= i < j < |rows| :: !KeyBefore(rows[j].0, rows[i].0)
  }

  ghost predicate StrictlyAscending<T>(rows: Keyed<T>) {
    forall i, j | 0 <= i < j < |rows| :: KeyBefore(rows[i].0, rows[j].0)
  }

  lemma {:induction false} InsertKeepsOrder<T>(x: (SortKey, T), sorted: Keyed<T>)
    requires Ascending(sorted)
    ensures Ascending(Insert(x, sorted))
    ensures multiset(Insert(x, sorted)) == multiset([x]) + multiset(sorted)
  {
    if sorted == [] {
    } else if !KeyBefore(sorted[0].0, x.0) {
      forall j | 0 <= j < |sorted|
        ensures !KeyBefore(sorted[j].0, x.0)
      {
        NotBeforeIsTransitive(sorted[j].0, sorted[0].0, x.0);
      }
    } else {
      var rest := Insert(x, sorted[1..]);
      InsertKeepsOrder(x, sorted[1..]);
      assert sorted == [sorted[0]] + sorted[1..];
      forall y | y in rest
        ensures !KeyBefore(y.0, sorted[0].0)
      {
        assert y in multiset(rest);
        if y == x {
          KeyOrderIsTotal(x.0, sorted[0].0);
        } else {
          assert y in sorted[1..];
        }
      }
    }
  }

  lemma NotBeforeIsTransitive(c: SortKey, b: SortKey, a: SortKey)
    requires !KeyBefore(b, a) && (c == b || !KeyBefore(c, b))
    ensures !KeyBefore(c, a)
  {
    KeyOrderIsTotal(c, b);
    KeyOrderIsTotal(b, a);
    if KeyBefore(b, c) && KeyBefore(c, a) {
      KeyOrderIsTransitive(b, c, a);
    }
  }

  lemma {:induction false} SortSorts<T>(rows: Keyed<T>)
    ensures Ascending(Sort(rows))
    ensures multiset(Sort(rows)) == multiset(rows)
  {
    if rows != [] {
      SortSorts(rows[1..]);
      InsertKeepsOrder(rows[0], Sort(rows[1..]));
      assert rows == [rows[0]] + rows[1..];
    }
  }

  /** Where all keys differ, there is one sorted order. */
  lemma {:induction false} StrictOrderIsUnique<T>(a: Keyed<T>, b: Keyed<T>)
    requires StrictlyAscending(a) && StrictlyAscending(b) && multiset(a) == multiset(b)
    ensures a == b
  {
    if a == [] {
      assert |multiset(a)| == |multiset(b)|;
    } else {
      assert |multiset(a)| == |multiset(b)|;
      LeastIsFirst(a, b);
      assert a == [a[0]] + a[1..] && b == [b[0]] + b[1..];
      assert multiset(a[1..]) == multiset(a) - multiset([a[0]]);
      assert multiset(b[1..]) == multiset(b) - multiset([b[0]]);
      StrictOrderIsUnique(a[1..], b[1..]);
    }
  }

  lemma LeastIsFirst<T>(a: Keyed<T>, b: Keyed<T>)
    requires StrictlyAscending(a) && StrictlyAscending(b) && multiset(a) == multiset(b) && a != [] && b != []
    ensures a[0] == b[0]
  {
    assert a[0] in multiset(b) && b[0] in multiset(a);
    KeyOrderIsTotal(a[0].0, b[0].0);
  }

  function Values<T>(rows: Keyed<T>): (r: seq<T>)
    ensures |r| == |rows| && forall i | 0 <= i < |rows| :: r[i] == rows[i].1
  {
    seq(|rows|, i requires 0 <= i < |rows| => rows[i].1)
  }

  ghost predicate DistinctKeys<T>(rows: Keyed<T>) {
    forall i, j | 0 <= i < j < |rows| :: rows[i].0 != rows[j].0
  }

  lemma {:induction false} InsertMembers<T>(x: (SortKey, T), sorted: Keyed<T>, y: (SortKey, T))
    ensures y in Insert(x, sorted) <==> y == x || y in sorted
  {
    if sorted != [] && KeyBefore(sorted[0].0, x.0) {
      InsertMembers(x, sorted[1..], y);
    }
  }

  lemma {:induction false} SortMembers<T>(rows: Keyed<T>, y: (SortKey, T))
    ensures y in Sort(rows) <==> y in rows
  {
    if rows != [] {
      SortMembers(rows[1..], y);
      InsertMembers(rows[0], Sort(rows[1..]), y);
    }
  }

  lemma {:induction false} InsertKeepsStrictOrder<T>(x: (SortKey, T), sorted: Keyed<T>)
    requires StrictlyAscending(sorted) && forall y | y in sorted :: y.0 != x.0
    ensures StrictlyAscending(Insert(x, sorted))
  {
    if sorted == [] {
    } else if !KeyBefore(sorted[0].0, x.0) {
      KeyOrderIsTotal(sorted[0].0, x.0);
      assert sorted[0] in sorted;
      forall j | 0 < j < |sorted|
        ensures KeyBefore(x.0, sorted[j].0)
      {
        KeyOrderIsTransitive(x.0, sorted[0].0, sorted[j].0);
      }
    } else {
      var rest := Insert(x, sorted[1..]);
      InsertKeepsStrictOrder(x, sorted[1..]);
      assert sorted == [sorted[0]] + sorted[1..];
      forall k | 0 <= k < |rest|
        ensures KeyBefore(sorted[0].0, rest[k].0)
      {
        InsertMembers(x, sorted[1..], rest[k]);
      }
    }
  }

  lemma {:induction false} SortIsStrict<T>(rows: Keyed<T>)
    requires DistinctKeys(rows)
    ensures StrictlyAscending(Sort(rows))
  {
    if rows != [] {
      SortIsStrict(rows[1..]);
      forall y | y in Sort(rows[1..])
        ensures y.0 != rows[0].0
      {
        SortMembers(rows[1..], y);
      }
      InsertKeepsStrictOrder(rows[0], Sort(rows[1..]));
      assert rows == [rows[0]] + rows[1..];
    }
  }

  /** So whichever order the database lists such rows in, it is this one. */
  lemma SortIsTheOnlyOrder<T>(rows: Keyed<T>, listed: Keyed<T>)
    requires DistinctKeys(rows) && multiset(listed) == multiset(rows) && StrictlyAscending(listed)
    ensures listed == Sort(rows)
  {
    SortIsStrict(rows);
    SortSorts(rows);
    StrictOrderIsUnique(listed, Sort(rows));
  }

  lemma {:induction false} InsertIntoFirst<T>(x: (SortKey, T), a: Keyed<T>, b: Keyed<T>)
    requires forall y | y in b :: KeyBefore(x.0, y.0)
    ensures Insert(x, a + b) == Insert(x, a) + b
  {
    if a == [] {
      assert a + b == b;
      if b != [] {
        KeyOrderIsTotal(x.0, b[0].0);
      }
    } else if KeyBefore(a[0].0, x.0) {
      InsertIntoFirst(x, a[1..], b);
      assert (a + b)[1..] == a[1..] + b;
    } else {
      assert [x] + (a + b) == [x] + a + b;
    }
  }

  ghost predicate Precedes<T>(a: Keyed<T>, b: Keyed<T>) {
    forall x, y | x in a && y in b :: KeyBefore(x.0, y.0)
  }

  /** Blocks whose keys do not interleave sort block by block. */
  lemma {:induction false} SortByBlocks<T>(a: Keyed<T>, b: Keyed<T>)
    requires Precedes(a, b)
    ensures Sort(a + b) == Sort(a) + Sort(b)
  {
    if a == [] {
      assert a + b == b;
    } else {
      assert Precedes(a[1..], b);
      SortByBlocks(a[1..], b);
      assert (a + b)[0] == a[0] && (a + b)[1..] == a[1..] + b;
      FirstPrecedes(a, b);
      InsertIntoFirst(a[0], Sort(a[1..]), Sort(b));
    }
  }

  lemma FirstPrecedes<T>(a: Keyed<T>, b: Keyed<T>)
    requires a != [] && Precedes(a, b)
    ensures forall y | y in Sort(b) :: KeyBefore(a[0].0, y.0)
  {
    forall y | y in Sort(b)
      ensures KeyBefore(a[0].0, y.0)
    {
      SortMembers(b, y);
      assert a[0] in a;
    }
  }

  /** A longer ORDER BY refines a shorter one. */
  lemma {:induction false} LongerKeysKeepOrder(a: SortKey, b: SortKey, s: SortKey, t: SortKey)
    requires |a| == |b| && KeyBefore(a, b)
    ensures KeyBefore(a + s, b + t)
  {
    if a[0] == b[0] {
      CellOrderIsTotal(a[0], b[0]);
      LongerKeysKeepOrder(a[1..], b[1..], s, t);
    }
    assert (a + s)[1..] == a[1..] + s && (b + t)[1..] == b[1..] + t;
  }

  lemma {:induction false} SortKeepsValues<T>(rows: Keyed<T>)
    ensures multiset(Values(Sort(rows))) == multiset(Values(rows))
  {
    if rows != [] {
      SortKeepsValues(rows[1..]);
      InsertKeepsValues(rows[0], Sort(rows[1..]));
      assert Values(rows) == [rows[0].1] + Values(rows[1..]);
    }
  }

  lemma {:induction false} InsertKeepsValues<T>(x: (SortKey, T), sorted: Keyed<T>)
    ensures multiset(Values(Insert(x, sorted))) == multiset([x.1]) + multiset(Values(sorted))
  {
    if sorted == [] || !KeyBefore(sorted[0].0, x.0) {
      ValuesCons(x, sorted);
    } else {
      InsertKeepsValues(x, sorted[1..]);
      ValuesCons(sorted[0], sorted[1..]);
      ValuesCons(sorted[0], Insert(x, sorted[1..]));
      assert sorted == [sorted[0]] + sorted[1..];
    }
  }

  lemma ValuesCons<T>(x: (SortKey, T), rows: Keyed<T>)
    ensures Values([x] + rows) == [x.1] + Values(rows)
    ensures multiset(Values([x] + rows)) == multiset([x.1]) + multiset(Values(rows))
  {
    assert Values([x] + rows) == [x.1] + Values(rows);
  }

  /** Rows paired one to one with others of the same keys. */
  ghost predicate InStep<T, U>(a: Keyed<T>, b: Keyed<U>, related: (T, U) -> bool) {
    |a| == |b| && forall i | 0 <= i < |a| :: a[i].0 == b[i].0 && related(a[i].1, b[i].1)
  }

  lemma {:induction false} InsertInStep<T, U>(x: (SortKey, T), y: (SortKey, U), a: Keyed<T>, b: Keyed<U>, related: (T, U) -> bool)
    requires InStep(a, b, related) && x.0 == y.0 && related(x.1, y.1)
    ensures InStep(Insert(x, a), Insert(y, b), related)
  {
    if a != [] && KeyBefore(a[0].0, x.0) {
      InsertInStep(x, y, a[1..], b[1..], related);
    }
  }

  /** Sorting sees only the keys. */
  lemma {:induction false} SortInStep<T, U>(a: Keyed<T>, b: Keyed<U>, related: (T, U) -> bool)
    requires InStep(a, b, related)
    ensures InStep(Sort(a), Sort(b), related)
  {
    if a != [] {
      SortInStep(a[1..], b[1..], related);
      InsertInStep(a[0], b[0], Sort(a[1..]), Sort(b[1..]), related);
    }
  }

  /** LIMIT and OFFSET. */
  function Slice<T>(rows: seq<T>, offset: nat, limit: nat): seq<T> {
    if offset >= |rows| then []
    else if offset + limit >= |rows| then rows[offset..]
    else rows[offset..offset + limit]
  }

  /** Where page `n` starts. */
  function PageStart(size: nat, n: nat): nat {
    if n == 0 then 0 else PageStart(size, n - 1) + size
  }

  lemma {:induction false} PageStartIs(size: nat, n: nat)
    ensures PageStart(size, n) == n * size
  {
    if n > 0 {
      PageStartIs(size, n - 1);
      assert n * size == (n - 1) * size + size;
    }
  }

  function Pages<T>(rows: seq<T>, size: nat, count: nat): seq<T> {
    if count == 0 then [] else Pages(rows, size, count - 1) + Slice(rows, PageStart(size, count - 1), size)
  }

  lemma {:induction false} PagesAreAPrefix<T>(rows: seq<T>, size: nat, count: nat)
    ensures Pages(rows, size, count) == Slice(rows, 0, PageStart(size, count))
  {
    if count > 0 {
      PagesAreAPrefix(rows, size, count - 1);
    }
  }

  /** Walking the pages visits every row once, in order. */
  lemma PagesTile<T>(rows: seq<T>, size: nat, count: nat)
    ensures Pages(rows, size, count) == Slice(rows, 0, PageStart(size, count))
    ensures count * size >= |rows| ==> Pages(rows, size, count) == rows
  {
    PagesAreAPrefix(rows, size, count);
    PageStartIs(size, count);
  }
}
