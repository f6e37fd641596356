/**
 The body of `df` (ecl2df/wellconnstatus.py) once the summary file is read:
 keep the CPI columns, and for each of them append one row
 `[date, well, i, j, k, status]` per status change of its vector.

 The summary file is replaced by its content: a shared date sequence and an
 ordered sequence of named value vectors.
 */
module Aggregator {
  import opened Detector
  import opened DetectorProperties
  import opened ConnectionKey

  /** A named summary vector. */
  datatype Column = Column(key: string, values: seq<real>)

  /** A row of the output table: DATE, WELL, I, J, K, OP/SH. */
  datatype Row<D> = Row(date: D, well: string, i: string, j: string, k: string, status: Status)

  /** Every column has a key the filter accepts. */
  predicate AllCpi(columns: seq<Column>)
  {
    forall m :: 0 <= m < |columns| ==> IsCpiKey(columns[m].key)
  }

  // ---------------------------------------------------------------------------
  // The key filter

  /** Lines 30-34: the columns whose key the pattern accepts, in order. */
  function CpiColumns(columns: seq<Column>): (cpi: seq<Column>)
    ensures AllCpi(cpi)
    ensures |cpi| <= |columns|
  {
    if |columns| == 0 then []
    else
      var init, last := columns[..|columns| - 1], columns[|columns| - 1];
      CpiColumns(init) + (if IsCpiKey(last.key) then [last] else [])
  }

  /** The filter keeps exactly the columns whose key the pattern accepts. */
  lemma {:induction false} CpiColumnsMembers(columns: seq<Column>)
    ensures forall c :: c in CpiColumns(columns) <==> c in columns && IsCpiKey(c.key)
  {
    if |columns| > 0 {
      var init, last := columns[..|columns| - 1], columns[|columns| - 1];
      CpiColumnsMembers(init);
      assert columns == init + [last];
    }
  }

  /** Filtering one more column keeps it at the end exactly when its key passes. */
  lemma CpiColumnsSnoc(columns: seq<Column>, c: Column)
    ensures CpiColumns(columns + [c]) == CpiColumns(columns) + (if IsCpiKey(c.key) then [c] else [])
  {
  }

  /** Filtering a concatenation filters each part. */
  lemma {:induction false} CpiColumnsAppend(a: seq<Column>, b: seq<Column>)
    ensures CpiColumns(a + b) == CpiColumns(a) + CpiColumns(b)
    decreases |b|
  {
    if |b| == 0 {
      assert a + b == a;
    } else {
      var init, last := b[..|b| - 1], b[|b| - 1];
      assert b == init + [last];
      assert a + b == (a + init) + [last];
      CpiColumnsAppend(a, init);
      CpiColumnsSnoc(a + init, last);
      CpiColumnsSnoc(init, last);
    }
  }

  // ---------------------------------------------------------------------------
  // Tagging the changes of one connection

  /** The row one status change contributes: DATE, WELL, I, J, K, OP/SH. */
  function TagOne<D>(key: ConnKey, change: Change<D>): Row<D>
  {
    Row(change.date, key.well, key.i, key.j, key.k, change.status)
  }

  /** Lines 45-46 for one connection: one row per change, in order. */
  function Tag<D>(key: ConnKey, changes: seq<Change<D>>): seq<Row<D>>
  {
    if |changes| == 0 then []
    else Tag(key, changes[..|changes| - 1]) + [TagOne(key, changes[|changes| - 1])]
  }

  /** The tagged rows are the changes, in order, each carrying the date and
      status of its change and the connection's identity. */
  lemma {:induction false} TagRows<D>(key: ConnKey, changes: seq<Change<D>>)
    ensures |Tag(key, changes)| == |changes|
    ensures forall m :: 0 <= m < |changes| ==>
      var row := Tag(key, changes)[m];
      && row.date == changes[m].date && row.status == changes[m].status
      && row.well == key.well && row.i == key.i && row.j == key.j && row.k == key.k
  {
    if |changes| > 0 {
      TagRows(key, changes[..|changes| - 1]);
    }
  }

  /** All rows contributed by one CPI column. */
  function ConnectionRows<D>(dates: seq<D>, col: Column): seq<Row<D>>
    requires IsCpiKey(col.key)
  {
    Tag(KeyFields(col.key), StatusChanges(dates, col.values))
  }

  // ---------------------------------------------------------------------------
  // Concatenating the connections' rows

  /** The blocks, one after the other. */
  function Flatten<T>(blocks: seq<seq<T>>): seq<T>
  {
    if |blocks| == 0 then []
    else Flatten(blocks[..|blocks| - 1]) + blocks[|blocks| - 1]
  }

  /** One more block is appended at the end. */
  lemma FlattenSnoc<T>(blocks: seq<seq<T>>, b: seq<T>)
    ensures Flatten(blocks + [b]) == Flatten(blocks) + b
  {
  }

  /** Flattening distributes over concatenation of block lists. */
  lemma {:induction false} FlattenAppend<T>(x: seq<seq<T>>, y: seq<seq<T>>)
    ensures Flatten(x + y) == Flatten(x) + Flatten(y)
    decreases |y|
  {
    if |y| == 0 {
      assert x + y == x;
    } else {
      var init, last := y[..|y| - 1], y[|y| - 1];
      assert y == init + [last];
      assert x + y == (x + init) + [last];
      FlattenAppend(x, init);
      FlattenSnoc(x + init, last);
      FlattenSnoc(init, last);
    }
  }

  /** An element of the flattening comes from one of the blocks, and back. */
  lemma {:induction false} FlattenMembership<T>(blocks: seq<seq<T>>, e: T)
    ensures e in Flatten(blocks) <==> exists m :: 0 <= m < |blocks| && e in blocks[m]
  {
    if |blocks| > 0 {
      var init := blocks[..|blocks| - 1];
      FlattenMembership(init, e);
      if exists m :: 0 <= m < |blocks| && e in blocks[m] {
        var m :| 0 <= m < |blocks| && e in blocks[m];
        if m < |init| {
          assert e in init[m];
        }
      }
      if exists m :: 0 <= m < |init| && e in init[m] {
        var m :| 0 <= m < |init| && e in init[m];
        assert e in blocks[m];
      }
    }
  }

  /** Each CPI column's rows, as one block per column. */
  function Blocks<D>(dates: seq<D>, cpi: seq<Column>): seq<seq<Row<D>>>
    requires AllCpi(cpi)
  {
    seq(|cpi|, m requires 0 <= m < |cpi| => ConnectionRows(dates, cpi[m]))
  }

  /** The blocks of a concatenation are the blocks of each part. */
  lemma BlocksAppend<D>(dates: seq<D>, a: seq<Column>, b: seq<Column>)
    requires AllCpi(a) && AllCpi(b)
    ensures AllCpi(a + b)
    ensures Blocks(dates, a + b) == Blocks(dates, a) + Blocks(dates, b)
  {
  }

  /** Lines 37-46: the rows of the CPI columns, column after column. */
  function TableRows<D>(dates: seq<D>, cpi: seq<Column>): seq<Row<D>>
    requires AllCpi(cpi)
  {
    Flatten(Blocks(dates, cpi))
  }

  /** The table `df` returns, for the given dates and summary vectors. */
  function StatusTable<D>(dates: seq<D>, columns: seq<Column>): seq<Row<D>>
  {
    TableRows(dates, CpiColumns(columns))
  }

  /** The number of status changes over a list of columns. */
  function EventTotal<D>(dates: seq<D>, columns: seq<Column>): nat
  {
    if |columns| == 0 then 0
    else EventTotal(dates, columns[..|columns| - 1]) + |StatusChanges(dates, columns[|columns| - 1].values)|
  }

  // ---------------------------------------------------------------------------
  // Properties of the table

  /** The table of a concatenation of CPI column lists is the concatenation
      of their tables: each column's rows form one contiguous block. */
  lemma TableRowsAppend<D>(dates: seq<D>, a: seq<Column>, b: seq<Column>)
    requires AllCpi(a) && AllCpi(b)
    ensures AllCpi(a + b)
    ensures TableRows(dates, a + b) == TableRows(dates, a) + TableRows(dates, b)
  {
    BlocksAppend(dates, a, b);
    FlattenAppend(Blocks(dates, a), Blocks(dates, b));
  }

  /** One row per status change of each CPI column. */
  lemma {:induction false} TableRowsCount<D>(dates: seq<D>, cpi: seq<Column>)
    requires AllCpi(cpi)
    ensures |TableRows(dates, cpi)| == EventTotal(dates, cpi)
  {
    if |cpi| > 0 {
      var init, last := cpi[..|cpi| - 1], cpi[|cpi| - 1];
      TableRowsCount(dates, init);
      assert cpi == init + [last];
      TableRowsAppend(dates, init, [last]);
      assert Blocks(dates, [last]) == [] + [ConnectionRows(dates, last)];
      FlattenSnoc([], ConnectionRows(dates, last));
      TagRows(KeyFields(last.key), StatusChanges(dates, last.values));
    }
  }

  /** The table over a concatenation of column lists is the concatenation of
      their tables: how the key list is ordered only moves whole blocks. */
  lemma StatusTableAppend<D>(dates: seq<D>, a: seq<Column>, b: seq<Column>)
    ensures StatusTable(dates, a + b) == StatusTable(dates, a) + StatusTable(dates, b)
  {
    CpiColumnsAppend(a, b);
    TableRowsAppend(dates, CpiColumns(a), CpiColumns(b));
  }

  /** One column's block: its tagged status changes when its key is a CPI
      key, nothing otherwise. */
  lemma SingleColumn<D>(dates: seq<D>, c: Column)
    ensures IsCpiKey(c.key) ==> StatusTable(dates, [c]) == ConnectionRows(dates, c)
    ensures !IsCpiKey(c.key) ==> StatusTable(dates, [c]) == []
  {
    CpiColumnsSnoc([], c);
    assert [] + [c] == [c];
    if IsCpiKey(c.key) {
      assert Blocks(dates, [c]) == [] + [ConnectionRows(dates, c)];
      FlattenSnoc([], ConnectionRows(dates, c));
    } else {
      assert Blocks(dates, []) == [];
    }
  }

  /** A column contributes no row when its key is not a CPI key or when its
      indicator never exceeds 0. */
  lemma ExcludedColumn<D>(dates: seq<D>, columns: seq<Column>, c: Column)
    requires !IsCpiKey(c.key) || forall t :: 0 <= t < Span(dates, c.values) ==> c.values[t] <= 0.0
    ensures StatusTable(dates, columns + [c]) == StatusTable(dates, columns)
  {
    StatusTableAppend(dates, columns, [c]);
    SingleColumn(dates, c);
    if IsCpiKey(c.key) {
      NeverOpenExcluded(dates, c.values);
    }
  }

  /** The rows of one connection carry its identity, which renders back to
      its key; over a non-negative vector their statuses alternate, starting
      with OPEN, and there are no more of them than observations. */
  lemma ConnectionRowsAlternate<D>(dates: seq<D>, c: Column)
    requires IsCpiKey(c.key) && NonNegative(c.values)
    ensures var rows := ConnectionRows(dates, c);
      && |rows| <= Span(dates, c.values)
      && (|rows| > 0 ==> rows[0].status == Open)
      && (forall m :: 0 < m < |rows| ==> rows[m].status != rows[m - 1].status)
      && (forall m :: 0 <= m < |rows| ==>
            Render(ConnKey(rows[m].well, rows[m].i, rows[m].j, rows[m].k)) == c.key)
  {
    StatusChangesAlternate(dates, c.values);
    KeyFieldsRender(c.key);
    TagRows(KeyFields(c.key), StatusChanges(dates, c.values));
  }

  /** A row is in the table exactly when it is a row of some CPI column. */
  lemma TableRowsMembership<D>(dates: seq<D>, cpi: seq<Column>, row: Row<D>)
    requires AllCpi(cpi)
    ensures row in TableRows(dates, cpi) <==>
      exists c :: c in cpi && IsCpiKey(c.key) && row in ConnectionRows(dates, c)
  {
    var blocks := Blocks(dates, cpi);
    FlattenMembership(blocks, row);
    if exists c :: c in cpi && IsCpiKey(c.key) && row in ConnectionRows(dates, c) {
      var c :| c in cpi && IsCpiKey(c.key) && row in ConnectionRows(dates, c);
      var m :| 0 <= m < |cpi| && cpi[m] == c;
      assert row in blocks[m];
    }
    if exists m :: 0 <= m < |blocks| && row in blocks[m] {
      var m :| 0 <= m < |blocks| && row in blocks[m];
      assert cpi[m] in cpi;
    }
  }

  /** Provenance of the table: its rows are exactly the rows of the columns
      whose key the pattern accepts. */
  lemma StatusTableMembership<D>(dates: seq<D>, columns: seq<Column>, row: Row<D>)
    ensures row in StatusTable(dates, columns) <==>
      exists c :: c in columns && IsCpiKey(c.key) && row in ConnectionRows(dates, c)
  {
    TableRowsMembership(dates, CpiColumns(columns), row);
    CpiColumnsMembers(columns);
  }

  // ---------------------------------------------------------------------------
  // The loops as written

  /** Lines 45-46 as written: append one row per change to the table so far. */
  method AppendRows<D>(table: seq<Row<D>>, key: ConnKey, changes: seq<Change<D>>)
    returns (rows: seq<Row<D>>)
    ensures rows == table + Tag(key, changes)
  {
    rows := table;
    var m := 0;
    while m < |changes|
      invariant m <= |changes|
      invariant rows == table + Tag(key, changes[..m])
    {
      var change := changes[m];
      rows := rows + [Row(change.date, key.well, key.i, key.j, key.k, change.status)];
      assert changes[..m + 1][..m] == changes[..m];
      m := m + 1;
    }
    assert changes[..m] == changes;
  }

  /** Lines 30-48 as written: filter, then one pass over the CPI columns. */
  method Df<D>(dates: seq<D>, columns: seq<Column>) returns (rows: seq<Row<D>>)
    ensures rows == StatusTable(dates, columns)
    ensures |rows| == EventTotal(dates, CpiColumns(columns))
  {
    var cpi := CpiColumns(columns);
    ghost var blocks := Blocks(dates, cpi);
    rows := [];
    var n := 0;
    while n < |cpi|
      invariant n <= |cpi|
      invariant rows == Flatten(blocks[..n])
    {
      var col := cpi[n];
      var changes := GetStatusChanges(dates, col.values);
      rows := AppendRows(rows, KeyFields(col.key), changes);
      assert blocks[..n + 1] == blocks[..n] + [blocks[n]];
      FlattenSnoc(blocks[..n], blocks[n]);
      n := n + 1;
    }
    assert blocks[..n] == blocks;
    TableRowsCount(dates, cpi);
  }
}
