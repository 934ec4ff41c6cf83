/** The symbol freshness store: a single `stocks` table with `symbol` as its
 *  primary key and the `tested_at` time of the symbol's last screening.
 *
 *  The table is modelled as a map from symbol to timestamp (a primary key
 *  admits at most one row per symbol). Timestamps are microsecond ticks, the
 *  resolution at which the table stores them.
 */
module Database {
  import opened PyStr

  /** A point in time, in microseconds. */
  type Timestamp = int

  /** One row of the `stocks` table, as a read returns it. */
  datatype Row = Row(symbol: string, testedAt: Timestamp)

  /** What the database file holds before a manager connects to it: either no
   *  `stocks` table yet, or a table with its rows. */
  datatype DbFile = NoTable | StocksTable(stocks: map<string, Timestamp>)

  /** The rows a connection sees once `CREATE TABLE IF NOT EXISTS` has run. */
  function OpenedStocks(file: DbFile): map<string, Timestamp>
  {
    match file
    case NoTable => map[]
    case StocksTable(stocks) => stocks
  }

  /** `INSERT INTO stocks VALUES (symbol, testedAt)`, with the primary-key
   *  violation on a present symbol swallowed: an absent symbol gains exactly
   *  that row, a present one keeps its original timestamp. */
  function Inserted(m: map<string, Timestamp>, symbol: string, testedAt: Timestamp): (r: map<string, Timestamp>)
    ensures r.Keys == m.Keys + {symbol}
    ensures symbol !in m ==> r[symbol] == testedAt
    ensures forall k :: k in m ==> r[k] == m[k]
  {
    if symbol in m then m else m[symbol := testedAt]
  }

  /** `UPDATE stocks SET tested_at = testedAt WHERE symbol = symbol`: a present
   *  symbol gets the new timestamp; an absent one matches no row. */
  function Updated(m: map<string, Timestamp>, symbol: string, testedAt: Timestamp): (r: map<string, Timestamp>)
    ensures r.Keys == m.Keys
    ensures symbol in m ==> r[symbol] == testedAt
    ensures forall k :: k in m && k != symbol ==> r[k] == m[k]
  {
    if symbol in m then m[symbol := testedAt] else m
  }

  /** `DELETE FROM stocks WHERE symbol = symbol`. */
  function Deleted(m: map<string, Timestamp>, symbol: string): (r: map<string, Timestamp>)
    ensures r.Keys == m.Keys - {symbol}
    ensures forall k :: k in r ==> r[k] == m[k]
  {
    m - {symbol}
  }

  /** The symbols a refresh deletes: each entry of the `Symbol` column, stripped. */
  function StrippedSymbols(column: seq<string>): set<string>
  {
    set i | 0 <= i < |column| :: Strip(column[i])
  }

  /** Taking one more entry of the column adds its stripped symbol. */
  lemma StrippedSymbolsSnoc(column: seq<string>, i: nat)
    requires i < |column|
    ensures StrippedSymbols(column[..i + 1]) == StrippedSymbols(column[..i]) + {Strip(column[i])}
  {
    var longer, shorter := column[..i + 1], column[..i];
    var added := StrippedSymbols(shorter) + {Strip(column[i])};
    assert StrippedSymbols(longer) <= added by {
      forall x | x in StrippedSymbols(longer)
        ensures x in added
      {
        var j :| 0 <= j < i + 1 && Strip(longer[j]) == x;
        if j < i {
          assert shorter[j] == longer[j];
        }
      }
    }
    assert added <= StrippedSymbols(longer) by {
      forall x | x in StrippedSymbols(shorter)
        ensures x in StrippedSymbols(longer)
      {
        var j :| 0 <= j < i && Strip(shorter[j]) == x;
        assert longer[j] == shorter[j];
      }
      assert Strip(longer[i]) in StrippedSymbols(longer);
    }
  }

  /** Deleting one more symbol after removing a set removes the larger set. */
  lemma DeletedAfterRemoval(m: map<string, Timestamp>, removed: set<string>, symbol: string)
    ensures Deleted(m - removed, symbol) == m - (removed + {symbol})
  {
    assert Deleted(m - removed, symbol).Keys == (m - (removed + {symbol})).Keys;
  }

  /** The table after a refresh: every listed symbol (stripped) removed, every
   *  other row kept as it was. */
  function Refreshed(m: map<string, Timestamp>, column: seq<string>): (r: map<string, Timestamp>)
    ensures forall k :: k in r <==> k in m && (forall i :: 0 <= i < |column| ==> Strip(column[i]) != k)
    ensures forall k :: k in r ==> r[k] == m[k]
  {
    m - StrippedSymbols(column)
  }

  /** Refreshing with a column that lists every stored symbol empties the table. */
  lemma RefreshWithEverySymbolEmpties(m: map<string, Timestamp>, column: seq<string>)
    requires forall k :: k in m ==> exists i :: 0 <= i < |column| && Strip(column[i]) == k
    ensures Refreshed(m, column) == map[]
  {
  }

  /** The refresh scenario: three symbols inserted, then a refresh listing the
   *  same three leaves the table empty. */
  lemma RefreshAfterThreeInsertsEmpties(a: string, b: string, c: string, t1: Timestamp, t2: Timestamp, t3: Timestamp)
    requires Trimmed(a) && Trimmed(b) && Trimmed(c)
    ensures Refreshed(Inserted(Inserted(Inserted(map[], a, t1), b, t2), c, t3), [a, b, c]) == map[]
  {
    ThreeInsertedKeys(a, b, c, t1, t2, t3);
    ThreeStripped([a, b, c], Inserted(Inserted(Inserted(map[], a, t1), b, t2), c, t3));
  }

  lemma ThreeInsertedKeys(a: string, b: string, c: string, t1: Timestamp, t2: Timestamp, t3: Timestamp)
    ensures Inserted(Inserted(Inserted(map[], a, t1), b, t2), c, t3).Keys == {a, b, c}
  {
    assert {a} + {b} + {c} == {a, b, c};
  }

  lemma NoKeysIsEmpty(m: map<string, Timestamp>)
    requires m.Keys == {}
    ensures m == map[]
  {
  }

  lemma ThreeStripped(column: seq<string>, m: map<string, Timestamp>)
    requires |column| == 3
    requires Trimmed(column[0]) && Trimmed(column[1]) && Trimmed(column[2])
    requires m.Keys == {column[0], column[1], column[2]}
    ensures Refreshed(m, column) == map[]
  {
    StripKeepsTrimmed(column[0]);
    StripKeepsTrimmed(column[1]);
    StripKeepsTrimmed(column[2]);
    var listed := StrippedSymbols(column);
    assert column[0] in listed && column[1] in listed && column[2] in listed by {
      assert Strip(column[0]) in listed && Strip(column[1]) in listed && Strip(column[2]) in listed;
    }
    var left := m - listed;
    assert left.Keys == {};
    NoKeysIsEmpty(left);
    assert Refreshed(m, column) == left;
  }

  /** `rows` is a full scan of `m`: every row is a stored entry, no symbol is
   *  returned twice and every stored symbol is returned. The order is the
   *  database's own (no `ORDER BY`), so it is left open. */
  ghost predicate RowsOf(rows: seq<Row>, m: map<string, Timestamp>)
  {
    && (forall i :: 0 <= i < |rows| ==> rows[i].symbol in m && m[rows[i].symbol] == rows[i].testedAt)
    && (forall i, j :: 0 <= i < j < |rows| ==> rows[i].symbol != rows[j].symbol)
    && (forall k :: k in m ==> exists i :: 0 <= i < |rows| && rows[i].symbol == k)
  }

  /** A full scan returns exactly one row per stored symbol. */
  lemma {:induction false} RowsOfCount(rows: seq<Row>, m: map<string, Timestamp>)
    requires RowsOf(rows, m)
    ensures |rows| == |m|
    decreases |rows|
  {
    if |rows| == 0 {
      assert m.Keys == {};
    } else {
      var x := rows[0].symbol;
      var m' := m - {x};
      var rows' := rows[1..];
      forall k | k in m'
        ensures exists i :: 0 <= i < |rows'| && rows'[i].symbol == k
      {
        var i :| 0 <= i < |rows| && rows[i].symbol == k;
        assert i > 0;
        assert rows'[i - 1].symbol == k;
      }
      assert RowsOf(rows', m');
      RowsOfCount(rows', m');
      assert m'.Keys == m.Keys - {x};
      assert |m'.Keys| == |m.Keys| - 1;
    }
  }

  /** A manager of the `stocks` table over one connection. Every statement it
   *  runs is committed at once, so `stocks` is also what the file holds. */
  class DatabaseManager {
    /** Whether the `stocks` table exists on this connection. */
    var hasTable: bool
    /** The rows of the `stocks` table. */
    var stocks: map<string, Timestamp>

    /** Connects to `file` and creates the table if it is absent; the rows
     *  already in the file are all kept. */
    constructor Open(file: DbFile)
      ensures hasTable
      ensures file.StocksTable? ==> stocks == file.stocks
      ensures file.NoTable? ==> stocks == map[]
    {
      hasTable := file.StocksTable?;
      stocks := if file.StocksTable? then file.stocks else map[];
      new;
      CreateTable();
    }

    /** The database file as this connection has committed it. */
    function File(): DbFile
      reads this
    {
      if hasTable then StocksTable(stocks) else NoTable
    }

    /** `CREATE TABLE IF NOT EXISTS stocks`: an existing table keeps its rows. */
    method CreateTable()
      modifies this
      ensures hasTable
      ensures old(hasTable) ==> stocks == old(stocks)
      ensures !old(hasTable) ==> stocks == map[]
    {
      if !hasTable {
        hasTable := true;
        stocks := map[];
      }
    }

    /** Inserts a row; a symbol already present is left as it was. */
    method InsertData(symbol: string, testedAt: Timestamp)
      requires hasTable
      modifies this
      ensures hasTable
      ensures stocks == Inserted(old(stocks), symbol, testedAt)
    {
      if symbol !in stocks {
        stocks := stocks[symbol := testedAt];
      }
    }

    /** Sets the timestamp of a present symbol; does nothing otherwise. */
    method UpdateData(symbol: string, testedAt: Timestamp)
      requires hasTable
      modifies this
      ensures hasTable
      ensures stocks == Updated(old(stocks), symbol, testedAt)
    {
      if symbol in stocks {
        stocks := stocks[symbol := testedAt];
      }
    }

    /** Deletes the row of `symbol`, if there is one. */
    method DeleteData(symbol: string)
      requires hasTable
      modifies this
      ensures hasTable
      ensures stocks == Deleted(old(stocks), symbol)
    {
      stocks := stocks - {symbol};
    }

    /** Reads the row of `symbol`, or every row when `symbol` is empty (the
     *  source's falsy argument, `None` or `""`). */
    method ReadData(symbol: string) returns (rows: seq<Row>)
      requires hasTable
      ensures symbol != "" ==> rows == if symbol in stocks then [Row(symbol, stocks[symbol])] else []
      ensures symbol == "" ==> RowsOf(rows, stocks)
    {
      if symbol != "" {
        rows := if symbol in stocks then [Row(symbol, stocks[symbol])] else [];
        return;
      }
      rows := [];
      var rest := stocks.Keys;
      while rest != {}
        invariant rest <= stocks.Keys
        invariant forall i :: 0 <= i < |rows| ==> rows[i].symbol in stocks && rows[i].symbol !in rest && stocks[rows[i].symbol] == rows[i].testedAt
        invariant forall i, j :: 0 <= i < j < |rows| ==> rows[i].symbol != rows[j].symbol
        invariant forall k :: k in stocks && k !in rest ==> exists i :: 0 <= i < |rows| && rows[i].symbol == k
        decreases |rest|
      {
        var k :| k in rest;
        ghost var prev := rows;
        rows := rows + [Row(k, stocks[k])];
        assert forall i :: 0 <= i < |prev| ==> rows[i] == prev[i];
        assert rows[|prev|].symbol == k;
        rest := rest - {k};
      }
    }

    /** Opens the file, deletes the row of every symbol in the `Symbol` column
     *  (after stripping it) and returns the file as left behind. */
    static method Refresh(column: seq<string>, file: DbFile) returns (after: DbFile)
      ensures after == StocksTable(Refreshed(OpenedStocks(file), column))
    {
      var db := new DatabaseManager.Open(file);
      ghost var initial := db.stocks;
      assert initial == OpenedStocks(file);
      for i := 0 to |column|
        invariant db.hasTable
        invariant db.stocks == initial - StrippedSymbols(column[..i])
      {
        DeletedAfterRemoval(initial, StrippedSymbols(column[..i]), Strip(column[i]));
        db.DeleteData(Strip(column[i]));
        StrippedSymbolsSnoc(column, i);
      }
      assert column[..|column|] == column;
      assert db.stocks == Refreshed(initial, column);
      after := db.File();
    }
  }

  /** Leaving a manager and entering a new one on the same file gives back
   *  every row and its timestamp: the second connection's
   *  `CREATE TABLE IF NOT EXISTS` finds the table and keeps it. */
  method ReopenKeepsRows(db: DatabaseManager) returns (again: DatabaseManager)
    requires db.hasTable
    ensures again.hasTable
    ensures again.stocks == db.stocks
  {
    again := new DatabaseManager.Open(db.File());
  }
}
