/**
 * One refresh of the dashboard: resolve the list, skip the fetch when the
 * list is empty, otherwise build the rows and order them by symbol for
 * display.
 */
module Display {
  import opened Wrappers
  import opened Text
  import opened Seqs
  import opened Tickers
  import opened Quotes

  // ---------------------------------------------------------------------
  // Ordering by symbol
  // ---------------------------------------------------------------------

  /** Python's `a <= b` on `str`: lexicographic order of code points, a
      prefix coming first. */
  predicate SymbolLe(a: string, b: string) {
    a == [] || (b != [] && (a[0] < b[0] || (a[0] == b[0] && SymbolLe(a[1..], b[1..]))))
  }

  /** Any two symbols are comparable. */
  lemma {:induction false} SymbolLeTotal(a: string, b: string)
    ensures SymbolLe(a, b) || SymbolLe(b, a)
  {
    if a != [] && b != [] && a[0] == b[0] {
      SymbolLeTotal(a[1..], b[1..]);
    }
  }

  /** The order is transitive. */
  lemma {:induction false} SymbolLeTransitive(a: string, b: string, c: string)
    requires SymbolLe(a, b) && SymbolLe(b, c)
    ensures SymbolLe(a, c)
  {
    if a != [] && a[0] == b[0] && b[0] == c[0] {
      SymbolLeTransitive(a[1..], b[1..], c[1..]);
    }
  }

  /** Two symbols each below the other are equal. */
  lemma {:induction false} SymbolLeAntisymmetric(a: string, b: string)
    requires SymbolLe(a, b) && SymbolLe(b, a)
    ensures a == b
  {
    if a != [] {
      SymbolLeAntisymmetric(a[1..], b[1..]);
      assert a == [a[0]] + a[1..] && b == [b[0]] + b[1..];
    }
  }

  /** The symbol of a row. */
  function SymbolOf(row: Row): (symbol: string) {
    row.symbol
  }

  /** The symbol column of a table. */
  function SymbolColumn(rows: seq<Row>): (column: seq<string>)
    ensures |column| == |rows|
    ensures forall k {:trigger column[k]} :: 0 <= k < |rows| ==> column[k] == rows[k].symbol
  {
    MapSeq(SymbolOf, rows)
  }

  /** Names in non-decreasing order. */
  predicate SortedNames(s: seq<string>) {
    forall i, j {:trigger SymbolLe(s[i], s[j])} :: 0 <= i < j < |s| ==> SymbolLe(s[i], s[j])
  }

  /** Rows in non-decreasing order of their symbol column. */
  predicate SortedBySymbol(rows: seq<Row>) {
    SortedNames(SymbolColumn(rows))
  }

  /** A row below every row of a sorted table can go in front of it. */
  lemma SortedCons(row: Row, sorted: seq<Row>)
    requires SortedBySymbol(sorted)
    requires forall x | x in sorted :: SymbolLe(row.symbol, x.symbol)
    ensures SortedBySymbol([row] + sorted)
  {
    var r := [row] + sorted;
    var c, cs := SymbolColumn(r), SymbolColumn(sorted);
    forall i, j | 0 <= i < j < |r| ensures SymbolLe(c[i], c[j]) {
      assert r[j] == sorted[j - 1] && c[j] == cs[j - 1];
      if i > 0 {
        assert c[i] == cs[i - 1];
      }
    }
  }

  /** A row below the first of a sorted table is below all of it. */
  lemma BelowFirst(row: Row, sorted: seq<Row>)
    requires SortedBySymbol(sorted) && sorted != []
    requires SymbolLe(row.symbol, sorted[0].symbol)
    ensures forall x | x in sorted :: SymbolLe(row.symbol, x.symbol)
  {
    forall x | x in sorted ensures SymbolLe(row.symbol, x.symbol) {
      var j :| 0 <= j < |sorted| && sorted[j] == x;
      if j > 0 {
        var c := SymbolColumn(sorted);
        assert SymbolLe(c[0], c[j]);
        SymbolLeTransitive(row.symbol, sorted[0].symbol, x.symbol);
      }
    }
  }

  /** The first of a sorted table is below all of the rest. */
  lemma FirstBelowRest(sorted: seq<Row>)
    requires SortedBySymbol(sorted) && sorted != []
    ensures SortedBySymbol(sorted[1..])
    ensures forall x | x in sorted[1..] :: SymbolLe(sorted[0].symbol, x.symbol)
  {
    var t := sorted[1..];
    var c, ct := SymbolColumn(sorted), SymbolColumn(t);
    forall i, j | 0 <= i < j < |t| ensures SymbolLe(ct[i], ct[j]) {
      assert ct[i] == c[i + 1] && ct[j] == c[j + 1];
    }
    forall x | x in t ensures SymbolLe(sorted[0].symbol, x.symbol) {
      var j :| 0 <= j < |t| && t[j] == x;
      assert sorted[j + 1] == x && SymbolLe(c[0], c[j + 1]);
    }
  }

  /** A symbol below every row of a table is below every row of any table
      holding the same rows. */
  lemma AboveAllOfSameRows(symbol: string, t1: seq<Row>, t2: seq<Row>)
    requires forall x | x in t1 :: SymbolLe(symbol, x.symbol)
    requires multiset(t1) == multiset(t2)
    ensures forall x | x in t2 :: SymbolLe(symbol, x.symbol)
  {
    forall x | x in t2 ensures SymbolLe(symbol, x.symbol) {
      assert x in multiset(t2);
      assert x in t1;
    }
  }

  /** Puts one row into a sorted table, before the first row whose symbol
      is not below it. */
  function InsertBySymbol(row: Row, sorted: seq<Row>): (r: seq<Row>)
    requires SortedBySymbol(sorted)
    ensures SortedBySymbol(r)
    ensures multiset(r) == multiset(sorted) + multiset{row}
  {
    if sorted == [] then
      SortedCons(row, []);
      [row]
    else if SymbolLe(row.symbol, sorted[0].symbol) then
      BelowFirst(row, sorted);
      SortedCons(row, sorted);
      [row] + sorted
    else
      FirstBelowRest(sorted);
      var rest := InsertBySymbol(row, sorted[1..]);
      SymbolLeTotal(row.symbol, sorted[0].symbol);
      HeadTail(sorted);
      AboveAllOfSameRows(sorted[0].symbol, sorted[1..] + [row], rest);
      SortedCons(sorted[0], rest);
      [sorted[0]] + rest
  }

  /** The table ordered by symbol: sorted, and the same rows with the same
      multiplicities. */
  function SortBySymbol(rows: seq<Row>): (sorted: seq<Row>)
    ensures SortedBySymbol(sorted)
    ensures multiset(sorted) == multiset(rows)
  {
    if rows == [] then []
    else
      assert rows == [rows[0]] + rows[1..];
      InsertBySymbol(rows[0], SortBySymbol(rows[1..]))
  }

  /** The display step `df.sort_values(by=symbol)`, taken only when the table
      is non-empty (an empty frame has no symbol column): the result has the
      same rows, ordered by symbol. */
  function DisplayTable(rows: seq<Row>): (table: seq<Row>)
    ensures |table| == |rows|
    ensures SortedBySymbol(table)
    ensures multiset(table) == multiset(rows)
  {
    if rows != [] then
      var sorted := SortBySymbol(rows);
      assert |sorted| == |multiset(sorted)| == |multiset(rows)| == |rows|;
      sorted
    else rows
  }

  // ---------------------------------------------------------------------
  // The symbol column of a sorted table does not depend on the sort
  // ---------------------------------------------------------------------

  /** Every symbol is below itself. */
  lemma {:induction false} SymbolLeReflexive(a: string)
    ensures SymbolLe(a, a)
  {
    if a != [] {
      SymbolLeReflexive(a[1..]);
    }
  }

  /** Tables holding the same rows hold the same symbols. */
  lemma SymbolColumnMultiset(t1: seq<Row>, t2: seq<Row>)
    requires multiset(t1) == multiset(t2)
    ensures multiset(SymbolColumn(t1)) == multiset(SymbolColumn(t2))
  {
    MapSeqMultiset(SymbolOf, t1, t2);
  }

  /** The first of a sorted list of names is below all of them. */
  lemma SortedHeadLeast(s: seq<string>, v: string)
    requires SortedNames(s) && v in s
    ensures SymbolLe(s[0], v)
  {
    var i :| 0 <= i < |s| && s[i] == v;
    if i == 0 {
      SymbolLeReflexive(v);
    }
  }

  /** The tail of a sorted list of names is sorted. */
  lemma SortedNamesTail(s: seq<string>)
    requires SortedNames(s) && s != []
    ensures SortedNames(s[1..])
  {
    forall i, j | 0 <= i < j < |s| - 1 ensures SymbolLe(s[1..][i], s[1..][j]) {
      assert s[1..][i] == s[i + 1] && s[1..][j] == s[j + 1];
    }
  }

  /** Two sorted lists of the same names start with the same name. */
  lemma SortedHeadsAgree(s1: seq<string>, s2: seq<string>)
    requires SortedNames(s1) && SortedNames(s2) && s1 != [] && s2 != []
    requires multiset(s1) == multiset(s2)
    ensures s1[0] == s2[0]
  {
    assert s2[0] in multiset(s1) && s1[0] in multiset(s2);
    SortedHeadLeast(s1, s2[0]);
    SortedHeadLeast(s2, s1[0]);
    SymbolLeAntisymmetric(s1[0], s2[0]);
  }

  /** Two sorted lists of the same names are the same list. */
  lemma {:induction false} SortedNamesUnique(s1: seq<string>, s2: seq<string>)
    requires SortedNames(s1) && SortedNames(s2)
    requires multiset(s1) == multiset(s2)
    ensures s1 == s2
    decreases |s1|
  {
    assert |s1| == |multiset(s1)| == |multiset(s2)| == |s2|;
    if s1 != [] {
      SortedHeadsAgree(s1, s2);
      HeadTail(s1);
      HeadTail(s2);
      SortedNamesTail(s1);
      SortedNamesTail(s2);
      SortedNamesUnique(s1[1..], s2[1..]);
    }
  }

  /** The order the sort leaves rows with equal symbols in is not specified,
      but the symbol column of the displayed table is: any two sorted
      tables holding the same rows show the same symbols in the same order. */
  lemma SortedSymbolColumnUnique(t1: seq<Row>, t2: seq<Row>)
    requires SortedBySymbol(t1) && SortedBySymbol(t2)
    requires multiset(t1) == multiset(t2)
    ensures SymbolColumn(t1) == SymbolColumn(t2)
  {
    SymbolColumnMultiset(t1, t2);
    SortedNamesUnique(SymbolColumn(t1), SymbolColumn(t2));
  }

  /** Rows for "AAPL", "GOOG" and "MSFT", in that order, are sorted. */
  lemma ExampleTableSorted(a: Row, b: Row, c: Row)
    requires a.symbol == "AAPL" && b.symbol == "GOOG" && c.symbol == "MSFT"
    ensures SortedBySymbol([a, b, c])
    ensures SymbolColumn([a, b, c]) == ["AAPL", "GOOG", "MSFT"]
  {
    assert SymbolLe("AAPL", "GOOG") && SymbolLe("GOOG", "MSFT");
    SymbolLeTransitive("AAPL", "GOOG", "MSFT");
  }

  /** Rows for "MSFT", "AAPL" and "GOOG", whatever their shapes, are
      displayed as "AAPL", "GOOG", "MSFT". */
  lemma DisplayOrderExample(rows: seq<Row>)
    requires |rows| == 3
    requires rows[0].symbol == "MSFT" && rows[1].symbol == "AAPL" && rows[2].symbol == "GOOG"
    ensures SymbolColumn(DisplayTable(rows)) == ["AAPL", "GOOG", "MSFT"]
  {
    ExampleTableSorted(rows[1], rows[2], rows[0]);
    assert rows == [rows[0], rows[1], rows[2]];
    assert multiset([rows[1], rows[2], rows[0]]) == multiset(rows);
    SortedSymbolColumnUnique(DisplayTable(rows), [rows[1], rows[2], rows[0]]);
  }

  // ---------------------------------------------------------------------
  // One refresh
  // ---------------------------------------------------------------------

  /** A letter-only upper-case symbol is already in queried form. */
  lemma LetterSymbolNormalized(x: string)
    requires IsLetterSymbol(x)
    ensures Normalize(x) == x
  {
    StripTrimmed(x);
    assert Upper(x) == x;
  }

  /** The default list is queried as written, duplicates included: 95 rows,
      two of them for "IBM". */
  lemma DefaultRowsKeepDuplicates(outcomes: seq<FetchOutcome>)
    requires |outcomes| == |DefaultTickers|
    ensures |Rows(DefaultTickers, outcomes)| == 95
    ensures Rows(DefaultTickers, outcomes)[27].symbol == "IBM"
    ensures Rows(DefaultTickers, outcomes)[92].symbol == "IBM"
  {
    DefaultTickersParse();
    DefaultLinesAreLetters();
    assert AllLetterSymbols(DefaultTickers);
    forall k | 0 <= k < |DefaultTickers|
      ensures DefaultTickers[k] != "" && Normalize(DefaultTickers[k]) == DefaultTickers[k]
    {
      assert IsLetterSymbol(DefaultTickers[k]);
      LetterSymbolNormalized(DefaultTickers[k]);
    }
    SymbolsOfNormalized(DefaultTickers);
    RowsMatchSymbols(DefaultTickers, outcomes);
  }

  /** One run of the script: resolve the list; when it is empty show the
      warning instead of a table (`None`), otherwise fetch one outcome per
      entry, build the rows and show them ordered by symbol. */
  method RefreshDashboard(sheetUrl: string, inputs: Inputs, outcomes: seq<FetchOutcome>)
    returns (table: Option<seq<Row>>)
    requires |outcomes| == |ResolveTickers(sheetUrl, inputs).tickers|
    ensures table.None? <==> ResolveTickers(sheetUrl, inputs).tickers == []
    ensures sheetUrl != "" ==> table.Some?
    ensures table.Some? ==> SortedBySymbol(table.value)
    ensures table.Some? ==>
              multiset(table.value) == multiset(Rows(ResolveTickers(sheetUrl, inputs).tickers, outcomes))
    ensures table.Some? ==> |table.value| == |Symbols(ResolveTickers(sheetUrl, inputs).tickers)|
  {
    var resolution := ResolveTickers(sheetUrl, inputs);
    var finalTickers := resolution.tickers;
    if finalTickers != [] {
      var rows := GetStockData(finalTickers, outcomes);
      var shown := if rows != [] then SortBySymbol(rows) else rows;
      assert shown == DisplayTable(rows);
      table := Some(shown);
    } else {
      table := None;
    }
  }
}
