/**
 * The batch record builder `get_stock_data`: one row per non-blank ticker
 * entry, each row isolated from the others' failures.  The market-data
 * provider is abstracted as one outcome per entry of the list.
 */
module Quotes {
  import opened Wrappers
  import opened Text
  import opened Seqs

  /** One trading day of price history, prices in cents. */
  datatype Bar = Bar(low: int, high: int, close: int)

  /** The fundamentals lookup: it raised, or it gave the optional trailing
      and forward P/E ratios (in hundredths). */
  datatype InfoOutcome = InfoFailed | Info(trailingPE: Option<int>, forwardPE: Option<int>)

  /** What the provider does for one symbol: the history lookup raised, or
      it gave a (possibly empty) one-year history, after which the
      fundamentals lookup has its own outcome. */
  datatype FetchOutcome = HistoryFailed | Provided(history: seq<Bar>, info: InfoOutcome)

  /** A P/E cell: a ratio, or the literal "N/A". */
  datatype RatioCell = Ratio(hundredths: int) | NotAvailable

  /** The three row shapes: only the symbol and a note for "no history" and
      "fetch failed", every field for a successful fetch. */
  datatype Row =
    | NoHistoryRow(symbol: string)
    | FailedRow(symbol: string)
    | QuoteRow(symbol: string, low: int, high: int, price: int, trailingPE: RatioCell, forwardPE: RatioCell)

  const NoHistoryNote: string := "查無歷史股價"
  const FetchFailedNote: string := "抓取失敗"

  /** The row's error column: empty exactly for the rows that carry prices. */
  function Note(row: Row): (note: string)
    ensures note == "" <==> row.QuoteRow?
    ensures note == NoHistoryNote <==> row.NoHistoryRow?
    ensures note == FetchFailedNote <==> row.FailedRow?
  {
    match row
    case NoHistoryRow(_) => NoHistoryNote
    case FailedRow(_) => FetchFailedNote
    case QuoteRow(_, _, _, _, _, _) => ""
  }

  /** `hist['Low'].min()`: the lowest daily low, attained on some day. */
  function LowestLow(history: seq<Bar>): (m: int)
    requires history != []
    ensures forall k :: 0 <= k < |history| ==> m <= history[k].low
    ensures exists k :: 0 <= k < |history| && m == history[k].low
  {
    if |history| == 1 then history[0].low
    else
      var rest := LowestLow(history[1..]);
      if history[0].low <= rest then history[0].low else rest
  }

  /** `hist['High'].max()`: the highest daily high, attained on some day. */
  function HighestHigh(history: seq<Bar>): (m: int)
    requires history != []
    ensures forall k :: 0 <= k < |history| ==> history[k].high <= m
    ensures exists k :: 0 <= k < |history| && m == history[k].high
  {
    if |history| == 1 then history[0].high
    else
      var rest := HighestHigh(history[1..]);
      if rest <= history[0].high then history[0].high else rest
  }

  /** `round(pe, 2) if pe else "N/A"`: an absent or zero ratio (both falsy
      in Python) is shown as "N/A", any other as itself. */
  function RatioOf(pe: Option<int>): (cell: RatioCell)
    ensures cell == NotAvailable <==> pe.None? || pe.value == 0
    ensures cell.Ratio? ==> pe == Some(cell.hundredths)
  {
    if pe.Some? && pe.value != 0 then Ratio(pe.value) else NotAvailable
  }

  /** The row recorded for one non-blank symbol, by what the provider did. */
  function RowFor(symbol: string, outcome: FetchOutcome): (row: Row)
    ensures row.symbol == symbol
    ensures row.NoHistoryRow? <==> outcome.Provided? && outcome.history == []
    ensures row.FailedRow? <==>
            outcome.HistoryFailed? || (outcome.Provided? && outcome.history != [] && outcome.info.InfoFailed?)
    ensures row.QuoteRow? ==>
            && outcome.Provided? && outcome.history != [] && outcome.info.Info?
            && (forall k :: 0 <= k < |outcome.history| ==> row.low <= outcome.history[k].low)
            && (exists k :: 0 <= k < |outcome.history| && row.low == outcome.history[k].low)
            && (forall k :: 0 <= k < |outcome.history| ==> outcome.history[k].high <= row.high)
            && (exists k :: 0 <= k < |outcome.history| && row.high == outcome.history[k].high)
            && row.price == outcome.history[|outcome.history| - 1].close
            && row.trailingPE == RatioOf(outcome.info.trailingPE)
            && row.forwardPE == RatioOf(outcome.info.forwardPE)
  {
    match outcome
    case HistoryFailed => FailedRow(symbol)
    case Provided(history, info) =>
      if history == [] then NoHistoryRow(symbol)
      else
        match info
        case InfoFailed => FailedRow(symbol)
        case Info(trailing, forward) =>
          QuoteRow(symbol, LowestLow(history), HighestHigh(history), history[|history| - 1].close,
                   RatioOf(trailing), RatioOf(forward))
  }

  /** Every entry stripped and upper-cased, blank ones becoming "". */
  function NormalizeAll(tickers: seq<string>): (names: seq<string>) {
    MapSeq(Normalize, tickers)
  }

  /** The non-empty names, in order. */
  function NonEmpty(names: seq<string>): (kept: seq<string>)
    ensures |kept| <= |names|
    ensures forall k :: 0 <= k < |kept| ==> kept[k] in names && kept[k] != ""
  {
    if names == [] then []
    else
      var n := |names| - 1;
      NonEmpty(names[..n]) + (if names[n] == "" then [] else [names[n]])
  }

  /** The symbols that get a row: each entry stripped and upper-cased, blank
      ones left out, duplicates kept, in input order. */
  function Symbols(tickers: seq<string>): (symbols: seq<string>) {
    NonEmpty(NormalizeAll(tickers))
  }

  /** What one normalized name contributes: no row for "", its row otherwise. */
  function RowOrNone(name: string, outcome: FetchOutcome): (rows: seq<Row>) {
    if name == "" then [] else [RowFor(name, outcome)]
  }

  /** The rows for a list of normalized names, built from the front. */
  function RowsOf(names: seq<string>, outcomes: seq<FetchOutcome>): (rows: seq<Row>)
    requires |outcomes| == |names|
  {
    if names == [] then []
    else
      var n := |names| - 1;
      RowsOf(names[..n], outcomes[..n]) + RowOrNone(names[n], outcomes[n])
  }

  /** The rows `get_stock_data` builds (see RowsMatchSymbols and RowOfEntry). */
  function Rows(tickers: seq<string>, outcomes: seq<FetchOutcome>): (rows: seq<Row>)
    requires |outcomes| == |tickers|
  {
    RowsOf(NormalizeAll(tickers), outcomes)
  }

  /** One row per non-empty name, carrying that name, in order. */
  lemma {:induction false} RowsOfMatch(names: seq<string>, outcomes: seq<FetchOutcome>)
    requires |outcomes| == |names|
    ensures |RowsOf(names, outcomes)| == |NonEmpty(names)|
    ensures forall k :: 0 <= k < |NonEmpty(names)| ==> RowsOf(names, outcomes)[k].symbol == NonEmpty(names)[k]
  {
    if names != [] {
      var n := |names| - 1;
      RowsOfMatch(names[..n], outcomes[..n]);
    }
  }

  /** One row per symbol of Symbols(tickers), carrying that symbol, in the
      same order: blank entries give no row, every other entry exactly one. */
  lemma RowsMatchSymbols(tickers: seq<string>, outcomes: seq<FetchOutcome>)
    requires |outcomes| == |tickers|
    ensures |Rows(tickers, outcomes)| == |Symbols(tickers)|
    ensures forall k :: 0 <= k < |Symbols(tickers)| ==> Rows(tickers, outcomes)[k].symbol == Symbols(tickers)[k]
  {
    RowsOfMatch(NormalizeAll(tickers), outcomes);
  }

  /** Unfolds RowsOf once, given the prefix and the last contribution. */
  lemma RowsOfUnfold(names: seq<string>, outcomes: seq<FetchOutcome>,
                     front: seq<string>, frontOutcomes: seq<FetchOutcome>, last: seq<Row>)
    requires |outcomes| == |names| && names != []
    requires front == names[..|names| - 1] && frontOutcomes == outcomes[..|names| - 1]
    requires last == RowOrNone(names[|names| - 1], outcomes[|names| - 1])
    ensures RowsOf(names, outcomes) == RowsOf(front, frontOutcomes) + last
  {
  }

  /** The rows of two consecutive stretches of names are the rows of each
      stretch, one after the other. */
  lemma {:induction false} RowsOfAppend(n1: seq<string>, o1: seq<FetchOutcome>, n2: seq<string>, o2: seq<FetchOutcome>)
    requires |o1| == |n1| && |o2| == |n2|
    ensures RowsOf(n1 + n2, o1 + o2) == RowsOf(n1, o1) + RowsOf(n2, o2)
  {
    if n2 == [] {
      assert n1 + n2 == n1 && o1 + o2 == o1;
    } else {
      var n := |n2| - 1;
      var last := RowOrNone(n2[n], o2[n]);
      RowsOfUnfold(n1 + n2, o1 + o2, n1 + n2[..n], o1 + o2[..n], last) by {
        AppendTake(n1, n2, n);
        AppendTake(o1, o2, n);
        AppendLast(n1, n2);
        AppendLast(o1, o2);
      }
      RowsOfAppend(n1, o1, n2[..n], o2[..n]);
      AppendAssoc(RowsOf(n1, o1), RowsOf(n2[..n], o2[..n]), last);
    }
  }

  /** The batch builds its rows entry by entry: the rows for two consecutive
      stretches of the ticker list are the rows of each stretch, one after the other. */
  lemma RowsAppend(t1: seq<string>, o1: seq<FetchOutcome>, t2: seq<string>, o2: seq<FetchOutcome>)
    requires |o1| == |t1| && |o2| == |t2|
    ensures Rows(t1 + t2, o1 + o2) == Rows(t1, o1) + Rows(t2, o2)
  {
    MapSeqAppend(Normalize, t1, t2);
    RowsOfAppend(NormalizeAll(t1), o1, NormalizeAll(t2), o2);
  }

  /** One more entry adds its row, or nothing when its name is empty. */
  lemma RowsOfStep(names: seq<string>, outcomes: seq<FetchOutcome>, i: nat)
    requires |outcomes| == |names| && i < |names|
    ensures RowsOf(names[..i + 1], outcomes[..i + 1]) ==
            RowsOf(names[..i], outcomes[..i]) + RowOrNone(names[i], outcomes[i])
  {
    assert names[..i + 1][..i] == names[..i] && outcomes[..i + 1][..i] == outcomes[..i];
  }

  /** The row of a non-empty name sits at the position given by the number
      of non-empty names before it. */
  lemma RowsOfAt(names: seq<string>, outcomes: seq<FetchOutcome>, i: nat)
    requires |outcomes| == |names| && i < |names|
    requires names[i] != ""
    ensures |NonEmpty(names[..i])| < |RowsOf(names, outcomes)|
    ensures RowsOf(names, outcomes)[|NonEmpty(names[..i])|] == RowFor(names[i], outcomes[i])
  {
    RowsOfMatch(names[..i], outcomes[..i]);
    RowsOfStep(names, outcomes, i);
    RowsOfAppend(names[..i + 1], outcomes[..i + 1], names[i + 1..], outcomes[i + 1..]);
    TakeDrop(names, i + 1);
    TakeDrop(outcomes, i + 1);
  }

  /** A single entry gives no row when it is blank and otherwise the row its
      outcome calls for, under its stripped, upper-cased symbol.  With
      RowsAppend this determines the rows of every list. */
  lemma RowsOfOne(ticker: string, outcome: FetchOutcome)
    ensures Rows([ticker], [outcome]) ==
            if IsBlank(ticker) then [] else [RowFor(Normalize(ticker), outcome)]
  {
    NormalizeFacts(ticker);
    var names := NormalizeAll([ticker]);
    assert names == [Normalize(ticker)];
    assert names[..0] == [] && [outcome][..0] == [];
    assert RowsOf(names, [outcome]) == RowsOf([], []) + (if names[0] == "" then [] else [RowFor(names[0], outcome)]);
  }

  /** Entry `i` of a non-blank ticker gets the row its outcome calls for, at
      the position given by the number of non-blank entries before it. */
  lemma RowOfEntry(tickers: seq<string>, outcomes: seq<FetchOutcome>, i: nat)
    requires |outcomes| == |tickers| && i < |tickers|
    requires !IsBlank(tickers[i])
    ensures |Symbols(tickers[..i])| < |Rows(tickers, outcomes)|
    ensures Rows(tickers, outcomes)[|Symbols(tickers[..i])|] == RowFor(Normalize(tickers[i]), outcomes[i])
  {
    var names := NormalizeAll(tickers);
    MapSeqPrefix(Normalize, tickers, i);
    NormalizeFacts(tickers[i]);
    assert names[i] == Normalize(tickers[i]);
    RowsOfAt(names, outcomes, i);
  }

  /** Entries already in normalized form are their own symbols: every such
      entry gets a row, duplicates included. */
  lemma SymbolsOfNormalized(tickers: seq<string>)
    requires forall k :: 0 <= k < |tickers| ==> tickers[k] != "" && Normalize(tickers[k]) == tickers[k]
    ensures Symbols(tickers) == tickers
  {
    assert NormalizeAll(tickers) == tickers;
    NonEmptyOfNonEmpty(tickers);
  }

  /** A list without empty names keeps all of them. */
  lemma {:induction false} NonEmptyOfNonEmpty(names: seq<string>)
    requires forall k :: 0 <= k < |names| ==> names[k] != ""
    ensures NonEmpty(names) == names
  {
    if names != [] {
      var n := |names| - 1;
      NonEmptyOfNonEmpty(names[..n]);
      assert names[..n] + [names[n]] == names;
    }
  }

  /** `get_stock_data`: walks the list in order, normalizes each entry, skips
      the blank ones, and appends one row per remaining entry according to
      what the provider did for it (`outcomes[i]` for entry `i`). */
  method GetStockData(tickers: seq<string>, outcomes: seq<FetchOutcome>) returns (rows: seq<Row>)
    requires |outcomes| == |tickers|
    ensures rows == Rows(tickers, outcomes)
    ensures |rows| == |Symbols(tickers)|
    ensures forall k :: 0 <= k < |rows| ==> rows[k].symbol == Symbols(tickers)[k]
  {
    ghost var names := NormalizeAll(tickers);
    rows := [];
    for i := 0 to |tickers|
      invariant rows == RowsOf(names[..i], outcomes[..i])
    {
      RowsOfStep(names, outcomes, i);
      var symbol := Normalize(tickers[i]);
      if symbol == "" {
        continue;
      }
      ghost var expected := RowFor(symbol, outcomes[i]);
      match outcomes[i]
      case HistoryFailed =>
        assert expected == FailedRow(symbol);
        rows := rows + [FailedRow(symbol)];
      case Provided(history, info) =>
        if history == [] {
          assert expected == NoHistoryRow(symbol);
          rows := rows + [NoHistoryRow(symbol)];
          continue;
        }
        var low := LowestLow(history);
        var high := HighestHigh(history);
        var price := history[|history| - 1].close;
        match info
        case InfoFailed =>
          assert expected == FailedRow(symbol);
          rows := rows + [FailedRow(symbol)];
        case Info(trailing, forward) =>
          assert expected == QuoteRow(symbol, low, high, price, RatioOf(trailing), RatioOf(forward));
          rows := rows + [QuoteRow(symbol, low, high, price, RatioOf(trailing), RatioOf(forward))];
    }
    TakeAll(names);
    TakeAll(outcomes);
    RowsMatchSymbols(tickers, outcomes);
  }
}
