/**
 * Resolving the active ticker list: the comma-separated text parser, the
 * filter applied to the spreadsheet column, the embedded default list, and
 * the choice between the spreadsheet, the default list and the user's text.
 */
module Tickers {
  import opened Wrappers
  import opened Text
  import opened Seqs

  // ---------------------------------------------------------------------
  // Comma-separated text: [t.strip() for t in text.split(',') if t.strip()]
  // ---------------------------------------------------------------------

  /** An entry as the comma parser produces it: non-empty, trimmed, comma-free. */
  predicate WellFormedEntry(x: string) {
    x != "" && IsTrimmed(x) && ',' !in x
  }

  /** Strips every piece and keeps the non-blank results, in order. */
  function KeepStripped(pieces: seq<string>): (kept: seq<string>)
    ensures |kept| <= |pieces|
    ensures forall k :: 0 <= k < |kept| ==> kept[k] != "" && IsTrimmed(kept[k])
  {
    if pieces == [] then []
    else
      var head := Strip(pieces[0]);
      (if head == "" then [] else [head]) + KeepStripped(pieces[1..])
  }

  /** Keeping stripped pieces works piece by piece: the result for a
      concatenation is the concatenation of the results. */
  lemma {:induction false} KeepStrippedAppend(a: seq<string>, b: seq<string>)
    ensures KeepStripped(a + b) == KeepStripped(a) + KeepStripped(b)
  {
    if a != [] {
      AppendTail(a, b);
      KeepStrippedAppend(a[1..], b);
    } else {
      assert a + b == b;
    }
  }

  /** An entry is kept exactly when it is the non-empty strip of some piece. */
  lemma {:induction false} KeepStrippedMember(pieces: seq<string>, x: string)
    ensures x in KeepStripped(pieces) <==> x != "" && exists k :: 0 <= k < |pieces| && Strip(pieces[k]) == x
  {
    if pieces != [] {
      KeepStrippedMember(pieces[1..], x);
      if x != "" && (exists k :: 0 <= k < |pieces| && Strip(pieces[k]) == x) {
        var k :| 0 <= k < |pieces| && Strip(pieces[k]) == x;
        if k > 0 {
          assert Strip(pieces[1..][k - 1]) == x;
        }
      }
      if exists k :: 0 <= k < |pieces[1..]| && Strip(pieces[1..][k]) == x {
        var k :| 0 <= k < |pieces[1..]| && Strip(pieces[1..][k]) == x;
        assert Strip(pieces[k + 1]) == x;
      }
    }
  }

  /** The ticker list typed as comma-separated text (app.py lines 115 and 134):
      every entry is non-empty, trimmed and free of commas. */
  function ParseCommaList(text: string): (tickers: seq<string>)
    ensures forall k :: 0 <= k < |tickers| ==> WellFormedEntry(tickers[k])
  {
    var pieces := Split(text, ',');
    KeepStrippedFree(pieces, ',');
    KeepStripped(pieces)
  }

  /** Stripping adds no character, so pieces free of `c` give entries free of `c`. */
  lemma KeepStrippedFree(pieces: seq<string>, c: char)
    requires forall k :: 0 <= k < |pieces| ==> c !in pieces[k]
    ensures forall k :: 0 <= k < |KeepStripped(pieces)| ==> c !in KeepStripped(pieces)[k]
  {
    var kept := KeepStripped(pieces);
    forall k | 0 <= k < |kept| ensures c !in kept[k] {
      KeepStrippedMember(pieces, kept[k]);
      var m :| 0 <= m < |pieces| && Strip(pieces[m]) == kept[k];
      StripIsSlice(pieces[m]);
      assert c !in pieces[m];
    }
  }

  /** Parsing is compositional: the entries of `a + "," + b` are the entries
      of `a` followed by those of `b`.  Together with ParseOnePiece this fixes
      the result completely: order is kept and only blank pieces are dropped. */
  lemma ParseConcat(a: string, b: string)
    ensures ParseCommaList(a + "," + b) == ParseCommaList(a) + ParseCommaList(b)
  {
    SplitConcat(a, ',', b);
    KeepStrippedAppend(Split(a, ','), Split(b, ','));
  }

  /** A comma-free text is one piece: it yields its strip, or nothing when blank. */
  lemma ParseOnePiece(t: string)
    requires ',' !in t
    ensures ParseCommaList(t) == if IsBlank(t) then [] else [Strip(t)]
  {
    SplitWhole(t, ',');
    assert KeepStripped([t]) == (if Strip(t) == "" then [] else [Strip(t)]) + KeepStripped([]);
  }

  /** An entry is in the parsed list exactly when it is the non-empty strip of
      one of the comma-separated pieces: nothing non-blank is dropped. */
  lemma ParseMember(text: string, x: string)
    ensures x in ParseCommaList(text) <==> x != "" && exists p :: p in Split(text, ',') && Strip(p) == x
  {
    var pieces := Split(text, ',');
    KeepStrippedMember(pieces, x);
    if exists p :: p in pieces && Strip(p) == x {
      var p :| p in pieces && Strip(p) == x;
      var k :| 0 <= k < |pieces| && pieces[k] == p;
    }
  }

  /** Whitespace before a piece does not change its strip. */
  lemma StripAfterSpace(p: string)
    ensures Strip([' '] + p) == Strip(p)
  {
    assert ([' '] + p)[1..] == p;
  }

  /** A space in front of the text does not change the parsed list. */
  lemma ParseAfterSpace(t: string)
    ensures ParseCommaList([' '] + t) == ParseCommaList(t)
  {
    var s := [' '] + t;
    assert s[1..] == t;
    var pieces := Split(t, ',');
    assert Split(s, ',') == [[' '] + pieces[0]] + pieces[1..];
    StripAfterSpace(pieces[0]);
    assert [pieces[0]] + pieces[1..] == pieces;
  }

  /** Parsing text that starts with a well-formed entry and ", " yields that
      entry followed by the entries of the rest. */
  lemma ParseAfterEntry(x: string, rest: string)
    requires WellFormedEntry(x)
    ensures ParseCommaList(x + ", " + rest) == [x] + ParseCommaList(rest)
  {
    assert x + ", " + rest == x + "," + ([' '] + rest);
    ParseConcat(x, [' '] + rest);
    ParseOnePiece(x);
    StripTrimmed(x);
    ParseAfterSpace(rest);
  }

  /** Writing well-formed entries out as ", "-separated text and parsing it
      back gives the same entries. */
  lemma {:induction false} ParseJoinRoundTrip(xs: seq<string>)
    requires forall k :: 0 <= k < |xs| ==> WellFormedEntry(xs[k])
    ensures ParseCommaList(JoinWith(xs, ", ")) == xs
  {
    if |xs| == 0 {
      assert Split("", ',') == [""];
    } else if |xs| == 1 {
      ParseOnePiece(xs[0]);
      StripTrimmed(xs[0]);
    } else {
      ParseAfterEntry(xs[0], JoinWith(xs[1..], ", "));
      ParseJoinRoundTrip(xs[1..]);
      HeadTail(xs);
    }
  }

  // ---------------------------------------------------------------------
  // The spreadsheet column (load_tickers_from_sheet)
  // ---------------------------------------------------------------------

  /** The header cell the filter discards, compared after upper-casing. */
  const HeaderCell: string := "TICKER"

  /** What reading the published sheet gives: the first column, one cell per
      row, `None` for a missing cell (each present cell already rendered as
      text), or a failed read (unreachable URL, malformed body). */
  datatype SheetLoad = Loaded(column: seq<Option<string>>) | LoadFailed

  /** The cells the filter keeps: present, shorter than 10 characters, and
      not the header "TICKER" in any letter case. */
  predicate KeepCell(cell: Option<string>) {
    cell.Some? && |cell.value| < 10 && Upper(cell.value) != HeaderCell
  }

  /** The column after `dropna()` and the length/header filter. */
  function SheetFilter(column: seq<Option<string>>): (tickers: seq<string>)
    ensures |tickers| <= |column|
    ensures forall k :: 0 <= k < |tickers| ==> |tickers[k]| < 10 && Upper(tickers[k]) != HeaderCell
  {
    if column == [] then []
    else (if KeepCell(column[0]) then [column[0].value] else []) + SheetFilter(column[1..])
  }

  /** The filter works cell by cell, so it keeps the order of the column. */
  lemma {:induction false} SheetFilterAppend(a: seq<Option<string>>, b: seq<Option<string>>)
    ensures SheetFilter(a + b) == SheetFilter(a) + SheetFilter(b)
  {
    if a != [] {
      AppendTail(a, b);
      SheetFilterAppend(a[1..], b);
    } else {
      assert a + b == b;
    }
  }

  /** A text is in the filtered list exactly when it is a present cell that
      is shorter than 10 characters and not the header. */
  lemma {:induction false} SheetFilterMember(column: seq<Option<string>>, x: string)
    ensures x in SheetFilter(column) <==> Some(x) in column && |x| < 10 && Upper(x) != HeaderCell
  {
    if column != [] {
      SheetFilterMember(column[1..], x);
      assert column == [column[0]] + column[1..];
    }
  }

  /** `load_tickers_from_sheet`: the filtered column, or the empty list when
      the read fails. */
  function LoadTickersFromSheet(load: SheetLoad): (tickers: seq<string>)
    ensures load.LoadFailed? ==> tickers == []
    ensures load.Loaded? ==> tickers == SheetFilter(load.column)
    ensures forall k :: 0 <= k < |tickers| ==> |tickers[k]| < 10 && Upper(tickers[k]) != HeaderCell
  {
    match load
    case Loaded(column) => SheetFilter(column)
    case LoadFailed => []
  }

  // ---------------------------------------------------------------------
  // The embedded default list (DEFAULT_TICKERS_STR)
  // ---------------------------------------------------------------------

  /** The default symbols, one constant per line of the source literal. */
  const DefaultLine1: seq<string> := ["ORCL", "MU", "AVGO", "TSM", "NFLX", "GOOG", "META", "NVDA", "ASML", "TSLA", "MSFT", "AMZN", "AAPL"]
  const DefaultLine2: seq<string> := ["ON", "CDNS", "GFS", "GEV", "QCOM", "KLAC", "LRCX", "SMCI", "AMAT", "INTC", "AMD", "ARM", "GE", "VRT"]
  const DefaultLine3: seq<string> := ["IBM", "SAP", "ADBE", "NOW", "CRM", "FTNT", "PANW", "CRWD", "APP", "VRSK", "MRVL", "VRSN", "DUOL"]
  const DefaultLine4: seq<string> := ["ZM", "CSCO", "SNPS", "ANET", "DELL", "MNST", "U", "CRCL", "CCJ", "OXY", "SNOW", "HOOD", "PLTR"]
  const DefaultLine5: seq<string> := ["RBLX", "VST", "SOFI", "TEM", "EBAY", "SE", "SHOP", "PDD", "PCAR", "CAT", "WMT", "LULU", "MS", "BAC"]
  const DefaultLine6: seq<string> := ["CVX", "ABBV", "NEE", "EXPE", "BKNG", "GEHC", "MELI", "ANF", "GS", "AXP", "LLY", "NVO", "REGN", "ISRG"]
  const DefaultLine7: seq<string> := ["ABNB", "KO", "UBER", "UPST", "PYPL", "CRWV", "MRK", "UNH", "SBUX", "V", "SNAP", "IBM", "AFRM", "DECK"]

  /** The default symbols in the order the source lists them; "IBM" occurs twice. */
  const DefaultTickers: seq<string> :=
    DefaultLine1 + DefaultLine2 + DefaultLine3 + DefaultLine4 + DefaultLine5 + DefaultLine6 + DefaultLine7

  /** The default list as the text the source embeds: the symbols joined by ", ". */
  const DefaultTickersText: string := JoinWith(DefaultTickers, ", ")

  /** A symbol made of upper-case ASCII letters only. */
  predicate IsLetterSymbol(x: string) {
    x != "" && forall k :: 0 <= k < |x| ==> 'A' <= x[k] <= 'Z'
  }

  predicate AllLetterSymbols(xs: seq<string>) {
    forall k :: 0 <= k < |xs| ==> IsLetterSymbol(xs[k])
  }

  /** Each line of the default list holds upper-case letter symbols only. */
  lemma DefaultLinesAreLetters()
    ensures AllLetterSymbols(DefaultLine1) && AllLetterSymbols(DefaultLine2) && AllLetterSymbols(DefaultLine3)
    ensures AllLetterSymbols(DefaultLine4) && AllLetterSymbols(DefaultLine5) && AllLetterSymbols(DefaultLine6)
    ensures AllLetterSymbols(DefaultLine7)
  {
    Line1Letters();
    Line2Letters();
    Line3Letters();
    Line4Letters();
    Line5Letters();
    Line6Letters();
    Line7Letters();
  }

  lemma Line1Letters() ensures AllLetterSymbols(DefaultLine1) {}
  lemma Line2Letters() ensures AllLetterSymbols(DefaultLine2) {}
  lemma Line3Letters() ensures AllLetterSymbols(DefaultLine3) {}
  lemma Line4Letters() ensures AllLetterSymbols(DefaultLine4) {}
  lemma Line5Letters() ensures AllLetterSymbols(DefaultLine5) {}
  lemma Line6Letters() ensures AllLetterSymbols(DefaultLine6) {}
  lemma Line7Letters() ensures AllLetterSymbols(DefaultLine7) {}

  /** Parsing the embedded default text yields its 95 symbols, in order,
      with both occurrences of "IBM" kept. */
  lemma DefaultTickersParse()
    ensures ParseCommaList(DefaultTickersText) == DefaultTickers
    ensures |DefaultTickers| == 95
    ensures DefaultTickers[27] == DefaultTickers[92] == "IBM"
  {
    DefaultLinesAreLetters();
    assert AllLetterSymbols(DefaultTickers);
    forall k | 0 <= k < |DefaultTickers| ensures WellFormedEntry(DefaultTickers[k]) {
      assert IsLetterSymbol(DefaultTickers[k]);
    }
    ParseJoinRoundTrip(DefaultTickers);
  }

  // ---------------------------------------------------------------------
  // Choosing the source of the list
  // ---------------------------------------------------------------------

  /** Where the resolved list came from. */
  datatype Origin = FromSheet | DefaultFallback | FromText

  datatype Resolution = Resolution(tickers: seq<string>, origin: Origin)

  /** What the environment supplies on one run: the outcome of reading the
      sheet, the `tickers` query parameter, and the text area's content when
      the user has edited it (`None`: it still shows its initial value). */
  datatype Inputs = Inputs(sheet: SheetLoad, queryTickers: Option<string>, typedText: Option<string>)

  /** The text area's initial value: the query parameter when it is present
      and non-empty, the default text otherwise. */
  function InitialText(queryTickers: Option<string>): (text: string)
    ensures queryTickers.Some? && queryTickers.value != "" ==> text == queryTickers.value
    ensures queryTickers.None? || queryTickers.value == "" ==> text == DefaultTickersText
  {
    if queryTickers.Some? && queryTickers.value != "" then queryTickers.value else DefaultTickersText
  }

  /** The value `st.text_area` returns: what the user typed, or the initial
      value when the area is untouched. */
  function TextAreaValue(inputs: Inputs): (text: string)
    ensures inputs.typedText.Some? ==> text == inputs.typedText.value
    ensures inputs.typedText.None? ==> text == InitialText(inputs.queryTickers)
  {
    match inputs.typedText
    case Some(t) => t
    case None => InitialText(inputs.queryTickers)
  }

  /** The source selection: with a sheet URL configured, the sheet list when
      it is non-empty and otherwise the default list, so the list is never
      empty; with no URL, the parsed text area. */
  function ResolveTickers(sheetUrl: string, inputs: Inputs): (r: Resolution)
    ensures r.origin == FromText <==> sheetUrl == ""
    ensures r.origin == FromSheet <==> sheetUrl != "" && LoadTickersFromSheet(inputs.sheet) != []
    ensures r.origin == FromSheet ==> r.tickers == LoadTickersFromSheet(inputs.sheet)
    ensures r.origin == DefaultFallback ==> r.tickers == DefaultTickers
    ensures r.origin == FromText ==> r.tickers == ParseCommaList(TextAreaValue(inputs))
    ensures sheetUrl != "" ==> r.tickers != []
  {
    if sheetUrl != "" then
      var sheetTickers := LoadTickersFromSheet(inputs.sheet);
      if sheetTickers != [] then Resolution(sheetTickers, FromSheet)
      else
        DefaultTickersParse();
        Resolution(ParseCommaList(DefaultTickersText), DefaultFallback)
    else
      Resolution(ParseCommaList(TextAreaValue(inputs)), FromText)
  }

  /** A failed sheet read and a sheet whose cells are all filtered out both
      fall back to the full default list. */
  lemma SheetFallback(sheetUrl: string, inputs: Inputs)
    requires sheetUrl != ""
    requires inputs.sheet.LoadFailed? || (forall k :: 0 <= k < |inputs.sheet.column| ==> !KeepCell(inputs.sheet.column[k]))
    ensures ResolveTickers(sheetUrl, inputs) == Resolution(DefaultTickers, DefaultFallback)
  {
    if inputs.sheet.Loaded? {
      NothingKept(inputs.sheet.column);
    }
  }

  /** A column none of whose cells passes the filter yields the empty list. */
  lemma {:induction false} NothingKept(column: seq<Option<string>>)
    requires forall k :: 0 <= k < |column| ==> !KeepCell(column[k])
    ensures SheetFilter(column) == []
  {
    if column != [] {
      NothingKept(column[1..]);
    }
  }

  /** With no sheet and nothing in the query or the text area, the manual
      mode shows the default list. */
  lemma ManualDefault(inputs: Inputs)
    requires inputs.typedText.None?
    requires inputs.queryTickers.None? || inputs.queryTickers.value == ""
    ensures ResolveTickers("", inputs).tickers == DefaultTickers
  {
    DefaultTickersParse();
  }
}
