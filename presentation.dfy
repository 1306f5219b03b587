/**
 * Output shaping for a table of quotes: the listing `print_quotes` prints in
 * ascending symbol order, the prices `print_summary` summarises, and the rows
 * `export_csv` writes. Lines and rows are kept as structured values; number
 * formatting and CSV quoting are not part of this model.
 */
module Presentation {
  import opened Wrappers
  import opened Text
  import opened Store
  import opened QuoteClient

  /** Each dict key appears once in the insertion order, so the table has as many entries as keys. */
  lemma TableSize(t: Table)
    requires t.Valid()
    ensures |t.order| == |t.quotes|
  {
    DistinctCard(t.order);
    assert Elements(t.order) == t.quotes.Keys;
  }

  /** `sorted(quotes)`: the keys, each once, in ascending order. */
  function SortedKeys(t: Table): (keys: seq<string>)
    requires t.Valid()
    ensures StrictlyAscending(keys)
    ensures forall k :: k in keys <==> k in t.quotes
    ensures |keys| == |t.quotes|
  {
    var keys := Normalize(t.order);
    NormalizeLength(t.order);
    TableSize(t);
    DistinctCard(t.order);
    keys
  }

  // ---------------------------------------------------------------------------
  // print_quotes

  /** A printed line: a heading, or one quote with the currency shown only when there is one. */
  datatype Line =
    | Heading(text: string)
    | QuoteLine(symbol: string, price: int, currency: Option<string>)

  const Banner: seq<Line> := [Heading(""), Heading("Quotes"), Heading("======")]

  function Render(q: Quote): (line: Line)
    ensures line.QuoteLine? && line.symbol == q.symbol && line.price == q.price
    ensures line.currency.Some? <==> q.currency.Some? && q.currency.value != ""
    ensures line.currency.Some? ==> line.currency == q.currency
  {
    var shown := if q.currency.Some? && q.currency.value != "" then q.currency else None;
    QuoteLine(q.symbol, q.price, shown)
  }

  /** The loop of `print_quotes`: one line per key, in the order given. */
  method RenderRows(quotes: map<string, Quote>, keys: seq<string>) returns (rows: seq<Line>)
    requires forall i :: 0 <= i < |keys| ==> keys[i] in quotes
    ensures |rows| == |keys|
    ensures forall i :: 0 <= i < |keys| ==> rows[i] == Render(quotes[keys[i]])
  {
    rows := [];
    for i := 0 to |keys|
      invariant |rows| == i
      invariant forall j :: 0 <= j < i ==> rows[j] == Render(quotes[keys[j]])
    {
      var quote := quotes[keys[i]];
      rows := rows + [Render(quote)];
    }
  }

  /**
   * `print_quotes`: nothing for an empty table; otherwise the banner and then
   * one line per key, visiting the keys in ascending order.
   */
  method PrintQuotes(table: Table) returns (lines: seq<Line>)
    requires table.Valid()
    ensures |table.quotes| == 0 ==> lines == []
    ensures |table.quotes| != 0 ==>
      && |lines| == |Banner| + |table.quotes|
      && lines[..|Banner|] == Banner
      && forall i :: 0 <= i < |table.quotes| ==>
           lines[|Banner| + i] == Render(table.quotes[SortedKeys(table)[i]])
  {
    if |table.quotes| == 0 {
      return [];
    }
    var rows := RenderRows(table.quotes, SortedKeys(table));
    lines := Banner + rows;
  }

  /** For a table built from a response, the printed symbols are strictly ascending. */
  lemma PrintedSymbolsAscend(entries: seq<Entry>, i: nat, j: nat)
    requires i < j < |Collect(entries).quotes|
    ensures Collect(entries).Valid()
    ensures Less(Render(Collect(entries).quotes[SortedKeys(Collect(entries))[i]]).symbol,
                 Render(Collect(entries).quotes[SortedKeys(Collect(entries))[j]]).symbol)
  {
    CollectValid(entries);
    CollectSymbolIsKey(entries);
  }

  // ---------------------------------------------------------------------------
  // print_summary

  /**
   * `print_summary`'s `prices`: absent for an empty table, otherwise the
   * quotes' prices in insertion order. The count line prints their number.
   */
  function SummaryPrices(table: Table): (prices: Option<seq<int>>)
    requires table.Valid()
    ensures prices.None? <==> table.quotes == map[]
    ensures prices.Some? ==>
      && |prices.value| == |table.order| == |table.quotes|
      && forall i :: 0 <= i < |table.order| ==> prices.value[i] == table.quotes[table.order[i]].price
  {
    TableSize(table);
    if |table.order| == 0 then None
    else Some(seq(|table.order|, i requires 0 <= i < |table.order| => table.quotes[table.order[i]].price))
  }

  // ---------------------------------------------------------------------------
  // export_csv

  /** A CSV cell before the writer formats it. */
  datatype Cell = Field(text: string) | Amount(value: int)

  const Header: seq<Cell> := [Field("symbol"), Field("price"), Field("currency"), Field("timestamp")]

  /** One quote's row; an absent or empty currency is written as the empty string. */
  function CsvRow(q: Quote, timestamp: string): (row: seq<Cell>)
    ensures |row| == |Header|
    ensures row[0] == Field(q.symbol) && row[1] == Amount(q.price) && row[3] == Field(timestamp)
    ensures row[2] == Field(if q.currency.Some? then q.currency.value else "")
  {
    [Field(q.symbol), Amount(q.price), Field(if q.currency.Some? then q.currency.value else ""), Field(timestamp)]
  }

  /** Whether a file was written, and if so its rows. */
  datatype Export = NothingToExport | Exported(rows: seq<seq<Cell>>)

  /**
   * `export_csv`: nothing is written for an empty table; otherwise the header
   * and then one row per quote in the dict's insertion order, every row
   * stamped with the same export time.
   */
  method ExportCsv(table: Table, timestamp: string) returns (out: Export)
    requires table.Valid()
    ensures out.NothingToExport? <==> table.quotes == map[]
    ensures out.Exported? ==>
      && |out.rows| == 1 + |table.order| == 1 + |table.quotes|
      && out.rows[0] == Header
      && (forall i :: 0 <= i < |table.order| ==>
            out.rows[1 + i] == CsvRow(table.quotes[table.order[i]], timestamp))
      && (forall i :: 1 <= i < |out.rows| ==> |out.rows[i]| == |Header| && out.rows[i][3] == Field(timestamp))
  {
    TableSize(table);
    if |table.order| == 0 {
      return NothingToExport;
    }
    var rows := [Header];
    for i := 0 to |table.order|
      invariant |rows| == 1 + i && rows[0] == Header
      invariant forall j :: 0 <= j < i ==> rows[1 + j] == CsvRow(table.quotes[table.order[j]], timestamp)
    {
      var quote := table.quotes[table.order[i]];
      rows := rows + [CsvRow(quote, timestamp)];
    }
    assert forall i :: 1 <= i < |rows| ==> rows[i] == CsvRow(table.quotes[table.order[i - 1]], timestamp);
    out := Exported(rows);
  }
}
