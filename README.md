# Watchlist CLI — a Dafny model of its list, quote and output logic

The tool keeps a personal watchlist of stock tickers in a JSON file, fetches
current quotes for them from a quote service, prints them with a summary and
can export them as CSV. Everything it does lives in `watchlist.py`; this
project models the parts of it that are logic rather than plumbing:

- **Store** (`store.dfy`): the decoded watchlist file (`Json`, or `None` when
  the file does not exist), `load_watchlist` (`Load`), the normalisation
  `sorted(set(...))` of `save_watchlist` (`Normalize`, `Save`), and the two
  edits `add_tickers` / `remove_tickers` with the counts they report.
- **Text** (`text.dfy`): `str.upper()` on ASCII letters and Python's string
  ordering, which `sorted` uses; the ordering is proved a strict total order.
- **QuoteClient** (`quotes.dfy`): the request `fetch_quotes` builds, and its
  loop over `quoteResponse.result` that records a quote under the upper-cased
  symbol of every entry with a non-empty symbol and a non-null price. The
  loop is the method `ParseResults`, proved equal to the specification
  function `Collect`, about which the lemmas state which keys exist, which
  entry wins for a repeated symbol, and that skipped entries change nothing.
  A Python dict is a `Table`: its keys in insertion order next to the map.
- **Presentation** (`presentation.dfy`): `print_quotes` (lines in ascending
  key order, currency shown only when non-empty), the prices
  `print_summary` summarises, and the rows `export_csv` writes (header, one row per
  quote, one shared timestamp, nothing at all for an empty table).

The network answer, the file contents and the clock are parameters: the
quote service's decoded answer (or the transport error text) is passed to
`FetchQuotes`, the watchlist file is passed as `Option<Json>`, and the export
timestamp is passed to `ExportCsv`.

Points where the tool's behaviour is easy to misread; the model follows the code:

- Loading accepts any JSON array and renders each item with `str()` before
  upper-casing it; it does not insist on an array of strings.
- Saving then loading gives back `sorted(set(T))` only when every ticker of
  `T` is already upper case (`Store.SaveLoadRoundTrip`). Loading upper-cases
  after the list was sorted, so `["a", "A"]` is saved as `["A", "a"]` and
  loaded as `["A", "A"]` (`Store.MixedCaseRoundTripCounterexample`). The
  tool's own commands only ever save loaded or upper-cased tickers, so
  `add` followed by `add` still accumulates (`Store.AddTwiceIsAddOnce`).
- `add` reports the number of arguments, not the number of tickers that were
  new; `remove` reports the number of positions filtered out of the loaded
  list, which equals the size of the set difference when the loaded list has
  no duplicates (`Store.RemoveCountOnSavedList`).

## Model

| member | source | states |
|---|---|---|
| `Text.Upper` | watchlist.py:33 | upper-casing keeps the length and maps each character on its own, lower-case ASCII letters to capitals |
| `Text.UpperFixedPoints` | watchlist.py:33 | every upper-cased string is free of lower-case letters, and a string is left unchanged exactly when it has none |
| `Text.UpperIdempotent` | watchlist.py:33 | upper-casing twice is upper-casing once |
| `Text.LessIrreflexive` | watchlist.py:38 | no string sorts before itself |
| `Text.LessTransitive` | watchlist.py:38 | the string ordering used by `sorted` is transitive |
| `Text.LessTotal` | watchlist.py:38 | of two different strings one sorts before the other |
| `Text.LessAsymmetric` | watchlist.py:38 | two strings never sort before each other |
| `Store.Normalize` | watchlist.py:38 | the list written is strictly ascending and holds exactly the elements of the input |
| `Store.AscendingUnique` | watchlist.py:38 | two strictly ascending lists with the same elements are equal, so the sorted de-duplicated list is unique |
| `Store.NormalizeCharacterized` | watchlist.py:38 | any strictly ascending list of exactly the input's elements is the normalised list |
| `Store.NormalizeIdempotent` | watchlist.py:38 | normalising a normalised list changes nothing |
| `Store.NormalizeOfSameElements` | watchlist.py:38 | inputs with the same elements, in any order and with any repetition, normalise alike |
| `Store.NormalizeLength` | watchlist.py:38 | the saved list has one entry per distinct input ticker |
| `Store.NatText` | watchlist.py:33 | a natural number renders as canonical decimal digits (no leading zero) whose value is that number |
| `Store.Str` | watchlist.py:33 | a string item renders as itself, null as `None`, a boolean as `True` or `False`, a number as its decimal digits with a leading minus sign exactly when negative, a container as non-empty text |
| `Store.Save` | watchlist.py:36-38 | the document written is an array of strings, strictly ascending, holding exactly the given tickers |
| `Store.Load` | watchlist.py:26-33 | an absent file loads as the empty list; a document that is not an array fails; otherwise the list has the same length, item i upper-cased, and every loaded ticker is upper case |
| `Store.UpperAll` | watchlist.py:106 | the arguments are upper-cased one by one, in place |
| `Store.UpperAllIsUpper` | watchlist.py:106 | every upper-cased argument is upper case |
| `Store.LoadStrings` | watchlist.py:29-33 | loading an array of strings yields those strings upper-cased in place |
| `Store.SaveLoadRoundTrip` | watchlist.py:26-38 | loading the file saved from upper-case tickers yields their sorted distinct list |
| `Store.MixedCaseRoundTripCounterexample` | watchlist.py:26-38 | saving `["a", "A"]` and loading it yields `["A", "A"]`, not the sorted distinct upper-cased list |
| `Store.AddTickers` | watchlist.py:104-108 | a load failure propagates; otherwise the saved list is the normalisation of the loaded list plus the upper-cased arguments, and the reported count is the number of arguments |
| `Store.AddKeepsAndAdds` | watchlist.py:104-107 | after `add` a ticker is saved exactly when it was loaded or is an upper-cased argument |
| `Store.AddTwiceIsAddOnce` | watchlist.py:104-107 | adding two argument lists in turn saves the same list as adding them together |
| `Store.Without` | watchlist.py:114 | the filtered list holds exactly the loaded tickers not to be removed, and is no longer than the loaded list |
| `Store.WithoutConcat` | watchlist.py:114 | the filter keeps order: filtering a concatenation concatenates the filtered parts |
| `Store.WithoutCount` | watchlist.py:116 | the length difference equals the number of positions whose ticker is to be removed |
| `Store.CountInDistinct` | watchlist.py:116 | on a duplicate-free list that number is the size of the intersection with the removal set |
| `Store.UpperSet` | watchlist.py:113 | the removal set holds every upper-cased argument and nothing else, and only upper-case strings |
| `Store.RemoveTickers` | watchlist.py:111-117 | a load failure propagates; otherwise the saved list is the normalised filtered list and the count is the number of removed positions, at most the loaded length |
| `Store.RemoveDropsOnlyArguments` | watchlist.py:113-115 | after `remove` a ticker is saved exactly when it was loaded and no argument upper-cases to it |
| `Store.RemoveCountOnSavedList` | watchlist.py:111-116 | removing from a list this tool saved reports the size of the set difference |
| `QuoteClient.Table.Put` | watchlist.py:59 | a dict store keeps the dict well formed, keeps the existing keys' order and adds at most one key; the mapping is the old one with the key set |
| `QuoteClient.Join` | watchlist.py:44 | splitting the comma-joined query value gives back the requested tickers when none contains a comma |
| `QuoteClient.Results` | watchlist.py:53 | a payload without `quoteResponse`, or a response without `result`, yields no entries; a present `result` list is passed through unchanged |
| `QuoteClient.Qualifies` | watchlist.py:58 | an entry that is recorded has a symbol whose upper-cased key is non-empty |
| `QuoteClient.QuoteOf` | watchlist.py:59-63 | a recorded quote's symbol is the entry's upper-cased symbol, its price the entry's price and its currency the entry's currency |
| `QuoteClient.Collect` | watchlist.py:54-63 | the loop leaves at most one key per entry visited |
| `QuoteClient.CollectValid` | watchlist.py:54-64 | the table the loop leaves is a well-formed dict: each key listed once, exactly the mapped keys |
| `QuoteClient.ParseResults` | watchlist.py:54-64 | the loop over the result entries builds exactly `Collect` of them |
| `QuoteClient.CollectKeys` | watchlist.py:55-59 | a key is present exactly when some entry has a non-empty symbol upper-casing to it and a non-null price |
| `QuoteClient.CollectLastWins` | watchlist.py:59-63 | the quote under a key is built from the last qualifying entry with that upper-cased symbol |
| `QuoteClient.CollectSymbolIsKey` | watchlist.py:59-60 | every stored quote's symbol equals its key |
| `QuoteClient.CollectSkipsUnqualified` | watchlist.py:58 | dropping the entries without a symbol or price leaves the result unchanged |
| `QuoteClient.FetchQuotes` | watchlist.py:41-64 | an empty ticker list yields an empty table and no request; otherwise one request for the joined tickers, a transport failure becomes a fetch error and an answer is parsed by `Collect` |
| `Presentation.TableSize` | watchlist.py:71-74 | a dict has as many values as keys |
| `Presentation.SortedKeys` | watchlist.py:85 | the keys visited are strictly ascending, each key once, all keys |
| `Presentation.Render` | watchlist.py:86-88 | a quote line shows the quote's symbol and price, and a currency exactly when the quote has a non-empty one |
| `Presentation.RenderRows` | watchlist.py:85-88 | the loop yields one line per key, line i rendering the quote under key i |
| `Presentation.PrintQuotes` | watchlist.py:80-88 | nothing for an empty table; otherwise the banner then one line per key in ascending key order |
| `Presentation.PrintedSymbolsAscend` | watchlist.py:85-88 | for a table built from a response the printed symbols are strictly ascending |
| `Presentation.SummaryPrices` | watchlist.py:67-74 | no summary for an empty table; otherwise the prices are the quotes' prices in insertion order, one per quote, so the count printed is the number of quotes |
| `Presentation.CsvRow` | watchlist.py:100 | a row holds symbol, price, the currency or the empty string, and the timestamp |
| `Presentation.ExportCsv` | watchlist.py:91-101 | nothing is written for an empty table; otherwise the header then one row per quote in insertion order, all with the same timestamp |

## Left out

- Reading and writing files, `os.path.exists`, `expanduser` and JSON encoding and decoding: the file is given as its decoded value, or `None` when absent, and the saved document is returned as a value.
- JSON numbers are integers only; floats and their `str()` rendering are not modelled.
- `Store.Str`: `str()` of a nested array or object inside the watchlist file is rendered as `[]` or `{}`, not as Python's full `repr` of its contents.
- `Text.Upper`: only ASCII letters are upper-cased; Python's Unicode case mapping (for instance `ß` to `SS`) is not modelled.
- The HTTP request itself: URL encoding, `urlopen`, the timeout's effect and the decoding of the response body. The request is described as a value; the service's answer, or the text of the transport error, is a parameter.
- Responses of an unexpected shape, which make Python raise (a `quoteResponse` or `result` that is null, an entry that is not an object, a truthy non-string symbol, a price `float()` rejects). Prices are integers and `float(price)` is the identity.
- Two response shapes Python accepts without error that `Entry` cannot hold: a non-string `currency`, which is stored and printed as it is, and a falsy non-string `symbol` (such as `0` or `false`), which is skipped like a missing one.
- `QuoteClient.CollectValid`: the insertion order of the resulting dict is only proved to list each key once; that it follows the first qualifying occurrence of each key is not stated.
- The minimum, maximum and mean of `print_summary`: floating-point statistics. The list of prices they are taken from and its count are modelled.
- Number formatting and column widths of printed lines, the CSV writer's quoting, and the texts of the informational messages.
- `datetime.utcnow()`: the export timestamp is a parameter.
- `list_watchlist`, `refresh_watchlist` and `fetch_now`: command handlers that chain the modelled operations with printing.
- `build_parser` and `main`: argument parsing, dispatch and exit codes.
