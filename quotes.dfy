/**
 * The quote-service client: the request built for a list of tickers and the
 * loop that turns the decoded response's result entries into a table of
 * quotes keyed by upper-cased symbol. The network answer is a parameter.
 */
module QuoteClient {
  import opened Wrappers
  import opened Text

  const QuoteUrl: string := "https://query1.finance.yahoo.com/v7/finance/quote"
  const UserAgent: string := "CLItool/1.0"
  const TimeoutSeconds: nat := 15

  /** One entry of `quoteResponse.result`; a field is `None` when absent or null. */
  datatype Entry = Entry(symbol: Option<string>, price: Option<int>, currency: Option<string>)

  /** The `quoteResponse` object; `result` is `None` when the key is missing (a null `result` is not modelled). */
  datatype QuoteResponse = QuoteResponse(result: Option<seq<Entry>>)

  /** The decoded response document; `quoteResponse` is `None` when the key is missing (a null one is not modelled). */
  datatype Payload = Payload(quoteResponse: Option<QuoteResponse>)

  datatype Quote = Quote(symbol: string, price: int, currency: Option<string>)

  /**
   * A Python dict from symbol to quote: its keys in insertion order beside
   * the mapping itself.
   */
  datatype Table = Table(order: seq<string>, quotes: map<string, Quote>) {

    /** Keys are listed once each, and exactly the mapping's keys are listed. */
    ghost predicate Valid() {
      && Distinct(order)
      && (forall k :: k in quotes <==> k in order)
    }

    /** `d[k] = q`: a new key goes to the end, an existing key keeps its place. */
    function Put(k: string, q: Quote): (t: Table)
      ensures Valid() ==> t.Valid()
      ensures order <= t.order && |t.order| <= |order| + 1 && t.quotes == quotes[k := q]
    {
      Table(if k in quotes then order else order + [k], quotes[k := q])
    }
  }

  const Empty: Table := Table([], map[])

  /** The error reported when the quote service cannot be reached. */
  datatype FetchError = FailedToFetchQuotes(cause: string)

  /** The one HTTP GET `fetch_quotes` sends. */
  datatype Request = Request(url: string, symbols: string, userAgent: string, timeout: nat)

  // ---------------------------------------------------------------------------
  // The `symbols` query value

  /** `s.split(",")`: the pieces between commas, at least one. */
  function Split(s: string): (r: seq<string>)
    ensures r != []
  {
    if s == [] then [""]
    else
      var rest := Split(s[1..]);
      if s[0] == ',' then [""] + rest else [[s[0]] + rest[0]] + rest[1..]
  }

  lemma {:induction false} SplitComma(piece: string, rest: string)
    requires ',' !in piece
    ensures Split(piece + rest) == [piece + Split(rest)[0]] + Split(rest)[1..]
  {
    if piece != [] {
      assert (piece + rest)[1..] == piece[1..] + rest;
      SplitComma(piece[1..], rest);
      assert [piece[0]] + (piece[1..] + Split(rest)[0]) == piece + Split(rest)[0];
    } else {
      var r := Split(rest);
      assert piece + rest == rest && piece + r[0] == r[0];
      assert r == [r[0]] + r[1..];
    }
  }

  /**
   * `",".join(tickers)`, the query value. It lists the requested tickers:
   * splitting it on commas gives them back when none contains a comma.
   */
  function Join(tickers: seq<string>): (r: string)
    ensures tickers != [] && (forall t :: t in tickers ==> ',' !in t) ==> Split(r) == tickers
  {
    if tickers == [] then ""
    else if |tickers| == 1 then
      assert tickers[0] + "" == tickers[0];
      assert tickers == [tickers[0]];
      if ',' !in tickers[0] then SplitComma(tickers[0], ""); tickers[0] else tickers[0]
    else
      var rest := Join(tickers[1..]);
      var r := tickers[0] + [','] + rest;
      assert r == tickers[0] + ([','] + rest);
      assert ([','] + rest)[1..] == rest;
      assert tickers[0] + "" == tickers[0];
      assert tickers == [tickers[0]] + tickers[1..];
      assert (forall t :: t in tickers ==> ',' !in t) ==> ',' !in tickers[0] by {
        assert tickers[0] in tickers;
      }
      if ',' !in tickers[0] then SplitComma(tickers[0], [','] + rest); r else r
  }

  // ---------------------------------------------------------------------------
  // Parsing the result entries

  /** `payload.get("quoteResponse", {}).get("result", [])`. */
  function Results(payload: Payload): (entries: seq<Entry>)
    ensures payload.quoteResponse.None? ==> entries == []
    ensures payload.quoteResponse.Some? && payload.quoteResponse.value.result.Some? ==>
      entries == payload.quoteResponse.value.result.value
    ensures entries != [] ==> payload.quoteResponse.Some? && payload.quoteResponse.value.result.Some?
  {
    match payload.quoteResponse
    case None => []
    case Some(response) => match response.result
      case None => []
      case Some(entries) => entries
  }

  /** An entry is recorded when its symbol is a non-empty string and its price is not null. */
  predicate Qualifies(e: Entry)
    ensures Qualifies(e) ==> e.symbol.Some? && KeyOf(e) != ""
  {
    e.symbol.Some? && e.symbol.value != "" && e.price.Some?
  }

  function KeyOf(e: Entry): string
    requires e.symbol.Some?
  {
    Upper(e.symbol.value)
  }

  function QuoteOf(e: Entry): (q: Quote)
    requires Qualifies(e)
    ensures q.symbol == KeyOf(e)
    ensures q.price == e.price.value && q.currency == e.currency
  {
    Quote(KeyOf(e), e.price.value, e.currency)
  }

  /** What one pass of the loop does to the table. */
  function Step(t: Table, e: Entry): Table {
    if Qualifies(e) then t.Put(KeyOf(e), QuoteOf(e)) else t
  }

  /** The table after the loop has visited every entry, in order. */
  function Collect(entries: seq<Entry>): (t: Table)
    ensures |t.order| <= |entries|
  {
    if entries == [] then Empty
    else Step(Collect(entries[..|entries| - 1]), entries[|entries| - 1])
  }

  /** The table the loop builds is a well-formed dict. */
  lemma {:induction false} CollectValid(entries: seq<Entry>)
    ensures Collect(entries).Valid()
  {
    if entries != [] {
      CollectValid(entries[..|entries| - 1]);
    }
  }

  /** The loop of `fetch_quotes` over the result entries. */
  method ParseResults(entries: seq<Entry>) returns (table: Table)
    ensures table == Collect(entries)
  {
    table := Empty;
    for i := 0 to |entries|
      invariant table == Collect(entries[..i])
    {
      var entry := entries[i];
      var symbol, price := entry.symbol, entry.price;
      if symbol.Some? && symbol.value != "" && price.Some? {
        var key := Upper(symbol.value);
        table := table.Put(key, Quote(key, price.value, entry.currency));
      }
      assert entries[..i + 1][..i] == entries[..i];
    }
    assert entries[..|entries|] == entries;
  }

  /** A key is present exactly when some qualifying entry has that upper-cased symbol. */
  lemma {:induction false} CollectKeys(entries: seq<Entry>, k: string)
    ensures k in Collect(entries).quotes <==>
      exists i :: 0 <= i < |entries| && Qualifies(entries[i]) && KeyOf(entries[i]) == k
  {
    if entries != [] {
      var n := |entries| - 1;
      var prefix := entries[..n];
      CollectKeys(prefix, k);
      if exists i :: 0 <= i < |entries| && Qualifies(entries[i]) && KeyOf(entries[i]) == k {
        var i :| 0 <= i < |entries| && Qualifies(entries[i]) && KeyOf(entries[i]) == k;
        if i < n {
          assert prefix[i] == entries[i];
        }
      }
      if exists i :: 0 <= i < n && Qualifies(prefix[i]) && KeyOf(prefix[i]) == k {
        var i :| 0 <= i < n && Qualifies(prefix[i]) && KeyOf(prefix[i]) == k;
        assert entries[i] == prefix[i];
      }
    }
  }

  /** A step for another key, or a skipped entry, leaves key `k` as it was. */
  lemma StepKeepsOtherKeys(t: Table, e: Entry, k: string)
    requires !(Qualifies(e) && KeyOf(e) == k)
    ensures k in Step(t, e).quotes <==> k in t.quotes
    ensures k in t.quotes ==> Step(t, e).quotes[k] == t.quotes[k]
  {
  }

  /** Entry `i` is the last entry that qualifies with upper-cased symbol `k`. */
  ghost predicate LastWithKey(entries: seq<Entry>, i: int, k: string) {
    && 0 <= i < |entries| && Qualifies(entries[i]) && KeyOf(entries[i]) == k
    && forall j :: i < j < |entries| && Qualifies(entries[j]) ==> KeyOf(entries[j]) != k
  }

  /**
   * The quote stored under a key is built from the LAST qualifying entry with
   * that upper-cased symbol: later duplicates overwrite earlier ones.
   */
  lemma {:induction false} CollectLastWins(entries: seq<Entry>, k: string)
    requires k in Collect(entries).quotes
    ensures exists i :: LastWithKey(entries, i, k) && Collect(entries).quotes[k] == QuoteOf(entries[i])
  {
    assert entries != [];
    var n := |entries| - 1;
    var prefix := entries[..n];
    var e := entries[n];
    assert Collect(entries) == Step(Collect(prefix), e);
    if Qualifies(e) && KeyOf(e) == k {
      assert LastWithKey(entries, n, k);
      assert Collect(entries).quotes[k] == QuoteOf(entries[n]);
    } else {
      StepKeepsOtherKeys(Collect(prefix), e, k);
      CollectLastWins(prefix, k);
      var i :| LastWithKey(prefix, i, k) && Collect(prefix).quotes[k] == QuoteOf(prefix[i]);
      assert entries[i] == prefix[i];
      forall j | i < j < |entries| && Qualifies(entries[j]) ensures KeyOf(entries[j]) != k {
        if j < n {
          assert entries[j] == prefix[j];
        }
      }
      assert LastWithKey(entries, i, k);
    }
  }

  /** Every stored quote carries its own key as its symbol. */
  lemma {:induction false} CollectSymbolIsKey(entries: seq<Entry>)
    ensures forall k :: k in Collect(entries).quotes ==> Collect(entries).quotes[k].symbol == k
  {
    if entries != [] {
      CollectSymbolIsKey(entries[..|entries| - 1]);
    }
  }

  /** The qualifying entries, in order. */
  function Qualifying(entries: seq<Entry>): (r: seq<Entry>)
    ensures forall e :: e in r ==> Qualifies(e)
  {
    if entries == [] then []
    else
      var n := |entries| - 1;
      Qualifying(entries[..n]) + (if Qualifies(entries[n]) then [entries[n]] else [])
  }

  /** Entries lacking a symbol or a price are skipped without any effect. */
  lemma {:induction false} CollectSkipsUnqualified(entries: seq<Entry>)
    ensures Collect(Qualifying(entries)) == Collect(entries)
  {
    if entries != [] {
      var n := |entries| - 1;
      CollectSkipsUnqualified(entries[..n]);
      var q := Qualifying(entries[..n]);
      if Qualifies(entries[n]) {
        assert (q + [entries[n]])[..|q|] == q;
      } else {
        assert q + [] == q;
      }
    }
  }

  // ---------------------------------------------------------------------------
  // fetch_quotes

  /**
   * `fetch_quotes`: no request at all for an empty ticker list; otherwise one
   * request for the comma-joined tickers, whose transport failure becomes a
   * fetch error and whose decoded answer is parsed entry by entry.
   */
  method FetchQuotes(tickers: seq<string>, answer: Result<Payload, string>)
    returns (request: Option<Request>, r: Result<Table, FetchError>)
    ensures tickers == [] <==> request.None?
    ensures tickers == [] ==> r == Success(Empty)
    ensures request.Some? ==> request.value == Request(QuoteUrl, Join(tickers), UserAgent, TimeoutSeconds)
    ensures tickers != [] && answer.Failure? ==> r == Failure(FailedToFetchQuotes(answer.error))
    ensures tickers != [] && answer.Success? ==> r == Success(Collect(Results(answer.value)))
  {
    if tickers == [] {
      return None, Success(Empty);
    }
    request := Some(Request(QuoteUrl, Join(tickers), UserAgent, TimeoutSeconds));
    match answer {
      case Failure(cause) =>
        r := Failure(FailedToFetchQuotes(cause));
      case Success(payload) =>
        var table := ParseResults(Results(payload));
        r := Success(table);
    }
  }
}
