/**
 * The watchlist store: the persisted JSON array of tickers, its loading,
 * its normalisation on save, and the `add` / `remove` edits built on them.
 * The file itself is a parameter: `None` when no file exists, otherwise the
 * JSON value it decodes to.
 */
module Store {
  import opened Wrappers
  import opened Text

  /** A decoded JSON document (numbers restricted to integers). */
  datatype Json =
    | JNull
    | JBool(b: bool)
    | JNumber(n: int)
    | JString(s: string)
    | JArray(items: seq<Json>)
    | JObject(members: seq<(string, Json)>)

  /** The error `load_watchlist` raises when the file does not hold a list. */
  datatype FormatError = InvalidWatchlistFormat

  // ---------------------------------------------------------------------------
  // Python's str() of a decoded JSON value

  function DigitChar(d: nat): (c: char)
    requires d < 10
    ensures IsDigit(c) && DigitValue(c) == d
  {
    "0123456789"[d]
  }

  predicate IsDigit(c: char) {
    '0' <= c <= '9'
  }

  function DigitValue(c: char): int {
    c as int - '0' as int
  }

  /** Decimal digits, with no leading zero unless the number is zero itself. */
  predicate IsDecimal(s: string) {
    && s != []
    && (forall i :: 0 <= i < |s| ==> IsDigit(s[i]))
    && (s[0] == '0' ==> |s| == 1)
  }

  /** The number a string of decimal digits denotes, most significant first. */
  function DecimalValue(s: string): int {
    if s == [] then 0 else 10 * DecimalValue(s[..|s| - 1]) + DigitValue(s[|s| - 1])
  }

  /** Python's decimal rendering of a natural number. */
  function NatText(n: nat): (r: string)
    ensures IsDecimal(r) && DecimalValue(r) == n
    decreases n
  {
    if n < 10 then
      var r := [DigitChar(n)];
      assert r[..0] == [];
      r
    else
      var prefix := NatText(n / 10);
      var r := prefix + [DigitChar(n % 10)];
      assert r[..|r| - 1] == prefix;
      r
  }

  /** `str(v)` for a scalar; containers are rendered as the bracket pair of their kind. */
  function Str(v: Json): (s: string)
    ensures v.JString? ==> s == v.s
    ensures v.JNull? ==> s == "None"
    ensures v.JBool? ==> s == (if v.b then "True" else "False")
    ensures v.JNumber? && v.n >= 0 ==> IsDecimal(s) && DecimalValue(s) == v.n
    ensures v.JNumber? && v.n < 0 ==> |s| > 1 && s[0] == '-' && IsDecimal(s[1..]) && DecimalValue(s[1..]) == -v.n
    ensures !v.JString? ==> s != ""
  {
    match v
    case JNull => "None"
    case JBool(b) => if b then "True" else "False"
    case JNumber(n) => if n < 0 then "-" + NatText(-n) else NatText(n)
    case JString(s) => s
    case JArray(_) => "[]"
    case JObject(_) => "{}"
  }

  // ---------------------------------------------------------------------------
  // Ordering of ticker lists

  /** Strictly ascending in Python's string order, hence free of duplicates. */
  ghost predicate StrictlyAscending(s: seq<string>) {
    forall i, j {:trigger Less(s[i], s[j])} :: 0 <= i < j < |s| ==> Less(s[i], s[j])
  }

  lemma AscendingIsDistinct(s: seq<string>)
    requires StrictlyAscending(s)
    ensures Distinct(s)
  {
    forall i, j | 0 <= i < j < |s| ensures s[i] != s[j] {
      LessIrreflexive(s[i]);
    }
  }

  /** Adds `x` to a strictly ascending list unless it is already there. */
  function Insert(x: string, s: seq<string>): (r: seq<string>)
    requires StrictlyAscending(s)
    ensures StrictlyAscending(r)
    ensures forall y :: y in r <==> y == x || y in s
  {
    if s == [] then [x]
    else if x == s[0] then s
    else if Less(x, s[0]) then
      assert forall j :: 0 < j < |s| ==> Less(x, s[j]) by {
        forall j | 0 < j < |s| ensures Less(x, s[j]) { LessTransitive(x, s[0], s[j]); }
      }
      [x] + s
    else
      LessTotal(x, s[0]);
      var rest := Insert(x, s[1..]);
      assert forall y :: y in rest ==> Less(s[0], y);
      [s[0]] + rest
  }

  /** `sorted(set(tickers))`. */
  function Normalize(tickers: seq<string>): (r: seq<string>)
    ensures StrictlyAscending(r)
    ensures forall x :: x in r <==> x in tickers
  {
    if tickers == [] then []
    else
      var n := |tickers| - 1;
      assert tickers == tickers[..n] + [tickers[n]];
      Insert(tickers[n], Normalize(tickers[..n]))
  }

  /** Two strictly ascending lists with the same elements are the same list. */
  lemma {:induction false} AscendingUnique(a: seq<string>, b: seq<string>)
    requires StrictlyAscending(a) && StrictlyAscending(b)
    requires forall x :: x in a <==> x in b
    ensures a == b
  {
    assert a != [] ==> a[0] in b;
    assert b != [] ==> b[0] in a;
    if a != [] && b != [] {
      if a[0] != b[0] {
        var j :| 0 <= j < |a| && a[j] == b[0];
        var k :| 0 <= k < |b| && b[k] == a[0];
        LessIrreflexive(a[0]);
        LessIrreflexive(b[0]);
        LessAsymmetric(a[0], b[0]);
        assert false;
      }
      AscendingIsDistinct(a);
      AscendingIsDistinct(b);
      forall x ensures x in a[1..] <==> x in b[1..] {
        assert x in a[1..] <==> x in a && x != a[0];
        assert x in b[1..] <==> x in b && x != b[0];
      }
      AscendingUnique(a[1..], b[1..]);
      assert a == [a[0]] + a[1..] && b == [b[0]] + b[1..];
    }
  }

  /** `Normalize` is the one strictly ascending list of the input's distinct elements. */
  lemma NormalizeCharacterized(tickers: seq<string>, r: seq<string>)
    requires StrictlyAscending(r)
    requires forall x :: x in r <==> x in tickers
    ensures r == Normalize(tickers)
  {
    AscendingUnique(r, Normalize(tickers));
  }

  /** Normalising a normalised list changes nothing. */
  lemma NormalizeIdempotent(tickers: seq<string>)
    ensures Normalize(Normalize(tickers)) == Normalize(tickers)
  {
    NormalizeCharacterized(Normalize(tickers), Normalize(tickers));
  }

  /** Only the element set of the input matters. */
  lemma NormalizeOfSameElements(a: seq<string>, b: seq<string>)
    requires forall x :: x in a <==> x in b
    ensures Normalize(a) == Normalize(b)
  {
    NormalizeCharacterized(b, Normalize(a));
  }

  function Elements(s: seq<string>): set<string> {
    set x | x in s
  }

  lemma {:induction false} DistinctCard(s: seq<string>)
    requires Distinct(s)
    ensures |Elements(s)| == |s|
  {
    if s != [] {
      assert Elements(s) == {s[0]} + Elements(s[1..]);
      assert s[0] !in Elements(s[1..]);
      DistinctCard(s[1..]);
    }
  }

  /** The saved list has one entry per distinct ticker. */
  lemma NormalizeLength(tickers: seq<string>)
    ensures |Normalize(tickers)| == |Elements(tickers)|
  {
    var r := Normalize(tickers);
    AscendingIsDistinct(r);
    DistinctCard(r);
    assert Elements(r) == Elements(tickers);
  }

  // ---------------------------------------------------------------------------
  // load_watchlist / save_watchlist

  function UpperAll(items: seq<string>): (r: seq<string>)
    ensures |r| == |items|
    ensures forall i :: 0 <= i < |items| ==> r[i] == Upper(items[i])
  {
    seq(|items|, i requires 0 <= i < |items| => Upper(items[i]))
  }

  /**
   * `load_watchlist`: an absent file is the empty list, a document that is not
   * an array is a format error, and otherwise each item is rendered with str()
   * and upper-cased, in place.
   */
  function Load(file: Option<Json>): (r: Result<seq<string>, FormatError>)
    ensures file.None? ==> r == Success([])
    ensures r.Failure? <==> file.Some? && !file.value.JArray?
    ensures file.Some? && file.value.JArray? ==>
      r.Success? && |r.value| == |file.value.items| &&
      forall i :: 0 <= i < |r.value| ==> r.value[i] == Upper(Str(file.value.items[i]))
    ensures r.Success? ==> forall t :: t in r.value ==> IsUpper(t)
  {
    match file
    case None => Success([])
    case Some(doc) =>
      if !doc.JArray? then Failure(InvalidWatchlistFormat)
      else
        var loaded := seq(|doc.items|, i requires 0 <= i < |doc.items| => Upper(Str(doc.items[i])));
        assert forall t :: t in loaded ==> IsUpper(t) by {
          forall i | 0 <= i < |loaded| ensures IsUpper(loaded[i]) { UpperFixedPoints(Str(doc.items[i])); }
        }
        Success(loaded)
  }

  function ToJson(tickers: seq<string>): (doc: Json)
    ensures doc.JArray? && |doc.items| == |tickers|
    ensures forall i :: 0 <= i < |tickers| ==> doc.items[i] == JString(tickers[i])
  {
    JArray(seq(|tickers|, i requires 0 <= i < |tickers| => JString(tickers[i])))
  }

  /** The texts of an array's items, as `str()` renders them. */
  function Strs(items: seq<Json>): (r: seq<string>)
    ensures |r| == |items|
  {
    seq(|items|, i requires 0 <= i < |items| => Str(items[i]))
  }

  /** `save_watchlist`: the document written is the sorted, duplicate-free list as an array of strings. */
  function Save(tickers: seq<string>): (doc: Json)
    ensures doc.JArray?
    ensures forall i :: 0 <= i < |doc.items| ==> doc.items[i].JString?
    ensures StrictlyAscending(Strs(doc.items))
    ensures forall x :: JString(x) in doc.items <==> x in tickers
  {
    var r := Normalize(tickers);
    var doc := ToJson(r);
    assert Strs(doc.items) == r;
    assert forall x :: JString(x) in doc.items <==> x in r by {
      forall x ensures JString(x) in doc.items <==> x in r {
        if JString(x) in doc.items {
          var i :| 0 <= i < |doc.items| && doc.items[i] == JString(x);
          assert r[i] == x;
        }
        if x in r {
          var i :| 0 <= i < |r| && r[i] == x;
          assert doc.items[i] == JString(x);
        }
      }
    }
    doc
  }

  lemma SaveWrites(tickers: seq<string>)
    ensures Save(tickers) == ToJson(Normalize(tickers))
  {
  }

  /** Loading an array of strings upper-cases each of them in place. */
  lemma LoadStrings(r: seq<string>)
    ensures Load(Some(ToJson(r))) == Success(UpperAll(r))
  {
    var doc := ToJson(r);
    var result := Load(Some(doc));
    assert result.Success? && |result.value| == |r|;
    forall i | 0 <= i < |r| ensures result.value[i] == UpperAll(r)[i] {
      assert doc.items[i] == JString(r[i]);
    }
    assert result.value == UpperAll(r);
  }

  /** Loading what was saved from upper-case tickers gives back their sorted distinct list. */
  lemma SaveLoadRoundTrip(tickers: seq<string>)
    requires forall t :: t in tickers ==> IsUpper(t)
    ensures Load(Some(Save(tickers))) == Success(Normalize(tickers))
  {
    var r := Normalize(tickers);
    SaveWrites(tickers);
    LoadStrings(r);
    forall i | 0 <= i < |r| ensures UpperAll(r)[i] == r[i] {
      assert r[i] in tickers;
      UpperFixedPoints(r[i]);
    }
    assert UpperAll(r) == r;
  }

  /**
   * Loading re-applies upper-casing after the list was sorted, so mixed-case
   * input does not round-trip: ["a", "A"] is saved as ["A", "a"] and loaded
   * as ["A", "A"], which is neither duplicate-free nor `Normalize(Upper(..))`.
   */
  lemma MixedCaseRoundTripCounterexample()
    ensures Load(Some(Save(["a", "A"]))) == Success(["A", "A"])
    ensures Load(Some(Save(["a", "A"]))) != Success(Normalize(UpperAll(["a", "A"])))
  {
    var t: seq<string> := ["a", "A"];
    assert Upper("a") == "A" && Upper("A") == "A";
    assert Less("A", "a");
    assert StrictlyAscending(["A", "a"]);
    NormalizeCharacterized(t, ["A", "a"]);
    assert Save(t) == ToJson(["A", "a"]);
    LoadStrings(["A", "a"]);
    assert UpperAll(["A", "a"]) == ["A", "A"];
    assert UpperAll(t) == ["A", "A"];
    NormalizeCharacterized(UpperAll(t), ["A"]);
  }

  // ---------------------------------------------------------------------------
  // add_tickers

  /** What `add` writes and the count it reports. */
  datatype Added = Added(written: Json, count: nat)

  /**
   * `add_tickers`: the saved list is the normalisation of the loaded list
   * followed by the upper-cased arguments; the reported count is the number
   * of arguments, however many of them were new.
   */
  function AddTickers(file: Option<Json>, args: seq<string>): (r: Result<Added, FormatError>)
    ensures r.Failure? <==> Load(file).Failure?
    ensures r.Success? ==> r.value.count == |args|
    ensures r.Success? ==> r.value.written == Save(Load(file).value + UpperAll(args))
  {
    match Load(file)
    case Failure(e) => Failure(e)
    case Success(existing) => Success(Added(Save(existing + UpperAll(args)), |args|))
  }

  /** The saved tickers after `add` are exactly the old ones plus the upper-cased arguments. */
  lemma AddKeepsAndAdds(file: Option<Json>, args: seq<string>, x: string)
    requires AddTickers(file, args).Success?
    ensures JString(x) in AddTickers(file, args).value.written.items <==>
      x in Load(file).value || exists a :: a in args && x == Upper(a)
  {
    var existing := Load(file).value;
    var ups := UpperAll(args);
    assert x in existing + ups <==> x in existing || x in ups;
    if x in ups {
      var i :| 0 <= i < |ups| && ups[i] == x;
      assert args[i] in args;
    }
    if exists a :: a in args && x == Upper(a) {
      var a :| a in args && x == Upper(a);
      var i :| 0 <= i < |args| && args[i] == a;
      assert ups[i] == x;
    }
  }

  /** Adding two argument lists one after the other saves the same list as adding them at once. */
  lemma AddTwiceIsAddOnce(file: Option<Json>, a: seq<string>, b: seq<string>)
    requires AddTickers(file, a).Success?
    ensures AddTickers(Some(AddTickers(file, a).value.written), b)
         == Success(Added(AddTickers(file, a + b).value.written, |b|))
  {
    var existing := Load(file).value;
    var first := existing + UpperAll(a);
    var second := Normalize(first) + UpperAll(b);
    var once := existing + UpperAll(a + b);
    UpperAllIsUpper(a);
    assert forall t :: t in first ==> IsUpper(t);
    SaveLoadRoundTrip(first);
    assert AddTickers(Some(Save(first)), b) == Success(Added(Save(second), |b|));
    UpperAllConcat(a, b);
    SameElementsAfterNormalize(existing, UpperAll(a), UpperAll(b));
    NormalizeOfSameElements(second, once);
    SaveWrites(second);
    SaveWrites(once);
  }

  lemma UpperAllConcat(a: seq<string>, b: seq<string>)
    ensures UpperAll(a + b) == UpperAll(a) + UpperAll(b)
  {
  }

  lemma SameElementsAfterNormalize(x: seq<string>, y: seq<string>, z: seq<string>)
    ensures forall t :: t in Normalize(x + y) + z <==> t in x + (y + z)
  {
    forall t ensures t in Normalize(x + y) + z <==> t in x + (y + z) {
      assert t in x + y <==> t in x || t in y;
      assert t in y + z <==> t in y || t in z;
    }
  }

  lemma UpperAllIsUpper(items: seq<string>)
    ensures forall t :: t in UpperAll(items) ==> IsUpper(t)
  {
    forall i | 0 <= i < |items| ensures IsUpper(UpperAll(items)[i]) {
      UpperFixedPoints(items[i]);
    }
  }

  // ---------------------------------------------------------------------------
  // remove_tickers

  /** `[t for t in existing if t not in to_remove]`. */
  function Without(existing: seq<string>, toRemove: set<string>): (r: seq<string>)
    ensures |r| <= |existing|
    ensures forall t :: t in r <==> t in existing && t !in toRemove
  {
    if existing == [] then []
    else if existing[0] in toRemove then Without(existing[1..], toRemove)
    else [existing[0]] + Without(existing[1..], toRemove)
  }

  /** The filter keeps order: it works piece by piece along the list. */
  lemma {:induction false} WithoutConcat(a: seq<string>, b: seq<string>, toRemove: set<string>)
    ensures Without(a + b, toRemove) == Without(a, toRemove) + Without(b, toRemove)
  {
    if a == [] {
      assert a + b == b;
    } else {
      assert (a + b)[0] == a[0] && (a + b)[1..] == a[1..] + b;
      WithoutConcat(a[1..], b, toRemove);
    }
  }

  /** Number of positions of `s` whose ticker is in `toRemove`. */
  function CountIn(s: seq<string>, toRemove: set<string>): nat {
    if s == [] then 0 else (if s[0] in toRemove then 1 else 0) + CountIn(s[1..], toRemove)
  }

  /** The filter drops exactly the positions whose ticker is to be removed. */
  lemma {:induction false} WithoutCount(s: seq<string>, toRemove: set<string>)
    ensures |s| - |Without(s, toRemove)| == CountIn(s, toRemove)
  {
    if s != [] {
      WithoutCount(s[1..], toRemove);
    }
  }

  /** On a duplicate-free list the removed count is the size of the set difference. */
  lemma {:induction false} CountInDistinct(s: seq<string>, toRemove: set<string>)
    requires Distinct(s)
    ensures CountIn(s, toRemove) == |Elements(s) * toRemove|
  {
    if s == [] {
      assert Elements(s) * toRemove == {};
    } else {
      var tail := s[1..];
      assert Distinct(tail) by {
        forall i, j | 0 <= i < j < |tail| ensures tail[i] != tail[j] {
          assert tail[i] == s[i + 1] && tail[j] == s[j + 1];
        }
      }
      CountInDistinct(tail, toRemove);
      var rest := Elements(tail) * toRemove;
      assert s[0] !in Elements(tail);
      assert Elements(s) == {s[0]} + Elements(tail);
      if s[0] in toRemove {
        assert Elements(s) * toRemove == {s[0]} + rest;
        assert |{s[0]} + rest| == 1 + |rest|;
      } else {
        assert Elements(s) * toRemove == rest;
      }
    }
  }

  /** What `remove` writes and the count it reports. */
  datatype Removed = Removed(written: Json, count: nat)

  /** `{a.upper() for a in args}`. */
  function UpperSet(args: seq<string>): (r: set<string>)
    ensures forall a :: a in args ==> Upper(a) in r
    ensures forall x :: x in r ==> IsUpper(x) && exists a :: a in args && Upper(a) == x
  {
    assert forall a :: IsUpper(Upper(a)) by {
      forall a: string ensures IsUpper(Upper(a)) {
        UpperFixedPoints(a);
      }
    }
    set a | a in args :: Upper(a)
  }

  /**
   * `remove_tickers`: the arguments are upper-cased into a set, the loaded
   * list is filtered in order, the result is saved, and the reported count is
   * the length difference, which is the number of filtered-out positions.
   */
  function RemoveTickers(file: Option<Json>, args: seq<string>): (r: Result<Removed, FormatError>)
    ensures r.Failure? <==> Load(file).Failure?
    ensures r.Success? ==>
      var updated := Without(Load(file).value, UpperSet(args));
      && r.value.written == Save(updated)
      && r.value.count == CountIn(Load(file).value, UpperSet(args))
      && r.value.count <= |Load(file).value|
  {
    match Load(file)
    case Failure(e) => Failure(e)
    case Success(existing) =>
      var updated := Without(existing, UpperSet(args));
      WithoutCount(existing, UpperSet(args));
      Success(Removed(Save(updated), |existing| - |updated|))
  }

  /** After `remove`, no argument is saved, and every other loaded ticker still is. */
  lemma RemoveDropsOnlyArguments(file: Option<Json>, args: seq<string>, x: string)
    requires RemoveTickers(file, args).Success?
    ensures JString(x) in RemoveTickers(file, args).value.written.items <==>
      x in Load(file).value && forall a :: a in args ==> Upper(a) != x
  {
  }

  /** Removing from a watchlist that was saved by this tool reports the size of the set difference. */
  lemma RemoveCountOnSavedList(tickers: seq<string>, args: seq<string>)
    requires forall t :: t in tickers ==> IsUpper(t)
    ensures RemoveTickers(Some(Save(tickers)), args).Success?
    ensures RemoveTickers(Some(Save(tickers)), args).value.count == |Elements(tickers) * UpperSet(args)|
  {
    SaveLoadRoundTrip(tickers);
    var saved := Normalize(tickers);
    AscendingIsDistinct(saved);
    CountInDistinct(saved, UpperSet(args));
    assert Elements(saved) == Elements(tickers);
  }
}
