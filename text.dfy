/**
 * Text operations the watchlist tool relies on: upper-casing of ticker
 * symbols and the ordering Python's `sorted` applies to strings
 * (lexicographic on code points, a proper prefix first).
 */
module Text {

  /** No string occurs twice: the keys of a dict, or a list that went through `set`. */
  ghost predicate Distinct(s: seq<string>) {
    forall i, j :: 0 <= i < j < |s| ==> s[i] != s[j]
  }

  /** True when `c` is a lower-case ASCII letter. */
  predicate IsLowerAscii(c: char) {
    'a' <= c <= 'z'
  }

  /** Upper-cases one character; only ASCII letters are mapped. */
  function UpperChar(c: char): (u: char)
    ensures !IsLowerAscii(u)
    ensures !IsLowerAscii(c) ==> u == c
  {
    if IsLowerAscii(c) then (c as int - 32) as char else c
  }

  /** `str.upper()`: every lower-case letter mapped to its capital, nothing else touched. */
  function Upper(s: string): (r: string)
    ensures |r| == |s|
    ensures forall i :: 0 <= i < |s| ==> r[i] == UpperChar(s[i])
  {
    if s == [] then [] else [UpperChar(s[0])] + Upper(s[1..])
  }

  /** A string that upper-casing leaves alone: it holds no lower-case letter. */
  predicate IsUpper(s: string) {
    forall i :: 0 <= i < |s| ==> !IsLowerAscii(s[i])
  }

  /** Upper-casing yields exactly the strings it fixes. */
  lemma UpperFixedPoints(s: string)
    ensures IsUpper(Upper(s))
    ensures Upper(s) == s <==> IsUpper(s)
  {
    if IsUpper(s) {
      assert forall i :: 0 <= i < |s| ==> Upper(s)[i] == s[i];
    } else {
      var i :| 0 <= i < |s| && IsLowerAscii(s[i]);
      assert Upper(s)[i] != s[i];
    }
  }

  /** Upper-casing twice is upper-casing once. */
  lemma UpperIdempotent(s: string)
    ensures Upper(Upper(s)) == Upper(s)
  {
    UpperFixedPoints(s);
    UpperFixedPoints(Upper(s));
  }

  /** Python's string comparison `a < b`: code points compared left to right, a proper prefix first. */
  predicate Less(a: string, b: string) {
    if a == [] then b != []
    else b != [] && (if a[0] == b[0] then Less(a[1..], b[1..]) else a[0] < b[0])
  }

  lemma {:induction false} LessIrreflexive(a: string)
    ensures !Less(a, a)
  {
    if a != [] {
      LessIrreflexive(a[1..]);
    }
  }

  lemma {:induction false} LessTransitive(a: string, b: string, c: string)
    requires Less(a, b) && Less(b, c)
    ensures Less(a, c)
  {
    if a != [] && a[0] == b[0] && b[0] == c[0] {
      LessTransitive(a[1..], b[1..], c[1..]);
    }
  }

  lemma {:induction false} LessTotal(a: string, b: string)
    requires a != b
    ensures Less(a, b) || Less(b, a)
  {
    if a != [] && b != [] && a[0] == b[0] {
      assert a == [a[0]] + a[1..] && b == [b[0]] + b[1..];
      LessTotal(a[1..], b[1..]);
    }
  }

  lemma LessAsymmetric(a: string, b: string)
    requires Less(a, b)
    ensures !Less(b, a)
  {
    if Less(b, a) {
      LessTransitive(a, b, a);
      LessIrreflexive(a);
    }
  }
}
