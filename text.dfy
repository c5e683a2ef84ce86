/** Python string behaviour the dashboard relies on: stripping whitespace,
    deleting every U+FEFF, and the code-point order `sorted` uses. */
module Text {
  import opened Seqs

  /** The byte-order mark U+FEFF that a UTF-8 export may leave in a header. */
  const Bom: char := '\U{FEFF}'

  /** Python's `str.isspace()`: the characters `str.strip()` removes by default.
      U+FEFF is not one of them. */
  predicate IsSpace(c: char)
  {
    || '\U{0009}' <= c <= '\U{000D}'
    || '\U{001C}' <= c <= '\U{0020}'
    || c == '\U{0085}' || c == '\U{00A0}' || c == '\U{1680}'
    || '\U{2000}' <= c <= '\U{200A}'
    || c == '\U{2028}' || c == '\U{2029}' || c == '\U{202F}' || c == '\U{205F}'
    || c == '\U{3000}'
  }

  predicate AllSpace(s: string)
  {
    forall k | 0 <= k < |s| :: IsSpace(s[k])
  }

  /** Every U+FEFF deleted; every other character kept, in order and with
      its multiplicity. */
  function RemoveBom(s: string): (r: string)
    ensures Bom !in r
    ensures Subseq(r, s)
    ensures forall c | c != Bom :: multiset(r)[c] == multiset(s)[c]
  {
    if s == [] then []
    else
      assert s == [s[0]] + s[1..];
      if s[0] == Bom then
        var r := RemoveBom(s[1..]);
        assert Subseq(r, s[1..]);
        r
      else [s[0]] + RemoveBom(s[1..])
  }

  /** Deleting U+FEFF from a concatenation deletes it from each part. */
  lemma {:induction false} RemoveBomAppend(x: string, y: string)
    ensures RemoveBom(x + y) == RemoveBom(x) + RemoveBom(y)
  {
    if x == [] {
      assert x + y == y;
    } else {
      assert (x + y)[0] == x[0] && (x + y)[1..] == x[1..] + y;
      RemoveBomAppend(x[1..], y);
      if x[0] != Bom {
        var a, b := RemoveBom(x[1..]), RemoveBom(y);
        assert [x[0]] + (a + b) == ([x[0]] + a) + b;
      }
    }
  }

  /** Index of the first non-space character at or after `i` (or `|s|`). */
  function SkipLeading(s: string, i: nat): (k: nat)
    requires i <= |s|
    ensures i <= k <= |s|
    ensures forall m | i <= m < k :: IsSpace(s[m])
    ensures k < |s| ==> !IsSpace(s[k])
    decreases |s| - i
  {
    if i < |s| && IsSpace(s[i]) then SkipLeading(s, i + 1) else i
  }

  /** One past the last non-space character in `s[lo..j]` (or `lo`). */
  function SkipTrailing(s: string, lo: nat, j: nat): (k: nat)
    requires lo <= j <= |s|
    ensures lo <= k <= j
    ensures forall m | k <= m < j :: IsSpace(s[m])
    ensures lo < k ==> !IsSpace(s[k - 1])
    decreases j
  {
    if lo < j && IsSpace(s[j - 1]) then SkipTrailing(s, lo, j - 1) else j
  }

  /** `s.strip()`: the slice left after dropping leading and trailing whitespace. */
  function Strip(s: string): (r: string)
    ensures r != [] ==> !IsSpace(r[0]) && !IsSpace(r[|r| - 1])
    ensures r == [] <==> AllSpace(s)
    ensures exists i, j | 0 <= i <= j <= |s| :: r == s[i..j] && AllSpace(s[..i]) && AllSpace(s[j..])
  {
    var i := SkipLeading(s, 0);
    var j := SkipTrailing(s, i, |s|);
    assert AllSpace(s[..i]) && AllSpace(s[j..]);
    s[i..j]
  }

  /** Whitespace around a stripped string is exactly what `strip` removes. */
  lemma StripPadded(a: string, t: string, b: string)
    requires AllSpace(a) && AllSpace(b)
    requires t != [] ==> !IsSpace(t[0]) && !IsSpace(t[|t| - 1])
    ensures Strip(a + t + b) == t
  {
    var s := a + t + b;
    if t == [] {
      assert AllSpace(s) by {
        forall k | 0 <= k < |s| ensures IsSpace(s[k]) {
          if k < |a| { assert s[k] == a[k]; } else { assert s[k] == b[k - |a|]; }
        }
      }
    } else {
      var i := SkipLeading(s, 0);
      assert s[|a|] == t[0];
      assert forall m | 0 <= m < |a| :: s[m] == a[m];
      assert i == |a|;
      var e := |a| + |t|;
      var j := SkipTrailing(s, i, |s|);
      assert s[e - 1] == t[|t| - 1];
      assert forall m | e <= m < |s| :: s[m] == b[m - e];
      assert j == e;
      assert s[i..j] == t;
    }
  }

  /** A string already stripped is its own strip. */
  lemma StripStripped(s: string)
    requires s != [] ==> !IsSpace(s[0]) && !IsSpace(s[|s| - 1])
    ensures Strip(s) == s
  {
    if s != [] {
      assert SkipLeading(s, 0) == 0;
      assert SkipTrailing(s, 0, |s|) == |s|;
    }
  }

  // ----- The order Python's `sorted` puts strings in -----

  /** `a <= b` on Python strings: code point by code point, a prefix first. */
  predicate LexLe(a: string, b: string)
    decreases |a|
  {
    a == [] || (b != [] && (a[0] < b[0] || (a[0] == b[0] && LexLe(a[1..], b[1..]))))
  }

  lemma {:induction false} LexLeTotal(a: string, b: string)
    ensures LexLe(a, b) || LexLe(b, a)
    decreases |a|
  {
    if a != [] && b != [] && a[0] == b[0] {
      LexLeTotal(a[1..], b[1..]);
    }
  }

  lemma {:induction false} LexLeTransitive(a: string, b: string, c: string)
    requires LexLe(a, b) && LexLe(b, c)
    ensures LexLe(a, c)
    decreases |a|
  {
    if a != [] && a[0] == b[0] && b[0] == c[0] {
      LexLeTransitive(a[1..], b[1..], c[1..]);
    }
  }

  predicate Sorted(s: seq<string>)
  {
    forall i, j | 0 <= i < j < |s| :: LexLe(s[i], s[j])
  }

  /** Sorted with no element twice, as a list of filter choices ought to be. */
  predicate StrictlySorted(s: seq<string>)
  {
    forall i, j | 0 <= i < j < |s| :: LexLe(s[i], s[j]) && s[i] != s[j]
  }

  function Insert(x: string, s: seq<string>): (r: seq<string>)
    requires Sorted(s)
    ensures Sorted(r)
    ensures multiset(r) == multiset(s) + multiset{x}
    ensures Distinct(s) && x !in s ==> Distinct(r)
  {
    if s == [] then [x]
    else if LexLe(x, s[0]) then
      InsertFront(x, s);
      [x] + s
    else
      var t := Insert(x, s[1..]);
      InsertBehind(x, s, t);
      [s[0]] + t
  }

  lemma InsertFront(x: string, s: seq<string>)
    requires Sorted(s) && s != [] && LexLe(x, s[0])
    ensures Sorted([x] + s)
    ensures multiset([x] + s) == multiset(s) + multiset{x}
  {
    forall j | 0 < j < |s| ensures LexLe(x, s[j]) { LexLeTransitive(x, s[0], s[j]); }
  }

  lemma InsertBehind(x: string, s: seq<string>, t: seq<string>)
    requires Sorted(s) && s != [] && !LexLe(x, s[0])
    requires Sorted(t) && multiset(t) == multiset(s[1..]) + multiset{x}
    requires Distinct(s[1..]) && x !in s[1..] ==> Distinct(t)
    ensures Sorted([s[0]] + t)
    ensures multiset([s[0]] + t) == multiset(s) + multiset{x}
    ensures Distinct(s) && x !in s ==> Distinct([s[0]] + t)
  {
    assert s == [s[0]] + s[1..];
    LexLeTotal(x, s[0]);
    forall y | y in t ensures LexLe(s[0], y) {
      assert y in multiset(t);
      if y != x {
        assert y in multiset(s[1..]);
      }
    }
    if Distinct(s) && x !in s {
      assert s[0] !in multiset(s[1..]);
      assert s[0] !in t by {
        assert s[0] !in multiset(t);
      }
    }
  }

  /** Python's `sorted` on strings: ordered, and a permutation of the input. */
  function SortStrings(xs: seq<string>): (r: seq<string>)
    ensures Sorted(r)
    ensures multiset(r) == multiset(xs)
    ensures Distinct(xs) ==> Distinct(r)
  {
    if xs == [] then []
    else
      var t := SortStrings(xs[1..]);
      SortStep(xs, t);
      Insert(xs[0], t)
  }

  /** The head of a list and a permutation of its tail make up the list. */
  lemma SortStep(xs: seq<string>, t: seq<string>)
    requires xs != [] && multiset(t) == multiset(xs[1..])
    ensures multiset(t) + multiset{xs[0]} == multiset(xs)
    ensures Distinct(xs) ==> Distinct(xs[1..]) && xs[0] !in t
  {
    assert xs == [xs[0]] + xs[1..];
    if Distinct(xs) {
      assert xs[0] !in xs[1..];
      assert xs[0] !in multiset(t);
    }
  }

  lemma SortedDistinctIsStrict(s: seq<string>)
    requires Sorted(s) && Distinct(s)
    ensures StrictlySorted(s)
  {
  }
}
