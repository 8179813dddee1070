/** The two orderings the program sorts by: Python's `sorted` on the
    decoded outlet numbers, and NumPy's code-point order on strings, which
    LabelEncoder uses to fix its classes. */
module Sorting {
  import opened Collections

  predicate Ascending(s: seq<int>)
  {
    forall i, j :: 0 <= i < j < |s| ==> s[i] <= s[j]
  }

  predicate StrictlyAscending(s: seq<int>)
  {
    forall i, j :: 0 <= i < j < |s| ==> s[i] < s[j]
  }

  /** One step of insertion sort: `x` goes before the first larger-or-equal value. */
  function InsertInt(x: int, s: seq<int>): (r: seq<int>)
    ensures multiset(r) == multiset(s) + multiset{x}
    ensures forall y :: y in r <==> y == x || y in s
  {
    if s == [] || x <= s[0] then [x] + s
    else
      assert s == [s[0]] + s[1..];
      [s[0]] + InsertInt(x, s[1..])
  }

  lemma {:induction false} InsertIntAscending(x: int, s: seq<int>)
    requires Ascending(s)
    ensures Ascending(InsertInt(x, s))
  {
    if s != [] && x > s[0] {
      var rest := InsertInt(x, s[1..]);
      InsertIntAscending(x, s[1..]);
      forall y | y in rest ensures s[0] <= y {
        if y != x {
          var m :| 0 <= m < |s| - 1 && s[1..][m] == y;
          assert s[m + 1] == y;
        }
      }
      var r := [s[0]] + rest;
      assert InsertInt(x, s) == r;
      forall i, j | 0 <= i < j < |r| ensures r[i] <= r[j] {
        if i == 0 {
          assert r[j] in rest;
        } else {
          assert r[i] == rest[i - 1] && r[j] == rest[j - 1];
        }
      }
    }
  }

  lemma {:induction false} InsertIntStrict(x: int, s: seq<int>)
    ensures StrictlyAscending(s) && x !in s ==> StrictlyAscending(InsertInt(x, s))
  {
    if StrictlyAscending(s) && x !in s && s != [] && x > s[0] {
      var rest := InsertInt(x, s[1..]);
      InsertIntStrict(x, s[1..]);
      var r := [s[0]] + rest;
      assert InsertInt(x, s) == r;
      forall i, j | 0 <= i < j < |r| ensures r[i] < r[j] {
        if i == 0 {
          assert r[j] in rest;
        } else {
          assert r[i] == rest[i - 1] && r[j] == rest[j - 1];
        }
      }
    }
  }

  /** Python's `sorted` on a list of integers: an ascending permutation,
      duplicates kept. */
  function SortInts(s: seq<int>): (r: seq<int>)
    ensures Ascending(r)
    ensures multiset(r) == multiset(s)
    ensures NoDup(s) ==> StrictlyAscending(r)
  {
    if s == [] then []
    else
      assert s == [s[0]] + s[1..];
      var rest := SortInts(s[1..]);
      assert s[0] in rest <==> s[0] in s[1..] by {
        assert s[0] in rest <==> s[0] in multiset(rest);
      }
      InsertIntAscending(s[0], rest);
      InsertIntStrict(s[0], rest);
      InsertInt(s[0], rest)
  }

  /** Code-point lexicographic order of strings; a proper prefix comes first. */
  predicate StrLess(a: string, b: string)
  {
    if |a| == 0 then |b| > 0
    else |b| > 0 && (a[0] < b[0] || (a[0] == b[0] && StrLess(a[1..], b[1..])))
  }

  lemma {:induction false} StrLessIrreflexive(a: string)
    ensures !StrLess(a, a)
  {
    if |a| > 0 {
      StrLessIrreflexive(a[1..]);
    }
  }

  lemma {:induction false} StrLessTransitive(a: string, b: string, c: string)
    requires StrLess(a, b) && StrLess(b, c)
    ensures StrLess(a, c)
  {
    if |a| > 0 && a[0] == b[0] && b[0] == c[0] {
      StrLessTransitive(a[1..], b[1..], c[1..]);
    }
  }

  lemma {:induction false} StrLessTotal(a: string, b: string)
    requires a != b
    ensures StrLess(a, b) || StrLess(b, a)
  {
    if |a| > 0 && |b| > 0 && a[0] == b[0] {
      assert a == [a[0]] + a[1..];
      assert b == [b[0]] + b[1..];
      StrLessTotal(a[1..], b[1..]);
    }
  }

  predicate StrictlySorted(s: seq<string>)
  {
    forall i, j :: 0 <= i < j < |s| ==> StrLess(s[i], s[j])
  }

  /** In a strictly sorted list the order of two values is the order of
      their positions. */
  lemma SortedPositions(s: seq<string>)
    requires StrictlySorted(s)
    ensures forall i, j :: 0 <= i < |s| && 0 <= j < |s| && StrLess(s[i], s[j]) ==> i < j
  {
    forall i, j | 0 <= i < |s| && 0 <= j < |s| && StrLess(s[i], s[j]) ensures i < j {
      StrLessIrreflexive(s[i]);
      if j < i {
        StrLessTransitive(s[i], s[j], s[i]);
      }
    }
  }

  /** A strictly sorted list has no repetitions. */
  lemma SortedNoDup(s: seq<string>)
    requires StrictlySorted(s)
    ensures NoDup(s)
  {
    forall i, j | 0 <= i < j < |s| ensures s[i] != s[j] {
      StrLessIrreflexive(s[i]);
    }
  }

  lemma SortedPrepend(x: string, s: seq<string>)
    requires StrictlySorted(s) && s != [] && StrLess(x, s[0])
    ensures StrictlySorted([x] + s)
  {
    var r := [x] + s;
    forall i, j | 0 <= i < j < |r| ensures StrLess(r[i], r[j]) {
      if i == 0 && j > 1 {
        StrLessTransitive(x, s[0], s[j - 1]);
      }
    }
  }

  function InsertString(x: string, s: seq<string>): (r: seq<string>)
    requires StrictlySorted(s) && x !in s
    ensures StrictlySorted(r)
    ensures forall y :: y in r <==> y == x || y in s
    ensures |r| == |s| + 1
  {
    if s == [] then [x]
    else if StrLess(x, s[0]) then
      SortedPrepend(x, s);
      [x] + s
    else
      var rest := InsertString(x, s[1..]);
      StrLessTotal(x, s[0]);
      assert forall y :: y in rest ==> StrLess(s[0], y);
      [s[0]] + rest
  }

  /** The distinct strings of `s` in ascending order. */
  function SortStrings(s: seq<string>): (r: seq<string>)
    requires NoDup(s)
    ensures StrictlySorted(r)
    ensures forall y :: y in r <==> y in s
    ensures |r| == |s|
  {
    if s == [] then []
    else
      assert s == [s[0]] + s[1..];
      InsertString(s[0], SortStrings(s[1..]))
  }
}
