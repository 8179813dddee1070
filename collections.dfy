/** Sequence facts shared by the encoders: `Series.unique()` and the set
    of distinct values of a column. */
module Collections {

  /** No value occurs twice. */
  predicate NoDup<T(==)>(s: seq<T>)
  {
    forall i, j :: 0 <= i < j < |s| ==> s[i] != s[j]
  }

  /** The set of values of a sequence. */
  function Elements<T(!new)>(s: seq<T>): set<T>
  {
    set x | x in s
  }

  /** `Series.unique()`: the distinct values in order of first appearance. */
  function Distinct<T(==,!new)>(s: seq<T>): (r: seq<T>)
    ensures NoDup(r)
    ensures forall x :: x in r <==> x in s
    ensures |r| <= |s|
    decreases |s|
  {
    if s == [] then []
    else
      var init := s[..|s| - 1];
      assert s == init + [s[|s| - 1]];
      var p := Distinct(init);
      if s[|s| - 1] in p then p else p + [s[|s| - 1]]
  }

  /** A sequence without repetitions has as many elements as values. */
  lemma {:induction false} NoDupCard<T(!new)>(s: seq<T>)
    requires NoDup(s)
    ensures |Elements(s)| == |s|
  {
    if s != [] {
      var init := s[..|s| - 1];
      assert s == init + [s[|s| - 1]];
      assert Elements(s) == Elements(init) + {s[|s| - 1]};
      assert s[|s| - 1] !in Elements(init);
      NoDupCard(init);
    } else {
      assert Elements(s) == {};
    }
  }
}
