/** `LabelEncoder().fit_transform` on one string column (bigmart.py:60-62):
    the classes are the distinct values in ascending order, and each value
    is replaced by its position among them. */
module LabelEncoding {
  import opened Collections
  import opened Sorting

  /** `LabelEncoder.classes_`: the distinct values, ascending. */
  function Classes(col: seq<string>): (c: seq<string>)
    ensures StrictlySorted(c)
    ensures forall x :: x in c <==> x in col
    ensures |c| == |Elements(col)|
  {
    var u := Distinct(col);
    NoDupCard(u);
    assert Elements(u) == Elements(col);
    SortStrings(u)
  }

  /** Position of a value in the classes. */
  function IndexOf(c: seq<string>, x: string): (k: int)
    requires x in c
    ensures 0 <= k < |c| && c[k] == x
  {
    if c[0] == x then 0 else 1 + IndexOf(c[1..], x)
  }

  /** The encoded column: `Classes(col)` decodes every code back to its
      value (inverse_transform), equal values share a code and different
      values do not, and codes follow the order of the values. */
  function LabelEncode(col: seq<string>): (r: seq<int>)
    ensures |r| == |col|
    ensures forall i :: 0 <= i < |col| ==> 0 <= r[i] < |Classes(col)| && Classes(col)[r[i]] == col[i]
    ensures forall i, j :: 0 <= i < |col| && 0 <= j < |col| ==> (r[i] == r[j] <==> col[i] == col[j])
    ensures forall i, j :: 0 <= i < |col| && 0 <= j < |col| && StrLess(col[i], col[j]) ==> r[i] < r[j]
  {
    var c := Classes(col);
    SortedPositions(c);
    seq(|col|, i requires 0 <= i < |col| => IndexOf(c, col[i]))
  }

  /** The codes are dense: every code lies in 0..k-1, k the number of
      distinct values, and every one of 0..k-1 is used by some row. */
  lemma LabelCodesDense(col: seq<string>)
    ensures forall i :: 0 <= i < |col| ==> 0 <= LabelEncode(col)[i] < |Elements(col)|
    ensures forall k :: 0 <= k < |Elements(col)| ==> k in LabelEncode(col)
  {
    var c := Classes(col);
    var r := LabelEncode(col);
    forall k | 0 <= k < |c| ensures k in r {
      assert c[k] in col;
      var i :| 0 <= i < |col| && col[i] == c[k];
      SortedNoDup(c);
      assert c[r[i]] == c[k];
    }
  }

  /** Item_Type = ["Dairy", "Meat", "Dairy", "Breads"] becomes [1, 2, 1, 0]. */
  lemma LabelEncodeExample()
    ensures LabelEncode(["Dairy", "Meat", "Dairy", "Breads"]) == [1, 2, 1, 0]
  {
    assert StrLess("Breads", "Dairy") && StrLess("Dairy", "Meat");
    MiddleSmallestLargest("Dairy", "Meat", "Breads");
  }

  /** Rows a, b, a, c with c < a < b are coded 1, 2, 1, 0. */
  lemma MiddleSmallestLargest(a: string, b: string, c: string)
    requires StrLess(c, a) && StrLess(a, b)
    ensures LabelEncode([a, b, a, c]) == [1, 2, 1, 0]
  {
    StrLessIrreflexive(a);
    StrLessIrreflexive(c);
    StrLessTransitive(c, a, b);
    var col := [a, b, a, c];
    ThreeValues(a, b, c);
    var r := LabelEncode(col);
    assert r[3] < r[0] < r[1] && r[2] == r[0];
    CodesOfThree(r);
  }

  /** Four codes in 0..2 with r[3] < r[0] < r[1] and r[2] == r[0]. */
  lemma CodesOfThree(r: seq<int>)
    requires |r| == 4 && forall i :: 0 <= i < 4 ==> 0 <= r[i] < 3
    requires r[3] < r[0] < r[1] && r[2] == r[0]
    ensures r == [1, 2, 1, 0]
  {
  }

  lemma ThreeValues(a: string, b: string, c: string)
    requires a != b && b != c && a != c
    ensures |Elements([a, b, a, c])| == 3
  {
    assert Elements([a, b, a, c]) == {a, b, c};
  }
}
