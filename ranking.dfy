/** The Outlet_Identifier re-ranking of bigmart.py:37-47.  Each distinct
    identifier yields the number after its first four characters
    (`int(val[4:])`); the numbers are sorted, duplicates kept, and a dict
    comprehension maps each number to its position.  A later position
    overwrites an earlier one, so a number that several identifiers share
    keeps its LAST position.  Every row then gets the entry of its own number. */
module OutletRanking {
  import opened Cells
  import opened Collections
  import opened Sorting

  /** An identifier whose characters after the fourth are decimal digits,
      at least one, so `int(val[4:])` succeeds. */
  predicate WellFormedId(id: string)
  {
    |id| > 4 && AllDigits(id[4..])
  }

  predicate IdColumn(ids: seq<string>)
  {
    forall i :: 0 <= i < |ids| ==> WellFormedId(ids[i])
  }

  /** `int(val[4:])`: four characters are skipped, so "OUT049" reads "49".
      The number is below ten to the power of the count of characters left
      after the fourth. */
  function Suffix(id: string): (r: nat)
    requires WellFormedId(id)
    ensures r < Pow10(|id| - 4)
  {
    DigitsValue(id[4..])
  }

  function Suffixes(ids: seq<string>): (r: seq<int>)
    requires IdColumn(ids)
    ensures |r| == |ids|
  {
    seq(|ids|, i requires 0 <= i < |ids| => Suffix(ids[i]))
  }

  /** The distinct outlet numbers that occur in the column. */
  function SuffixSet(ids: seq<string>): set<int>
    requires IdColumn(ids)
  {
    Elements(Suffixes(ids))
  }

  /** No two different identifiers share a number. */
  predicate SuffixesUnique(ids: seq<string>)
    requires IdColumn(ids)
  {
    forall i, j :: 0 <= i < |ids| && 0 <= j < |ids| && Suffix(ids[i]) == Suffix(ids[j]) ==> ids[i] == ids[j]
  }

  /** `{v: i for i, v in enumerate(sorted)}`: each value maps to the last
      position at which it occurs. */
  function RankTable(sorted: seq<int>): (t: map<int, int>)
    ensures forall v :: v in t <==> v in sorted
    ensures forall v :: v in t ==> 0 <= t[v] < |sorted| && sorted[t[v]] == v
    ensures forall v, j :: v in t && t[v] < j < |sorted| ==> sorted[j] != v
  {
    if sorted == [] then map[]
    else
      var n := |sorted| - 1;
      assert sorted == sorted[..n] + [sorted[n]];
      RankTable(sorted[..n])[sorted[n] := n]
  }

  lemma DistinctIdsWellFormed(ids: seq<string>)
    requires IdColumn(ids)
    ensures IdColumn(Distinct(ids))
  {
    var u := Distinct(ids);
    forall k | 0 <= k < |u| ensures WellFormedId(u[k]) {
      assert u[k] in ids;
    }
  }

  /** The list handed to `enumerate`: the number of every distinct
      identifier, one entry per identifier (a number two identifiers share
      occurs twice), in ascending order. */
  function SortedSuffixes(ids: seq<string>): (sorted: seq<int>)
    requires IdColumn(ids)
    ensures Ascending(sorted)
    ensures |sorted| == |Distinct(ids)|
    ensures IdColumn(Distinct(ids)) && multiset(sorted) == multiset(Suffixes(Distinct(ids)))
  {
    DistinctIdsWellFormed(ids);
    var d := Suffixes(Distinct(ids));
    assert |multiset(SortInts(d))| == |multiset(d)|;
    SortInts(d)
  }

  /** The sorted numbers are exactly the numbers of the column. */
  lemma SortedSuffixesValues(ids: seq<string>)
    requires IdColumn(ids)
    ensures forall v :: v in SortedSuffixes(ids) <==> v in SuffixSet(ids)
  {
    DistinctIdsWellFormed(ids);
    var u := Distinct(ids);
    var d := Suffixes(u);
    var sorted := SortedSuffixes(ids);
    forall v ensures v in sorted <==> v in SuffixSet(ids) {
      assert v in sorted <==> v in multiset(sorted);
      assert v in d <==> v in multiset(d);
      if v in d {
        var k :| 0 <= k < |u| && d[k] == v;
        assert u[k] in ids;
        var i :| 0 <= i < |ids| && ids[i] == u[k];
        assert Suffixes(ids)[i] == v;
      }
      if v in SuffixSet(ids) {
        var i :| 0 <= i < |ids| && Suffixes(ids)[i] == v;
        assert ids[i] in u;
        var k :| 0 <= k < |u| && u[k] == ids[i];
        assert d[k] == v;
      }
    }
  }

  /** `outlet_identifier_filler` (bigmart.py:37-42): defined on every number
      of the column, strictly order-preserving, and below the number of
      distinct identifiers. */
  function OutletRankTable(ids: seq<string>): (t: map<int, int>)
    requires IdColumn(ids)
    ensures forall v :: v in t <==> v in SuffixSet(ids)
    ensures forall a, b :: a in t && b in t && a < b ==> t[a] < t[b]
    ensures forall v :: v in t ==> 0 <= t[v] < |Distinct(ids)|
  {
    SortedSuffixesValues(ids);
    RankTableMonotone(SortedSuffixes(ids));
    RankTable(SortedSuffixes(ids))
  }

  /** The table of an ascending list keeps the order of its keys. */
  lemma RankTableMonotone(sorted: seq<int>)
    requires Ascending(sorted)
    ensures forall a, b :: a in RankTable(sorted) && b in RankTable(sorted) && a < b ==>
      RankTable(sorted)[a] < RankTable(sorted)[b]
  {
    var t := RankTable(sorted);
    forall a, b | a in t && b in t && a < b ensures t[a] < t[b] {
      var i, j := t[a], t[b];
      assert sorted[i] == a && sorted[j] == b;
    }
  }

  /** Every number of the column has an entry in the table. */
  lemma RowsInTable(ids: seq<string>)
    requires IdColumn(ids)
    ensures forall i :: 0 <= i < |ids| ==> Suffix(ids[i]) in OutletRankTable(ids)
  {
    var t := OutletRankTable(ids);
    forall i | 0 <= i < |ids| ensures Suffix(ids[i]) in t {
      assert Suffixes(ids)[i] in SuffixSet(ids);
    }
  }

  /** Outlet_Identifier after the map of bigmart.py:45-47. */
  function OutletCodes(ids: seq<string>): (r: seq<int>)
    requires IdColumn(ids)
    ensures |r| == |ids|
    ensures forall i :: 0 <= i < |ids| ==> 0 <= r[i] < |Distinct(ids)|
    ensures forall i, j :: 0 <= i < |ids| && 0 <= j < |ids| && Suffix(ids[i]) == Suffix(ids[j]) ==> r[i] == r[j]
    ensures forall i, j :: 0 <= i < |ids| && 0 <= j < |ids| && Suffix(ids[i]) < Suffix(ids[j]) ==> r[i] < r[j]
  {
    var t := OutletRankTable(ids);
    RowsInTable(ids);
    seq(|ids|, i requires 0 <= i < |ids| => t[Suffix(ids[i])])
  }

  /** Without shared numbers the distinct identifiers give distinct numbers. */
  lemma {:induction false} UniqueSuffixesNoDup(ids: seq<string>)
    requires IdColumn(ids) && SuffixesUnique(ids)
    ensures IdColumn(Distinct(ids)) && NoDup(Suffixes(Distinct(ids)))
  {
    DistinctIdsWellFormed(ids);
    var u := Distinct(ids);
    var d := Suffixes(u);
    forall p, q | 0 <= p < q < |d| ensures d[p] != d[q] {
      assert u[p] in ids && u[q] in ids;
      var i :| 0 <= i < |ids| && ids[i] == u[p];
      var j :| 0 <= j < |ids| && ids[j] == u[q];
      assert Suffix(ids[i]) == d[p] && Suffix(ids[j]) == d[q];
    }
  }

  /** In a strictly ascending list the entry of the k-th value is k. */
  lemma StrictRankEntry(sorted: seq<int>, k: nat)
    requires StrictlyAscending(sorted) && k < |sorted|
    ensures sorted[k] in RankTable(sorted) && RankTable(sorted)[sorted[k]] == k
  {
    assert sorted[k] in sorted;
  }

  /** In a strictly ascending list exactly k values are below the k-th. */
  lemma StrictCountBelow(sorted: seq<int>, k: nat)
    requires StrictlyAscending(sorted) && k < |sorted|
    ensures |set w | w in Elements(sorted) && w < sorted[k]| == k
  {
    var prefix := sorted[..k];
    var below := set w | w in Elements(sorted) && w < sorted[k];
    forall w | w in below ensures w in prefix {
      var m :| 0 <= m < |sorted| && sorted[m] == w;
      assert m < k;
      assert prefix[m] == w;
    }
    forall w | w in prefix ensures w in below {
      var m :| 0 <= m < k && prefix[m] == w;
      assert sorted[m] == w;
    }
    assert below == Elements(prefix);
    assert NoDup(prefix) by {
      forall p, q | 0 <= p < q < |prefix| ensures prefix[p] != prefix[q] {
        assert prefix[p] == sorted[p] && prefix[q] == sorted[q];
      }
    }
    NoDupCard(prefix);
  }

  /** The table of a strictly ascending list is a bijection from its values
      onto 0..n-1, and the entry of a value counts the values below it. */
  lemma StrictTableBijective(sorted: seq<int>)
    requires StrictlyAscending(sorted)
    ensures var t := RankTable(sorted);
      && (forall v :: v in t ==> t[v] < |Elements(sorted)|)
      && (forall v :: v in t ==> t[v] == |set w | w in Elements(sorted) && w < v|)
      && (forall k :: 0 <= k < |Elements(sorted)| ==> k in t.Values)
  {
    var t := RankTable(sorted);
    assert NoDup(sorted);
    NoDupCard(sorted);
    forall v | v in t ensures t[v] == |set w | w in Elements(sorted) && w < v| {
      StrictCountBelow(sorted, t[v]);
    }
    forall k | 0 <= k < |Elements(sorted)| ensures k in t.Values {
      StrictRankEntry(sorted, k);
    }
  }

  /** Without shared numbers the table is a bijection from the distinct
      numbers onto 0..k-1, k the number of distinct numbers, and the code of
      a number is how many distinct numbers are smaller. */
  lemma RankTableBijective(ids: seq<string>)
    requires IdColumn(ids) && SuffixesUnique(ids)
    ensures var t := OutletRankTable(ids);
      && (forall v :: v in t ==> 0 <= t[v] < |SuffixSet(ids)|)
      && (forall v :: v in t ==> t[v] == |set w | w in SuffixSet(ids) && w < v|)
      && (forall k :: 0 <= k < |SuffixSet(ids)| ==> k in t.Values)
  {
    var sorted := SortedSuffixes(ids);
    var t := OutletRankTable(ids);
    assert t == RankTable(sorted);
    UniqueSuffixesNoDup(ids);
    SortedSuffixesValues(ids);
    var values := SuffixSet(ids);
    assert Elements(sorted) == values;
    StrictTableBijective(sorted);
    forall v | v in t ensures t[v] == |set w | w in values && w < v| {
      assert (set w | w in values && w < v) == (set w | w in Elements(sorted) && w < v);
    }
  }

  /** Without shared numbers the codes are dense: each lies in 0..k-1 and
      each of 0..k-1 is the code of some row. */
  lemma OutletCodesDense(ids: seq<string>)
    requires IdColumn(ids) && SuffixesUnique(ids)
    ensures forall i :: 0 <= i < |ids| ==> 0 <= OutletCodes(ids)[i] < |SuffixSet(ids)|
    ensures forall k :: 0 <= k < |SuffixSet(ids)| ==> k in OutletCodes(ids)
  {
    var t := OutletRankTable(ids);
    var r := OutletCodes(ids);
    RankTableBijective(ids);
    forall i | 0 <= i < |ids| ensures 0 <= r[i] < |SuffixSet(ids)| {
      assert Suffixes(ids)[i] in SuffixSet(ids);
    }
    forall k | 0 <= k < |SuffixSet(ids)| ensures k in r {
      assert k in t.Values;
      var v :| v in t && t[v] == k;
      var i :| 0 <= i < |ids| && Suffixes(ids)[i] == v;
      assert r[i] == k;
    }
  }

  /** "OUT049" reads 49: skipping four characters drops the "0" together
      with "OUT". */
  lemma SuffixOfOut049()
    ensures WellFormedId("OUT049") && Suffix("OUT049") == 49
  {
    assert "OUT049"[4..] == "49";
    assert "49"[..1] == "4";
    assert "4"[..0] == "";
    assert DigitsValue("4") == 4;
    assert DigitsValue("49") == 49;
  }

  /** OUT049, OUT018, OUT049, OUT010 become 2, 1, 2, 0. */
  lemma FourRowExample()
    ensures IdColumn(["OUT049", "OUT018", "OUT049", "OUT010"])
    ensures OutletCodes(["OUT049", "OUT018", "OUT049", "OUT010"]) == [2, 1, 2, 0]
  {
    SuffixOf("OUT049", '4', '9');
    SuffixOf("OUT018", '1', '8');
    SuffixOf("OUT010", '1', '0');
    ThreeOutletsRepeatingFirst("OUT049", "OUT018", "OUT010");
  }

  /** Rows a, b, a, c whose numbers descend from a to c get 2, 1, 2, 0. */
  lemma ThreeOutletsRepeatingFirst(a: string, b: string, c: string)
    requires WellFormedId(a) && WellFormedId(b) && WellFormedId(c)
    requires Suffix(c) < Suffix(b) < Suffix(a)
    ensures IdColumn([a, b, a, c])
    ensures OutletCodes([a, b, a, c]) == [2, 1, 2, 0]
  {
    ThreeOutletsTable(a, b, c);
    FourRowCodes([a, b, a, c], Suffix(a), Suffix(b), Suffix(c));
  }

  /** Four rows numbered x, y, x, z, with z < y < x, under the table
      z -> 0, y -> 1, x -> 2. */
  lemma FourRowCodes(ids: seq<string>, x: int, y: int, z: int)
    requires IdColumn(ids) && |ids| == 4 && z < y < x
    requires Suffix(ids[0]) == x && Suffix(ids[1]) == y && Suffix(ids[2]) == x && Suffix(ids[3]) == z
    requires OutletRankTable(ids) == map[z := 0][y := 1][x := 2]
    ensures OutletCodes(ids) == [2, 1, 2, 0]
  {
    var m, codes := map[z := 0][y := 1][x := 2], [2, 1, 2, 0];
    assert m[x] == 2 && m[y] == 1 && m[z] == 0;
    forall i | 0 <= i < |ids| ensures Suffix(ids[i]) in m && m[Suffix(ids[i])] == codes[i] {
      if i == 0 {
      } else if i == 1 {
      } else if i == 2 {
      } else {
        assert i == 3;
      }
    }
    CodesFromTable(ids, m, codes);
  }

  /** The codes of a column whose table is known: each row gets the
      entry of its own number. */
  lemma CodesFromTable(ids: seq<string>, m: map<int, int>, codes: seq<int>)
    requires IdColumn(ids) && OutletRankTable(ids) == m && |codes| == |ids|
    requires forall i :: 0 <= i < |ids| ==> Suffix(ids[i]) in m && m[Suffix(ids[i])] == codes[i]
    ensures OutletCodes(ids) == codes
  {
  }

  lemma ThreeOutletsTable(a: string, b: string, c: string)
    requires WellFormedId(a) && WellFormedId(b) && WellFormedId(c)
    requires Suffix(c) < Suffix(b) < Suffix(a)
    ensures IdColumn([a, b, a, c])
    ensures OutletRankTable([a, b, a, c]) == map[Suffix(c) := 0][Suffix(b) := 1][Suffix(a) := 2]
  {
    ThreeOutletsSorted(a, b, c);
    TableOne(Suffix(c));
    TableThree(Suffix(c), Suffix(b), Suffix(a));
  }

  lemma ThreeOutletsSorted(a: string, b: string, c: string)
    requires WellFormedId(a) && WellFormedId(b) && WellFormedId(c)
    requires Suffix(c) < Suffix(b) < Suffix(a)
    ensures IdColumn([a, b, a, c])
    ensures SortedSuffixes([a, b, a, c]) == [Suffix(c), Suffix(b), Suffix(a)]
  {
    var ids := [a, b, a, c];
    ThreeOutletsDistinct(a, b, c);
    DistinctIdsWellFormed(ids);
    assert Suffixes([a, b, c]) == [Suffix(a), Suffix(b), Suffix(c)];
    SortThreeDescending(Suffix(a), Suffix(b), Suffix(c));
  }

  lemma ThreeOutletsDistinct(a: string, b: string, c: string)
    requires a != b && b != c && a != c
    ensures Distinct([a, b, a, c]) == [a, b, c]
  {
    assert [a, b, a, c][..3] == [a, b, a] && [a, b, a][..2] == [a, b] && [a, b][..1] == [a] && [a][..0] == [];
    assert Distinct([a]) == [a];
    assert Distinct([a, b, a]) == [a, b];
  }

  /** OUT049 and OUT149 both read 49, so the sorted list is [10, 49, 49],
      49 keeps position 2, and the codes skip 1: with two distinct numbers
      a row gets code 2. */
  lemma SharedSuffixExample()
    ensures IdColumn(["OUT049", "OUT149", "OUT010"])
    ensures OutletCodes(["OUT049", "OUT149", "OUT010"]) == [2, 2, 0]
    ensures |SuffixSet(["OUT049", "OUT149", "OUT010"])| == 2
  {
    SuffixOf("OUT049", '4', '9');
    SuffixOf("OUT149", '4', '9');
    SuffixOf("OUT010", '1', '0');
    TwoOutletsSharingANumber("OUT049", "OUT149", "OUT010");
  }

  /** Different identifiers a and b with one number, above that of c. */
  lemma TwoOutletsSharingANumber(a: string, b: string, c: string)
    requires WellFormedId(a) && WellFormedId(b) && WellFormedId(c)
    requires a != b && Suffix(a) == Suffix(b) && Suffix(c) < Suffix(a)
    ensures IdColumn([a, b, c])
    ensures OutletCodes([a, b, c]) == [2, 2, 0]
    ensures |SuffixSet([a, b, c])| == 2
  {
    var ids := [a, b, c];
    SharedNumberTable(a, b, c);
    CodesFromTable(ids, map[Suffix(c) := 0][Suffix(a) := 2], [2, 2, 0]);
    SharedNumberCount(a, b, c);
  }

  lemma SharedNumberCount(a: string, b: string, c: string)
    requires WellFormedId(a) && WellFormedId(b) && WellFormedId(c)
    requires Suffix(a) == Suffix(b) && Suffix(c) < Suffix(a)
    ensures IdColumn([a, b, c])
    ensures |SuffixSet([a, b, c])| == 2
  {
    assert Suffixes([a, b, c]) == [Suffix(a), Suffix(a), Suffix(c)];
    assert SuffixSet([a, b, c]) == {Suffix(a), Suffix(c)};
  }

  lemma SharedNumberTable(a: string, b: string, c: string)
    requires WellFormedId(a) && WellFormedId(b) && WellFormedId(c)
    requires a != b && Suffix(a) == Suffix(b) && Suffix(c) < Suffix(a)
    ensures IdColumn([a, b, c])
    ensures OutletRankTable([a, b, c]) == map[Suffix(c) := 0][Suffix(a) := 2]
  {
    SharedNumberSorted(a, b, c);
    TableOne(Suffix(c));
    TableThree(Suffix(c), Suffix(a), Suffix(a));
  }

  lemma SharedNumberSorted(a: string, b: string, c: string)
    requires WellFormedId(a) && WellFormedId(b) && WellFormedId(c)
    requires a != b && Suffix(a) == Suffix(b) && Suffix(c) < Suffix(a)
    ensures IdColumn([a, b, c])
    ensures SortedSuffixes([a, b, c]) == [Suffix(c), Suffix(a), Suffix(a)]
  {
    var ids := [a, b, c];
    ThreeDistinct(a, b, c);
    assert Suffixes(ids) == [Suffix(a), Suffix(a), Suffix(c)];
    SortThreeDescending'(Suffix(a), Suffix(c));
  }

  lemma ThreeDistinct(a: string, b: string, c: string)
    requires a != b && b != c && a != c
    ensures Distinct([a, b, c]) == [a, b, c]
  {
    assert [a, b, c][..2] == [a, b] && [a, b][..1] == [a] && [a][..0] == [];
    assert Distinct([a]) == [a];
    assert Distinct([a, b]) == [a, b];
  }

  lemma SortThreeDescending(x: int, y: int, z: int)
    requires z < y < x
    ensures SortInts([x, y, z]) == [z, y, x]
  {
    assert [x, y, z][1..] == [y, z];
    SortTwo(y, z);
    InsertAfterTwo(x, z, y);
  }

  lemma SortThreeDescending'(x: int, z: int)
    requires z < x
    ensures SortInts([x, x, z]) == [z, x, x]
  {
    assert [x, x, z][1..] == [x, z];
    SortTwo(x, z);
    InsertAfterTwo(x, z, x);
  }

  lemma SortTwo(a: int, b: int)
    requires b < a
    ensures SortInts([a, b]) == [b, a]
  {
    assert [a, b][1..] == [b] && [b][1..] == [];
    assert SortInts([b]) == [b];
  }

  lemma InsertAfterTwo(x: int, a: int, b: int)
    requires a < x && b <= x
    ensures InsertInt(x, [a, b]) == [a, b, x]
  {
    assert [a, b][1..] == [b] && [b][1..] == [];
    assert InsertInt(x, [b]) == [b, x];
  }

  lemma TableOne(a: int)
    ensures RankTable([a]) == map[a := 0]
  {
    assert [a][..0] == [];
  }

  lemma TableTwo(a: int, b: int)
    ensures RankTable([a, b]) == RankTable([a])[b := 1]
  {
    assert [a, b][..1] == [a];
  }

  lemma TableThree(a: int, b: int, c: int)
    ensures RankTable([a, b, c]) == RankTable([a])[b := 1][c := 2]
  {
    assert [a, b, c][..2] == [a, b];
    TableTwo(a, b);
  }

  lemma SuffixOf(id: string, tens: char, ones: char)
    requires |id| == 6 && IsDigit(id[4]) && IsDigit(id[5]) && id[4] == tens && id[5] == ones
    ensures WellFormedId(id) && Suffix(id) == DigitValue(tens) * 10 + DigitValue(ones)
  {
    var d := id[4..];
    assert d == [tens, ones];
    assert d[..1] == [tens] && [tens][..0] == [];
    assert DigitsValue([tens]) == DigitValue(tens);
  }
}
