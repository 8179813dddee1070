/** The fixed label rewrites of prepare_dataset: the two-stage
    Item_Fat_Content replacement, the Outlet_Size codes, the Grocery Store
    code and the trailing-digit decoding of the outlet location and type. */
module Categories {
  import opened Cells
  import opened ForwardFill

  /** First Item_Fat_Content replacement (bigmart.py:23-27): synonyms to
      their canonical spelling. */
  const FatSynonyms: map<Cell, Cell> :=
    map[Str("low fat") := Str("Low Fat"), Str("LF") := Str("Low Fat"), Str("reg") := Str("Regular")]

  /** Second Item_Fat_Content replacement (bigmart.py:30). */
  const FatCodes: map<Cell, Cell> := map[Str("Low Fat") := Int(0), Str("Regular") := Int(1)]

  /** Outlet_Size replacement (bigmart.py:31). */
  const SizeCodes: map<Cell, Cell> := map[Str("Small") := Int(0), Str("Medium") := Int(1), Str("High") := Int(2)]

  /** Outlet_Type replacement (bigmart.py:34). */
  const GroceryCode: map<Cell, Cell> := map[Str("Grocery Store") := Int(0)]

  const LowFatSpellings: set<Cell> := {Str("Low Fat"), Str("low fat"), Str("LF")}
  const RegularSpellings: set<Cell> := {Str("Regular"), Str("reg")}
  const SizeLabels: set<Cell> := {Str("Small"), Str("Medium"), Str("High")}

  /** Item_Fat_Content after both replacements, synonyms first. */
  function FatContentCodes(col: seq<Cell>): (r: seq<Cell>)
    ensures |r| == |col|
    ensures forall i :: 0 <= i < |col| && col[i] in LowFatSpellings ==> r[i] == Int(0)
    ensures forall i :: 0 <= i < |col| && col[i] in RegularSpellings ==> r[i] == Int(1)
    ensures forall i :: 0 <= i < |col| && col[i] !in LowFatSpellings && col[i] !in RegularSpellings ==> r[i] == col[i]
  {
    Replace(Replace(col, FatSynonyms), FatCodes)
  }

  /** Outlet_Size labels become 0, 1, 2; anything else, a missing cell
      included, is kept. */
  function OutletSizeCodes(col: seq<Cell>): (r: seq<Cell>)
    ensures |r| == |col|
    ensures forall i :: 0 <= i < |col| && col[i] == Str("Small") ==> r[i] == Int(0)
    ensures forall i :: 0 <= i < |col| && col[i] == Str("Medium") ==> r[i] == Int(1)
    ensures forall i :: 0 <= i < |col| && col[i] == Str("High") ==> r[i] == Int(2)
    ensures forall i :: 0 <= i < |col| && col[i] !in SizeLabels ==> r[i] == col[i]
  {
    Replace(col, SizeCodes)
  }

  /** The sizes are coded after the fill, so a filled cell gets the code of
      the nearest present row above it. */
  lemma FilledSizeCoded(s: seq<Cell>, j: nat, i: nat)
    requires j < i < |s|
    requires !s[j].Missing?
    requires forall k :: j < k <= i ==> s[k].Missing?
    ensures OutletSizeCodes(FFill(s))[i] == ReplaceCell(s[j], SizeCodes)
  {
    NearestPrecedingTaken(s, j, i);
  }

  /** When the first row has a size and every present size is one of the
      three labels, every row ends with a code in 0..2. */
  lemma {:induction false} PreparedSizeInRange(s: seq<Cell>)
    requires |s| > 0 ==> !s[0].Missing?
    requires forall k :: 0 <= k < |s| && !s[k].Missing? ==> s[k] in SizeLabels
    ensures forall i :: 0 <= i < |s| ==> OutletSizeCodes(FFill(s))[i] in {Int(0), Int(1), Int(2)}
  {
    forall i | 0 <= i < |s| ensures FFill(s)[i] in SizeLabels {
      MissingOnlyInLeadingGap(s, i);
      if !FFill(s)[i].Missing? {
        FilledFromAbove(s, i);
      }
    }
  }

  /** A leading gap stays missing through both the fill and the coding. */
  lemma LeadingGapStaysMissing(s: seq<Cell>, i: nat)
    requires i < |s|
    requires forall k :: 0 <= k <= i ==> s[k].Missing?
    ensures OutletSizeCodes(FFill(s))[i] == Missing
  {
    MissingOnlyInLeadingGap(s, i);
  }

  /** A raw Outlet_Type: the Grocery Store label, a label ending in a
      digit, or a value that is not a string. */
  predicate RawOutletType(c: Cell)
  {
    c == Str("Grocery Store") || !c.Str? || EndsInDigit(c.s)
  }

  /** An Outlet_Type ready for trailing-digit decoding. */
  predicate DecodableOutletType(c: Cell)
  {
    !c.Str? || EndsInDigit(c.s)
  }

  predicate RawOutletTypeColumn(col: seq<Cell>)
  {
    forall i :: 0 <= i < |col| ==> RawOutletType(col[i])
  }

  predicate DecodableOutletTypeColumn(col: seq<Cell>)
  {
    forall i :: 0 <= i < |col| ==> DecodableOutletType(col[i])
  }

  /** Outlet_Type after `replace({'Grocery Store': 0})`. */
  function GroceryMarked(col: seq<Cell>): (r: seq<Cell>)
    ensures |r| == |col|
    ensures RawOutletTypeColumn(col) ==> DecodableOutletTypeColumn(r)
    ensures forall i :: 0 <= i < |col| ==> r[i] == if col[i] == Str("Grocery Store") then Int(0) else col[i]
  {
    Replace(col, GroceryCode)
  }

  /** Outlet_Type after the map of bigmart.py:55-57: a string becomes the
      digit it ends in, any other value is kept. */
  function OutletTypeCodes(col: seq<Cell>): (r: seq<Cell>)
    requires DecodableOutletTypeColumn(col)
    ensures |r| == |col|
    ensures forall i :: 0 <= i < |col| && col[i].Str? ==>
      r[i].Int? && 0 <= r[i].n <= 9 && ('0' as int + r[i].n) as char == col[i].s[|col[i].s| - 1]
    ensures forall i :: 0 <= i < |col| && !col[i].Str? ==> r[i] == col[i]
  {
    seq(|col|, i requires 0 <= i < |col| =>
      if col[i].Str? then Int(LastDigit(col[i].s)) else col[i])
  }

  /** Both Outlet_Type steps in order: Grocery Store ends as 0 (its final
      'e' is never parsed), any other label as its final digit, and a
      non-string is kept. */
  lemma OutletTypePipeline(col: seq<Cell>, i: nat)
    requires RawOutletTypeColumn(col)
    requires i < |col|
    ensures var r := OutletTypeCodes(GroceryMarked(col));
      && (col[i] == Str("Grocery Store") ==> r[i] == Int(0))
      && (col[i].Str? && col[i] != Str("Grocery Store") ==> r[i] == Int(LastDigit(col[i].s)))
      && (!col[i].Str? ==> r[i] == col[i])
  {
  }

  /** Every Outlet_Location_Type is a string ending in a digit. */
  predicate LocationColumn(col: seq<Cell>)
  {
    forall i :: 0 <= i < |col| ==> col[i].Str? && EndsInDigit(col[i].s)
  }

  /** Outlet_Location_Type after the map of bigmart.py:50-52: the final
      digit minus one, so a value in -1..8 from which the digit can be read
      back. */
  function LocationCodes(col: seq<Cell>): (r: seq<Cell>)
    requires LocationColumn(col)
    ensures |r| == |col|
    ensures forall i :: 0 <= i < |col| ==>
      r[i].Int? && -1 <= r[i].n <= 8 && ('0' as int + r[i].n + 1) as char == col[i].s[|col[i].s| - 1]
  {
    seq(|col|, i requires 0 <= i < |col| => Int(LastDigit(col[i].s) - 1))
  }

  /** Item_Fat_Content = ["low fat", "LF", "Regular", "reg"] reads
      ["Low Fat", "Low Fat", "Regular", "Regular"] after the first replacement
      and ends as [0, 0, 1, 1]. */
  lemma FatContentExample()
    ensures Replace([Str("low fat"), Str("LF"), Str("Regular"), Str("reg")], FatSynonyms)
         == [Str("Low Fat"), Str("Low Fat"), Str("Regular"), Str("Regular")]
    ensures FatContentCodes([Str("low fat"), Str("LF"), Str("Regular"), Str("reg")])
         == [Int(0), Int(0), Int(1), Int(1)]
  {
  }

  /** Outlet_Size = [None, "Medium", None, "High"] fills to
      [None, "Medium", "Medium", "High"] and codes to [None, 1, 1, 2]. */
  lemma OutletSizeExample()
    ensures FFill([Missing, Str("Medium"), Missing, Str("High")])
         == [Missing, Str("Medium"), Str("Medium"), Str("High")]
    ensures OutletSizeCodes(FFill([Missing, Str("Medium"), Missing, Str("High")]))
         == [Missing, Int(1), Int(1), Int(2)]
  {
    var f := FFill([Missing, Str("Medium"), Missing, Str("High")]);
    assert f[2] == Carried([Missing, Str("Medium"), Missing, Str("High")], 1);
  }

  /** ["Grocery Store", "Supermarket Type1"] ends as [0, 1]. */
  lemma OutletTypeExample()
    ensures OutletTypeCodes(GroceryMarked([Str("Grocery Store"), Str("Supermarket Type1")]))
         == [Int(0), Int(1)]
  {
  }
}
