/** prepare_dataset (bigmart.py:9-62) on the seven categorical columns of
    the Big Mart table.  The DataFrame is an object whose columns the
    function rewrites one after another; each step below is one of those
    rewrites and may touch only its own column. */
module BigMart {
  import opened Cells
  import opened Collections
  import opened ForwardFill
  import opened Categories
  import opened OutletRanking
  import opened LabelEncoding

  /** Outlet_Identifier holds strings whose numbers `int(val[4:])` can read. */
  predicate OutletIdColumn(col: seq<Cell>)
  {
    AllText(col) && IdColumn(Texts(col))
  }

  class Frame {
    var itemIdentifier: seq<Cell>
    var itemFatContent: seq<Cell>
    var itemType: seq<Cell>
    var outletIdentifier: seq<Cell>
    var outletSize: seq<Cell>
    var outletLocationType: seq<Cell>
    var outletType: seq<Cell>

    /** Every column has one cell per row. */
    ghost predicate Valid()
      reads this
    {
      && |itemFatContent| == |itemIdentifier|
      && |itemType| == |itemIdentifier|
      && |outletIdentifier| == |itemIdentifier|
      && |outletSize| == |itemIdentifier|
      && |outletLocationType| == |itemIdentifier|
      && |outletType| == |itemIdentifier|
    }

    function Rows(): nat
      reads this
    {
      |itemIdentifier|
    }

    /** What the parsing steps demand of the raw table: identifiers with a
        digit string after their fourth character, location types ending in
        a digit, outlet types ending in a digit unless they are
        "Grocery Store" or not strings, and string item columns. */
    predicate Parsable()
      reads this
    {
      && OutletIdColumn(outletIdentifier)
      && LocationColumn(outletLocationType)
      && RawOutletTypeColumn(outletType)
      && AllText(itemIdentifier)
      && AllText(itemType)
    }

    constructor (itemIdentifier: seq<Cell>, itemFatContent: seq<Cell>, itemType: seq<Cell>,
                 outletIdentifier: seq<Cell>, outletSize: seq<Cell>,
                 outletLocationType: seq<Cell>, outletType: seq<Cell>)
      requires |itemFatContent| == |itemType| == |outletIdentifier| == |outletSize|
            == |outletLocationType| == |outletType| == |itemIdentifier|
      ensures Valid()
      ensures this.itemIdentifier == itemIdentifier && this.itemFatContent == itemFatContent
      ensures this.itemType == itemType && this.outletIdentifier == outletIdentifier
      ensures this.outletSize == outletSize && this.outletLocationType == outletLocationType
      ensures this.outletType == outletType
    {
      this.itemIdentifier := itemIdentifier;
      this.itemFatContent := itemFatContent;
      this.itemType := itemType;
      this.outletIdentifier := outletIdentifier;
      this.outletSize := outletSize;
      this.outletLocationType := outletLocationType;
      this.outletType := outletType;
    }

    /** bigmart.py:20, `Outlet_Size.ffill(inplace=True)`. */
    method FillOutletSize()
      requires Valid()
      modifies this`outletSize
      ensures Valid()
      ensures outletSize == FFill(old(outletSize))
    {
      outletSize := ForwardFilled(outletSize);
    }

    /** bigmart.py:23-27, the synonym replacement. */
    method CanonicalizeFatContent()
      requires Valid()
      modifies this`itemFatContent
      ensures Valid()
      ensures itemFatContent == Replace(old(itemFatContent), FatSynonyms)
    {
      itemFatContent := Replace(itemFatContent, FatSynonyms);
    }

    /** bigmart.py:30, canonical labels to 0 and 1. */
    method EncodeFatContent()
      requires Valid()
      modifies this`itemFatContent
      ensures Valid()
      ensures itemFatContent == Replace(old(itemFatContent), FatCodes)
    {
      itemFatContent := Replace(itemFatContent, FatCodes);
    }

    /** bigmart.py:31, sizes to 0, 1, 2. */
    method EncodeOutletSize()
      requires Valid()
      modifies this`outletSize
      ensures Valid()
      ensures outletSize == OutletSizeCodes(old(outletSize))
    {
      outletSize := Replace(outletSize, SizeCodes);
    }

    /** bigmart.py:34, "Grocery Store" to 0. */
    method MarkGroceryStores()
      requires Valid()
      modifies this`outletType
      ensures Valid()
      ensures outletType == GroceryMarked(old(outletType))
      ensures RawOutletTypeColumn(old(outletType)) ==> DecodableOutletTypeColumn(outletType)
    {
      outletType := GroceryMarked(outletType);
    }

    /** bigmart.py:37-47: build the rank table from the distinct identifiers,
        then give every row the entry of its own number. */
    method RelabelOutletIdentifiers()
      requires Valid() && OutletIdColumn(outletIdentifier)
      modifies this`outletIdentifier
      ensures Valid()
      ensures outletIdentifier == IntCells(OutletCodes(Texts(old(outletIdentifier))))
    {
      outletIdentifier := IntCells(OutletCodes(Texts(outletIdentifier)));
    }

    /** bigmart.py:50-52, final digit minus one. */
    method DecodeLocationTypes()
      requires Valid() && LocationColumn(outletLocationType)
      modifies this`outletLocationType
      ensures Valid()
      ensures outletLocationType == LocationCodes(old(outletLocationType))
    {
      outletLocationType := LocationCodes(outletLocationType);
    }

    /** bigmart.py:55-57, final digit of every value still a string. */
    method DecodeOutletTypes()
      requires Valid() && DecodableOutletTypeColumn(outletType)
      modifies this`outletType
      ensures Valid()
      ensures outletType == OutletTypeCodes(old(outletType))
    {
      outletType := OutletTypeCodes(outletType);
    }

    /** bigmart.py:60-62: each of the two columns gets its own encoder. */
    method EncodeItemColumns()
      requires Valid() && AllText(itemIdentifier) && AllText(itemType)
      modifies this`itemIdentifier, this`itemType
      ensures Valid()
      ensures itemIdentifier == IntCells(LabelEncode(Texts(old(itemIdentifier))))
      ensures itemType == IntCells(LabelEncode(Texts(old(itemType))))
    {
      itemIdentifier := IntCells(LabelEncode(Texts(itemIdentifier)));
      itemType := IntCells(LabelEncode(Texts(itemType)));
    }

    /** The whole of bigmart.py:20-62, in the source's order. */
    method Prepare()
      requires Valid() && Parsable()
      modifies this
      ensures Valid() && Rows() == old(Rows())
      ensures outletSize == OutletSizeCodes(FFill(old(outletSize)))
      ensures itemFatContent == FatContentCodes(old(itemFatContent))
      ensures outletType == OutletTypeCodes(GroceryMarked(old(outletType)))
      ensures outletIdentifier == IntCells(OutletCodes(Texts(old(outletIdentifier))))
      ensures outletLocationType == LocationCodes(old(outletLocationType))
      ensures itemIdentifier == IntCells(LabelEncode(Texts(old(itemIdentifier))))
      ensures itemType == IntCells(LabelEncode(Texts(old(itemType))))
    {
      FillOutletSize();
      CanonicalizeFatContent();
      EncodeFatContent();
      EncodeOutletSize();
      MarkGroceryStores();
      RelabelOutletIdentifiers();
      DecodeLocationTypes();
      DecodeOutletTypes();
      EncodeItemColumns();
    }
  }

  /** What the prepared table guarantees, for a raw table whose fat spellings
      are the five known ones, whose first row has a size and whose sizes
      are the three known labels: fat content in 0..1, size in 0..2, every
      outlet code below the number of distinct identifiers, every location
      code in -1..8, and item codes dense in 0..k-1 per column. */
  lemma PreparedInvariants(
    itemIdentifier: seq<Cell>, itemFatContent: seq<Cell>, itemType: seq<Cell>,
    outletIdentifier: seq<Cell>, outletSize: seq<Cell>, outletLocationType: seq<Cell>)
    requires forall i :: 0 <= i < |itemFatContent| ==> itemFatContent[i] in LowFatSpellings + RegularSpellings
    requires |outletSize| > 0 ==> !outletSize[0].Missing?
    requires forall i :: 0 <= i < |outletSize| && !outletSize[i].Missing? ==> outletSize[i] in SizeLabels
    requires OutletIdColumn(outletIdentifier) && LocationColumn(outletLocationType)
    requires AllText(itemIdentifier) && AllText(itemType)
    ensures forall i :: 0 <= i < |itemFatContent| ==> FatContentCodes(itemFatContent)[i] in {Int(0), Int(1)}
    ensures forall i :: 0 <= i < |outletSize| ==> OutletSizeCodes(FFill(outletSize))[i] in {Int(0), Int(1), Int(2)}
    ensures forall i :: 0 <= i < |outletIdentifier| ==>
      var r := IntCells(OutletCodes(Texts(outletIdentifier)))[i];
      r.Int? && 0 <= r.n < |Distinct(Texts(outletIdentifier))|
    ensures forall i :: 0 <= i < |outletLocationType| ==>
      var r := LocationCodes(outletLocationType)[i];
      r.Int? && -1 <= r.n <= 8
    ensures forall i :: 0 <= i < |itemIdentifier| ==>
      0 <= LabelEncode(Texts(itemIdentifier))[i] < |Elements(Texts(itemIdentifier))|
    ensures forall i :: 0 <= i < |itemType| ==>
      0 <= LabelEncode(Texts(itemType))[i] < |Elements(Texts(itemType))|
    ensures forall k :: 0 <= k < |Elements(Texts(itemIdentifier))| ==> k in LabelEncode(Texts(itemIdentifier))
    ensures forall k :: 0 <= k < |Elements(Texts(itemType))| ==> k in LabelEncode(Texts(itemType))
  {
    PreparedSizeInRange(outletSize);
    LabelCodesDense(Texts(itemIdentifier));
    LabelCodesDense(Texts(itemType));
  }
}
