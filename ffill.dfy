/** `Series.ffill()` on the Outlet_Size column (bigmart.py:20): a left to
    right scan in which every missing cell takes the last present value seen. */
module ForwardFill {
  import opened Cells

  /** The value row `i` holds after forward filling: its own value when
      present, otherwise that of the nearest row above, or Missing. */
  function Carried(s: seq<Cell>, i: nat): Cell
    requires i < |s|
  {
    if !s[i].Missing? then s[i]
    else if i == 0 then Missing
    else Carried(s, i - 1)
  }

  /** The forward-filled column: a present cell is kept, a missing first
      row stays missing, and any other missing row repeats the row above. */
  function FFill(s: seq<Cell>): (r: seq<Cell>)
    ensures |r| == |s|
    ensures forall i :: 0 <= i < |s| && !s[i].Missing? ==> r[i] == s[i]
    ensures |s| > 0 && s[0].Missing? ==> r[0] == Missing
    ensures forall i :: 0 < i < |s| && s[i].Missing? ==> r[i] == r[i - 1]
  {
    seq(|s|, i requires 0 <= i < |s| => Carried(s, i))
  }

  /** A present cell keeps its value. */
  lemma PresentKept(s: seq<Cell>, i: nat)
    requires i < |s| && !s[i].Missing?
    ensures FFill(s)[i] == s[i]
  {
  }

  /** A missing cell takes the value of the nearest present row above it. */
  lemma {:induction false} NearestPrecedingTaken(s: seq<Cell>, j: nat, i: nat)
    requires j < i < |s|
    requires !s[j].Missing?
    requires forall k :: j < k <= i ==> s[k].Missing?
    ensures FFill(s)[i] == s[j]
  {
    assert FFill(s)[i] == Carried(s, i - 1);
    if i - 1 > j {
      NearestPrecedingTaken(s, j, i - 1);
    }
  }

  /** A missing cell stays missing exactly when no row up to it is present. */
  lemma {:induction false} MissingOnlyInLeadingGap(s: seq<Cell>, i: nat)
    requires i < |s|
    ensures FFill(s)[i].Missing? <==> forall k :: 0 <= k <= i ==> s[k].Missing?
  {
    if i > 0 && s[i].Missing? {
      MissingOnlyInLeadingGap(s, i - 1);
    }
  }

  /** Every filled value comes from a row at or above it. */
  lemma {:induction false} FilledFromAbove(s: seq<Cell>, i: nat)
    requires i < |s| && !FFill(s)[i].Missing?
    ensures exists j :: 0 <= j <= i && !s[j].Missing? && FFill(s)[i] == s[j]
  {
    if s[i].Missing? {
      FilledFromAbove(s, i - 1);
    }
  }

  /** Filling twice is filling once. */
  lemma {:induction false} FFillIdempotent(s: seq<Cell>)
    ensures FFill(FFill(s)) == FFill(s)
  {
    var f := FFill(s);
    forall i | 0 <= i < |s| ensures Carried(f, i) == f[i] {
      CarriedOfFilled(s, i);
    }
  }

  lemma {:induction false} CarriedOfFilled(s: seq<Cell>, i: nat)
    requires i < |s|
    ensures Carried(FFill(s), i) == FFill(s)[i]
  {
    if FFill(s)[i].Missing? && i > 0 {
      CarriedOfFilled(s, i - 1);
    }
  }

  /** The scan itself: carry the last present value down the column. */
  method ForwardFilled(col: seq<Cell>) returns (r: seq<Cell>)
    ensures r == FFill(col)
  {
    r := [];
    var last := Missing;
    var i := 0;
    while i < |col|
      invariant 0 <= i <= |col|
      invariant |r| == i
      invariant forall k :: 0 <= k < i ==> r[k] == Carried(col, k)
      invariant last == if i == 0 then Missing else Carried(col, i - 1)
    {
      if !col[i].Missing? {
        last := col[i];
      }
      r := r + [last];
      i := i + 1;
    }
  }
}
