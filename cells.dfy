/** Cells of the Big Mart table.  pandas keeps these columns with the
    `object` dtype, so one column may hold strings, integers and missing
    values (NaN / None) at once, and a step may turn strings into integers.
    The float columns (Item_Weight, Item_MRP) are not part of this model. */
module Cells {

  datatype Cell = Missing | Str(s: string) | Int(n: int)

  /** One cell under `Series.replace(m)`: a cell equal to a key becomes
      that key's value, every other cell is kept.  All keys are looked up
      in the original cell, so the replacements do not chain. */
  function ReplaceCell(c: Cell, m: map<Cell, Cell>): Cell
  {
    if c in m then m[c] else c
  }

  /** `Series.replace(m)` on a whole column: row by row, a key becomes its
      value and any other cell is kept. */
  function Replace(col: seq<Cell>, m: map<Cell, Cell>): (r: seq<Cell>)
    ensures |r| == |col|
    ensures forall i :: 0 <= i < |col| && col[i] in m ==> r[i] == m[col[i]]
    ensures forall i :: 0 <= i < |col| && col[i] !in m ==> r[i] == col[i]
  {
    seq(|col|, i requires 0 <= i < |col| => ReplaceCell(col[i], m))
  }

  /** Every cell of the column is a string. */
  predicate AllText(col: seq<Cell>)
  {
    forall i :: 0 <= i < |col| ==> col[i].Str?
  }

  /** The strings of a column that holds only strings. */
  function Texts(col: seq<Cell>): (r: seq<string>)
    requires AllText(col)
    ensures |r| == |col|
  {
    seq(|col|, i requires 0 <= i < |col| => col[i].s)
  }

  /** A column of integers, as pandas stores a mapped result. */
  function IntCells(xs: seq<int>): (r: seq<Cell>)
    ensures |r| == |xs|
  {
    seq(|xs|, i requires 0 <= i < |xs| => Int(xs[i]))
  }

  predicate IsDigit(ch: char)
  {
    '0' <= ch <= '9'
  }

  /** `int(ch)` for a single decimal digit character. */
  function DigitValue(ch: char): (d: int)
    requires IsDigit(ch)
    ensures 0 <= d <= 9
    ensures ('0' as int + d) as char == ch
  {
    ch as int - '0' as int
  }

  predicate AllDigits(s: string)
  {
    forall k :: 0 <= k < |s| ==> IsDigit(s[k])
  }

  /** `int(s)` for a string of decimal digits: the digits read left to
      right in base ten (the empty string is refused by the callers).  An
      n-digit string reads as a number below 10^n. */
  function DigitsValue(s: string): (r: nat)
    requires AllDigits(s)
    ensures r < Pow10(|s|)
    decreases |s|
  {
    if s == [] then 0
    else DigitsValue(s[..|s| - 1]) * 10 + DigitValue(s[|s| - 1])
  }

  /** The last decimal digit of the number is the string's final character,
      and the digits before it read as the number divided by ten. */
  lemma DigitsValueLastDigit(s: string)
    requires AllDigits(s) && |s| > 0
    ensures DigitsValue(s) % 10 == DigitValue(s[|s| - 1])
    ensures DigitsValue(s) / 10 == DigitsValue(s[..|s| - 1])
  {
  }

  function Pow10(n: nat): (p: nat)
    ensures p >= 1
  {
    if n == 0 then 1 else 10 * Pow10(n - 1)
  }

  /** The string ends in a decimal digit, so `int(x[-1])` succeeds. */
  predicate EndsInDigit(s: string)
  {
    |s| > 0 && IsDigit(s[|s| - 1])
  }

  /** `int(x[-1])`: the value of the final character. */
  function LastDigit(s: string): (d: int)
    requires EndsInDigit(s)
    ensures 0 <= d <= 9
    ensures ('0' as int + d) as char == s[|s| - 1]
  {
    DigitValue(s[|s| - 1])
  }
}
