# Big Mart dataset preparation, modelled in Dafny

This project models `prepare_dataset` in `bigmart.py`: the cleaning and
encoding that turn the categorical columns of the Big Mart sales table into
numbers before a regression model sees them. The seven columns involved are
Item_Identifier, Item_Fat_Content, Item_Type, Outlet_Identifier, Outlet_Size,
Outlet_Location_Type and Outlet_Type.

A table cell is a `Cell`: `Missing` (pandas' NaN/None), `Str(s)` or `Int(n)`.
Cells are untyped because a pandas object column changes from strings to
integers partway through the function. The DataFrame is the class
`BigMart.Frame`, which has one `seq<Cell>` field per column. Each step of
the source is a method that reassigns only the columns it rewrites, and
that states the new columns as functions of the old ones. `Frame.Prepare` runs
the steps in the source's order. Its contract states every final column in
terms of the input columns.

The steps, one Dafny module each:

- **ForwardFill**: `Outlet_Size.ffill()`. The method `ForwardFilled` is the
  loop that carries the last present value down. It is proved equal to the
  function `FFill`, and lemmas about `FFill` say what it means:
  - a present cell is kept;
  - a missing cell takes the nearest present value above it;
  - a cell stays missing exactly when every cell up to it is missing;
  - filling twice changes nothing.
- **Categories**: the fixed replacements.
  - Item_Fat_Content is replaced twice: synonyms to their canonical label,
    then the canonical labels to 0/1.
  - Outlet_Size labels become 0/1/2.
  - "Grocery Store" becomes 0.
  - Outlet_Location_Type becomes its last digit minus one.
  - Outlet_Type becomes its last digit when it is still a string.
- **OutletRanking**: the Outlet_Identifier re-ranking.
  - Each distinct identifier gives the number `int(val[4:])`. The numbers are
    sorted with duplicates kept. The dict comprehension over `enumerate` maps
    each number to its LAST position, because a later key overwrites an
    earlier one.
  - The table is always order-preserving, and every code is below the number
    of distinct identifiers.
  - When no two identifiers share a number, the codes are exactly 0..k-1.
  - Two identifiers can share a number because the first four characters are
    skipped: "OUT049" and "OUT149" both read 49. The codes then skip values.
    `SharedSuffixExample` shows this: two distinct numbers receive codes 0
    and 2.
- **LabelEncoding**: scikit-learn's `LabelEncoder().fit_transform` on one
  string column. The classes are the distinct values sorted ascending by
  code point, and a value's code is its position among them. The two item
  columns are each encoded independently.
- **Cells**, **Collections** and **Sorting** hold the shared vocabulary:
  - decimal parsing of digit strings;
  - first-occurrence `Distinct` (pandas' `unique()`);
  - insertion sorts for integers and strings;
  - code-point string order `StrLess`, with its order lemmas.

## Model

| member | source | states |
|---|---|---|
| ForwardFill.FFill | bigmart.py:20 | `ffill`: a present cell is kept, a missing first row stays missing, and any other missing row repeats the filled row above |
| ForwardFill.ForwardFilled | bigmart.py:20 | the loop's result is exactly the forward fill `FFill` of the column |
| ForwardFill.PresentKept | bigmart.py:20 | a present Outlet_Size cell is not changed by the fill |
| ForwardFill.NearestPrecedingTaken | bigmart.py:20 | a missing cell receives the value of the nearest present cell above it |
| ForwardFill.MissingOnlyInLeadingGap | bigmart.py:20 | after the fill a cell is missing if and only if every cell up to and including it was missing |
| ForwardFill.FilledFromAbove | bigmart.py:20 | every filled value is a present value from the same row or a row above |
| ForwardFill.FFillIdempotent | bigmart.py:20 | filling an already filled column changes nothing |
| Cells.Replace | bigmart.py:23-34 | `Series.replace` with a dict: the column keeps its length, every cell equal to a key becomes that key's value, and every other cell is kept |
| Categories.FatContentCodes | bigmart.py:23-30 | after both replacements "Low Fat", "low fat" and "LF" become 0; "Regular" and "reg" become 1; every other cell is unchanged |
| Categories.FatContentExample | bigmart.py:23-30 | ["low fat", "LF", "Regular", "reg"] reads ["Low Fat", "Low Fat", "Regular", "Regular"] after the first replacement and ends as [0, 0, 1, 1] |
| Categories.OutletSizeCodes | bigmart.py:31 | Small, Medium and High become 0, 1 and 2; every other cell, a missing one included, is unchanged |
| Categories.FilledSizeCoded | bigmart.py:20-31 | a filled size gets the code of the nearest present size above it |
| Categories.PreparedSizeInRange | bigmart.py:20-31 | if the first row has a size and every present size is one of the three labels, then every size ends in 0..2 |
| Categories.LeadingGapStaysMissing | bigmart.py:20-31 | sizes missing from the top of the column stay missing through the fill and the coding |
| Categories.OutletSizeExample | bigmart.py:20-31 | [None, Medium, None, High] fills to [None, Medium, Medium, High] and codes to [None, 1, 1, 2] |
| Categories.GroceryMarked | bigmart.py:34 | on any column, "Grocery Store" becomes 0 and everything else is kept; when every other label ends in a digit or is not a string, the result can be decoded by its last digit |
| Categories.OutletTypeCodes | bigmart.py:55-57 | a string becomes the digit it ends with (the character can be recovered from the code); any non-string is kept |
| Categories.OutletTypePipeline | bigmart.py:34-57 | after both Outlet_Type steps Grocery Store is 0, any other label is its last digit, and a non-string is unchanged |
| Categories.OutletTypeExample | bigmart.py:34-57 | ["Grocery Store", "Supermarket Type1"] ends as [0, 1] |
| Categories.LocationCodes | bigmart.py:50-52 | each location becomes its last digit minus one: a value in -1..8 from which the digit can be read back |
| Cells.LastDigit | bigmart.py:51 | `int(x[-1])` is a value in 0..9 whose character is the final character |
| Cells.DigitsValue | bigmart.py:40-46 | `int()` of a string of n decimal digits is a number below 10^n |
| Cells.DigitsValueLastDigit | bigmart.py:40-46 | the number `int()` reads ends in the string's final digit, and the digits before it read as the number divided by ten |
| OutletRanking.Suffix | bigmart.py:40-46 | `int(val[4:])` skips four characters and reads the rest, so the number is below ten to the power of the count of remaining characters |
| OutletRanking.SortedSuffixes | bigmart.py:39-41 | the list passed to `enumerate` is ascending and is a permutation of the numbers of the distinct identifiers, one entry per identifier, so a number that several identifiers share is repeated that many times |
| Collections.Distinct | bigmart.py:40 | `unique()` has no duplicates, the same members as the column, and is no longer than the column |
| Collections.NoDupCard | bigmart.py:40 | a duplicate-free sequence has as many members as elements |
| Sorting.SortInts | bigmart.py:39 | `sorted` returns an ascending permutation of its input, strictly ascending when the input has no duplicates |
| Sorting.SortStrings | bigmart.py:62 | the classes come out strictly ascending, with the same members and length as the distinct values |
| OutletRanking.RankTable | bigmart.py:38-39 | the comprehension has exactly the list's values as keys; each key maps to a position holding that value, and no later position holds it |
| OutletRanking.SortedSuffixesValues | bigmart.py:39-41 | the sorted list holds exactly the numbers that occur in the column |
| OutletRanking.RankTableMonotone | bigmart.py:37-42 | over an ascending list the table is strictly order-preserving |
| OutletRanking.OutletRankTable | bigmart.py:37-42 | `outlet_identifier_filler` is defined on exactly the column's numbers, is strictly order-preserving, and stays below the number of distinct identifiers |
| OutletRanking.OutletCodes | bigmart.py:45-47 | each row gets a code below the number of distinct identifiers; equal numbers share a code; a smaller number gets a smaller code |
| OutletRanking.RankTableBijective | bigmart.py:37-42 | when no two identifiers share a number, the table maps the k numbers one-to-one onto 0..k-1, and each code counts the smaller numbers |
| OutletRanking.OutletCodesDense | bigmart.py:37-47 | when no two identifiers share a number, the codes lie in 0..k-1 and each of 0..k-1 is used |
| OutletRanking.SuffixOfOut049 | bigmart.py:40 | "OUT049" reads as 49 |
| OutletRanking.FourRowExample | bigmart.py:37-47 | OUT049, OUT018, OUT049, OUT010 become 2, 1, 2, 0 |
| OutletRanking.SharedSuffixExample | bigmart.py:37-47 | OUT049, OUT149, OUT010 become 2, 2, 0: two distinct numbers, yet a code of 2 |
| LabelEncoding.Classes | bigmart.py:60-62 | `classes_` is strictly ascending, has the column's values as members, and has one entry per distinct value |
| LabelEncoding.LabelEncode | bigmart.py:60-62 | every code decodes back to its value through the classes; two rows share a code if and only if they share a value; codes follow the string order |
| LabelEncoding.LabelCodesDense | bigmart.py:60-62 | the codes lie in 0..k-1, k being the number of distinct values, and each of them is used |
| LabelEncoding.LabelEncodeExample | bigmart.py:60-62 | ["Dairy", "Meat", "Dairy", "Breads"] becomes [1, 2, 1, 0] |
| BigMart.Frame.FillOutletSize | bigmart.py:20 | only Outlet_Size changes, and it becomes its forward fill |
| BigMart.Frame.CanonicalizeFatContent | bigmart.py:23-27 | only Item_Fat_Content changes, and its synonyms become canonical labels |
| BigMart.Frame.EncodeFatContent | bigmart.py:30 | only Item_Fat_Content changes, and its canonical labels become 0 and 1 |
| BigMart.Frame.EncodeOutletSize | bigmart.py:31 | only Outlet_Size changes, and its labels become their codes |
| BigMart.Frame.MarkGroceryStores | bigmart.py:34 | on any Outlet_Type column only Outlet_Type changes and Grocery Store becomes 0; a column whose other labels end in a digit is then ready for digit decoding |
| BigMart.Frame.RelabelOutletIdentifiers | bigmart.py:37-47 | only Outlet_Identifier changes, and each row gets its rank code |
| BigMart.Frame.DecodeLocationTypes | bigmart.py:50-52 | only Outlet_Location_Type changes, and each cell becomes its last digit minus one |
| BigMart.Frame.DecodeOutletTypes | bigmart.py:55-57 | only Outlet_Type changes, and each string becomes its last digit |
| BigMart.Frame.EncodeItemColumns | bigmart.py:60-62 | only the two item columns change, and each gets its own label encoding |
| BigMart.Frame.Prepare | bigmart.py:20-62 | the steps in order leave every column equal to the composition of its steps applied to the input, with the row count unchanged |
| BigMart.PreparedInvariants | bigmart.py:20-62 | for a clean raw table, the prepared columns satisfy these bounds: fat content in 0..1, size in 0..2, outlet codes below the number of distinct identifiers, locations in -1..8, and item codes dense: each below the number k of distinct values, and each of 0..k-1 used |

## Left out

- Item_Weight mean imputation (bigmart.py:17) is not modelled: it is floating-point arithmetic.
- Item_MRP standard scaling (bigmart.py:64-68) is not modelled, for the same reason.
- Float cells are not represented. A missing value is `Missing`, and a number is an `Int`.
- Python raises exceptions in several cases, and these are preconditions rather than an error path:
  - `val[4:]` on a missing or non-string Outlet_Identifier;
  - `int(val[4:])` on an identifier with nothing after its fourth character;
  - `int(val[4:])` on a non-digit suffix;
  - `x[-1]` on an empty string or a missing location;
  - `int()` on a non-digit final character.
  The source has no handler for any of them. `Frame.Parsable` collects these preconditions.
- `int()` also accepts surrounding whitespace, signs, underscores and non-ASCII decimal digits. Only ASCII digit strings are modelled.
- pandas dtype inference is not modelled: for example, a column becoming `int64` once every cell is numeric. It does not change the values.
- Copy-on-write and chained-assignment semantics of `inplace=True` on a column attribute are not modelled. Each step is taken to update the table, as the source intends.
- The ordering of `LabelEncoder` is modelled as code-point lexicographic order on strings, which is how NumPy sorts Unicode strings.
- LabelEncoding.LabelEncode: the item columns are taken to hold only strings, as the Big Mart data does. A missing Item_Identifier or Item_Type cell, and whatever class and code `LabelEncoder` would give it, are not modelled.
- OutletRanking.OutletCodesDense and OutletRanking.RankTableBijective assume that no two identifiers share a number. Without that premise the source's codes are not dense, as SharedSuffixExample shows.
