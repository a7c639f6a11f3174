# Price-list catalog builder, modelled in Dafny

This project models `build.py`, the script that turns a folder of supplier
spreadsheet price lists into the JSON product catalog of a static web site.
The model covers the script's logic, stage by stage:

- **Brand** (`brand.dfy`). `extract_brand_from_filename` takes the file-name
  stem, removes a trailing year token matched by `\s*\d{2,4}$` and strips what
  is left.
- **Header** (`header.dfy`). `find_header_row` looks for the first raw row whose
  upper-cased present cells, joined by spaces, mention `CÓDIGO` or `CODIGO`.
  When no row does, the header is row 0.
- **Price** (`price.dfy`, `decimals.dfy`). `clean_price` works as follows:
  - a missing cell is 0;
  - a number passes through;
  - a text keeps only its digits, dots and commas, turns commas into dots, and
    is read by `float()`;
  - text that `float()` refuses is 0.
- **Columns** (`columns.dfy`). The column mapping of `process_excel_file` runs
  an `elif` chain over the normalised labels: code, then name, then unit, then
  final price. The last label with a role wins. When there is no final-price
  column, the first label mentioning `PRECIO` is the price column.
- **Rows** (`rows.dfy`). The row loop of `process_excel_file` skips:
  - rows with a missing or blank code or name;
  - rows whose code is the header word;
  - rows whose stripped name has two characters or fewer.

  Every other row becomes a record carrying the file's brand.
- **Categories** (`categories.dfy`). `categorize_product` holds the fourteen
  keyword lists in the order of the script's dict. It returns the first
  category with a keyword in the upper-cased name, else `Otros`.
- **Catalog** (`catalog.dfy`, `sorting.dfy`). `main` processes the files in
  turn and tags every product with its category. It sorts the products by
  `(brand, name)` with a stable sort, and lists the sorted distinct brands,
  the sorted distinct categories and the product count.

Supporting modules:

- `text.dfy`: Python's `str.strip()`, `str.upper()`, the `in` substring test
  and `' '.join`.
- `options.dfy`: an `Option` type and the filter that keeps the present values.
- `sheets.dfy`: cells, rows and sheets as the script sees them after pandas
  has read a file.

The pure functions of the script are Dafny functions, with lemmas about them.
The two functions that loop over mutable state are methods proved against
those functions:

- `process_excel_file` is `Rows.ProcessFile`, with `Columns.MapColumns` and
  `Rows.ExtractProducts`.
- `main` is `Catalog.BuildCatalog`, with `Catalog.TagProducts` and
  `Sorting.SortedStrings`.

Three points of the code are easy to misread, and the model follows the code
in each:

- **Column roles.** The mapping loop assigns a role's variable at every label
  that has the role, so the last such column is the one used.
- **Header-word test.** It is applied to the untrimmed, upper-cased code text,
  not to the stripped one. So `" CODIGO"` is kept as a product code.
- **Year token.** It needs no whitespace before it (`"LOTE2025"` gives
  `"LOTE"`). A run of more than four digits loses only its last four
  (`"LOTE 12345"` gives `"LOTE 1"`).

## Model

| member | source | states |
|---|---|---|
| Brand.LastDot | build.py:20 | index of the last `.` of the name, or -1; no dot after it |
| Brand.Stem | build.py:20 | `Path(name).stem`: the name up to its last dot, unless that dot leads or ends the name; earlier dots stay in the stem (stated by `StemOfExtension`) |
| Brand.StemOfExtension | build.py:20 | the stem of `n + "." + ext` is `n` when both parts are non-empty and the extension has no dot; `n` may hold dots |
| Brand.TrailingDigits | build.py:22 | length of the digit run that ends the text; the character before it is not a digit |
| Brand.TrailingSpaces | build.py:22 | length of the whitespace run that ends the text; the character before it is not whitespace |
| Brand.StripYear | build.py:22 | the substitution never lengthens the name, and when it changes the name it removes at least two characters |
| Brand.StripYearIsRegex | build.py:22 | without a match of `\s*\d{2,4}$` the name is unchanged; otherwise exactly the leftmost match is removed, `$` also matching before a final newline |
| Brand.StripYearMatch | build.py:22 | with two or more trailing digits, the token starting at `TokenStart` is the leftmost match and is what is removed |
| Brand.StripYearNoMatch | build.py:22 | with fewer than two trailing digits nothing matches and the name is unchanged |
| Brand.TokenAtStart | build.py:22 | a token of the pattern starts at `TokenStart`: whitespace then two to four digits up to the end |
| Brand.LongRunToken | build.py:22 | a run of more than four trailing digits ends in a token made of its last four |
| Brand.ShortRunToken | build.py:22 | whitespace followed by two to four trailing digits is a token |
| Brand.NoTokenBefore | build.py:22 | no token of the pattern starts before `TokenStart` |
| Brand.TokenShape | build.py:22 | a token's digits are part of the trailing digit run, and all of it unless the token starts at its digits |
| Brand.BrandOfStem | build.py:22-23 | the brand of a stem never begins or ends with whitespace |
| Brand.ExtractBrand | build.py:17-23 | `extract_brand_from_filename`: the brand never begins or ends with whitespace |
| Brand.BrandCases | build.py:20-23 | the brand is the stripped stem with fewer than two trailing digits; with two to four, the stem without those digits and the whitespace before them, stripped; with more, the stem without its last four characters, stripped |
| Brand.TrimDropTrailingSpaces | build.py:22-23 | the whitespace the token takes along would be stripped anyway |
| Brand.BrandBeforeNewline | build.py:22-23 | a stem ending in one newline has the brand of the stem without it |
| Brand.BrandOfYearFile | build.py:17-23 | `brand + " " + year + "." + ext` gives `brand` for any brand that has no outer whitespace and does not end in a digit, dots included, and any year of two to four digits |
| Brand.YearStem | build.py:22-23 | the stem `brand + " " + year` gives `brand` |
| Brand.BrandOfPlainFile | build.py:17-23 | `brand + "." + ext` gives `brand` when the brand has no outer whitespace and does not end in a digit, dots included |
| Brand.BrandOfLongNumber | build.py:17-23 | for any brand that does not begin with whitespace or end in a digit, dots included: with more than four digits after the space, only the last four are removed and the rest stays in the brand |
| Brand.BrandWithYear | build.py:17-23 | `"LACTEOS DEL VALLE 2025.xlsx"` gives `"LACTEOS DEL VALLE"` |
| Brand.BrandWithShortYear | build.py:17-23 | `"LECHERIA 26.ods"` gives `"LECHERIA"` |
| Brand.BrandWithoutYear | build.py:17-23 | `"ALPINA.xls"` gives `"ALPINA"` |
| Brand.BrandWithLongNumber | build.py:17-23 | `"LOTE 12345.xlsx"` gives `"LOTE 1"` |
| Brand.BrandWithDots | build.py:17-23 | `"ALIMENTOS S.A.S 2025.xlsx"` gives `"ALIMENTOS S.A.S"`: only the last dot starts the extension |
| Text.TrimStart | build.py:23 | `lstrip`: what is cut off is whitespace and the result does not begin with whitespace |
| Text.TrimStartSuffix | build.py:23 | what `lstrip` leaves is the end of the text |
| Text.TrimEnd | build.py:23 | `rstrip`: the result is the start of the text, what is cut off is whitespace, and the result does not end with whitespace |
| Text.Trim | build.py:23 | `strip` neither begins nor ends with whitespace |
| Text.TrimIsSlice | build.py:23 | the strip is a slice of the text with only whitespace around it |
| Text.TrimEmptyIff | build.py:112 | the strip is empty exactly when the text is all whitespace |
| Text.TrimNoOp | build.py:23 | a text with no whitespace at either end is its own strip |
| Text.TrimDropTrailingSpace | build.py:22-23 | whitespace appended to a text does not change its strip |
| Text.Upper | build.py:72 | `str.upper()` gives one character per character |
| Text.UpperKeepsClasses | build.py:72 | upper-casing keeps each character whitespace or not, and a digit or not |
| Text.UpperKeepsStripped | build.py:72 | upper-casing a text without outer whitespace leaves it without outer whitespace |
| Text.UpperIdempotent | build.py:81 | upper-casing the already upper-cased labels again changes nothing |
| Text.ContainsIff | build.py:30 | `kw in s` holds exactly when `kw` occurs in `s` at some offset |
| Text.ContainsTransitive | build.py:88 | a text contains whatever a keyword it contains contains |
| Text.ContainsAroundSpace | build.py:29-30 | a keyword without a space occurs in `a + " " + b` exactly when it occurs in `a` or in `b` |
| Text.ContainsJoin | build.py:29-30 | such a keyword occurs in the space-joined cells exactly when it occurs in one of them |
| Header.PresentUpper | build.py:29 | no more texts than the row has cells |
| Header.PresentUpperInOrder | build.py:29 | exactly one text per present cell, in row order: text `i` is the upper-cased `str` of the `i`-th present cell |
| Header.PresentUpperMembers | build.py:29 | its texts are exactly the upper-cased `str` of the row's present cells |
| Header.FirstHeaderFrom | build.py:28-31 | the first header row at or after `i`; none exactly when no row from `i` on is one |
| Header.FindHeaderRow | build.py:26-32 | with some header row, the first one; with none, row 0 |
| Header.HeaderRowByCell | build.py:29-30 | joining cells creates no match across two cells: a row is a header row exactly when one present cell names the code column on its own |
| Header.LowerCaseHeader | build.py:26-32 | a lower-case `codigo` in the second row makes it the header row |
| Price.FirstSeparator | build.py:42-45 | index of the first dot or comma, or the length; none before it |
| Price.FirstDot | build.py:45 | index of the first dot, or the length; none before it |
| Price.KeepNumeric | build.py:42 | the substitution only removes characters |
| Price.KeepNumericKeeps | build.py:42 | what it keeps is digits, dots and commas |
| Price.CommasToDots | build.py:43 | `replace(',', '.')` keeps the length and leaves no comma |
| Price.CommasToDotsChars | build.py:43 | each comma becomes a dot and every other character stays |
| Price.ParseFloat | build.py:44-47 | `float()` succeeds only on a text of digits and dots other than `""` and `"."`, and reads it with fewer decimal places than the text has characters |
| Price.TextPrice | build.py:42-47 | a text without digits, or with more than one separator, is 0; the decimal places never exceed the text's length |
| Price.CleanPrice | build.py:35-47 | a missing cell is 0, a number is itself, a text is `TextPrice` of it |
| Price.Clean | build.py:42-43 | what reaches `float()` holds only digits and dots and is no longer than the cell's text |
| Price.CleanCounts | build.py:42-43 | cleaning keeps every digit, in order, and turns each separator into one dot |
| Price.CleanAppend | build.py:42-43 | cleaning works character by character: it distributes over concatenation |
| Price.CleanOfChar | build.py:42-43 | a digit stays, a comma or dot becomes a dot, anything else goes |
| Price.ParseAtDot | build.py:45 | `float()` of digits, a dot and more text is `None` when that text has another dot or there are no digits, else all digits scaled by those after the dot |
| Price.ParseOfClean | build.py:42-47 | `float()` of the cleaned text fails exactly when the text has no digit or more than one separator; otherwise it is `TextPrice` |
| Price.ParseSucceedsIff | build.py:44-47 | `float()` succeeds exactly when the cleaned text has a digit and at most one dot |
| Price.SplitAtFirstSeparator | build.py:42-43 | a text with a separator splits at the first one into a separator-free part and the rest |
| Price.SplitClean | build.py:42-43 | the cleaned text is the digits before the first separator, a dot, and the cleaned rest |
| Price.PriceMissing | build.py:37-38 | a missing cell is 0 |
| Price.PriceSevenFifty | build.py:42-45 | `"7.50"` is `Decimal(750, 2)`, which is 7.5 |
| Price.SevenFiftyText | build.py:42-47 | `"7.50"` reads as 750 at two decimal places |
| Price.SevenFiftyReal | build.py:45 | 750 at two decimal places is 7.5 |
| Price.CleanMixedSeparators | build.py:42-43 | `"$ 12.345,67"` cleans to a text with two dots |
| Price.MixedSeparators | build.py:42-43 | `"$ 12.345,67"` has two separators, the dot and the comma |
| Price.PriceMixedSeparators | build.py:42-47 | `"$ 12.345,67"` is 0 |
| Decimals.DigitsValueAppend | build.py:45 | reading digits `x` then `y` shifts `x` left by `\|y\|` places |
| Decimals.DecimalOfParts | build.py:45 | whole digits `w` and fraction digits `f` read as `w + f / 10^\|f\|` |
| Columns.NormalizeLabels | build.py:72-81 | one label per column, each the strip of its label upper-cased; every label is its own upper case and its own strip, so `col.upper()` at line 81 changes nothing |
| Columns.UpperOfStripped | build.py:72-81 | a stripped, upper-cased text is unchanged by a further `upper()` or `strip()` |
| Columns.RoleOf | build.py:80-89 | a label is a code label exactly when its upper case mentions `CÓDIGO` or `CODIGO`; a final-price label mentions `FINAL`; a label with no role mentions neither `UNIDAD` nor `FINAL` |
| Columns.ColumnsOf | build.py:75-96 | every column chosen is a column of the sheet |
| Columns.LastWithRole | build.py:80-89 | the last label the `elif` chain gives the role; none exactly when no label has it |
| Columns.FirstMentioning | build.py:92-96 | the first label containing the keyword; none exactly when no label does |
| Columns.AssignRoles | build.py:80-89 | the first loop leaves in each role's variable the last label with that role |
| Columns.LastWithRoleSnoc | build.py:80-89 | one more label becomes the last with its role and changes no other role |
| Columns.FirstPrecio | build.py:92-96 | the fallback loop finds the first label mentioning `PRECIO` |
| Columns.MapColumns | build.py:75-96 | the mapping loops give `ColumnsOf(labels)` |
| Columns.ColumnsOfPicks | build.py:80-96 | each chosen column has its role and a role is unset exactly when no label has it; the price is the last final-price column when there is one, else the first `PRECIO` label |
| Columns.RolesDistinct | build.py:82-89 | no column takes two of the roles code, name, unit and final price |
| Columns.FinalAlternativeRedundant | build.py:88 | a label containing `P. FINAL` contains `FINAL`, so the second test never decides |
| Columns.UnitColumnAsPrice | build.py:86-96 | without a final-price column, a unit column mentioning `PRECIO` is the price column too |
| Columns.UnitPriceColumn | build.py:80-96 | labels `CODIGO, PRODUCTO, PRECIO UNIDAD` map to columns 0, 1, 2 and 2 |
| Columns.CodeLabel | build.py:82-83 | `CODIGO` is a code label that does not mention `PRECIO` |
| Columns.ProductLabel | build.py:84-85 | `PRODUCTO` is a name label that does not mention `PRECIO` |
| Columns.UnitLabel | build.py:86-87 | `PRECIO UNIDAD` is a unit label that mentions `PRECIO` |
| Columns.FourRoles | build.py:80-89 | four labels with the roles code, name, unit and final price, in that order, map to columns 0, 1, 2 and 3 |
| Columns.CodeAccentLabel | build.py:82-83 | `CÓDIGO` is upper case and a code label |
| Columns.UnitOnlyLabel | build.py:86-87 | `UNIDAD` is upper case and a unit label |
| Columns.FinalPriceLabel | build.py:88-89 | `P. FINAL` is upper case and a final-price label |
| Options.Kept | build.py:105-128 | no more kept values than entries |
| Options.KeptSelects | build.py:105-128 | the kept values are an order-preserving selection: listed positions hold them, the others hold nothing |
| Options.KeptFrom | build.py:105-128 | every kept value is present somewhere in the sequence |
| Options.KeptAppend | build.py:105-128 | keeping distributes over concatenation |
| Rows.UnitOf | build.py:121 | without a unit column, or with the cell missing, the unit is `''`; it is always stripped |
| Rows.PriceOf | build.py:122 | without a price column, or with the cell missing, the price is 0; a number cell gives its number; a text cell gives `TextPrice` of its text |
| Rows.RowKeptIff | build.py:106-128 | a row yields a record exactly when both cells are present, the stripped code is non-empty, the untrimmed upper-cased code is not `CÓDIGO` or `CODIGO`, and the stripped name is longer than two characters |
| Rows.RowProduct | build.py:106-128 | a record has a non-empty code, a name longer than two characters and the file's brand; a row with its code or name cell missing gives none |
| Rows.RowFields | build.py:118-124 | the record holds the stripped code and name, the unit, the price and the file's brand |
| Rows.RowWellFormed | build.py:110-128 | a record has a non-empty stripped code, a stripped name longer than two characters, a stripped unit and the file's brand |
| Rows.TrimIdempotent | build.py:119-120 | stripping twice is stripping once |
| Rows.Records | build.py:105-128 | no more records than rows |
| Rows.ExtractProducts | build.py:102-128 | the row loop gives `Records`, the kept outcomes of the rows in order |
| Rows.RecordsSnoc | build.py:105-128 | one more row appends its record, if any, at the end |
| Rows.RecordsSelect | build.py:105-128 | the records are an order-preserving filter-map of the rows |
| Rows.RecordRow | build.py:105-128 | every record comes from a row that yields exactly it |
| Rows.RecordsWellFormed | build.py:105-128 | every record is well formed and carries the file's brand |
| Rows.RecordsDefaults | build.py:121-122 | without a unit column every unit is `''`; without a price column every price is 0 |
| Rows.ProcessFile | build.py:50-131 | `process_excel_file` gives `SheetProducts` of the sheet read with the header row `find_header_row` picks |
| Rows.SheetProducts | build.py:98-131 | no more products than data rows, and none unless the labels give both a code and a name column |
| Rows.SheetRecords | build.py:98-131 | with both columns, the products are the records of the rows |
| Rows.SheetOfOneRow | build.py:98-131 | a sheet with one data row gives exactly that row's record |
| Rows.MissingColumnGivesNothing | build.py:98-100 | a sheet without a code column or without a name column gives no products |
| Rows.SheetProductsWellFormed | build.py:102-131 | every product of a file is well formed with the brand of the file name |
| Rows.DairyRowRecord | build.py:105-128 | under the columns `DairyColumns`, the row `001, LECHE ENTERA, LT, 4500` becomes the record with those texts, the price 4500 and the file's brand |
| Rows.LabelNormal | build.py:72 | each of `CÓDIGO`, `PRODUCTO`, `UNIDAD` and `P. FINAL` is its own strip upper-cased |
| Rows.DairyLabelsNormal | build.py:72 | the labels `CÓDIGO, PRODUCTO, UNIDAD, P. FINAL` are unchanged by normalisation |
| Rows.DairyLabelsMap | build.py:72-96 | those labels map code, name, unit and price to columns 0 to 3, which is `DairyColumns` |
| Rows.DairySheet | build.py:72-131 | a file `LECHERIA 26.ods` with those labels and the one row `001, LECHE ENTERA, LT, 4500` gives exactly one product, with the brand `LECHERIA` and the price 4500 |
| Rows.RepeatedHeaderSkipped | build.py:114-116 | a repeated header row whose code cell is `codigo` yields nothing, since the code is upper-cased before the test |
| Rows.ShortNameSkipped | build.py:109-128 | a name that strips to two characters yields nothing, and so does a row with its name cell missing |
| Categories.FirstMatchFrom | build.py:211-215 | the first table entry from `i` on with a keyword in the text; none before it has one |
| Categories.CategoryIn | build.py:211-216 | the category is a name of the table or `Otros` |
| Categories.Categorize | build.py:134-216 | `categorize_product` gives one of the fourteen category names or `Otros` |
| Categories.FallbackNotListed | build.py:139-216 | no category of the table is called `Otros` |
| Categories.FirstMatch | build.py:211-216 | over any table without an `Otros` entry: `Otros` exactly when no entry matches, otherwise the first matching entry |
| Categories.CategorizeFirstMatch | build.py:134-216 | `Otros` exactly when no category has a keyword in the upper-cased name; otherwise the first such category in table order |
| Categories.MatchAtMost | build.py:211-215 | a text with a keyword of entry `i` matches entry `i` or an earlier one |
| Categories.MatchAt | build.py:211-215 | a keyword of entry `i` and none of an earlier entry give entry `i` |
| Categories.AtMostCategory | build.py:139-215 | a name with a keyword of category `i` falls in category `i` or an earlier one |
| Categories.CategoryAt | build.py:139-215 | a keyword of category `i` and none of an earlier one give category `i` |
| Categories.CoffeeComesFirst | build.py:140-143 | a name mentioning `CAFE`, with `CHOCOLATE` or anything else, is `Café y Chocolate` |
| Categories.ArequipeNeverSweets | build.py:145-181 | `AREQUIPE` is listed under `Lácteos` first, so the `Dulces y Confitería` entry never decides a category |
| Categories.ArequipeIsDairy | build.py:145-148 | the name `AREQUIPE` is `Lácteos` |
| Categories.NoCoffeeWithout | build.py:140-143 | a name without the letters `F`, `O` and `K` has no coffee keyword |
| Categories.WholeMilkIsDairy | build.py:139-148 | the name `LECHE ENTERA` is `Lácteos` |
| Categories.FresaNeverFruit | build.py:189-196 | `FRESA` contains the earlier meat keyword `RES`, so a name mentioning `FRESA` is never `Frutas y Verduras` |
| Sorting.StrLessIrreflexive | build.py:245 | no string sorts before itself |
| Sorting.StrLessTransitive | build.py:245 | string order is transitive |
| Sorting.StrLessTotal | build.py:245 | any two different strings are ordered |
| Sorting.StrLessAsymmetric | build.py:245 | string order is asymmetric |
| Sorting.KeyLessTransitive | build.py:245 | the `(brand, name)` order is transitive |
| Sorting.KeyLessTotal | build.py:245 | any two different keys are ordered |
| Sorting.Insert | build.py:245 | inserting adds one element |
| Sorting.SortBy | build.py:245 | the sort keeps the length |
| Sorting.SortPermutes | build.py:245 | the sort is a permutation of its input |
| Sorting.InsertPermutes | build.py:245 | inserting adds exactly the one element |
| Sorting.InsertSorted | build.py:245 | inserting into a sorted list keeps it sorted |
| Sorting.SortSorted | build.py:245 | the sorted list is non-decreasing by key |
| Sorting.InsertStable | build.py:245 | an inserted element goes after the elements that have its key |
| Sorting.SortStable | build.py:245 | the elements with any one key keep their input order |
| Sorting.SortedGroupsDetermine | build.py:245 | two lists sorted by key with the same elements under every key, in the same order, are equal |
| Sorting.SortUnique | build.py:245 | any stable sort gives the same list as `SortBy`, so the stable insertion sort gives exactly the result of Python's `list.sort` |
| Sorting.InsertString | build.py:248 | inserting a string adds exactly it |
| Sorting.InsertStringIncreasing | build.py:248 | inserting a new string into a strictly increasing list keeps it strictly increasing |
| Sorting.SortedStrings | build.py:248 | `sorted(set)`: strictly increasing, with exactly the set's elements and as many |
| Sorting.IncreasingUnique | build.py:248 | two strictly increasing lists with the same elements are equal, so `sorted` has one result |
| Catalog.TaggedLength | build.py:239-240 | one item per product |
| Catalog.TaggedAt | build.py:239-240 | item `i` is product `i` with the category of its name |
| Catalog.TaggedSnoc | build.py:239-240 | one more product appends its item |
| Catalog.TaggedMember | build.py:239-240 | every item is one of the products, with the category of its name |
| Catalog.TagProducts | build.py:239-241 | the inner loop tags the products in order and adds their brands to the set |
| Catalog.ConcatMember | build.py:242 | an element of the concatenation comes from one of the lists |
| Catalog.AllItemsSnoc | build.py:237-242 | one more file appends its items to `all_products` |
| Catalog.BrandsOfAppend | build.py:241 | the brands of two lists together are the brands of each |
| Catalog.SortedItems | build.py:245 | the sort keeps the items and their brands, is sorted by `(brand, name)` and is stable |
| Catalog.BuildCatalog | build.py:234-256 | the products are the files' items sorted stably by `(brand, name)`, a permutation of them; `total_products` is their number; `brands` and `categories` are strictly increasing and hold exactly the products' brands and categories |
| Catalog.ItemFile | build.py:237-242 | every item comes from one of the files |
| Catalog.FileProducts | build.py:237-238 | every product of a file is well formed and carries the brand of the file's name |
| Catalog.ItemOrigin | build.py:234-245 | every catalog item is a well-formed product of one file, with that file's brand and the category of its name |
| Catalog.CatalogCategoriesListed | build.py:240-248 | every category of the catalog is one of the fourteen or `Otros` |
| Catalog.CatalogBrands | build.py:241-254 | every brand is the brand of a file that yielded at least one product |

## Left out

- Reading spreadsheets is not modelled: pandas, its type inference and the
  `try`/`except` around both reads. A file is its name, its raw rows, and a
  function giving the sheet read with a given header row. A file pandas cannot
  read is not modelled.
- A present cell is either a text or a number with the text `str()` gives for
  it. NaN is a missing cell.
- Prices are exact decimals (mantissa and scale), not binary floats. A numeric
  cell passes its value through, so the conversion `float(value)` does is not
  modelled.
- Price.ParseFloat: covers only texts of digits and dots, the only ones that
  reach `float()`. Digits other than ASCII, which `\d` and `float()` also
  accept, are left out.
- Text.UpperChar: upper-cases ASCII and Latin-1 letters only. Other
  characters, and the letters whose upper case is longer (such as `ß`), are
  left unchanged.
- Columns are identified by position. Duplicate labels after normalisation,
  which make pandas return several columns for one label, are left out.
- Labels are texts: `str(col)` of a non-text label is taken as given.
- Finding the files (`glob`), sorting their paths, and reading them from disk
  are left out. Catalog.BuildCatalog takes the files in the order given.
- Printing progress messages, creating the output directory and writing the
  JSON document are left out. Catalog.BuildCatalog returns the document's
  content.
- Sorting.SortBy: a stable insertion sort rather than Timsort. By
  Sorting.SortUnique the results are the same list.
