/**
 * The row loop of `process_excel_file`: every data row either becomes a
 * product record or is skipped, in order; and the whole function for one
 * file, from the raw sheet to its list of products.
 */
module Rows {
  import opened Options
  import opened Text
  import opened Decimals
  import opened Sheets
  import opened Price
  import opened Brand
  import opened Header
  import opened Columns

  /** One product record of the script (a dict with these five keys). */
  datatype Product = Product(code: string, name: string, unit: string, price: Decimal, brand: string)

  /** The untrimmed code text the header-like test rejects. */
  predicate IsHeaderCode(code: string) {
    Upper(code) == "CÓDIGO" || Upper(code) == "CODIGO"
  }

  /** A column mapping that found both required columns. */
  predicate HasRequired(m: ColumnMap) {
    m.code.Some? && m.name.Some?
  }

  /** `unit`: the stripped text of the unit cell; `''` without a unit
      column or when the cell is missing. */
  function UnitOf(row: Row, m: ColumnMap): (u: string)
    ensures m.unit.None? ==> u == ""
    ensures m.unit.Some? && Get(row, m.unit.value).None? ==> u == ""
    ensures u == [] || (!IsSpace(u[0]) && !IsSpace(u[|u| - 1]))
  {
    if m.unit.Some? && Get(row, m.unit.value).Some? then Trim(Str(Get(row, m.unit.value).value)) else ""
  }

  /** `price`: `clean_price` of the price cell, 0 without a price column. */
  function PriceOf(row: Row, m: ColumnMap): (p: Decimal)
    ensures m.price.None? ==> p == Zero
    ensures m.price.Some? && Get(row, m.price.value).None? ==> p == Zero
    ensures m.price.Some? && Get(row, m.price.value).Some? && Get(row, m.price.value).value.NumberCell? ==>
              p == Get(row, m.price.value).value.value
    ensures m.price.Some? && Get(row, m.price.value).Some? && Get(row, m.price.value).value.TextCell? ==>
              p == TextPrice(Get(row, m.price.value).value.text)
  {
    if m.price.Some? then CleanPrice(Get(row, m.price.value)) else Zero
  }

  /** One pass of the row loop: the record the row yields, or `None` when
      one of the `continue`s or the final length test skips it. */
  function RowProduct(row: Row, m: ColumnMap, brand: string): (r: Option<Product>)
    requires HasRequired(m)
    ensures r.Some? ==> r.value.code != [] && |r.value.name| > 2 && r.value.brand == brand
    ensures Get(row, m.code.value).None? || Get(row, m.name.value).None? ==> r.None?
  {
    var code := Get(row, m.code.value);
    var name := Get(row, m.name.value);
    if code.None? || name.None? then None
    else
      var c := Str(code.value);
      var n := Str(name.value);
      if Trim(c) == [] || Trim(n) == [] then None
      else if IsHeaderCode(c) then None
      else
        var p := Product(Trim(c), Trim(n), UnitOf(row, m), PriceOf(row, m), brand);
        if |p.name| > 2 then Some(p) else None
  }

  /** Stripping twice is stripping once. */
  lemma TrimIdempotent(s: string)
    ensures Trim(Trim(s)) == Trim(s)
  {
    TrimNoOp(Trim(s));
  }

  /** What every record satisfies: non-empty stripped code and a stripped
      name of more than two characters, both from present cells, a code
      cell that is not the header word, and the file's brand. */
  ghost predicate WellFormed(p: Product, brand: string) {
    p.code != [] && Trim(p.code) == p.code &&
    |p.name| > 2 && Trim(p.name) == p.name &&
    Trim(p.unit) == p.unit &&
    p.brand == brand
  }

  /** A row yields a record exactly when both cells are present, the
      stripped code is non-empty, the untrimmed code is not the header word
      and the stripped name is longer than two characters. */
  lemma RowKeptIff(row: Row, m: ColumnMap, brand: string)
    requires HasRequired(m)
    ensures var code := Get(row, m.code.value);
            var name := Get(row, m.name.value);
            RowProduct(row, m, brand).Some? <==>
              (code.Some? && name.Some? && Trim(Str(code.value)) != [] &&
               !IsHeaderCode(Str(code.value)) && |Trim(Str(name.value))| > 2)
  {
  }

  /** The record's fields come from the row's cells and the file's brand. */
  lemma RowFields(row: Row, m: ColumnMap, brand: string)
    requires HasRequired(m)
    ensures var r := RowProduct(row, m, brand);
            r.Some? ==>
              r.value.code == Trim(Str(Get(row, m.code.value).value)) &&
              r.value.name == Trim(Str(Get(row, m.name.value).value)) &&
              r.value.unit == UnitOf(row, m) && r.value.price == PriceOf(row, m) &&
              r.value.brand == brand
  {
  }

  /** A record is well formed. */
  lemma RowWellFormed(row: Row, m: ColumnMap, brand: string)
    requires HasRequired(m)
    ensures var r := RowProduct(row, m, brand);
            r.Some? ==> WellFormed(r.value, brand)
  {
    var r := RowProduct(row, m, brand);
    if r.Some? {
      RowFields(row, m, brand);
      TrimIdempotent(Str(Get(row, m.code.value).value));
      TrimIdempotent(Str(Get(row, m.name.value).value));
      TrimNoOp(r.value.unit);
    }
  }

  /** What each row yields, in row order. */
  function Outcomes(rows: seq<Row>, m: ColumnMap, brand: string): (rs: seq<Option<Product>>)
    requires HasRequired(m)
  {
    seq(|rows|, i requires 0 <= i < |rows| => RowProduct(rows[i], m, brand))
  }

  /** The records of a run of rows: the row loop as a filter-map. */
  function Records(rows: seq<Row>, m: ColumnMap, brand: string): (ps: seq<Product>)
    requires HasRequired(m)
    ensures |ps| <= |rows|
  {
    Kept(Outcomes(rows, m, brand))
  }

  /** The row loop: `products.append(product)` for every row that is kept. */
  method ExtractProducts(rows: seq<Row>, m: ColumnMap, brand: string) returns (products: seq<Product>)
    requires HasRequired(m)
    ensures products == Records(rows, m, brand)
  {
    products := [];
    var i := 0;
    while i < |rows|
      invariant 0 <= i <= |rows|
      invariant products == Records(rows[..i], m, brand)
    {
      RecordsSnoc(rows, i, m, brand);
      var r := RowProduct(rows[i], m, brand);
      if r.Some? {
        products := products + [r.value];
      }
      i := i + 1;
    }
    assert rows[..i] == rows;
  }

  /** One more row adds its record, if any, at the end. */
  lemma RecordsSnoc(rows: seq<Row>, i: nat, m: ColumnMap, brand: string)
    requires HasRequired(m) && i < |rows|
    ensures var r := RowProduct(rows[i], m, brand);
            Records(rows[..i + 1], m, brand) == Records(rows[..i], m, brand) + (if r.Some? then [r.value] else [])
  {
    var rs := Outcomes(rows[..i + 1], m, brand);
    assert rs[..i] == Outcomes(rows[..i], m, brand);
  }

  /** The records are an order-preserving selection of the rows: row
      `idx[k]` yields record `k`, and the rows not listed yield nothing. */
  lemma RecordsSelect(rows: seq<Row>, m: ColumnMap, brand: string)
    requires HasRequired(m)
    ensures exists idx :: Selects(Outcomes(rows, m, brand), Records(rows, m, brand), idx)
    ensures forall i :: 0 <= i < |rows| ==> Outcomes(rows, m, brand)[i] == RowProduct(rows[i], m, brand)
  {
    var rs := Outcomes(rows, m, brand);
    KeptSelects(rs);
    var idx :| Selects(rs, Kept(rs), idx);
    assert Selects(rs, Records(rows, m, brand), idx);
  }

  /** Every record of the loop is well formed and carries the file's brand. */
  lemma RecordsWellFormed(rows: seq<Row>, m: ColumnMap, brand: string)
    requires HasRequired(m)
    ensures forall p :: p in Records(rows, m, brand) ==> WellFormed(p, brand)
  {
    forall p | p in Records(rows, m, brand)
      ensures WellFormed(p, brand)
    {
      var i := RecordRow(rows, m, brand, p);
      RowWellFormed(rows[i], m, brand);
    }
  }

  /** Without a unit column every unit is empty; without a price column
      every price is 0. */
  lemma RecordsDefaults(rows: seq<Row>, m: ColumnMap, brand: string)
    requires HasRequired(m)
    ensures m.unit.None? ==> forall p :: p in Records(rows, m, brand) ==> p.unit == ""
    ensures m.price.None? ==> forall p :: p in Records(rows, m, brand) ==> p.price == Zero
  {
    forall p | p in Records(rows, m, brand)
      ensures m.unit.None? ==> p.unit == ""
      ensures m.price.None? ==> p.price == Zero
    {
      var i := RecordRow(rows, m, brand, p);
      RowFields(rows[i], m, brand);
    }
  }

  /** The row a record comes from. */
  lemma RecordRow(rows: seq<Row>, m: ColumnMap, brand: string, p: Product) returns (i: nat)
    requires HasRequired(m) && p in Records(rows, m, brand)
    ensures i < |rows| && RowProduct(rows[i], m, brand) == Some(p)
  {
    var rs := Outcomes(rows, m, brand);
    KeptFrom(rs, p);
    i :| 0 <= i < |rs| && rs[i] == Some(p);
  }

  /** `process_excel_file` on a sheet already read with its header row:
      no products without a code or a name column, otherwise the records
      of the data rows under the brand of the file name. */
  function SheetProducts(filename: string, sheet: Sheet): (ps: seq<Product>)
    ensures |ps| <= |sheet.rows|
    ensures !HasRequired(ColumnsOf(NormalizeLabels(sheet.labels))) ==> ps == []
  {
    var m := ColumnsOf(NormalizeLabels(sheet.labels));
    if !HasRequired(m) then [] else Records(sheet.rows, m, ExtractBrand(filename))
  }

  /** `process_excel_file(filepath)`. The sheet read without a header is
      `raw`; `read(h)` is the sheet read again with row `h` as its header. */
  method ProcessFile(filename: string, raw: seq<Row>, read: nat -> Sheet) returns (products: seq<Product>)
    ensures products == SheetProducts(filename, read(FindHeaderRow(raw)))
  {
    var h := FindHeaderRow(raw);
    var sheet := read(h);
    var labels := NormalizeLabels(sheet.labels);
    var m := MapColumns(labels);
    if m.code.None? || m.name.None? {
      return [];
    }
    var brand := ExtractBrand(filename);
    products := ExtractProducts(sheet.rows, m, brand);
  }

  /** A sheet without a code column or without a name column gives no products. */
  lemma MissingColumnGivesNothing(filename: string, sheet: Sheet)
    requires var labels := NormalizeLabels(sheet.labels);
             (forall j :: 0 <= j < |labels| ==> RoleOf(labels[j]) != CodeRole) ||
             (forall j :: 0 <= j < |labels| ==> RoleOf(labels[j]) != NameRole)
    ensures SheetProducts(filename, sheet) == []
  {
    ColumnsOfPicks(NormalizeLabels(sheet.labels));
  }

  /** Every product of a file is well formed with the brand of its name. */
  lemma SheetProductsWellFormed(filename: string, sheet: Sheet)
    ensures forall p :: p in SheetProducts(filename, sheet) ==> WellFormed(p, ExtractBrand(filename))
  {
    var m := ColumnsOf(NormalizeLabels(sheet.labels));
    if HasRequired(m) {
      RecordsWellFormed(sheet.rows, m, ExtractBrand(filename));
    }
  }

  /** The header of a typical price list. */
  const DairyLabels := ["CÓDIGO", "PRODUCTO", "UNIDAD", "P. FINAL"]

  /** Its column mapping: code, name, unit and final price in that order. */
  const DairyColumns := ColumnMap(Some(0), Some(1), Some(2), Some(3))

  /** The labels map to `DairyColumns`. */
  lemma DairyLabelsMap()
    ensures ColumnsOf(NormalizeLabels(DairyLabels)) == DairyColumns
  {
    DairyLabelsNormal();
    CodeAccentLabel("CÓDIGO");
    ProductLabel("PRODUCTO");
    UnitOnlyLabel("UNIDAD");
    FinalPriceLabel("P. FINAL");
    FourRoles("CÓDIGO", "PRODUCTO", "UNIDAD", "P. FINAL");
  }

  /** The labels are already stripped and upper-case. */
  lemma DairyLabelsNormal()
    ensures NormalizeLabels(DairyLabels) == DairyLabels
  {
    var r := NormalizeLabels(DairyLabels);
    forall k | 0 <= k < 4
      ensures r[k] == DairyLabels[k]
    {
      LabelNormal(DairyLabels[k]);
    }
  }

  lemma LabelNormal(u: string)
    requires u in ["CÓDIGO", "PRODUCTO", "UNIDAD", "P. FINAL"]
    ensures Upper(Trim(u)) == u
  {
    TrimNoOp(u);
    assert Upper(u) == u;
  }

  /** A data row of such a sheet: code, name, unit and a numeric price. */
  const DairyRow: Row := [Some(TextCell("001")), Some(TextCell("LECHE ENTERA")), Some(TextCell("LT")), Some(NumberCell(Decimal(4500, 0), "4500"))]

  /** The row becomes the record with its stripped texts, the price passed
      through and the file's brand. */
  lemma DairyRowRecord()
    ensures RowProduct(DairyRow, DairyColumns, "LECHERIA") ==
            Some(Product("001", "LECHE ENTERA", "LT", Decimal(4500, 0), "LECHERIA"))
  {
    assert Get(DairyRow, 0) == Some(TextCell("001"));
    assert Get(DairyRow, 1) == Some(TextCell("LECHE ENTERA"));
    TrimNoOp("001");
    TrimNoOp("LECHE ENTERA");
    assert !IsHeaderCode("001") by {
      assert |Upper("001")| == 3;
    }
    assert UnitOf(DairyRow, DairyColumns) == "LT" by {
      TrimNoOp("LT");
    }
    assert PriceOf(DairyRow, DairyColumns) == Decimal(4500, 0);
  }

  /** A header row repeated among the data rows yields nothing. */
  lemma RepeatedHeaderSkipped()
    ensures RowProduct([Some(TextCell("codigo")), Some(TextCell("PRODUCTO"))], DairyColumns, "LECHERIA") == None
  {
    TrimNoOp("codigo");
    TrimNoOp("PRODUCTO");
    assert Upper("codigo") == "CODIGO";
  }

  /** A name of two characters yields nothing, and a missing name cell too. */
  lemma ShortNameSkipped()
    ensures RowProduct([Some(TextCell("002")), Some(TextCell(" LT "))], DairyColumns, "LECHERIA") == None
    ensures RowProduct([Some(TextCell("002"))], DairyColumns, "LECHERIA") == None
  {
    TrimNoOp("002");
    assert Trim(" LT ") == "LT" by {
      assert TrimStart(" LT ") == "LT ";
      assert TrimEnd("LT ") == "LT";
    }
    assert |Upper("002")| == 3;
  }

  /** With both required columns the products are the records of the rows. */
  lemma SheetRecords(filename: string, sheet: Sheet, m: ColumnMap)
    requires ColumnsOf(NormalizeLabels(sheet.labels)) == m && HasRequired(m)
    ensures SheetProducts(filename, sheet) == Records(sheet.rows, m, ExtractBrand(filename))
  {
  }

  /** A sheet with one data row gives that row's record, if any. */
  lemma SheetOfOneRow(filename: string, labels: seq<string>, row: Row, m: ColumnMap, p: Product)
    requires ColumnsOf(NormalizeLabels(labels)) == m && HasRequired(m)
    requires RowProduct(row, m, ExtractBrand(filename)) == Some(p)
    ensures SheetProducts(filename, Sheet(labels, [row])) == [p]
  {
    var brand, rows: seq<Row> := ExtractBrand(filename), [row];
    SheetRecords(filename, Sheet(labels, rows), m);
    RecordsSnoc(rows, 0, m, brand);
    assert rows[..1] == rows && rows[..0] == [];
    assert Outcomes([], m, brand) == [];
  }

  /** The file `LECHERIA 26.ods` with that header and the one data row
      gives one product of brand `LECHERIA`. */
  lemma DairySheet()
    ensures SheetProducts("LECHERIA 26.ods", Sheet(DairyLabels, [DairyRow])) ==
            [Product("001", "LECHE ENTERA", "LT", Decimal(4500, 0), "LECHERIA")]
  {
    DairyLabelsMap();
    BrandWithShortYear();
    DairyRowRecord();
    SheetOfOneRow("LECHERIA 26.ods", DairyLabels, DairyRow, DairyColumns,
                  Product("001", "LECHE ENTERA", "LT", Decimal(4500, 0), "LECHERIA"));
  }
}
