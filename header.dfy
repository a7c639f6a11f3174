/**
 * `find_header_row`: the first row of the raw sheet (read without a
 * header) that mentions the code column, `CÓDIGO` or `CODIGO`, in any of
 * its upper-cased present cells; row 0 when there is none.
 */
module Header {
  import opened Options
  import opened Text
  import opened Sheets

  /** `str(v).upper()` for every present cell of the row, in order. */
  function PresentUpper(row: Row): (xs: seq<string>)
    ensures |xs| <= |row|
  {
    if row == [] then []
    else (if row[0].Some? then [Upper(Str(row[0].value))] else []) + PresentUpper(row[1..])
  }

  /** The text `find_header_row` searches: the present cells joined by spaces. */
  function RowText(row: Row): string {
    JoinSpace(PresentUpper(row))
  }

  /** A text naming the code column. */
  predicate MentionsCode(s: string) {
    Contains(s, "CÓDIGO") || Contains(s, "CODIGO")
  }

  /** The test `find_header_row` applies to each row. */
  predicate IsHeaderRow(row: Row) {
    MentionsCode(RowText(row))
  }

  /** The first header row at index `i` or later, if any. */
  function FirstHeaderFrom(rows: seq<Row>, i: nat): (r: Option<nat>)
    requires i <= |rows|
    ensures r.Some? ==> i <= r.value < |rows| && IsHeaderRow(rows[r.value])
    ensures r.Some? ==> forall j :: i <= j < r.value ==> !IsHeaderRow(rows[j])
    ensures r.None? ==> forall j :: i <= j < |rows| ==> !IsHeaderRow(rows[j])
    decreases |rows| - i
  {
    if i == |rows| then None
    else if IsHeaderRow(rows[i]) then Some(i)
    else FirstHeaderFrom(rows, i + 1)
  }

  /** `find_header_row(df)`: the index of the first header row, else 0. */
  function FindHeaderRow(rows: seq<Row>): (h: nat)
    ensures h == 0 || h < |rows|
    ensures (exists j :: 0 <= j < |rows| && IsHeaderRow(rows[j])) ==>
              h < |rows| && IsHeaderRow(rows[h]) && forall j :: 0 <= j < h ==> !IsHeaderRow(rows[j])
    ensures (forall j :: 0 <= j < |rows| ==> !IsHeaderRow(rows[j])) ==> h == 0
  {
    var r := FirstHeaderFrom(rows, 0);
    if r.Some? then r.value else 0
  }

  /** The upper-cased present cells are exactly the upper-cased `str` of
      the row's present cells. */
  lemma {:induction false} PresentUpperMembers(row: Row, x: string)
    ensures x in PresentUpper(row) <==>
            exists i :: 0 <= i < |row| && row[i].Some? && x == Upper(Str(row[i].value))
  {
    if row != [] {
      PresentUpperMembers(row[1..], x);
      if i :| 0 <= i < |row| && row[i].Some? && x == Upper(Str(row[i].value)) {
        if i > 0 {
          assert row[1..][i - 1] == row[i];
        }
      }
      if i :| 0 <= i < |row| - 1 && row[1..][i].Some? && x == Upper(Str(row[1..][i].value)) {
        assert row[i + 1] == row[1..][i];
      }
    }
  }

  /** The texts are the upper-cased `str` of the present cells, one each
      and in row order. */
  lemma {:induction false} PresentUpperInOrder(row: Row)
    ensures |PresentUpper(row)| == |Kept(row)|
    ensures forall i :: 0 <= i < |Kept(row)| ==> PresentUpper(row)[i] == Upper(Str(Kept(row)[i]))
  {
    if row != [] {
      var head, tail := row[..1], row[1..];
      PresentUpperInOrder(tail);
      assert head + tail == row;
      KeptAppend(head, tail);
      assert head[..0] == [];
      assert Kept(head) == if row[0].Some? then [row[0].value] else [];
    }
  }

  /** A present cell that, upper-cased, names the code column. */
  predicate CellMentionsCode(c: Cell) {
    MentionsCode(Upper(Str(c)))
  }

  /** Joining the cells with spaces creates no match across two cells: a
      row is a header row exactly when one of its present cells, on its
      own, names the code column. */
  lemma HeaderRowByCell(row: Row)
    ensures IsHeaderRow(row) <==>
            exists i :: 0 <= i < |row| && row[i].Some? && CellMentionsCode(row[i].value)
  {
    var xs := PresentUpper(row);
    ContainsJoin(xs, "CÓDIGO");
    ContainsJoin(xs, "CODIGO");
    if IsHeaderRow(row) {
      var k :| 0 <= k < |xs| && MentionsCode(xs[k]);
      PresentUpperMembers(row, xs[k]);
    }
    if i :| 0 <= i < |row| && row[i].Some? && CellMentionsCode(row[i].value) {
      var x := Upper(Str(row[i].value));
      PresentUpperMembers(row, x);
      var k :| 0 <= k < |xs| && xs[k] == x;
    }
  }

  /** The lower-case spelling is found too, since cells are upper-cased. */
  lemma LowerCaseHeader(rows: seq<Row>)
    requires |rows| == 2 && rows[0] == [None, Some(TextCell("Lista"))]
    requires rows[1] == [Some(TextCell("codigo")), Some(TextCell("producto"))]
    ensures FindHeaderRow(rows) == 1
  {
    var parts := ["CODIGO", "PRODUCTO"];
    assert Upper("codigo") == "CODIGO";
    assert Upper("producto") == "PRODUCTO";
    assert PresentUpper(rows[1]) == parts by {
      assert rows[1][1..][1..] == [];
    }
    assert StartsWith(JoinSpace(parts), "CODIGO");
    assert !IsHeaderRow(rows[0]) by {
      assert PresentUpper(rows[0]) == [Upper("Lista")];
      ContainsHasChars(Upper("Lista"), "CÓDIGO", 'C');
      ContainsHasChars(Upper("Lista"), "CODIGO", 'C');
    }
  }
}
