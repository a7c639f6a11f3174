/**
 * The column mapping of `process_excel_file`: the labels are stripped and
 * upper-cased, each label takes at most one role by an `elif` chain (code,
 * then name, then unit, then final price), the last label of a role wins,
 * and when no label is a final price the first label mentioning `PRECIO`
 * is the price column. Columns are identified by their position.
 */
module Columns {
  import opened Options
  import opened Text

  datatype Role = CodeRole | NameRole | UnitRole | FinalRole | NoRole

  /** `[str(col).strip().upper() for col in df.columns]`. */
  function NormalizeLabels(labels: seq<string>): (r: seq<string>)
    ensures |r| == |labels|
    ensures forall i :: 0 <= i < |r| ==> r[i] == Upper(Trim(labels[i]))
    ensures forall i :: 0 <= i < |r| ==> Upper(r[i]) == r[i]
    ensures forall i :: 0 <= i < |r| ==> Trim(r[i]) == r[i]
  {
    UpperOfStripped();
    seq(|labels|, i requires 0 <= i < |labels| => Upper(Trim(labels[i])))
  }

  /** A stripped, upper-cased text is left alone by both operations again. */
  lemma UpperOfStripped()
    ensures forall s :: Upper(Upper(Trim(s))) == Upper(Trim(s)) && Trim(Upper(Trim(s))) == Upper(Trim(s))
  {
    forall s
      ensures Upper(Upper(Trim(s))) == Upper(Trim(s)) && Trim(Upper(Trim(s))) == Upper(Trim(s))
    {
      UpperIdempotent(Trim(s));
      UpperKeepsStripped(Trim(s));
    }
  }

  /** The role the `elif` chain gives a label, decided on `col.upper()`. */
  function RoleOf(col: string): (r: Role)
    ensures r == CodeRole <==> Contains(Upper(col), "CÓDIGO") || Contains(Upper(col), "CODIGO")
    ensures r == FinalRole ==> Contains(Upper(col), "FINAL")
    ensures r == NoRole ==> !Contains(Upper(col), "UNIDAD") && !Contains(Upper(col), "FINAL")
  {
    FinalAlternativeRedundant(col);
    var u := Upper(col);
    if Contains(u, "CÓDIGO") || Contains(u, "CODIGO") then CodeRole
    else if Contains(u, "PRODUCTO") || Contains(u, "NOMBRE") then NameRole
    else if Contains(u, "UNIDAD") then UnitRole
    else if Contains(u, "FINAL") || Contains(u, "P. FINAL") then FinalRole
    else NoRole
  }

  /** The last label with the given role: the column the loop leaves in
      that role's variable. */
  function LastWithRole(labels: seq<string>, role: Role): (r: Option<nat>)
    ensures r.Some? ==> r.value < |labels| && RoleOf(labels[r.value]) == role
    ensures r.Some? ==> forall j :: r.value < j < |labels| ==> RoleOf(labels[j]) != role
    ensures r.None? ==> forall j :: 0 <= j < |labels| ==> RoleOf(labels[j]) != role
  {
    if labels == [] then None
    else if RoleOf(labels[|labels| - 1]) == role then Some(|labels| - 1)
    else LastWithRole(labels[..|labels| - 1], role)
  }

  /** The first label whose upper-cased text contains `kw`. */
  function FirstMentioning(labels: seq<string>, kw: string): (r: Option<nat>)
    ensures r.Some? ==> r.value < |labels| && Contains(Upper(labels[r.value]), kw)
    ensures r.Some? ==> forall j :: 0 <= j < r.value ==> !Contains(Upper(labels[j]), kw)
    ensures r.None? ==> forall j :: 0 <= j < |labels| ==> !Contains(Upper(labels[j]), kw)
  {
    if labels == [] then None
    else if Contains(Upper(labels[0]), kw) then Some(0)
    else
      var r := FirstMentioning(labels[1..], kw);
      if r.Some? then Some(r.value + 1) else None
  }

  /** The four column variables after both loops. */
  datatype ColumnMap = ColumnMap(code: Option<nat>, name: Option<nat>, unit: Option<nat>, price: Option<nat>)

  /** Both loops of the mapping, stated by what they pick. */
  function ColumnsOf(labels: seq<string>): (m: ColumnMap)
    ensures m.code.Some? ==> m.code.value < |labels|
    ensures m.name.Some? ==> m.name.value < |labels|
    ensures m.unit.Some? ==> m.unit.value < |labels|
    ensures m.price.Some? ==> m.price.value < |labels|
  {
    var last := LastWithRole(labels, FinalRole);
    ColumnMap(LastWithRole(labels, CodeRole), LastWithRole(labels, NameRole),
              LastWithRole(labels, UnitRole),
              if last.Some? then last else FirstMentioning(labels, "PRECIO"))
  }

  /** The mapping loops of `process_excel_file` over the normalised labels. */
  method MapColumns(labels: seq<string>) returns (m: ColumnMap)
    ensures m == ColumnsOf(labels)
  {
    var code, name, unit, price := AssignRoles(labels);
    if price.None? {
      price := FirstPrecio(labels);
    }
    m := ColumnMap(code, name, unit, price);
  }

  /** The first loop: each label takes the first role of the `elif` chain
      it satisfies, and a later label of a role replaces an earlier one. */
  method AssignRoles(labels: seq<string>) returns (code: Option<nat>, name: Option<nat>, unit: Option<nat>, price: Option<nat>)
    ensures code == LastWithRole(labels, CodeRole)
    ensures name == LastWithRole(labels, NameRole)
    ensures unit == LastWithRole(labels, UnitRole)
    ensures price == LastWithRole(labels, FinalRole)
  {
    code, name, unit, price := None, None, None, None;
    var i := 0;
    while i < |labels|
      invariant 0 <= i <= |labels|
      invariant code == LastWithRole(labels[..i], CodeRole)
      invariant name == LastWithRole(labels[..i], NameRole)
      invariant unit == LastWithRole(labels[..i], UnitRole)
      invariant price == LastWithRole(labels[..i], FinalRole)
    {
      var u := Upper(labels[i]);
      ghost var role := RoleOf(labels[i]);
      if Contains(u, "CÓDIGO") || Contains(u, "CODIGO") {
        assert role == CodeRole;
        code := Some(i);
      } else if Contains(u, "PRODUCTO") || Contains(u, "NOMBRE") {
        assert role == NameRole;
        name := Some(i);
      } else if Contains(u, "UNIDAD") {
        assert role == UnitRole;
        unit := Some(i);
      } else if Contains(u, "FINAL") || Contains(u, "P. FINAL") {
        assert role == FinalRole;
        price := Some(i);
      } else {
        assert role == NoRole;
      }
      LastWithRoleSnoc(labels, i, CodeRole);
      LastWithRoleSnoc(labels, i, NameRole);
      LastWithRoleSnoc(labels, i, UnitRole);
      LastWithRoleSnoc(labels, i, FinalRole);
      i := i + 1;
    }
    assert labels[..i] == labels;
  }

  /** The fallback loop: the first label mentioning `PRECIO`, if any. */
  method FirstPrecio(labels: seq<string>) returns (price: Option<nat>)
    ensures price == FirstMentioning(labels, "PRECIO")
  {
    price := None;
    var j := 0;
    while j < |labels|
      invariant 0 <= j <= |labels|
      invariant forall k :: 0 <= k < j ==> !Contains(Upper(labels[k]), "PRECIO")
      invariant price.None?
    {
      if Contains(Upper(labels[j]), "PRECIO") {
        price := Some(j);
        break;
      }
      j := j + 1;
    }
    FirstMentioningIs(labels, "PRECIO", price);
  }

  /** One more label: it becomes the last with its role. */
  lemma LastWithRoleSnoc(labels: seq<string>, i: nat, role: Role)
    requires i < |labels|
    ensures LastWithRole(labels[..i + 1], role)
            == if RoleOf(labels[i]) == role then Some(i) else LastWithRole(labels[..i], role)
  {
    assert labels[..i + 1][..i] == labels[..i];
  }

  /** `FirstMentioning` is characterised by its contract. */
  lemma FirstMentioningIs(labels: seq<string>, kw: string, r: Option<nat>)
    requires r.Some? ==> r.value < |labels| && Contains(Upper(labels[r.value]), kw)
    requires r.Some? ==> forall j :: 0 <= j < r.value ==> !Contains(Upper(labels[j]), kw)
    requires r.None? ==> forall j :: 0 <= j < |labels| ==> !Contains(Upper(labels[j]), kw)
    ensures r == FirstMentioning(labels, kw)
  {
  }

  /** What the mapping promises: each chosen column carries its role and is
      the last with it; the price column is the last final-price column
      when there is one, otherwise the first column mentioning `PRECIO`. */
  lemma ColumnsOfPicks(labels: seq<string>)
    ensures var m := ColumnsOf(labels);
            (m.code.Some? ==> m.code.value < |labels| && RoleOf(labels[m.code.value]) == CodeRole) &&
            (m.code.None? <==> forall j :: 0 <= j < |labels| ==> RoleOf(labels[j]) != CodeRole) &&
            (m.name.Some? ==> m.name.value < |labels| && RoleOf(labels[m.name.value]) == NameRole) &&
            (m.name.None? <==> forall j :: 0 <= j < |labels| ==> RoleOf(labels[j]) != NameRole) &&
            (m.unit.Some? ==> m.unit.value < |labels| && RoleOf(labels[m.unit.value]) == UnitRole) &&
            (m.unit.None? <==> forall j :: 0 <= j < |labels| ==> RoleOf(labels[j]) != UnitRole)
    ensures var m := ColumnsOf(labels);
            (exists j :: 0 <= j < |labels| && RoleOf(labels[j]) == FinalRole) ==>
              m.price.Some? && RoleOf(labels[m.price.value]) == FinalRole &&
              forall j :: m.price.value < j < |labels| ==> RoleOf(labels[j]) != FinalRole
    ensures var m := ColumnsOf(labels);
            (forall j :: 0 <= j < |labels| ==> RoleOf(labels[j]) != FinalRole) ==>
              m.price == FirstMentioning(labels, "PRECIO")
  {
    var m := ColumnsOf(labels);
    if m.code.Some? {
      assert RoleOf(labels[m.code.value]) == CodeRole;
    }
    if m.name.Some? {
      assert RoleOf(labels[m.name.value]) == NameRole;
    }
    if m.unit.Some? {
      assert RoleOf(labels[m.unit.value]) == UnitRole;
    }
  }

  /** No column takes two of the roles code, name, unit and final price. */
  lemma RolesDistinct(labels: seq<string>)
    ensures var m := ColumnsOf(labels);
            var last := LastWithRole(labels, FinalRole);
            (m.code.Some? && m.name.Some? ==> m.code != m.name) &&
            (m.code.Some? && m.unit.Some? ==> m.code != m.unit) &&
            (m.name.Some? && m.unit.Some? ==> m.name != m.unit) &&
            (last.Some? && m.code.Some? ==> last != m.code) &&
            (last.Some? && m.name.Some? ==> last != m.name) &&
            (last.Some? && m.unit.Some? ==> last != m.unit)
  {
  }

  /** The `'P. FINAL'` test of the chain never decides anything: a label
      containing it already contains `FINAL`. */
  lemma FinalAlternativeRedundant(col: string)
    ensures Contains(Upper(col), "P. FINAL") ==> Contains(Upper(col), "FINAL")
  {
    if Contains(Upper(col), "P. FINAL") {
      assert "P. FINAL"[3..] == "FINAL";
      assert Contains("P. FINAL", "FINAL") by {
        assert Contains("P. FINAL"[1..], "FINAL");
      }
      ContainsTransitive(Upper(col), "P. FINAL", "FINAL");
    }
  }

  /** The fallback is not bound by the `elif` chain: with no final-price
      column, a unit column that mentions `PRECIO` is the price column too. */
  lemma UnitColumnAsPrice(a: string, b: string, c: string)
    requires RoleOf(a) == CodeRole && RoleOf(b) == NameRole && RoleOf(c) == UnitRole
    requires !Contains(Upper(a), "PRECIO") && !Contains(Upper(b), "PRECIO")
    requires Contains(Upper(c), "PRECIO")
    ensures ColumnsOf([a, b, c]) == ColumnMap(Some(0), Some(1), Some(2), Some(2))
  {
    var labels := [a, b, c];
    assert labels[..2] == [a, b] && labels[..2][..1] == [a] && [a][..0] == [];
    assert LastWithRole([a], FinalRole) == None;
    assert LastWithRole([a, b], FinalRole) == None;
    assert LastWithRole(labels, FinalRole) == None;
    assert labels[1..] == [b, c] && labels[1..][1..] == [c];
  }

  lemma UnitPriceColumn()
    ensures ColumnsOf(["CODIGO", "PRODUCTO", "PRECIO UNIDAD"]) ==
            ColumnMap(Some(0), Some(1), Some(2), Some(2))
  {
    CodeLabel("CODIGO");
    ProductLabel("PRODUCTO");
    UnitLabel("PRECIO UNIDAD");
    UnitColumnAsPrice("CODIGO", "PRODUCTO", "PRECIO UNIDAD");
  }

  lemma CodeLabel(u: string)
    requires u == "CODIGO"
    ensures RoleOf(u) == CodeRole && !Contains(Upper(u), "PRECIO")
  {
    assert Upper(u) == u;
    assert StartsWith(u, "CODIGO");
    ContainsHasChars(u, "PRECIO", 'P');
  }

  lemma ProductLabel(u: string)
    requires u == "PRODUCTO"
    ensures RoleOf(u) == NameRole && !Contains(Upper(u), "PRECIO")
  {
    ProductLabelUpper(u);
    ProductLabelMisses(u);
    assert StartsWith(u, "PRODUCTO");
  }

  lemma ProductLabelUpper(u: string)
    requires u == "PRODUCTO"
    ensures Upper(u) == u
  {
  }

  lemma ProductLabelMisses(u: string)
    requires u == "PRODUCTO"
    ensures !Contains(u, "CÓDIGO") && !Contains(u, "CODIGO") && !Contains(u, "PRECIO")
  {
    assert 'G' !in u && 'E' !in u;
    ContainsHasChars(u, "CÓDIGO", 'G');
    ContainsHasChars(u, "CODIGO", 'G');
    ContainsHasChars(u, "PRECIO", 'E');
  }

  lemma UnitLabel(u: string)
    requires u == "PRECIO UNIDAD"
    ensures RoleOf(u) == UnitRole && Contains(Upper(u), "PRECIO")
  {
    UnitLabelUpper(u);
    UnitLabelMisses(u);
    UnitLabelHas(u);
  }

  lemma UnitLabelUpper(u: string)
    requires u == "PRECIO UNIDAD"
    ensures Upper(u) == u
  {
  }

  lemma UnitLabelMisses(u: string)
    requires u == "PRECIO UNIDAD"
    ensures !Contains(u, "CÓDIGO") && !Contains(u, "CODIGO")
    ensures !Contains(u, "PRODUCTO") && !Contains(u, "NOMBRE")
  {
    assert 'G' !in u && 'T' !in u && 'M' !in u;
    ContainsHasChars(u, "CÓDIGO", 'G');
    ContainsHasChars(u, "CODIGO", 'G');
    ContainsHasChars(u, "PRODUCTO", 'T');
    ContainsHasChars(u, "NOMBRE", 'M');
  }

  lemma UnitLabelHas(u: string)
    requires u == "PRECIO UNIDAD"
    ensures Contains(u, "UNIDAD") && Contains(u, "PRECIO")
  {
    assert u[7..][..6] == "UNIDAD";
    ContainsIff(u, "UNIDAD");
    assert OccursAt(u, "UNIDAD", 7);
    assert StartsWith(u, "PRECIO");
  }

  /** Four labels with the four roles, in chain order, map to columns 0 to 3. */
  lemma FourRoles(a: string, b: string, c: string, d: string)
    requires RoleOf(a) == CodeRole && RoleOf(b) == NameRole && RoleOf(c) == UnitRole && RoleOf(d) == FinalRole
    ensures ColumnsOf([a, b, c, d]) == ColumnMap(Some(0), Some(1), Some(2), Some(3))
  {
    var l4, l3, l2, l1 := [a, b, c, d], [a, b, c], [a, b], [a];
    assert l4[..3] == l3 && l3[..2] == l2 && l2[..1] == l1 && l1[..0] == [];
    assert LastWithRole(l4, FinalRole) == Some(3);
    assert LastWithRole(l3, UnitRole) == Some(2);
    assert LastWithRole(l4, UnitRole) == Some(2);
    assert LastWithRole(l2, NameRole) == Some(1);
    assert LastWithRole(l4, NameRole) == LastWithRole(l3, NameRole) == Some(1);
    assert LastWithRole(l1, CodeRole) == Some(0);
    assert LastWithRole(l4, CodeRole) == LastWithRole(l3, CodeRole) == LastWithRole(l2, CodeRole) == Some(0);
  }

  lemma CodeAccentLabel(u: string)
    requires u == "CÓDIGO"
    ensures Upper(u) == u && RoleOf(u) == CodeRole
  {
    assert Upper(u) == u;
    assert StartsWith(u, "CÓDIGO");
  }

  lemma UnitOnlyLabel(u: string)
    requires u == "UNIDAD"
    ensures Upper(u) == u && RoleOf(u) == UnitRole
  {
    assert Upper(u) == u;
    assert 'G' !in u && 'P' !in u && 'M' !in u;
    ContainsHasChars(u, "CÓDIGO", 'G');
    ContainsHasChars(u, "CODIGO", 'G');
    ContainsHasChars(u, "PRODUCTO", 'P');
    ContainsHasChars(u, "NOMBRE", 'M');
    assert StartsWith(u, "UNIDAD");
  }

  lemma FinalPriceLabel(u: string)
    requires u == "P. FINAL"
    ensures Upper(u) == u && RoleOf(u) == FinalRole
  {
    FinalPriceLabelUpper(u);
    FinalPriceLabelMisses(u);
    FinalPriceLabelHas(u);
  }

  lemma FinalPriceLabelUpper(u: string)
    requires u == "P. FINAL"
    ensures Upper(u) == u
  {
  }

  lemma FinalPriceLabelMisses(u: string)
    requires u == "P. FINAL"
    ensures !Contains(u, "CÓDIGO") && !Contains(u, "CODIGO")
    ensures !Contains(u, "PRODUCTO") && !Contains(u, "NOMBRE") && !Contains(u, "UNIDAD")
  {
    assert 'G' !in u && 'R' !in u && 'M' !in u && 'U' !in u;
    ContainsHasChars(u, "CÓDIGO", 'G');
    ContainsHasChars(u, "CODIGO", 'G');
    ContainsHasChars(u, "PRODUCTO", 'R');
    ContainsHasChars(u, "NOMBRE", 'M');
    ContainsHasChars(u, "UNIDAD", 'U');
  }

  lemma FinalPriceLabelHas(u: string)
    requires u == "P. FINAL"
    ensures Contains(u, "P. FINAL") && Contains(u, "FINAL")
  {
    assert StartsWith(u, "P. FINAL");
    FinalAlternativeRedundant(u);
    assert Upper(u) == u;
  }
}
