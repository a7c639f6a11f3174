/**
 * `categorize_product`: the upper-cased product name is searched for the
 * keywords of fourteen categories in table order; the first category with
 * a keyword in the name is the product's category, `Otros` when none is.
 */
module Categories {
  import opened Text

  datatype Category = Category(name: string, keywords: seq<string>)

  /** The category of a product no keyword matches. */
  const Fallback: string := "Otros"

  // The script's `categories` dict, one entry per constant.

  const Coffee := Category("Café y Chocolate", [
      "CAFE", "CAFÉ", "NESCAFE", "LUKAFE", "COFFEE", "COCOA", "CACAO",
      "CHOCOLATE", "LUKER", "COBERTURA", "MILO", "CAPPUCCINO", "MOKACCINO"
  ])

  const Dairy := Category("Lácteos", [
      "LECHE", "QUESO", "YOGUR", "YOGURT", "CREMA DE LECHE", "MANTEQUILLA",
      "KUMIS", "AREQUIPE", "KLIM", "CONDENSADA", "MARGARINA", "MARG.",
      "LACTEA", "LECHERA"
  ])

  const Drinks := Category("Bebidas", [
      "JUGO", "NECTAR", "REFRESCO", "GASEOSA", "TANG", "CLIGHT", "BEBIDA",
      "WATER", "AGUA", "LIMONADA", "NARANJADA", "TE ", "TEA", "TISANA"
  ])

  const Frozen := Category("Congelados", [
      "CONGELAD", "FROZEN", "HELADO", "HIELO", "PAPA FRIT", "PAPAS A LA",
      "NUGGET", "APANADO", "PRECOCID"
  ])

  const Canned := Category("Enlatados y Conservas", [
      "ATUN", "ATÚN", "SARDINA", "ENLATAD", "CONSERVA", "ACEITUNA", "CEREZA",
      "MARASCHINO", "ALCAPARRA", "PEPINILLO", "ENCURTIDO", "CERNIDO", "PULPA"
  ])

  const Sauces := Category("Salsas y Condimentos", [
      "SALSA", "MAYONESA", "MOSTAZA", "KETCHUP", "VINAGRE", "CALDO", "SAZON",
      "SAZÓN", "PIMIENTA", "ESPECIAS", "ADOBO", "CURRY", "COMINO", "BBQ"
  ])

  const Oils := Category("Aceites y Grasas", [
      "ACEITE", "OLIVA", "GIRASOL", "VEGETAL", "CANOLA", "MANTECA", "GRASA"
  ])

  const Bakery := Category("Panadería y Repostería", [
      "HARINA", "H.RICAMASA", "LEVADURA", "LEVAPAN", "TORTA", "PONQUE",
      "PREMEZCLA", "POLVO HORNEAR", "GELATINA", "GEL SIN SABOR", "FLAN",
      "NATILLA"
  ])

  const Sweets := Category("Dulces y Confitería", [
      "DULCE", "CARAMELO", "GALLETA", "BOCADILLO", "MERMELADA", "MIEL",
      "AZUCAR", "AZÚCAR", "PANELA", "GUAYABA", "AREQUIPE", "MANJAR", "OBLEAS",
      "COCO ARTESANAL", "OREO", "CHIPS AHOY", "CLUB SOCIAL", "FESTIVAL",
      "NUCITA"
  ])

  const Cereals := Category("Cereales y Granos", [
      "CEREAL", "AVENA", "ZUCARITAS", "CORN FLAKES", "KELLOGG", "GRANOLA",
      "ARROZ", "LENTEJA", "FRIJOL", "GARBANZO", "CHOCAPIC", "FITNESS"
  ])

  const Meats := Category("Carnes y Embutidos", [
      "CARNE", "POLLO", "CERDO", "RES", "JAMON", "JAMÓN", "SALCHICHA",
      "CHORIZO", "TOCINETA", "BACON", "MORTADELA", "SALAMI", "HAMBURGUESA"
  ])

  const Produce := Category("Frutas y Verduras", [
      "FRUTA", "VERDURA", "SETA", "CHAMPIÑON", "CHAMPIÑÓN", "HONGO", "PIÑA",
      "MANGO", "FRESA", "MORA", "DURAZNO", "TOMATE", "CEBOLLA", "MAIZ", "MAÍZ",
      "ARVEJA"
  ])

  const Cleaning := Category("Limpieza y Hogar", [
      "DETERGENTE", "DET.", "JABON", "JABÓN", "LIMPIA", "LAVALOZA",
      "DESINFECT", "CLORO", "BLANQUEADOR", "SUAVIZANTE", "GRANDIOSO",
      "POPOURRI", "LAVANDA", "FASSI"
  ])

  const Packaging := Category("Empaques y Desechables", [
      "EMPAQUE", "PAPEL", "WRAP", "CONTENEDOR", "VASO", "PLATO", "CUCHARA",
      "TENEDOR", "SERVILLETA", "BOLSA", "ALUMINIO", "FILM", "STRETCH",
      "DESECHABLE"
  ])

  /** The dict in its insertion (iteration) order. */
  const Table: seq<Category> := [
    Coffee, Dairy, Drinks, Frozen, Canned, Sauces, Oils,
    Bakery, Sweets, Cereals, Meats, Produce, Cleaning, Packaging
  ]

  /** The inner loop: some keyword of the list occurs in `u`. */
  predicate AnyIn(u: string, keywords: seq<string>) {
    exists k :: 0 <= k < |keywords| && Contains(u, keywords[k])
  }

  /** The outer loop over `table` from entry `i` on: the index of the first
      entry with a keyword in `u`, or `|table|` when there is none. */
  function FirstMatchFrom(table: seq<Category>, u: string, i: nat): (j: nat)
    requires i <= |table|
    ensures i <= j <= |table|
    ensures j < |table| ==> AnyIn(u, table[j].keywords)
    ensures forall k :: i <= k < j ==> !AnyIn(u, table[k].keywords)
    decreases |table| - i
  {
    if i == |table| then |table|
    else if AnyIn(u, table[i].keywords) then i
    else FirstMatchFrom(table, u, i + 1)
  }

  /** The loop of `categorize_product` over a table of categories. */
  function CategoryIn(table: seq<Category>, name: string): (r: string)
    ensures r == Fallback || exists i :: 0 <= i < |table| && r == table[i].name
  {
    var j := FirstMatchFrom(table, Upper(name), 0);
    if j < |table| then table[j].name else Fallback
  }

  /** `categorize_product(product_name)`. */
  function Categorize(name: string): (r: string)
    ensures r == Fallback || exists i :: 0 <= i < |Table| && r == Table[i].name
  {
    CategoryIn(Table, name)
  }

  /** No category is called `Otros`. */
  lemma FallbackNotListed()
    ensures forall i :: 0 <= i < |Table| ==> Table[i].name != Fallback
  {
  }

  /** Over a table none of whose entries is called `Otros`, the category is
      the first entry with a keyword in the upper-cased name, and `Otros`
      exactly when no entry has one. */
  lemma FirstMatch(table: seq<Category>, name: string)
    requires forall i :: 0 <= i < |table| ==> table[i].name != Fallback
    ensures var u := Upper(name);
            CategoryIn(table, name) == Fallback <==>
              forall i :: 0 <= i < |table| ==> !AnyIn(u, table[i].keywords)
    ensures var u := Upper(name);
            forall i :: 0 <= i < |table| && AnyIn(u, table[i].keywords) &&
                        (forall k :: 0 <= k < i ==> !AnyIn(u, table[k].keywords)) ==>
                          CategoryIn(table, name) == table[i].name
  {
    var u := Upper(name);
    var j := FirstMatchFrom(table, u, 0);
    forall i | 0 <= i < |table| && AnyIn(u, table[i].keywords) &&
               (forall k :: 0 <= k < i ==> !AnyIn(u, table[k].keywords))
      ensures j == i
    {
    }
  }

  /** The category is the first one, in table order, with a keyword in the
      upper-cased name; `Otros` exactly when no category has one. */
  lemma CategorizeFirstMatch(name: string)
    ensures var u := Upper(name);
            Categorize(name) == Fallback <==>
              forall i :: 0 <= i < |Table| ==> !AnyIn(u, Table[i].keywords)
    ensures var u := Upper(name);
            forall i :: 0 <= i < |Table| && AnyIn(u, Table[i].keywords) &&
                        (forall k :: 0 <= k < i ==> !AnyIn(u, Table[k].keywords)) ==>
                          Categorize(name) == Table[i].name
  {
    FallbackNotListed();
    FirstMatch(Table, name);
  }

  /** A text containing keyword `k` of entry `i` matches entry `i` or an earlier one. */
  lemma MatchAtMost(table: seq<Category>, u: string, i: nat, k: nat)
    requires i < |table| && k < |table[i].keywords| && Contains(u, table[i].keywords[k])
    ensures FirstMatchFrom(table, u, 0) <= i
  {
    assert AnyIn(u, table[i].keywords);
  }

  /** A text with a keyword of entry `i` and none of an earlier entry matches entry `i`. */
  lemma MatchAt(table: seq<Category>, name: string, i: nat, k: nat)
    requires i < |table| && k < |table[i].keywords| && Contains(Upper(name), table[i].keywords[k])
    requires forall j :: 0 <= j < i ==> !AnyIn(Upper(name), table[j].keywords)
    ensures CategoryIn(table, name) == table[i].name
  {
    MatchAtMost(table, Upper(name), i, k);
  }

  /** A name whose upper-cased text contains `k` of the category at `i`
      falls in that category or in an earlier one. */
  lemma AtMostCategory(name: string, i: nat, k: nat)
    requires i < |Table| && k < |Table[i].keywords| && Contains(Upper(name), Table[i].keywords[k])
    ensures FirstMatchFrom(Table, Upper(name), 0) <= i
  {
    MatchAtMost(Table, Upper(name), i, k);
  }

  /** A name with a keyword of category `i` and none of an earlier one
      falls in category `i`. */
  lemma CategoryAt(name: string, i: nat, k: nat)
    requires i < |Table| && k < |Table[i].keywords| && Contains(Upper(name), Table[i].keywords[k])
    requires forall j :: 0 <= j < i ==> !AnyIn(Upper(name), Table[j].keywords)
    ensures Categorize(name) == Table[i].name
  {
    MatchAt(Table, name, i, k);
  }

  /** Any name mentioning `CAFE` is coffee and chocolate, whatever else
      it mentions (`CHOCOLATE` included). */
  lemma CoffeeComesFirst(name: string)
    requires Contains(Upper(name), "CAFE")
    ensures Categorize(name) == "Café y Chocolate"
  {
    AtMostCategory(name, 0, 0);
  }

  /** `AREQUIPE` is listed under two categories; the dairy one comes first,
      so the sweets entry never decides a category. */
  lemma ArequipeNeverSweets(name: string)
    requires Contains(Upper(name), "AREQUIPE")
    ensures Categorize(name) != "Dulces y Confitería"
  {
    AtMostCategory(name, 1, 7);
  }

  /** `FRESA` contains the meat keyword `RES`, which comes earlier, so a
      name mentioning `FRESA` is never fruit and vegetables. */
  lemma FresaNeverFruit(name: string)
    requires Contains(Upper(name), "FRESA")
    ensures Categorize(name) != "Frutas y Verduras"
  {
    assert Contains("FRESA", "RES") by {
      assert StartsWith("FRESA"[1..], "RES");
    }
    ContainsTransitive(Upper(name), "FRESA", "RES");
    AtMostCategory(name, 10, 3);
  }

  /** The plain name `AREQUIPE` is dairy. */
  lemma ArequipeIsDairy(name: string)
    requires name == "AREQUIPE"
    ensures Categorize(name) == "Lácteos"
  {
    var u := Upper(name);
    assert u == name;
    NoCoffeeWithout(u);
    assert Table[1].keywords[7] == name;
    assert StartsWith(u, name);
    CategoryAt(name, 1, 7);
  }

  /** Every coffee keyword has an `F`, an `O` or a `K`, so a text with
      none of the three has no coffee keyword. */
  lemma NoCoffeeWithout(u: string)
    requires 'F' !in u && 'O' !in u && 'K' !in u
    ensures !AnyIn(u, Table[0].keywords)
  {
    var coffee := Table[0].keywords;
    forall k | 0 <= k < |coffee|
      ensures !Contains(u, coffee[k])
    {
      var c := if 'F' in coffee[k] then 'F' else if 'O' in coffee[k] then 'O' else 'K';
      ContainsHasChars(u, coffee[k], c);
    }
  }

  /** `LECHE ENTERA` is dairy: it has the dairy keyword `LECHE` and no
      coffee keyword. */
  lemma WholeMilkIsDairy(name: string)
    requires name == "LECHE ENTERA"
    ensures Categorize(name) == "Lácteos"
  {
    var u := Upper(name);
    assert u == name;
    NoCoffeeWithout(u);
    assert Table[1].keywords[0] == "LECHE";
    assert StartsWith(u, "LECHE");
    CategoryAt(name, 1, 0);
  }
}
