/**
 * `main`: every price-list file is processed in turn, each product gets its
 * category, the brands are collected, the products are sorted by
 * `(brand, name)` and the output holds the products, the sorted distinct
 * brands and categories, and the number of products.
 */
module Catalog {
  import opened Sheets
  import opened Header
  import opened Brand
  import opened Rows
  import opened Categories
  import opened Sorting

  /** One price-list file: its name, the sheet read without a header, and
      the sheet read again with a given row as its header. */
  datatype SourceFile = SourceFile(name: string, raw: seq<Row>, read: nat -> Sheet)

  /** A product record after `p['category']` is set. */
  datatype Item = Item(product: Product, category: string)

  /** The JSON document: `products`, `brands`, `categories`, `total_products`. */
  datatype Output = Output(products: seq<Item>, brands: seq<string>, categories: seq<string>, totalProducts: nat)

  /** The products `process_excel_file` returns for a file. */
  function FileProducts(f: SourceFile): (ps: seq<Product>)
    ensures forall p :: p in ps ==> WellFormed(p, ExtractBrand(f.name))
  {
    SheetProductsWellFormed(f.name, f.read(FindHeaderRow(f.raw)));
    SheetProducts(f.name, f.read(FindHeaderRow(f.raw)))
  }

  /** The products in order, each with the category `cat` gives its name. */
  function Tagged(ps: seq<Product>, cat: string -> string): seq<Item> {
    if ps == [] then []
    else Tagged(ps[..|ps| - 1], cat) + [Item(ps[|ps| - 1], cat(ps[|ps| - 1].name))]
  }

  /** The products with their categories, in order. */
  function Categorized(ps: seq<Product>): seq<Item> {
    Tagged(ps, Categorize)
  }

  /** One item per product. */
  lemma {:induction false} TaggedLength(ps: seq<Product>, cat: string -> string)
    ensures |Tagged(ps, cat)| == |ps|
  {
    if ps != [] {
      TaggedLength(ps[..|ps| - 1], cat);
    }
  }

  /** Item `i` is product `i` with its category. */
  lemma {:induction false} TaggedAt(ps: seq<Product>, cat: string -> string, i: nat)
    requires i < |ps|
    ensures |Tagged(ps, cat)| == |ps|
    ensures Tagged(ps, cat)[i] == Item(ps[i], cat(ps[i].name))
  {
    var init := ps[..|ps| - 1];
    TaggedLength(ps, cat);
    TaggedLength(init, cat);
    if i < |ps| - 1 {
      TaggedAt(init, cat, i);
    }
  }

  /** The products of a file, each with its category. */
  function FileItems(f: SourceFile): seq<Item> {
    Categorized(FileProducts(f))
  }

  /** The lists of `xss` one after the other. */
  function Concat<T>(xss: seq<seq<T>>): (r: seq<T>)
    ensures |xss| == 0 ==> r == []
  {
    if xss == [] then [] else Concat(xss[..|xss| - 1]) + xss[|xss| - 1]
  }

  lemma {:induction false} ConcatMember<T>(xss: seq<seq<T>>, x: T) returns (i: nat)
    requires x in Concat(xss)
    ensures i < |xss| && x in xss[i]
  {
    var init := xss[..|xss| - 1];
    if x in Concat(init) {
      i := ConcatMember(init, x);
      assert xss[i] == init[i];
    } else {
      i := |xss| - 1;
    }
  }

  /** The items of every file, file by file. */
  function PerFile(files: seq<SourceFile>): (r: seq<seq<Item>>)
    ensures |r| == |files|
    ensures forall i :: 0 <= i < |files| ==> r[i] == FileItems(files[i])
  {
    seq(|files|, i requires 0 <= i < |files| => FileItems(files[i]))
  }

  /** `all_products` after the file loop: the files' items, file after file. */
  function AllItems(files: seq<SourceFile>): seq<Item> {
    Concat(PerFile(files))
  }

  /** The sort key `(x['brand'], x['name'])`. */
  function ItemKey(it: Item): Key {
    Key(it.product.brand, it.product.name)
  }

  function BrandsOf(items: seq<Item>): set<string> {
    set it | it in items :: it.product.brand
  }

  function CategoriesOf(items: seq<Item>): set<string> {
    set it | it in items :: it.category
  }

  lemma BrandsOfAppend(a: seq<Item>, b: seq<Item>)
    ensures BrandsOf(a + b) == BrandsOf(a) + BrandsOf(b)
  {
    forall x | x in BrandsOf(a + b)
      ensures x in BrandsOf(a) + BrandsOf(b)
    {
      var it :| it in a + b && it.product.brand == x;
      assert it in a || it in b;
    }
  }

  lemma TaggedSnoc(ps: seq<Product>, cat: string -> string, j: nat)
    requires j < |ps|
    ensures Tagged(ps[..j + 1], cat) == Tagged(ps[..j], cat) + [Item(ps[j], cat(ps[j].name))]
  {
    assert ps[..j + 1][..j] == ps[..j];
  }

  lemma AllItemsSnoc(files: seq<SourceFile>, i: nat)
    requires i < |files|
    ensures AllItems(files[..i + 1]) == AllItems(files[..i]) + FileItems(files[i])
  {
    assert PerFile(files[..i + 1])[..i] == PerFile(files[..i]);
  }

  /** The inner loop of `main` over one file's products: each gets its
      category and its brand joins the set. */
  method TagProducts(products: seq<Product>, brands: set<string>) returns (tagged: seq<Item>, brands': set<string>)
    ensures tagged == Categorized(products)
    ensures brands' == brands + BrandsOf(tagged)
  {
    tagged := [];
    brands' := brands;
    for j := 0 to |products|
      invariant tagged == Categorized(products[..j])
      invariant brands' == brands + BrandsOf(tagged)
    {
      var p := products[j];
      TaggedSnoc(products, Categorize, j);
      BrandsOfAppend(tagged, [Item(p, Categorize(p.name))]);
      tagged := tagged + [Item(p, Categorize(p.name))];
      brands' := brands' + {p.brand};
    }
    assert products[..|products|] == products;
  }

  /** What sorting the catalog keeps: it is sorted, stable, a permutation,
      and has the same brands. */
  lemma SortedItems(items: seq<Item>)
    ensures var s := SortBy(items, ItemKey);
            SortedBy(s, ItemKey) && multiset(s) == multiset(items) && |s| == |items| &&
            BrandsOf(s) == BrandsOf(items) &&
            forall k :: WithKey(s, ItemKey, k) == WithKey(items, ItemKey, k)
  {
    var s := SortBy(items, ItemKey);
    SortSorted(items, ItemKey);
    SortPermutes(items, ItemKey);
    forall k
      ensures WithKey(s, ItemKey, k) == WithKey(items, ItemKey, k)
    {
      SortStable(items, ItemKey, k);
    }
    assert |s| == |items| by {
      assert |multiset(s)| == |multiset(items)|;
    }
    forall it
      ensures it in s <==> it in items
    {
      assert it in s <==> it in multiset(s);
      assert it in items <==> it in multiset(items);
    }
  }

  /** `main` without its printing and file writing. */
  method BuildCatalog(files: seq<SourceFile>) returns (out: Output)
    ensures out.products == SortBy(AllItems(files), ItemKey)
    ensures SortedBy(out.products, ItemKey)
    ensures multiset(out.products) == multiset(AllItems(files))
    ensures forall k :: WithKey(out.products, ItemKey, k) == WithKey(AllItems(files), ItemKey, k)
    ensures out.totalProducts == |out.products| == |AllItems(files)|
    ensures StrictlyIncreasing(out.brands)
    ensures forall b :: b in out.brands <==> b in BrandsOf(out.products)
    ensures StrictlyIncreasing(out.categories)
    ensures forall c :: c in out.categories <==> c in CategoriesOf(out.products)
  {
    var all: seq<Item> := [];
    var brands: set<string> := {};
    for i := 0 to |files|
      invariant all == AllItems(files[..i])
      invariant brands == BrandsOf(all)
    {
      var products := ProcessFile(files[i].name, files[i].raw, files[i].read);
      var tagged;
      tagged, brands := TagProducts(products, brands);
      AllItemsSnoc(files, i);
      BrandsOfAppend(all, tagged);
      all := all + tagged;
    }
    assert files[..|files|] == files;
    var sorted := SortBy(all, ItemKey);
    SortedItems(all);
    var categories := SortedStrings(CategoriesOf(sorted));
    var brandList := SortedStrings(brands);
    out := Output(sorted, brandList, categories, |sorted|);
  }

  /** The file an item of `all_products` comes from. */
  lemma ItemFile(files: seq<SourceFile>, it: Item) returns (i: nat)
    requires it in AllItems(files)
    ensures i < |files| && it in FileItems(files[i])
  {
    i := ConcatMember(PerFile(files), it);
  }

  /** Every item is one of the products with the category of its name. */
  lemma TaggedMember(ps: seq<Product>, cat: string -> string, it: Item)
    requires it in Tagged(ps, cat)
    ensures it.product in ps && it.category == cat(it.product.name)
  {
    var r := Tagged(ps, cat);
    TaggedLength(ps, cat);
    var j :| 0 <= j < |r| && r[j] == it;
    TaggedAt(ps, cat, j);
  }

  /** Every catalog item comes from one of the files: it is a well-formed
      record of that file with the brand of its name, and its category is
      the one `categorize_product` gives its name. */
  lemma ItemOrigin(files: seq<SourceFile>, it: Item) returns (i: nat)
    requires it in AllItems(files)
    ensures i < |files| && it.product in FileProducts(files[i])
    ensures WellFormed(it.product, ExtractBrand(files[i].name))
    ensures it.category == Categorize(it.product.name)
  {
    i := ItemFile(files, it);
    assert it in Categorized(FileProducts(files[i]));
    TaggedMember(FileProducts(files[i]), Categorize, it);
  }

  /** Every category of the catalog is a category of the table or `Otros`. */
  lemma CatalogCategoriesListed(files: seq<SourceFile>, c: string)
    requires c in CategoriesOf(AllItems(files))
    ensures c == Fallback || exists i :: 0 <= i < |Table| && c == Table[i].name
  {
    var it :| it in AllItems(files) && it.category == c;
    var i := ItemFile(files, it);
    TaggedMember(FileProducts(files[i]), Categorize, it);
  }

  /** The brands are those of the files that yielded at least one product. */
  lemma CatalogBrands(files: seq<SourceFile>, b: string)
    requires b in BrandsOf(AllItems(files))
    ensures exists i :: 0 <= i < |files| && FileProducts(files[i]) != [] && b == ExtractBrand(files[i].name)
  {
    var it :| it in AllItems(files) && it.product.brand == b;
    var i := ItemFile(files, it);
    TaggedMember(FileProducts(files[i]), Categorize, it);
  }
}
