/** The product catalog and the view that `ProductList` derives from it:
    the category buttons and the products that pass the category and
    price-range filter. Prices are integer cents. */
module Catalog {

  import Seqs

  datatype Product = Product(
    id: int,
    name: string,
    price: int,       // cents: 79.99 is 7999
    image: string,
    category: string,
    stock: int)

  /** The category sentinel that lets every product through. */
  const ALL := "All"

  /** The price slider's value: whole currency units, as `parseInt` yields them. */
  datatype PriceRange = PriceRange(lo: int, hi: int)

  /** The slider's initial position. */
  const INITIAL_RANGE := PriceRange(0, 300)

  const PRODUCTS: seq<Product> := [
    Product(1, "Wireless Headphones", 7999,
      "https://images.unsplash.com/photo-1505740420928-5e560c06d30e?w=300&h=300&fit=crop", "Electronics", 15),
    Product(2, "Smart Watch", 19999,
      "https://images.unsplash.com/photo-1523275335684-37898b6baf30?w=300&h=300&fit=crop", "Electronics", 10),
    Product(3, "Running Shoes", 8999,
      "https://images.unsplash.com/photo-1542291026-7eec264c27ff?w=300&h=300&fit=crop", "Fashion", 20),
    Product(4, "Coffee Maker", 12999,
      "https://images.unsplash.com/photo-1517668808822-9ebb02f2a0e6?w=300&h=300&fit=crop", "Home", 8),
    Product(5, "Backpack", 4999,
      "https://images.unsplash.com/photo-1553062407-98eeb64c6a62?w=300&h=300&fit=crop", "Fashion", 25),
    Product(6, "Desk Lamp", 3999,
      "https://images.unsplash.com/photo-1507473885765-e6ed057f782c?w=300&h=300&fit=crop", "Home", 12)
  ]

  /** The predicate handed to `products.filter`: the category matches (or is
      the sentinel) and the price lies in the closed slider range. */
  predicate Matches(p: Product, category: string, range: PriceRange)
  {
    (category == ALL || p.category == category)
    && range.lo * 100 <= p.price && p.price <= range.hi * 100
  }

  /** `filteredProducts`: the catalog products that match, in catalog order. */
  function FilteredProducts(products: seq<Product>, category: string, range: PriceRange): (r: seq<Product>)
    ensures Seqs.IsSubseq(r, products)
    ensures forall p :: p in r <==> p in products && Matches(p, category, range)
    ensures forall p :: multiset(r)[p] == if Matches(p, category, range) then multiset(products)[p] else 0
  {
    var keep := (p: Product) => Matches(p, category, range);
    Seqs.FilterSpec(products, keep);
    Seqs.Filter(products, keep)
  }

  /** The category of every product, in catalog order. */
  function CategoryColumn(products: seq<Product>): (r: seq<string>)
  {
    seq(|products|, i requires 0 <= i < |products| => products[i].category)
  }

  /** `categories`: the sentinel, then each catalog category once, in the
      order in which it first occurs in the catalog. */
  function Categories(products: seq<Product>): (r: seq<string>)
    ensures |r| >= 1 && r[0] == ALL
    ensures Seqs.NoDuplicates(r[1..])
    ensures forall c :: c in r[1..] <==> exists i :: 0 <= i < |products| && products[i].category == c
    ensures forall i :: 1 <= i < |r| ==> r[i] in CategoryColumn(products)
    ensures forall i, j :: 1 <= i < j < |r| ==>
      Seqs.FirstIndex(CategoryColumn(products), r[i]) < Seqs.FirstIndex(CategoryColumn(products), r[j])
  {
    var column := CategoryColumn(products);
    assert |column| == |products| && forall i :: 0 <= i < |products| ==> column[i] == products[i].category;
    var d := Seqs.Distinct(column);
    Seqs.DistinctSpec(column);
    var r := [ALL] + d;
    assert r[1..] == d;
    assert forall c :: c in column <==> exists i :: 0 <= i < |products| && products[i].category == c by {
      forall c | c in column ensures exists i :: 0 <= i < |products| && products[i].category == c {
        var i := Seqs.FirstIndex(column, c);
        assert products[i].category == c;
      }
    }
    r
  }

  /** Every catalog id is distinct; every product has at least 8 in stock. */
  lemma CatalogWellFormed()
    ensures forall i, j :: 0 <= i < j < |PRODUCTS| ==> PRODUCTS[i].id != PRODUCTS[j].id
    ensures forall i :: 0 <= i < |PRODUCTS| ==> PRODUCTS[i].stock >= 8 && PRODUCTS[i].price >= 0
  {
  }

  /** Electronics under the initial ceiling of 300: the headphones and the watch. */
  lemma ElectronicsUnder300()
    ensures FilteredProducts(PRODUCTS, "Electronics", INITIAL_RANGE) == [PRODUCTS[0], PRODUCTS[1]]
  {
    var keep := (p: Product) => Matches(p, "Electronics", INITIAL_RANGE);
    assert PRODUCTS[..2] == [PRODUCTS[0], PRODUCTS[1]];
    assert PRODUCTS == PRODUCTS[..2] + PRODUCTS[2..];
    Seqs.FilterKeepsAll(PRODUCTS[..2], keep);
    Seqs.FilterDropsAll(PRODUCTS[2..], keep);
    Seqs.FilterAppend(PRODUCTS[..2], PRODUCTS[2..], keep);
  }

  /** Every category with a ceiling of 50: only the backpack (49.99) and the lamp (39.99). */
  lemma AllUnder50()
    ensures FilteredProducts(PRODUCTS, ALL, PriceRange(0, 50)) == [PRODUCTS[4], PRODUCTS[5]]
  {
    var keep := (p: Product) => Matches(p, ALL, PriceRange(0, 50));
    assert PRODUCTS[..4] == [PRODUCTS[0], PRODUCTS[1], PRODUCTS[2], PRODUCTS[3]];
    assert PRODUCTS == PRODUCTS[..4] + PRODUCTS[4..];
    Seqs.FilterDropsAll(PRODUCTS[..4], keep);
    Seqs.FilterKeepsAll(PRODUCTS[4..], keep);
    Seqs.FilterAppend(PRODUCTS[..4], PRODUCTS[4..], keep);
  }

  /** The category column of the shipped catalog. */
  lemma CatalogColumn()
    ensures CategoryColumn(PRODUCTS) == ["Electronics", "Electronics", "Fashion", "Home", "Fashion", "Home"]
  {
  }

  lemma ShippedColumnDistinct()
    ensures Seqs.Distinct(["Electronics", "Electronics", "Fashion", "Home", "Fashion", "Home"])
      == ["Electronics", "Fashion", "Home"]
  {
    Seqs.DistinctOfPattern("Electronics", "Fashion", "Home");
  }

  /** The category buttons of the shipped catalog. */
  lemma CatalogCategories()
    ensures Categories(PRODUCTS) == [ALL, "Electronics", "Fashion", "Home"]
  {
    CatalogColumn();
    ShippedColumnDistinct();
  }
}
