/**
 * The shop page: the catalog narrowed to one category (or all of it) and
 * ordered by the chosen sort option.
 */
module ProductList {
  import Seqs
  import Sorting
  import Catalog

  /**
   * `ByName` orders by `koreanName.localeCompare`, which the model takes as a
   * collation rank supplied by the caller: equal rank means equal for sorting.
   */
  datatype SortOption = Featured | PriceAsc | PriceDesc | ByName

  /** The integer each comparator effectively compares; `Featured` puts featured products (0) before the rest (1). */
  function SortKey(option: SortOption, rank: string -> int): Catalog.Product -> int {
    match option
    case Featured => (p: Catalog.Product) => if p.featured then 0 else 1
    case PriceAsc => (p: Catalog.Product) => p.price
    case PriceDesc => (p: Catalog.Product) => -p.price
    case ByName => (p: Catalog.Product) => rank(p.koreanName)
  }

  /** `selectedCategory`: "all" or a category tag. */
  predicate InCategory(p: Catalog.Product, selected: string) {
    selected == "all" || p.category.Name() == selected
  }

  function Filtered(ps: seq<Catalog.Product>, selected: string): (r: seq<Catalog.Product>)
    ensures selected == "all" ==> r == ps
  {
    if selected == "all" then ps else Seqs.Filter(ps, (p: Catalog.Product) => p.category.Name() == selected)
  }

  /** `sortedProducts`: the category's products, stably sorted by the option. */
  function Visible(ps: seq<Catalog.Product>, selected: string, option: SortOption, rank: string -> int): (r: seq<Catalog.Product>)
    ensures multiset(r) == multiset(Filtered(ps, selected))
    ensures forall i :: 0 <= i < |r| ==> InCategory(r[i], selected)
    ensures Sorting.SortedBy(r, SortKey(option, rank))
  {
    var f := Filtered(ps, selected);
    Sorting.SortPermutes(f, SortKey(option, rank));
    Sorting.SortSorted(f, SortKey(option, rank));
    var r := Sorting.SortBy(f, SortKey(option, rank));
    assert forall i :: 0 <= i < |r| ==> r[i] in multiset(f);
    r
  }

  // ---------------------------------------------------------------- lemmas

  /** A product is shown exactly when it is in the catalog and in the selected category. */
  lemma ShownIffInCategory(ps: seq<Catalog.Product>, selected: string, option: SortOption, rank: string -> int, p: Catalog.Product)
    ensures p in Visible(ps, selected, option, rank) <==> p in ps && InCategory(p, selected)
  {
    var r := Visible(ps, selected, option, rank);
    var f := Filtered(ps, selected);
    assert p in r <==> p in multiset(f);
    if selected != "all" && p in ps && InCategory(p, selected) {
      var i :| 0 <= i < |ps| && ps[i] == p;
    }
  }

  /** Price-ascending and price-descending listings are ordered by price. */
  lemma PriceOrders(ps: seq<Catalog.Product>, selected: string, rank: string -> int)
    ensures var up := Visible(ps, selected, PriceAsc, rank);
            forall i, j :: 0 <= i < j < |up| ==> up[i].price <= up[j].price
    ensures var down := Visible(ps, selected, PriceDesc, rank);
            forall i, j :: 0 <= i < j < |down| ==> down[i].price >= down[j].price
  {
    var up := Visible(ps, selected, PriceAsc, rank);
    var down := Visible(ps, selected, PriceDesc, rank);
    assert forall i, j :: 0 <= i < j < |up| ==> SortKey(PriceAsc, rank)(up[i]) <= SortKey(PriceAsc, rank)(up[j]);
    assert forall i, j :: 0 <= i < j < |down| ==> SortKey(PriceDesc, rank)(down[i]) <= SortKey(PriceDesc, rank)(down[j]);
  }

  /**
   * The featured ordering lists every featured product before every other one,
   * and keeps catalog order within each group.
   */
  lemma FeaturedFirstInCatalogOrder(ps: seq<Catalog.Product>, selected: string, rank: string -> int)
    ensures var r := Visible(ps, selected, Featured, rank);
            forall i, j :: 0 <= i < j < |r| && r[j].featured ==> r[i].featured
    ensures Sorting.WithKey(Visible(ps, selected, Featured, rank), SortKey(Featured, rank), 0)
         == Sorting.WithKey(Filtered(ps, selected), SortKey(Featured, rank), 0)
    ensures Sorting.WithKey(Visible(ps, selected, Featured, rank), SortKey(Featured, rank), 1)
         == Sorting.WithKey(Filtered(ps, selected), SortKey(Featured, rank), 1)
  {
    var r := Visible(ps, selected, Featured, rank);
    var key := SortKey(Featured, rank);
    assert forall i, j :: 0 <= i < j < |r| ==> key(r[i]) <= key(r[j]);
    Sorting.SortStable(Filtered(ps, selected), key, 0);
    Sorting.SortStable(Filtered(ps, selected), key, 1);
  }
}
