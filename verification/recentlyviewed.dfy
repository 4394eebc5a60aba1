/** The recently viewed products: most recent first, no repeats, at most ten. */
module RecentlyViewed {
  import Seqs
  import Catalog

  const MaxRecentItems: nat := 10

  type Recent = seq<Catalog.Product>

  /** The earlier views of other products, in their order. */
  function Others(items: Recent, id: string): (r: Recent)
    ensures forall i :: 0 <= i < |r| ==> r[i].id != id
  {
    Seqs.Filter(items, (q: Catalog.Product) => q.id != id)
  }

  /** `addItem`: the product moves (or goes) to the front, earlier views follow, the list is cut to ten. */
  function AddViewed(items: Recent, p: Catalog.Product): (r: Recent)
    ensures 1 <= |r| <= MaxRecentItems
    ensures r[0] == p
    ensures forall i :: 1 <= i < |r| ==> r[i].id != p.id
  {
    var newItems := [p] + Others(items, p.id);
    if |newItems| <= MaxRecentItems then newItems else newItems[..MaxRecentItems]
  }

  // ---------------------------------------------------------------- lemmas

  /**
   * After a view, the list is the product followed by the longest prefix of
   * the earlier views of other products that fits in ten.
   */
  lemma AddViewedShape(items: Recent, p: Catalog.Product)
    ensures var r := AddViewed(items, p);
            var others := Others(items, p.id);
            && |r| == (if |others| + 1 <= MaxRecentItems then |others| + 1 else MaxRecentItems)
            && r[1..] == others[..|r| - 1]
  {
  }

  /** A list without repeats stays without repeats. */
  lemma AddViewedKeepsUnique(items: Recent, p: Catalog.Product)
    requires Catalog.UniqueIds(items)
    ensures Catalog.UniqueIds(AddViewed(items, p))
  {
    var keep := (q: Catalog.Product) => q.id != p.id;
    var others := Others(items, p.id);
    Seqs.FilterIsSubsequence(items, keep);
    Catalog.SubsequenceKeepsUnique(others, items);
    var r := AddViewed(items, p);
    forall i, j | 0 <= i < j < |r| ensures r[i].id != r[j].id {
      if i > 0 {
        assert r[i] == others[i - 1] && r[j] == others[j - 1];
      }
    }
  }

  /** Viewing again the product already at the front of a repeat-free list of at most ten changes nothing. */
  lemma ReviewingFrontIsNoOp(items: Recent, p: Catalog.Product)
    requires Catalog.UniqueIds(items) && |items| <= MaxRecentItems
    requires items != [] && items[0] == p
    ensures AddViewed(items, p) == items
  {
    var keep := (q: Catalog.Product) => q.id != p.id;
    var tail := items[1..];
    assert forall k :: 0 <= k < |tail| ==> keep(tail[k]) by {
      forall k | 0 <= k < |tail| ensures keep(tail[k]) {
        assert tail[k] == items[k + 1];
      }
    }
    Seqs.FilterAll(tail, keep);
    assert items == [p] + tail;
    assert Others(items, p.id) == Seqs.Filter(tail, keep);
  }
}
