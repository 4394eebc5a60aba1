/** The wishlist: a set of products kept as a list, in the order they were added. */
module Wishlist {
  import Seqs
  import Catalog

  type Wishlist = seq<Catalog.Product>

  /** `isInWishlist`. */
  predicate IsIn(w: Wishlist, id: string) {
    exists i :: 0 <= i < |w| && w[i].id == id
  }

  /** `addItem`: appends the product unless one with its id is already listed. */
  function Add(w: Wishlist, p: Catalog.Product): (r: Wishlist)
    ensures IsIn(w, p.id) ==> r == w
    ensures !IsIn(w, p.id) ==> r == w + [p]
  {
    if IsIn(w, p.id) then w else w + [p]
  }

  /** `removeItem`: drops every product with the id. */
  function Remove(w: Wishlist, id: string): (r: Wishlist)
    ensures !IsIn(r, id)
    ensures forall i :: 0 <= i < |w| && w[i].id != id ==> w[i] in r
    ensures forall i :: 0 <= i < |r| ==> r[i] in w
    ensures Seqs.IsSubsequence(r, w)
  {
    var keep := (p: Catalog.Product) => p.id != id;
    Seqs.FilterIsSubsequence(w, keep);
    Seqs.Filter(w, keep)
  }

  /** `toggleItem`. */
  function Toggle(w: Wishlist, p: Catalog.Product): (r: Wishlist)
    ensures IsIn(r, p.id) <==> !IsIn(w, p.id)
  {
    if IsIn(w, p.id) then Remove(w, p.id)
    else
      assert (w + [p])[|w|] == p;
      Add(w, p)
  }

  /** `getTotalItems`. */
  function Count(w: Wishlist): nat {
    |w|
  }

  // ---------------------------------------------------------------- lemmas

  /** Adding twice is adding once, and the product is then listed. */
  lemma AddIdempotent(w: Wishlist, p: Catalog.Product)
    ensures Add(Add(w, p), p) == Add(w, p)
    ensures IsIn(Add(w, p), p.id)
  {
    assert Add(w, p)[|Add(w, p)| - 1].id == p.id || IsIn(w, p.id);
  }

  /** `addItem` and `removeItem` keep one entry per product, and the count moves by one exactly when membership changes. */
  lemma AddRemoveKeepUnique(w: Wishlist, p: Catalog.Product, id: string)
    requires Catalog.UniqueIds(w)
    ensures Catalog.UniqueIds(Add(w, p)) && Catalog.UniqueIds(Remove(w, id))
    ensures Count(Add(w, p)) == Count(w) + (if IsIn(w, p.id) then 0 else 1)
  {
    var keep := (q: Catalog.Product) => q.id != id;
    Seqs.FilterIsSubsequence(w, keep);
    Catalog.SubsequenceKeepsUnique(Remove(w, id), w);
  }

  /** Toggling a product that was not listed, twice, gives back the same list. */
  lemma ToggleTwiceRestoresAbsent(w: Wishlist, p: Catalog.Product)
    requires !IsIn(w, p.id)
    ensures Toggle(Toggle(w, p), p) == w
  {
    var keep := (q: Catalog.Product) => q.id != p.id;
    Seqs.FilterAppend(w, [p], keep);
    Seqs.FilterAll(w, keep);
    assert Seqs.Filter([p], keep) == [];
    assert Toggle(w, p) == w + [p];
    assert IsIn(w + [p], p.id) by { assert (w + [p])[|w|].id == p.id; }
  }

  /** Toggling a listed product twice moves it to the end of the list. */
  lemma ToggleTwiceMovesToEnd(w: Wishlist, p: Catalog.Product)
    requires IsIn(w, p.id)
    ensures Toggle(Toggle(w, p), p) == Remove(w, p.id) + [p]
  {
  }
}
