/**
 * The stock ledger: a sequence of `(productId, stock)` entries seeded from
 * the catalog, read with a fall-back to the catalog's own stock figure.
 */
module Inventory {
  import opened Wrappers
  import Seqs
  import Catalog

  datatype StockEntry = StockEntry(productId: string, stock: int)

  type Ledger = seq<StockEntry>

  /** Default threshold of `isLowStock`. */
  const LowStockThreshold: int := 10

  /** Some entry of the ledger is for product `p`. */
  predicate HasEntry(ledger: Ledger, p: string) {
    exists i :: 0 <= i < |ledger| && ledger[i].productId == p
  }

  /** The invariant the ledger's operations keep: one entry per product. */
  ghost predicate UniqueEntries(ledger: Ledger) {
    forall i, j :: 0 <= i < j < |ledger| ==> ledger[i].productId != ledger[j].productId
  }

  /** Every entry's stock is non-negative. */
  ghost predicate NonNegative(ledger: Ledger) {
    forall i :: 0 <= i < |ledger| ==> ledger[i].stock >= 0
  }

  function SeedFrom(ps: seq<Catalog.Product>): (r: Ledger)
    ensures |r| == |ps|
    ensures forall i :: 0 <= i < |ps| ==> r[i] == StockEntry(ps[i].id, ps[i].stock)
  {
    if ps == [] then [] else [StockEntry(ps[0].id, ps[0].stock)] + SeedFrom(ps[1..])
  }

  /** One entry per catalog product, carrying the catalog's stock. */
  function Seed(): Ledger {
    SeedFrom(Catalog.Products)
  }

  /** `initializeInventory`: seeds only an empty ledger. */
  function InitializeInventory(ledger: Ledger): (r: Ledger)
    ensures |ledger| == 0 ==> r == Seed()
    ensures |ledger| > 0 ==> r == ledger
  {
    if |ledger| == 0 then Seed() else ledger
  }

  /** `resetInventory`: the seed, whatever the ledger held. */
  function ResetInventory(ledger: Ledger): (r: Ledger)
    ensures r == InitializeInventory([])
    ensures UniqueEntries(r) && NonNegative(r)
  {
    SeedWellFormed();
    Seed()
  }

  /** `product?.stock || 0`: the catalog's stock for `p`, or 0 for an unknown product. */
  function CatalogStock(p: string): (r: int)
    ensures r >= 0
    ensures Catalog.FindProduct(p).None? ==> r == 0
  {
    Catalog.CatalogWellFormed();
    match Catalog.FindProduct(p)
    case Some(prod) => prod.stock
    case None => 0
  }

  function EntryIndex(ledger: Ledger, p: string): int {
    Seqs.FirstIndex(ledger, (e: StockEntry) => e.productId == p)
  }

  /** `getStock`: the first entry for `p`, else the catalog stock, else 0. */
  function GetStock(ledger: Ledger, p: string): (r: int)
    ensures forall i :: 0 <= i < |ledger| && ledger[i].productId == p
                        && (forall j :: 0 <= j < i ==> ledger[j].productId != p)
                        ==> r == ledger[i].stock
    ensures !HasEntry(ledger, p) ==> r == CatalogStock(p)
  {
    var i := EntryIndex(ledger, p);
    if i < 0 then CatalogStock(p) else ledger[i].stock
  }

  /** `isInStock(p, quantity = 1)`. */
  predicate IsInStock(ledger: Ledger, p: string, quantity: int := 1)
    ensures !HasEntry(ledger, p) && Catalog.FindProduct(p).None? ==> (IsInStock(ledger, p, quantity) <==> quantity <= 0)
  {
    GetStock(ledger, p) >= quantity
  }

  /**
   * `decreaseStock`: refuses (false, ledger untouched) when the stock read for
   * `p` is below `quantity`; otherwise subtracts from every entry for `p` and
   * reports true — even when `p` has no entry and nothing changes.
   */
  function DecreaseStock(ledger: Ledger, p: string, quantity: int): (r: (bool, Ledger))
    ensures r.0 <==> GetStock(ledger, p) >= quantity
    ensures !r.0 ==> r.1 == ledger
    ensures |r.1| == |ledger|
    ensures r.0 ==> forall i :: 0 <= i < |ledger| ==>
              r.1[i] == if ledger[i].productId == p then StockEntry(p, ledger[i].stock - quantity) else ledger[i]
  {
    if GetStock(ledger, p) < quantity then (false, ledger)
    else
      (true, Seqs.UpdateWhere(ledger, (e: StockEntry) => e.productId == p,
                              (e: StockEntry) => e.(stock := e.stock - quantity)))
  }

  /**
   * `increaseStock`: adds to the entries for `p`, or appends an entry whose
   * stock is `quantity` itself (not the catalog stock plus `quantity`).
   */
  function IncreaseStock(ledger: Ledger, p: string, quantity: int): (r: Ledger)
    ensures HasEntry(ledger, p) ==> |r| == |ledger| && forall i :: 0 <= i < |ledger| ==>
              r[i] == if ledger[i].productId == p then StockEntry(p, ledger[i].stock + quantity) else ledger[i]
    ensures !HasEntry(ledger, p) ==> r == ledger + [StockEntry(p, quantity)]
  {
    if EntryIndex(ledger, p) >= 0 then
      Seqs.UpdateWhere(ledger, (e: StockEntry) => e.productId == p,
                       (e: StockEntry) => e.(stock := e.stock + quantity))
    else ledger + [StockEntry(p, quantity)]
  }

  /** `isLowStock(p, threshold = 10)`. */
  predicate IsLowStock(ledger: Ledger, p: string, threshold: int := LowStockThreshold)
    ensures IsLowStock(ledger, p, threshold) ==> IsInStock(ledger, p) && !IsInStock(ledger, p, threshold + 1)
  {
    var stock := GetStock(ledger, p);
    stock > 0 && stock <= threshold
  }

  // ---------------------------------------------------------------- lemmas

  /** Under the one-entry-per-product invariant, any entry for `p` is the one read. */
  lemma GetStockUnique(ledger: Ledger, p: string, i: int)
    requires UniqueEntries(ledger)
    requires 0 <= i < |ledger| && ledger[i].productId == p
    ensures GetStock(ledger, p) == ledger[i].stock
  {
  }

  /** Initialising twice is initialising once. */
  lemma InitializeIdempotent(ledger: Ledger)
    ensures InitializeInventory(InitializeInventory(ledger)) == InitializeInventory(ledger)
  {
    assert |Seed()| == |Catalog.Products|;
  }

  lemma SeedFromUnique(ps: seq<Catalog.Product>)
    requires Catalog.UniqueIds(ps)
    ensures UniqueEntries(SeedFrom(ps))
  {
    var s := SeedFrom(ps);
    assert forall i :: 0 <= i < |ps| ==> s[i].productId == ps[i].id;
  }

  lemma SeedFromAgrees(ps: seq<Catalog.Product>, p: string, i: int)
    requires Catalog.UniqueIds(ps)
    requires 0 <= i < |ps| && ps[i].id == p
    ensures GetStock(SeedFrom(ps), p) == ps[i].stock
  {
    var s := SeedFrom(ps);
    assert s[i] == StockEntry(ps[i].id, ps[i].stock);
    SeedFromUnique(ps);
    GetStockUnique(s, p, i);
  }

  lemma SeedFromMissing(ps: seq<Catalog.Product>, p: string)
    requires forall i :: 0 <= i < |ps| ==> ps[i].id != p
    ensures !HasEntry(SeedFrom(ps), p)
  {
    var s := SeedFrom(ps);
    assert forall i :: 0 <= i < |ps| ==> s[i].productId == ps[i].id;
  }

  /** The seed keeps one entry per product, none of them negative. */
  lemma SeedWellFormed()
    ensures UniqueEntries(Seed()) && NonNegative(Seed())
  {
    Catalog.CatalogWellFormed();
    SeedFromUnique(Catalog.Products);
  }

  /** The seed agrees with the catalog for every product id. */
  lemma SeedAgreesWithCatalog(p: string)
    ensures GetStock(Seed(), p) == CatalogStock(p)
  {
    Catalog.CatalogWellFormed();
    match Catalog.FindProduct(p)
    case Some(prod) =>
      var k :| 0 <= k < |Catalog.Products| && Catalog.Products[k] == prod;
      SeedFromAgrees(Catalog.Products, p, k);
    case None =>
      SeedFromMissing(Catalog.Products, p);
  }

  /** After `resetInventory` every product reads its catalog stock. */
  lemma ResetRestoresCatalog(ledger: Ledger, p: string)
    ensures GetStock(ResetInventory(ledger), p) == CatalogStock(p)
  {
    SeedAgreesWithCatalog(p);
  }

  /** `decreaseStock` succeeds exactly when `isInStock` holds for the same quantity. */
  lemma DecreaseSucceedsIffInStock(ledger: Ledger, p: string, quantity: int)
    ensures DecreaseStock(ledger, p, quantity).0 <==> IsInStock(ledger, p, quantity)
  {
  }

  /** Entries for other products are untouched by a decrease of `p`, so their reads are unchanged. */
  lemma DecreaseFramesOthers(ledger: Ledger, p: string, quantity: int, other: string)
    requires other != p
    ensures GetStock(DecreaseStock(ledger, p, quantity).1, other) == GetStock(ledger, other)
  {
    var l' := DecreaseStock(ledger, p, quantity).1;
    assert forall i :: 0 <= i < |ledger| ==> (l'[i].productId == other <==> ledger[i].productId == other);
    assert HasEntry(l', other) <==> HasEntry(ledger, other);
  }

  /**
   * A successful decrease lowers the stock read for `p` by exactly `quantity`
   * when `p` has an entry; with no entry it succeeds and changes nothing.
   */
  lemma DecreaseEffect(ledger: Ledger, p: string, quantity: int)
    requires UniqueEntries(ledger)
    requires IsInStock(ledger, p, quantity)
    ensures HasEntry(ledger, p) ==> GetStock(DecreaseStock(ledger, p, quantity).1, p) == GetStock(ledger, p) - quantity
    ensures !HasEntry(ledger, p) ==> DecreaseStock(ledger, p, quantity) == (true, ledger)
    ensures UniqueEntries(DecreaseStock(ledger, p, quantity).1)
  {
    var l' := DecreaseStock(ledger, p, quantity).1;
    assert forall i :: 0 <= i < |ledger| ==> l'[i].productId == ledger[i].productId;
    if HasEntry(ledger, p) {
      var i :| 0 <= i < |ledger| && ledger[i].productId == p;
      GetStockUnique(ledger, p, i);
      GetStockUnique(l', p, i);
    } else {
      assert l' == ledger;
    }
  }

  /**
   * What any decrease leaves for `p` itself: a covered request lowers an
   * existing entry by `quantity`; a refused one, or one for a product with no
   * entry, leaves the read as it was. One entry per product is kept either way.
   */
  lemma DecreaseRead(ledger: Ledger, p: string, quantity: int)
    requires UniqueEntries(ledger)
    ensures GetStock(DecreaseStock(ledger, p, quantity).1, p)
         == if IsInStock(ledger, p, quantity) && HasEntry(ledger, p) then GetStock(ledger, p) - quantity else GetStock(ledger, p)
    ensures UniqueEntries(DecreaseStock(ledger, p, quantity).1)
  {
    if IsInStock(ledger, p, quantity) {
      DecreaseEffect(ledger, p, quantity);
    }
  }

  /** Two ledgers that read the same for `p` and agree on whether it has an entry read the same after the same decrease. */
  lemma DecreaseReadAgrees(a: Ledger, b: Ledger, p: string, quantity: int)
    requires UniqueEntries(a) && UniqueEntries(b)
    requires GetStock(a, p) == GetStock(b, p) && HasEntry(a, p) == HasEntry(b, p)
    ensures GetStock(DecreaseStock(a, p, quantity).1, p) == GetStock(DecreaseStock(b, p, quantity).1, p)
  {
    DecreaseRead(a, p, quantity);
    DecreaseRead(b, p, quantity);
  }

  /** `decreaseStock` neither adds nor drops entries. */
  lemma DecreaseKeepsEntries(ledger: Ledger, p: string, quantity: int, other: string)
    ensures HasEntry(DecreaseStock(ledger, p, quantity).1, other) == HasEntry(ledger, other)
  {
    var r := DecreaseStock(ledger, p, quantity).1;
    assert forall i :: 0 <= i < |ledger| ==> r[i].productId == ledger[i].productId;
  }

  /** With non-negative quantities, a successful decrease never drives an entry below zero. */
  lemma DecreaseKeepsNonNegative(ledger: Ledger, p: string, quantity: int)
    requires UniqueEntries(ledger) && NonNegative(ledger)
    requires quantity >= 0
    ensures NonNegative(DecreaseStock(ledger, p, quantity).1)
  {
    var r := DecreaseStock(ledger, p, quantity);
    if r.0 {
      forall i | 0 <= i < |ledger| && ledger[i].productId == p
        ensures r.1[i].stock >= 0
      {
        GetStockUnique(ledger, p, i);
      }
    }
  }

  /**
   * `increaseStock` raises an existing entry by `quantity`; a product without
   * an entry then reads exactly `quantity`, its catalog stock forgotten.
   * Other products read as before, and one entry per product is kept.
   */
  lemma IncreaseEffect(ledger: Ledger, p: string, quantity: int, other: string)
    requires UniqueEntries(ledger)
    requires other != p
    ensures HasEntry(ledger, p) ==> GetStock(IncreaseStock(ledger, p, quantity), p) == GetStock(ledger, p) + quantity
    ensures !HasEntry(ledger, p) ==> GetStock(IncreaseStock(ledger, p, quantity), p) == quantity
    ensures GetStock(IncreaseStock(ledger, p, quantity), other) == GetStock(ledger, other)
    ensures UniqueEntries(IncreaseStock(ledger, p, quantity))
  {
    var l' := IncreaseStock(ledger, p, quantity);
    if HasEntry(ledger, p) {
      assert forall i :: 0 <= i < |ledger| ==> l'[i].productId == ledger[i].productId;
      var i :| 0 <= i < |ledger| && ledger[i].productId == p;
      GetStockUnique(ledger, p, i);
      GetStockUnique(l', p, i);
      assert HasEntry(l', other) <==> HasEntry(ledger, other);
    } else {
      GetStockUnique(l', p, |ledger|);
      assert forall i :: 0 <= i < |ledger| ==> l'[i] == ledger[i];
      assert HasEntry(l', other) <==> HasEntry(ledger, other);
    }
  }

  /** With non-negative quantities, `increaseStock` keeps every entry non-negative. */
  lemma IncreaseKeepsNonNegative(ledger: Ledger, p: string, quantity: int)
    requires NonNegative(ledger) && quantity >= 0
    ensures NonNegative(IncreaseStock(ledger, p, quantity))
  {
  }

  /** Low stock means: in stock for one unit, but not for `threshold + 1` units. */
  lemma LowStockBetween(ledger: Ledger, p: string, threshold: int)
    ensures IsLowStock(ledger, p, threshold)
        <==> IsInStock(ledger, p) && !IsInStock(ledger, p, threshold + 1)
  {
  }
}
