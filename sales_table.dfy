/**
 * The two-level sales dictionaries of `StatsHandler` as values, and the
 * effect of folding one receipt into each of them.
 *
 * A table maps an outer key to an inner dictionary from an inner key to a
 * cumulative total in cents: product -> (AFM -> total) for
 * `product_per_afm_sales`, AFM -> (product -> total) for
 * `afm_per_product_sales`.
 */
module SalesTable {
  import opened Receipts

  type Table = map<string, map<string, int>>

  /** The cell `t[outer][inner]` exists. */
  predicate Has(t: Table, outer: string, inner: string)
  {
    outer in t && inner in t[outer]
  }

  /** The cell `t[outer][inner]`, or 0 when it does not exist. */
  function Cell(t: Table, outer: string, inner: string): int
  {
    if Has(t, outer, inner) then t[outer][inner] else 0
  }

  /** No outer key leads to an empty inner dictionary. */
  ghost predicate NoEmptyInner(t: Table)
  {
    forall outer :: outer in t ==> t[outer] != map[]
  }

  /**
   * The two views hold the same facts: `productView[p][a]` exists exactly
   * when `afmView[a][p]` does, and then they are equal.
   */
  ghost predicate Mirror(productView: Table, afmView: Table)
  {
    && (forall p, a :: Has(productView, p, a) <==> Has(afmView, a, p))
    && (forall p, a :: Has(productView, p, a) ==> productView[p][a] == afmView[a][p])
  }

  /**
   * One step of either update loop: add `amount` to `t[outer][inner]`,
   * creating the inner dictionary or the cell on first use. No other inner
   * dictionary changes; what happens to each cell is stated by `CreditCell`.
   */
  function Credit(t: Table, outer: string, inner: string, amount: int): (r: Table)
    ensures r.Keys == t.Keys + {outer}
    ensures inner in r[outer]
    ensures forall o :: o in t && o != outer ==> r[o] == t[o]
  {
    if outer in t then
      var inners := t[outer];
      if inner in inners then t[outer := inners[inner := inners[inner] + amount]]
      else t[outer := inners[inner := amount]]
    else
      t[outer := map[inner := amount]]
  }

  /**
   * Crediting touches exactly one cell: `[outer][inner]` exists afterwards
   * and has grown by `amount`; every other cell is as it was.
   */
  lemma CreditCell(t: Table, outer: string, inner: string, amount: int, o: string, i: string)
    ensures Has(Credit(t, outer, inner, amount), o, i) <==> Has(t, o, i) || (o == outer && i == inner)
    ensures Cell(Credit(t, outer, inner, amount), o, i)
         == Cell(t, o, i) + (if o == outer && i == inner then amount else 0)
  {
  }

  /**
   * `update_product_per_afm`: every entry of a receipt for customer `afm`
   * adds its line total to `t[entry.product][afm]`, in entry order. What
   * happens to the keys and to each cell is stated by `CreditByProductKeys`
   * and `CreditByProductCell`.
   */
  function CreditByProduct(t: Table, afm: string, entries: seq<ReceiptEntry>): Table
    decreases |entries|
  {
    if entries == [] then t
    else
      var last := entries[|entries| - 1];
      Credit(CreditByProduct(t, afm, entries[..|entries| - 1]), last.product, afm, last.totalPrice)
  }

  /**
   * `update_afm_per_product`: every entry of a receipt for customer `afm`
   * adds its line total to `t[afm][entry.product]`, in entry order. What
   * happens to the keys and to each cell is stated by `CreditByAfmKeys` and
   * `CreditByAfmCell`.
   */
  function CreditByAfm(t: Table, afm: string, entries: seq<ReceiptEntry>): Table
    decreases |entries|
  {
    if entries == [] then t
    else
      var last := entries[|entries| - 1];
      Credit(CreditByAfm(t, afm, entries[..|entries| - 1]), afm, last.product, last.totalPrice)
  }

  /**
   * `update_product_per_afm` loses no product key, and the only new ones
   * are the products on the receipt.
   */
  lemma {:induction false} CreditByProductKeys(t: Table, afm: string, entries: seq<ReceiptEntry>)
    ensures CreditByProduct(t, afm, entries).Keys == t.Keys + Products(entries)
    decreases |entries|
  {
    if entries != [] {
      CreditByProductKeys(t, afm, entries[..|entries| - 1]);
    }
  }

  /**
   * `update_afm_per_product` loses no AFM key, and the only one that can
   * appear is the receipt's own, and only if it has an entry.
   */
  lemma {:induction false} CreditByAfmKeys(t: Table, afm: string, entries: seq<ReceiptEntry>)
    ensures CreditByAfm(t, afm, entries).Keys == if entries == [] then t.Keys else t.Keys + {afm}
    decreases |entries|
  {
    if entries != [] {
      CreditByAfmKeys(t, afm, entries[..|entries| - 1]);
    }
  }

  /**
   * After `update_product_per_afm`, the cell `[p][afm]` has grown by the
   * receipt's total for `p` and exists exactly when it existed before or `p`
   * is on the receipt; every cell of another AFM is as it was.
   */
  lemma {:induction false} CreditByProductCell(t: Table, afm: string, entries: seq<ReceiptEntry>, p: string, a: string)
    ensures Has(CreditByProduct(t, afm, entries), p, a) <==> Has(t, p, a) || (a == afm && p in Products(entries))
    ensures Cell(CreditByProduct(t, afm, entries), p, a)
         == Cell(t, p, a) + (if a == afm then ProductTotal(entries, p) else 0)
    decreases |entries|
  {
    if entries != [] {
      var last := entries[|entries| - 1];
      CreditByProductCell(t, afm, entries[..|entries| - 1], p, a);
      CreditCell(CreditByProduct(t, afm, entries[..|entries| - 1]), last.product, afm, last.totalPrice, p, a);
    }
  }

  /**
   * After `update_afm_per_product`, the cell `[afm][p]` has grown by the
   * receipt's total for `p` and exists exactly when it existed before or `p`
   * is on the receipt; every cell of another AFM is as it was.
   */
  lemma {:induction false} CreditByAfmCell(t: Table, afm: string, entries: seq<ReceiptEntry>, a: string, p: string)
    ensures Has(CreditByAfm(t, afm, entries), a, p) <==> Has(t, a, p) || (a == afm && p in Products(entries))
    ensures Cell(CreditByAfm(t, afm, entries), a, p)
         == Cell(t, a, p) + (if a == afm then ProductTotal(entries, p) else 0)
    decreases |entries|
  {
    if entries != [] {
      var last := entries[|entries| - 1];
      CreditByAfmCell(t, afm, entries[..|entries| - 1], a, p);
      CreditCell(CreditByAfm(t, afm, entries[..|entries| - 1]), afm, last.product, last.totalPrice, a, p);
    }
  }

  /** `CreditByProductCell` for every cell at once. */
  lemma CreditByProductCells(t: Table, afm: string, entries: seq<ReceiptEntry>)
    ensures forall p, a :: Has(CreditByProduct(t, afm, entries), p, a)
                       <==> Has(t, p, a) || (a == afm && p in Products(entries))
    ensures forall p, a :: Cell(CreditByProduct(t, afm, entries), p, a)
                        == Cell(t, p, a) + (if a == afm then ProductTotal(entries, p) else 0)
  {
    forall p, a {
      CreditByProductCell(t, afm, entries, p, a);
    }
  }

  /** `CreditByAfmCell` for every cell at once. */
  lemma CreditByAfmCells(t: Table, afm: string, entries: seq<ReceiptEntry>)
    ensures forall a, p :: Has(CreditByAfm(t, afm, entries), a, p)
                       <==> Has(t, a, p) || (a == afm && p in Products(entries))
    ensures forall a, p :: Cell(CreditByAfm(t, afm, entries), a, p)
                        == Cell(t, a, p) + (if a == afm then ProductTotal(entries, p) else 0)
  {
    forall a, p {
      CreditByAfmCell(t, afm, entries, a, p);
    }
  }

  /** `update_product_per_afm` never leaves an empty inner dictionary. */
  lemma {:induction false} CreditByProductNoEmptyInner(t: Table, afm: string, entries: seq<ReceiptEntry>)
    requires NoEmptyInner(t)
    ensures NoEmptyInner(CreditByProduct(t, afm, entries))
    decreases |entries|
  {
    if entries != [] {
      CreditByProductNoEmptyInner(t, afm, entries[..|entries| - 1]);
    }
  }

  /** `update_afm_per_product` never leaves an empty inner dictionary. */
  lemma {:induction false} CreditByAfmNoEmptyInner(t: Table, afm: string, entries: seq<ReceiptEntry>)
    requires NoEmptyInner(t)
    ensures NoEmptyInner(CreditByAfm(t, afm, entries))
    decreases |entries|
  {
    if entries != [] {
      CreditByAfmNoEmptyInner(t, afm, entries[..|entries| - 1]);
    }
  }
}

/** Properties of folding receipts into the two views. */
module SalesLaws {
  import opened Receipts
  import opened SalesTable

  /**
   * Folding the same receipt into both views keeps them mirror images of
   * each other.
   */
  lemma MirrorPreserved(productView: Table, afmView: Table, afm: string, entries: seq<ReceiptEntry>)
    requires Mirror(productView, afmView)
    ensures Mirror(CreditByProduct(productView, afm, entries), CreditByAfm(afmView, afm, entries))
  {
    var byProduct := CreditByProduct(productView, afm, entries);
    var byAfm := CreditByAfm(afmView, afm, entries);
    forall p, a
      ensures Has(byProduct, p, a) <==> Has(byAfm, a, p)
      ensures Has(byProduct, p, a) ==> byProduct[p][a] == byAfm[a][p]
    {
      CreditByProductCell(productView, afm, entries, p, a);
      CreditByAfmCell(afmView, afm, entries, a, p);
      assert Cell(productView, p, a) == Cell(afmView, a, p);
    }
  }

  /** With non-negative line totals no cell of either view ever decreases. */
  lemma NonDecreasing(productView: Table, afmView: Table, afm: string, entries: seq<ReceiptEntry>)
    requires NonNegative(entries)
    ensures forall p, a :: Cell(productView, p, a) <= Cell(CreditByProduct(productView, afm, entries), p, a)
    ensures forall a, p :: Cell(afmView, a, p) <= Cell(CreditByAfm(afmView, afm, entries), a, p)
  {
    forall p, a
      ensures Cell(productView, p, a) <= Cell(CreditByProduct(productView, afm, entries), p, a)
      ensures Cell(afmView, a, p) <= Cell(CreditByAfm(afmView, afm, entries), a, p)
    {
      ProductTotalNonNegative(entries, p);
      CreditByProductCell(productView, afm, entries, p, a);
      CreditByAfmCell(afmView, afm, entries, a, p);
    }
  }

  /**
   * A cell for another customer, or for a product not on the receipt, is
   * left exactly as it was in both views; and no cell ever disappears.
   */
  lemma OtherCellsUnchanged(productView: Table, afmView: Table, afm: string, entries: seq<ReceiptEntry>,
                            p: string, a: string)
    ensures Has(productView, p, a) ==> Has(CreditByProduct(productView, afm, entries), p, a)
    ensures Has(afmView, a, p) ==> Has(CreditByAfm(afmView, afm, entries), a, p)
    ensures a != afm || p !in Products(entries) ==>
              && (Has(CreditByProduct(productView, afm, entries), p, a) <==> Has(productView, p, a))
              && Cell(CreditByProduct(productView, afm, entries), p, a) == Cell(productView, p, a)
              && (Has(CreditByAfm(afmView, afm, entries), a, p) <==> Has(afmView, a, p))
              && Cell(CreditByAfm(afmView, afm, entries), a, p) == Cell(afmView, a, p)
  {
    CreditByProductCell(productView, afm, entries, p, a);
    CreditByAfmCell(afmView, afm, entries, a, p);
    if p !in Products(entries) {
      ProductTotalAbsent(entries, p);
    }
  }

  /** Two tables with the same outer keys and the same cells are equal. */
  lemma {:induction false} TablesEqual(t: Table, u: Table)
    requires t.Keys == u.Keys
    requires forall o, i :: Has(t, o, i) <==> Has(u, o, i)
    requires forall o, i :: Cell(t, o, i) == Cell(u, o, i)
    ensures t == u
  {
    forall o | o in t
      ensures t[o] == u[o]
    {
      assert t[o].Keys == u[o].Keys by {
        assert forall i :: i in t[o] <==> Has(t, o, i);
        assert forall i :: i in u[o] <==> Has(u, o, i);
      }
      forall i | i in t[o]
        ensures t[o][i] == u[o][i]
      {
        assert Cell(t, o, i) == Cell(u, o, i);
      }
    }
  }

  /** Every cell of the product view is the same after two receipts in either order. */
  lemma ProductCellsCommute(t: Table, afm1: string, entries1: seq<ReceiptEntry>,
                            afm2: string, entries2: seq<ReceiptEntry>)
    ensures var t12 := CreditByProduct(CreditByProduct(t, afm1, entries1), afm2, entries2);
            var t21 := CreditByProduct(CreditByProduct(t, afm2, entries2), afm1, entries1);
            && (forall p, a :: Has(t12, p, a) <==> Has(t21, p, a))
            && (forall p, a :: Cell(t12, p, a) == Cell(t21, p, a))
  {
    var t1 := CreditByProduct(t, afm1, entries1);
    var t2 := CreditByProduct(t, afm2, entries2);
    forall p, a
      ensures Has(CreditByProduct(t1, afm2, entries2), p, a) <==> Has(CreditByProduct(t2, afm1, entries1), p, a)
      ensures Cell(CreditByProduct(t1, afm2, entries2), p, a) == Cell(CreditByProduct(t2, afm1, entries1), p, a)
    {
      CreditByProductCell(t, afm1, entries1, p, a);
      CreditByProductCell(t, afm2, entries2, p, a);
      CreditByProductCell(t1, afm2, entries2, p, a);
      CreditByProductCell(t2, afm1, entries1, p, a);
    }
  }

  /** Every cell of the AFM view is the same after two receipts in either order. */
  lemma AfmCellsCommute(t: Table, afm1: string, entries1: seq<ReceiptEntry>,
                        afm2: string, entries2: seq<ReceiptEntry>)
    ensures var t12 := CreditByAfm(CreditByAfm(t, afm1, entries1), afm2, entries2);
            var t21 := CreditByAfm(CreditByAfm(t, afm2, entries2), afm1, entries1);
            && (forall a, p :: Has(t12, a, p) <==> Has(t21, a, p))
            && (forall a, p :: Cell(t12, a, p) == Cell(t21, a, p))
  {
    var t1 := CreditByAfm(t, afm1, entries1);
    var t2 := CreditByAfm(t, afm2, entries2);
    forall a, p
      ensures Has(CreditByAfm(t1, afm2, entries2), a, p) <==> Has(CreditByAfm(t2, afm1, entries1), a, p)
      ensures Cell(CreditByAfm(t1, afm2, entries2), a, p) == Cell(CreditByAfm(t2, afm1, entries1), a, p)
    {
      CreditByAfmCell(t, afm1, entries1, a, p);
      CreditByAfmCell(t, afm2, entries2, a, p);
      CreditByAfmCell(t1, afm2, entries2, a, p);
      CreditByAfmCell(t2, afm1, entries1, a, p);
    }
  }

  /**
   * The product view depends only on which receipts were folded in, not on
   * their order.
   */
  lemma ProductViewOrderIrrelevant(t: Table, afm1: string, entries1: seq<ReceiptEntry>,
                                   afm2: string, entries2: seq<ReceiptEntry>)
    ensures CreditByProduct(CreditByProduct(t, afm1, entries1), afm2, entries2)
         == CreditByProduct(CreditByProduct(t, afm2, entries2), afm1, entries1)
  {
    var t1 := CreditByProduct(t, afm1, entries1);
    var t2 := CreditByProduct(t, afm2, entries2);
    CreditByProductKeys(t, afm1, entries1);
    CreditByProductKeys(t, afm2, entries2);
    CreditByProductKeys(t1, afm2, entries2);
    CreditByProductKeys(t2, afm1, entries1);
    ProductCellsCommute(t, afm1, entries1, afm2, entries2);
    TablesEqual(CreditByProduct(t1, afm2, entries2), CreditByProduct(t2, afm1, entries1));
  }

  /**
   * The AFM view depends only on which receipts were folded in, not on
   * their order.
   */
  lemma AfmViewOrderIrrelevant(t: Table, afm1: string, entries1: seq<ReceiptEntry>,
                               afm2: string, entries2: seq<ReceiptEntry>)
    ensures CreditByAfm(CreditByAfm(t, afm1, entries1), afm2, entries2)
         == CreditByAfm(CreditByAfm(t, afm2, entries2), afm1, entries1)
  {
    var t1 := CreditByAfm(t, afm1, entries1);
    var t2 := CreditByAfm(t, afm2, entries2);
    CreditByAfmKeys(t, afm1, entries1);
    CreditByAfmKeys(t, afm2, entries2);
    CreditByAfmKeys(t1, afm2, entries2);
    CreditByAfmKeys(t2, afm1, entries1);
    AfmCellsCommute(t, afm1, entries1, afm2, entries2);
    TablesEqual(CreditByAfm(t1, afm2, entries2), CreditByAfm(t2, afm1, entries1));
  }

  /**
   * Folding the same receipt twice counts it twice: its customer's cell for
   * each product grows by twice the receipt's total for that product, in
   * both views. Nothing in the update recognises a receipt seen before.
   */
  lemma ReingestCountsTwice(productView: Table, afmView: Table, afm: string, entries: seq<ReceiptEntry>, p: string)
    ensures Cell(CreditByProduct(CreditByProduct(productView, afm, entries), afm, entries), p, afm)
         == Cell(productView, p, afm) + 2 * ProductTotal(entries, p)
    ensures Cell(CreditByAfm(CreditByAfm(afmView, afm, entries), afm, entries), afm, p)
         == Cell(afmView, afm, p) + 2 * ProductTotal(entries, p)
  {
    CreditByProductCell(productView, afm, entries, p, afm);
    CreditByProductCell(CreditByProduct(productView, afm, entries), afm, entries, p, afm);
    CreditByAfmCell(afmView, afm, entries, afm, p);
    CreditByAfmCell(CreditByAfm(afmView, afm, entries), afm, entries, afm, p);
  }
}
