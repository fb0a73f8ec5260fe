/**
 * `StatsHandler` of computeSales.py: the object that owns the two sales
 * dictionaries, folds receipts into them and answers the two report
 * queries.
 */
module Stats {
  import opened Receipts
  import opened SalesTable
  import opened SalesLaws
  import opened KeyOrder

  datatype Option<T> = None | Some(value: T)

  /** The pair `(key, total)` is a line of `report`. */
  predicate InReport(report: Option<seq<Item>>, key: string, total: int)
  {
    report.Some? && (key, total) in report.value
  }

  class StatsHandler {
    /** product -> (AFM -> cumulative total in cents) */
    var productPerAfmSales: Table
    /** AFM -> (product -> cumulative total in cents) */
    var afmPerProductSales: Table

    /**
     * The two dictionaries are two views of the same facts, and no key
     * leads to an empty inner dictionary (each one is created holding the
     * cell that caused it).
     */
    ghost predicate Valid()
      reads this
    {
      && Mirror(productPerAfmSales, afmPerProductSales)
      && NoEmptyInner(productPerAfmSales)
      && NoEmptyInner(afmPerProductSales)
    }

    constructor ()
      ensures Valid()
      ensures productPerAfmSales == map[] && afmPerProductSales == map[]
    {
      productPerAfmSales := map[];
      afmPerProductSales := map[];
    }

    /**
     * `update_stats`: folds one receipt into both views, one after the
     * other. On a handler whose views are mirror images (every handler
     * built by the constructor and `UpdateStats` alone), they stay so;
     * calling only one of the two half-updates breaks that.
     */
    method UpdateStats(receipt: Receipt)
      modifies this
      ensures old(Valid()) ==> Valid()
      ensures productPerAfmSales == CreditByProduct(old(productPerAfmSales), receipt.afm, receipt.entries)
      ensures afmPerProductSales == CreditByAfm(old(afmPerProductSales), receipt.afm, receipt.entries)
    {
      if Valid() {
        MirrorPreserved(productPerAfmSales, afmPerProductSales, receipt.afm, receipt.entries);
        CreditByProductNoEmptyInner(productPerAfmSales, receipt.afm, receipt.entries);
        CreditByAfmNoEmptyInner(afmPerProductSales, receipt.afm, receipt.entries);
      }
      UpdateProductPerAfm(receipt);
      UpdateAfmPerProduct(receipt);
    }

    /**
     * `update_product_per_afm`: for each entry in order, adds its line total
     * to `productPerAfmSales[entry.product][receipt.afm]`, creating the
     * inner dictionary or the cell on first use (the three branches of
     * `Credit`). Each cell `[p][receipt.afm]` grows
     * by the receipt's total for `p`; all other cells are unchanged; no cell
     * disappears.
     */
    method UpdateProductPerAfm(receipt: Receipt)
      modifies this`productPerAfmSales
      ensures productPerAfmSales == CreditByProduct(old(productPerAfmSales), receipt.afm, receipt.entries)
      ensures forall p, a :: Has(productPerAfmSales, p, a)
                         <==> Has(old(productPerAfmSales), p, a) || (a == receipt.afm && p in Products(receipt.entries))
      ensures forall p, a :: Cell(productPerAfmSales, p, a)
                          == Cell(old(productPerAfmSales), p, a) + (if a == receipt.afm then ProductTotal(receipt.entries, p) else 0)
    {
      var i := 0;
      while i < |receipt.entries|
        invariant 0 <= i <= |receipt.entries|
        invariant productPerAfmSales == CreditByProduct(old(productPerAfmSales), receipt.afm, receipt.entries[..i])
      {
        var entry := receipt.entries[i];
        productPerAfmSales := Credit(productPerAfmSales, entry.product, receipt.afm, entry.totalPrice);
        assert receipt.entries[..i + 1][..i] == receipt.entries[..i];
        i := i + 1;
      }
      assert receipt.entries[..i] == receipt.entries;
      CreditByProductCells(old(productPerAfmSales), receipt.afm, receipt.entries);
    }

    /**
     * `update_afm_per_product`: for each entry in order, adds its line total
     * to `afmPerProductSales[receipt.afm][entry.product]`, creating the
     * inner dictionary or the cell on first use (the three branches of
     * `Credit`). Each cell `[receipt.afm][p]` grows
     * by the receipt's total for `p`; all other cells are unchanged; no cell
     * disappears.
     */
    method UpdateAfmPerProduct(receipt: Receipt)
      modifies this`afmPerProductSales
      ensures afmPerProductSales == CreditByAfm(old(afmPerProductSales), receipt.afm, receipt.entries)
      ensures forall a, p :: Has(afmPerProductSales, a, p)
                         <==> Has(old(afmPerProductSales), a, p) || (a == receipt.afm && p in Products(receipt.entries))
      ensures forall a, p :: Cell(afmPerProductSales, a, p)
                          == Cell(old(afmPerProductSales), a, p) + (if a == receipt.afm then ProductTotal(receipt.entries, p) else 0)
    {
      var i := 0;
      while i < |receipt.entries|
        invariant 0 <= i <= |receipt.entries|
        invariant afmPerProductSales == CreditByAfm(old(afmPerProductSales), receipt.afm, receipt.entries[..i])
      {
        var entry := receipt.entries[i];
        afmPerProductSales := Credit(afmPerProductSales, receipt.afm, entry.product, entry.totalPrice);
        assert receipt.entries[..i + 1][..i] == receipt.entries[..i];
        i := i + 1;
      }
      assert receipt.entries[..i] == receipt.entries;
      CreditByAfmCells(old(afmPerProductSales), receipt.afm, receipt.entries);
    }

    /**
     * `afm_to_string`, without the text rendering: nothing when `product`
     * is unknown or its dictionary is empty, otherwise one `(afm, total)`
     * line per AFM that bought it, in ascending AFM order.
     */
    function AfmReport(product: string): (r: Option<seq<Item>>)
      reads this
      ensures r.None? <==> product !in productPerAfmSales || productPerAfmSales[product] == map[]
      ensures r.Some? ==> |r.value| == |productPerAfmSales[product]|
      ensures r.Some? ==> ItemsAscending(r.value)
      ensures forall a, total :: InReport(r, a, total)
                            <==> Has(productPerAfmSales, product, a) && productPerAfmSales[product][a] == total
    {
      if product in productPerAfmSales && productPerAfmSales[product] != map[] then
        Some(SortedItems(productPerAfmSales[product]))
      else
        None
    }

    /**
     * `product_to_string`, without the text rendering: nothing when `afm`
     * is unknown or its dictionary is empty, otherwise one
     * `(product, total)` line per product it bought, in ascending product
     * order.
     */
    function ProductReport(afm: string): (r: Option<seq<Item>>)
      reads this
      ensures r.None? <==> afm !in afmPerProductSales || afmPerProductSales[afm] == map[]
      ensures r.Some? ==> |r.value| == |afmPerProductSales[afm]|
      ensures r.Some? ==> ItemsAscending(r.value)
      ensures forall p, total :: InReport(r, p, total)
                            <==> Has(afmPerProductSales, afm, p) && afmPerProductSales[afm][p] == total
    {
      if afm in afmPerProductSales && afmPerProductSales[afm] != map[] then
        Some(SortedItems(afmPerProductSales[afm]))
      else
        None
    }
  }

  /**
   * The two reports agree: AFM `a` appears with `total` in the report for
   * product `p` exactly when `p` appears with `total` in the report for `a`.
   */
  lemma ReportsAgree(stats: StatsHandler, p: string, a: string, total: int)
    requires stats.Valid()
    ensures InReport(stats.AfmReport(p), a, total) <==> InReport(stats.ProductReport(a), p, total)
  {
  }

  /**
   * On a handler that only ever received receipts, a product report is
   * missing exactly when nobody bought the product, and a customer report
   * exactly when the AFM bought nothing.
   */
  lemma ReportMissingIffUnknown(stats: StatsHandler, p: string, a: string)
    requires stats.Valid()
    ensures stats.AfmReport(p).None? <==> p !in stats.productPerAfmSales
    ensures stats.ProductReport(a).None? <==> a !in stats.afmPerProductSales
  {
  }

  /** The receipt used by the examples: 2 MILK at 1.50 and 1 BREAD at 2.50. */
  method ExampleReceipt() returns (receipt: Receipt)
    ensures fresh(receipt) && receipt.Valid()
    ensures receipt.afm == "1234567890"
    ensures receipt.entries == [ReceiptEntry("MILK", 2, 150, 300), ReceiptEntry("BREAD", 1, 250, 250)]
    ensures receipt.totalPrice == 550
  {
    receipt := new Receipt("1234567890");
    receipt.AddEntry(ReceiptEntry("MILK", 2, 150, 300));
    receipt.AddEntry(ReceiptEntry("BREAD", 1, 250, 250));
  }

  /**
   * The example receipt's declared total 5.50 is accepted and 5.51 is not.
   */
  method DeclaredTotalExample() returns (totalAccepted: bool, wrongTotalAccepted: bool)
    ensures totalAccepted && !wrongTotalAccepted
  {
    var receipt := ExampleReceipt();
    totalAccepted := receipt.HasCorrectTotal(550);
    wrongTotalAccepted := receipt.HasCorrectTotal(551);
  }

  /**
   * The example receipt for customer 1234567890 folded into a fresh
   * handler: the MILK report has the single line (1234567890, 3.00), and the
   * customer report lists BREAD before MILK.
   */
  method LedgerExample() returns (milkReport: Option<seq<Item>>, customerReport: Option<seq<Item>>)
    ensures milkReport == Some([("1234567890", 300)])
    ensures customerReport == Some([("BREAD", 250), ("MILK", 300)])
  {
    var afm := "1234567890";
    var milk := ReceiptEntry("MILK", 2, 150, 300);
    var bread := ReceiptEntry("BREAD", 1, 250, 250);
    var receipt := ExampleReceipt();
    var stats := new StatsHandler();
    stats.UpdateStats(receipt);
    ExampleProductView(afm, milk, bread);
    ExampleAfmView(afm, milk, bread);
    SingleLineReport(afm, 300);
    ExampleCustomerReportSorted();
    assert stats.productPerAfmSales["MILK"] == map[afm := 300];
    assert stats.afmPerProductSales[afm] == map["MILK" := 300, "BREAD" := 250];
    milkReport := stats.AfmReport("MILK");
    customerReport := stats.ProductReport(afm);
  }

  /** The product view after folding the example receipt into an empty one. */
  lemma ExampleProductView(afm: string, milk: ReceiptEntry, bread: ReceiptEntry)
    requires milk == ReceiptEntry("MILK", 2, 150, 300) && bread == ReceiptEntry("BREAD", 1, 250, 250)
    ensures CreditByProduct(map[], afm, [milk, bread]) == map["MILK" := map[afm := 300], "BREAD" := map[afm := 250]]
  {
    assert [milk, bread][..1] == [milk];
    assert [milk][..0] == [];
    assert CreditByProduct(map[], afm, [milk]) == map["MILK" := map[afm := 300]];
  }

  /** The AFM view after folding the example receipt into an empty one. */
  lemma ExampleAfmView(afm: string, milk: ReceiptEntry, bread: ReceiptEntry)
    requires milk == ReceiptEntry("MILK", 2, 150, 300) && bread == ReceiptEntry("BREAD", 1, 250, 250)
    ensures CreditByAfm(map[], afm, [milk, bread]) == map[afm := map["MILK" := 300, "BREAD" := 250]]
  {
    assert [milk, bread][..1] == [milk];
    assert [milk][..0] == [];
    assert CreditByAfm(map[], afm, [milk]) == map[afm := map["MILK" := 300]];
  }

  /** A one-customer report has one line. */
  lemma SingleLineReport(afm: string, total: int)
    ensures SortedItems(map[afm := total]) == [(afm, total)]
  {
  }

  /** BREAD is listed before MILK. */
  lemma ExampleCustomerReportSorted()
    ensures SortedItems(map["MILK" := 300, "BREAD" := 250]) == [("BREAD", 250), ("MILK", 300)]
  {
  }
}
