/**
 * The receipt model of computeSales.py: `ReceiptEntry`, a plain record, and
 * `Receipt`, an object whose entry list and running total grow as entries
 * are added.
 *
 * Money is held as whole cents (`int`), so sums and the equality test in
 * `HasCorrectTotal` are exact.
 */
module Receipts {

  /**
   * One line of a receipt. The constructor stores its four arguments and
   * checks nothing: in particular `unitPrice * amount == totalPrice` is not
   * enforced.
   */
  datatype ReceiptEntry = ReceiptEntry(product: string, amount: int, unitPrice: int, totalPrice: int)

  /** Sum of the line totals, in entry order. */
  function Total(entries: seq<ReceiptEntry>): int
  {
    if entries == [] then 0
    else Total(entries[..|entries| - 1]) + entries[|entries| - 1].totalPrice
  }

  /** Sum of the line totals of the entries for `product`. */
  function ProductTotal(entries: seq<ReceiptEntry>, product: string): int
  {
    if entries == [] then 0
    else
      var last := entries[|entries| - 1];
      ProductTotal(entries[..|entries| - 1], product) + (if last.product == product then last.totalPrice else 0)
  }

  /** The products named on a receipt. */
  function Products(entries: seq<ReceiptEntry>): (ps: set<string>)
    ensures forall p :: p in ps <==> exists e :: e in entries && e.product == p
  {
    if entries == [] then {}
    else
      var init := entries[..|entries| - 1];
      var last := entries[|entries| - 1];
      assert entries == init + [last];
      Products(init) + {last.product}
  }

  /** No line total is negative. */
  predicate NonNegative(entries: seq<ReceiptEntry>)
  {
    forall i :: 0 <= i < |entries| ==> entries[i].totalPrice >= 0
  }

  /** A product that is not on the receipt has nothing credited to it. */
  lemma {:induction false} ProductTotalAbsent(entries: seq<ReceiptEntry>, product: string)
    requires product !in Products(entries)
    ensures ProductTotal(entries, product) == 0
  {
    if entries != [] {
      var init := entries[..|entries| - 1];
      assert forall e :: e in init ==> e in entries;
      ProductTotalAbsent(init, product);
    }
  }

  /** With non-negative line totals, every product's share is non-negative. */
  lemma {:induction false} ProductTotalNonNegative(entries: seq<ReceiptEntry>, product: string)
    requires NonNegative(entries)
    ensures ProductTotal(entries, product) >= 0
  {
    if entries != [] {
      ProductTotalNonNegative(entries[..|entries| - 1], product);
    }
  }

  class Receipt {
    var afm: string
    var entries: seq<ReceiptEntry>
    var totalPrice: int

    /** The running total is the sum of the line totals. */
    ghost predicate Valid()
      reads this
    {
      totalPrice == Total(entries)
    }

    /** A new receipt for customer `afm`: no entries, total 0. */
    constructor (afm: string)
      ensures this.afm == afm && entries == [] && totalPrice == 0
      ensures Valid()
    {
      this.afm := afm;
      entries := [];
      totalPrice := 0;
    }

    /**
     * Appends `entry` and adds its line total to the running total.
     * The source calls `self.entries.insert(receipt_entry)`, which in Python
     * raises a TypeError (`list.insert` takes an index and a value); this
     * models the evident intent, appending at the end.
     */
    method AddEntry(entry: ReceiptEntry)
      requires Valid()
      modifies this`entries, this`totalPrice
      ensures entries == old(entries) + [entry]
      ensures totalPrice == old(totalPrice) + entry.totalPrice
      ensures Valid()
    {
      entries := entries + [entry];
      totalPrice := totalPrice + entry.totalPrice;
      assert entries[..|entries| - 1] == old(entries);
    }

    /** Whether the declared total `total` matches the entries exactly. */
    function HasCorrectTotal(total: int): (r: bool)
      reads this
      ensures Valid() ==> (r <==> Total(entries) == total)
    {
      totalPrice == total
    }
  }
}
