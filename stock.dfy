/** What a product card derives from a product's sizes: whether it is in
    stock, which sizes are available, each size chip's sold-out flag and the
    stock line under the card. */
module Stock {
  import opened Catalog
  import opened Filters

  /** `p.sizes?.some((s) => s.qty > 0)`; with `sizes` missing the optional
      chain yields `undefined`, which the card treats as not in stock. */
  predicate InStock(p: Product)
  {
    match p.sizes
    case None => false
    case Some(ss) => exists s :: s in ss && s.qty > 0
  }

  /** `ss.filter((s) => s.qty > 0)` */
  function StockedSizes(ss: seq<Size>): seq<Size>
    decreases |ss|
  {
    if ss == [] then []
    else (if ss[0].qty > 0 then [ss[0]] else []) + StockedSizes(ss[1..])
  }

  /** `p.sizes?.filter((s) => s.qty > 0) || []` */
  function AvailableSizes(p: Product): seq<Size>
  {
    match p.sizes
    case None => []
    case Some(ss) => StockedSizes(ss)
  }

  /** `SizeChip`: `sold = qty <= 0`, which disables the chip. */
  predicate Sold(qty: int)
  {
    qty <= 0
  }

  /** The stock line: `${n} size${n > 1 ? "s" : ""} in stock` when in stock,
      otherwise the no-restock notice. */
  datatype StockNote = SizesInStock(count: nat, suffix: string) | NoRestock

  function StockNoteOf(p: Product): StockNote
  {
    if InStock(p) then
      var n := |AvailableSizes(p)|;
      SizesInStock(n, if n > 1 then "s" else "")
    else NoRestock
  }

  /** The stocked sizes are the sizes with positive quantity, in their order,
      each as many times as it is listed. */
  lemma {:induction false} StockedSizesExact(ss: seq<Size>)
    ensures IsSubsequence(StockedSizes(ss), ss)
    ensures forall s :: s in StockedSizes(ss) <==> s in ss && s.qty > 0
    ensures forall s :: multiset(StockedSizes(ss))[s] == if s.qty > 0 then multiset(ss)[s] else 0
    decreases |ss|
  {
    if ss != [] {
      StockedSizesExact(ss[1..]);
      var rest := StockedSizes(ss[1..]);
      assert ss == [ss[0]] + ss[1..];
      if ss[0].qty > 0 {
        assert StockedSizes(ss) == [ss[0]] + rest;
        assert ([ss[0]] + rest)[1..] == rest;
      } else {
        assert StockedSizes(ss) == rest;
      }
    }
  }

  /** `availableSizes` is exactly the listed sizes with stock, in order and
      with repeated entries kept. */
  lemma AvailableSizesExact(p: Product)
    ensures IsSubsequence(AvailableSizes(p), SizesOf(p))
    ensures forall s :: s in AvailableSizes(p) <==> s in SizesOf(p) && s.qty > 0
    ensures forall s :: multiset(AvailableSizes(p))[s] == if s.qty > 0 then multiset(SizesOf(p))[s] else 0
  {
    StockedSizesExact(SizesOf(p));
  }

  /** `inStock` holds exactly when `availableSizes` is non-empty. */
  lemma InStockIff(p: Product)
    ensures InStock(p) <==> |AvailableSizes(p)| > 0
  {
    AvailableSizesExact(p);
    if InStock(p) {
      var s :| s in SizesOf(p) && s.qty > 0;
      assert s in AvailableSizes(p);
    }
    if |AvailableSizes(p)| > 0 {
      assert AvailableSizes(p)[0] in AvailableSizes(p);
    }
  }

  /** A listed size's chip is sold out exactly when the size is not among
      the available ones. */
  lemma ChipSoldIff(p: Product, s: Size)
    requires s in SizesOf(p)
    ensures Sold(s.qty) <==> s !in AvailableSizes(p)
  {
    AvailableSizesExact(p);
  }

  /** The stock line counts the available sizes, never shows "0 sizes", and
      takes the plural "s" exactly when more than one size is available. */
  lemma StockNoteSpec(p: Product)
    ensures StockNoteOf(p).NoRestock? <==> |AvailableSizes(p)| == 0
    ensures StockNoteOf(p).SizesInStock? ==>
      && StockNoteOf(p).count == |AvailableSizes(p)| >= 1
      && (StockNoteOf(p).suffix == "s" <==> StockNoteOf(p).count > 1)
      && (StockNoteOf(p).suffix == "" <==> StockNoteOf(p).count == 1)
  {
    InStockIff(p);
  }

  /** The size filter agrees with the card: a product passes a size filter
      exactly when that label is among its available sizes, so a product
      shown as sold out passes no size filter. */
  lemma SizeFilterMatchesAvailability(p: Product, size: string)
    requires size != ""
    ensures MatchesSize(p, size) <==> exists s :: s in AvailableSizes(p) && s.sizeLabel == size
    ensures !InStock(p) ==> !MatchesSize(p, size)
  {
    AvailableSizesExact(p);
    InStockIff(p);
    if MatchesSize(p, size) {
      var s :| s in SizesOf(p) && s.sizeLabel == size && s.qty > 0;
      assert s in AvailableSizes(p);
    }
  }
}
