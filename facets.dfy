/** The filter selectors' options: every size label and every colour of the
    full catalog, duplicates removed, in order of first occurrence. */
module Facets {
  import opened Catalog

  predicate NoDuplicates(xs: seq<string>)
  {
    forall i, j :: 0 <= i < j < |xs| ==> xs[i] != xs[j]
  }

  /** The position at which `x` first occurs in `xs`. */
  function FirstIndex(xs: seq<string>, x: string): (k: nat)
    requires x in xs
    ensures k < |xs| && xs[k] == x && x !in xs[..k]
  {
    if xs[0] == x then 0 else 1 + FirstIndex(xs[1..], x)
  }

  /** `Array.from(new Set(xs))`: the `Set` takes the elements one at a time
      from the left and keeps an element only the first time it is seen. */
  function Dedup(xs: seq<string>): (r: seq<string>)
    ensures NoDuplicates(r)
    ensures forall x :: x in r <==> x in xs
    decreases |xs|
  {
    if xs == [] then []
    else
      var init, last := xs[..|xs| - 1], xs[|xs| - 1];
      assert xs == init + [last];
      var d := Dedup(init);
      if last in d then d else d + [last]
  }

  lemma {:induction false} FirstIndexAppend(xs: seq<string>, y: string, x: string)
    requires x in xs
    ensures FirstIndex(xs + [y], x) == FirstIndex(xs, x)
  {
    if xs[0] != x {
      assert (xs + [y])[1..] == xs[1..] + [y];
      FirstIndexAppend(xs[1..], y, x);
    }
  }

  /** The deduplicated list is ordered by where each value first occurs. */
  lemma {:induction false} DedupFirstOccurrenceOrder(xs: seq<string>)
    ensures forall i, j :: 0 <= i < j < |Dedup(xs)| ==>
      FirstIndex(xs, Dedup(xs)[i]) < FirstIndex(xs, Dedup(xs)[j])
    decreases |xs|
  {
    if xs != [] {
      var init, last := xs[..|xs| - 1], xs[|xs| - 1];
      assert xs == init + [last];
      DedupFirstOccurrenceOrder(init);
      var d := Dedup(init);
      forall x | x in init ensures FirstIndex(xs, x) == FirstIndex(init, x) {
        FirstIndexAppend(init, last, x);
      }
      if last !in d {
        assert last !in init;
        assert FirstIndex(xs, last) == |init|;
        assert Dedup(xs) == d + [last];
      }
    }
  }

  /** `(p.sizes || []).map((s) => s.label)` */
  function LabelsOf(p: Product): seq<string>
  {
    seq(|SizesOf(p)|, i requires 0 <= i < |SizesOf(p)| => SizesOf(p)[i].sizeLabel)
  }

  /** `items.flatMap((p) => (p.sizes || []).map((s) => s.label))` */
  function SizeLabels(items: seq<Product>): seq<string>
    decreases |items|
  {
    if items == [] then [] else LabelsOf(items[0]) + SizeLabels(items[1..])
  }

  /** `items.flatMap((p) => p.colors || [])` */
  function ColorValues(items: seq<Product>): seq<string>
    decreases |items|
  {
    if items == [] then [] else ColorsOf(items[0]) + ColorValues(items[1..])
  }

  /** `allSizes` */
  function AllSizes(items: seq<Product>): seq<string>
  {
    Dedup(SizeLabels(items))
  }

  /** `allColors` */
  function AllColors(items: seq<Product>): seq<string>
  {
    Dedup(ColorValues(items))
  }

  /** The flattened labels are exactly the labels of the catalog's sizes,
      whatever their stock. */
  lemma {:induction false} SizeLabelsMembers(items: seq<Product>)
    ensures forall l :: l in SizeLabels(items) <==>
      exists p, s :: p in items && s in SizesOf(p) && s.sizeLabel == l
    decreases |items|
  {
    if items != [] {
      SizeLabelsMembers(items[1..]);
      assert items == [items[0]] + items[1..];
      forall l | l in LabelsOf(items[0])
        ensures exists s :: s in SizesOf(items[0]) && s.sizeLabel == l
      {
        var i :| 0 <= i < |LabelsOf(items[0])| && LabelsOf(items[0])[i] == l;
        assert SizesOf(items[0])[i] in SizesOf(items[0]);
      }
      forall p, s | p in items && s in SizesOf(p) ensures s.sizeLabel in SizeLabels(items) {
        if p == items[0] {
          var i :| 0 <= i < |SizesOf(p)| && SizesOf(p)[i] == s;
          assert LabelsOf(p)[i] == s.sizeLabel;
        } else {
          assert p in items[1..];
        }
      }
    }
  }

  /** The flattened colours are exactly the colours listed by the products. */
  lemma {:induction false} ColorValuesMembers(items: seq<Product>)
    ensures forall c :: c in ColorValues(items) <==> exists p :: p in items && c in ColorsOf(p)
    decreases |items|
  {
    if items != [] {
      ColorValuesMembers(items[1..]);
      assert items == [items[0]] + items[1..];
    }
  }

  /** `allSizes`: no label twice, every label of every product (out-of-stock
      sizes included) and nothing else, ordered by first occurrence. */
  lemma AllSizesFacet(items: seq<Product>)
    ensures NoDuplicates(AllSizes(items))
    ensures forall l :: l in AllSizes(items) <==>
      exists p, s :: p in items && s in SizesOf(p) && s.sizeLabel == l
    ensures forall i, j :: 0 <= i < j < |AllSizes(items)| ==>
      FirstIndex(SizeLabels(items), AllSizes(items)[i]) < FirstIndex(SizeLabels(items), AllSizes(items)[j])
  {
    SizeLabelsMembers(items);
    DedupFirstOccurrenceOrder(SizeLabels(items));
  }

  /** `allColors`: no colour twice, every colour of every product and nothing
      else, ordered by first occurrence. */
  lemma AllColorsFacet(items: seq<Product>)
    ensures NoDuplicates(AllColors(items))
    ensures forall c :: c in AllColors(items) <==> exists p :: p in items && c in ColorsOf(p)
    ensures forall i, j :: 0 <= i < j < |AllColors(items)| ==>
      FirstIndex(ColorValues(items), AllColors(items)[i]) < FirstIndex(ColorValues(items), AllColors(items)[j])
  {
    ColorValuesMembers(items);
    DedupFirstOccurrenceOrder(ColorValues(items));
  }

  /** A size with no stock still appears among the size options. */
  lemma SoldOutSizeIsOffered(items: seq<Product>, p: Product, s: Size)
    requires p in items && s in SizesOf(p) && s.qty <= 0
    ensures s.sizeLabel in AllSizes(items)
  {
    SizeLabelsMembers(items);
  }

  /** For the sample product both sizes are offered, the sold-out "M"
      included, in listing order. */
  lemma AriaGownFacets()
    ensures AllSizes([AriaGown()]) == ["S", "M"]
    ensures AllColors([AriaGown()]) == ["red"]
  {
    assert [AriaGown()][1..] == [];
    assert LabelsOf(AriaGown()) == ["S", "M"];
    assert SizeLabels([AriaGown()]) == ["S", "M"];
    assert ["S", "M"][..1] == ["S"];
    assert ["S"][..0] == [];
    assert ColorValues([AriaGown()]) == ["red"];
    assert ["red"][..0] == [];
  }
}
