/** The `useFilters` hook: the catalog narrowed by a text query, a size label
    and a colour, each inactive when it is the empty string. */
module Filters {
  import opened Text
  import opened Catalog

  /** The hook's three state cells `q`, `size` and `color`. */
  datatype Criteria = Criteria(query: string, size: string, color: string)

  /** `q ? p.name.toLowerCase().includes(q.toLowerCase()) : true` */
  predicate MatchesQuery(p: Product, q: string)
  {
    q == "" || Includes(Lower(p.name), Lower(q))
  }

  /** `size ? p.sizes?.some((s) => s.sizeLabel === size && s.qty > 0) : true`;
      a missing `sizes` makes the optional chain yield `undefined`, which fails. */
  predicate MatchesSize(p: Product, size: string)
  {
    size == "" ||
    match p.sizes
    case None => false
    case Some(ss) => exists s :: s in ss && s.sizeLabel == size && s.qty > 0
  }

  /** `color ? (p.colors || []).includes(color) : true` */
  predicate MatchesColor(p: Product, color: string)
  {
    color == "" || color in ColorsOf(p)
  }

  /** `matchesQ && matchesSize && matchesColor` */
  predicate Passes(p: Product, c: Criteria)
  {
    MatchesQuery(p, c.query) && MatchesSize(p, c.size) && MatchesColor(p, c.color)
  }

  /** `items.filter(...)`: the products that pass, in catalog order. */
  function Filter(items: seq<Product>, c: Criteria): (r: seq<Product>)
    decreases |items|
  {
    if items == [] then []
    else (if Passes(items[0], c) then [items[0]] else []) + Filter(items[1..], c)
  }

  /** The single-criterion filters whose conjunction is `Passes`. */
  function OnlyQuery(c: Criteria): Criteria { Criteria(c.query, "", "") }
  function OnlySize(c: Criteria): Criteria { Criteria("", c.size, "") }
  function OnlyColor(c: Criteria): Criteria { Criteria("", "", c.color) }

  /** The pass test stated without the search function: the lower-cased query
      occurs somewhere in the lower-cased name, some listed size with that
      label has stock, and the colour is listed exactly. */
  lemma PassesIff(p: Product, c: Criteria)
    ensures Passes(p, c) <==>
      && (c.query == "" || exists i :: OccursAt(Lower(p.name), Lower(c.query), i))
      && (c.size == "" || exists s :: s in SizesOf(p) && s.sizeLabel == c.size && s.qty > 0)
      && (c.color == "" || c.color in ColorsOf(p))
  {
    IncludesIff(Lower(p.name), Lower(c.query));
  }

  /** The size rule's edge cases: a label that is only listed with no stock
      does not count, and a product without `sizes` fails any size filter. */
  lemma SizeFilterCases(p: Product, size: string)
    requires size != ""
    ensures (forall s :: s in SizesOf(p) && s.sizeLabel == size ==> s.qty <= 0) ==> !MatchesSize(p, size)
    ensures p.sizes.None? ==> !MatchesSize(p, size)
    ensures MatchesSize(p, size) <==> exists s :: s in SizesOf(p) && s.sizeLabel == size && s.qty > 0
  {
  }

  /** The query ignores ASCII case on both sides: names and queries that
      lower-case to the same string give the same answer. */
  lemma QueryIgnoresCase(p: Product, q: string, name': string, q': string)
    requires Lower(p.name) == Lower(name') && Lower(q) == Lower(q')
    ensures MatchesQuery(p, q) == MatchesQuery(p.(name := name'), q')
    ensures MatchesQuery(p, q) == MatchesQuery(p, Lower(q))
  {
    LowerIdempotent(q);
  }

  /** The filtered list is a subsequence of the catalog. */
  lemma {:induction false} FilterSubsequence(items: seq<Product>, c: Criteria)
    ensures IsSubsequence(Filter(items, c), items)
    decreases |items|
  {
    if items != [] {
      FilterSubsequence(items[1..], c);
      var rest := Filter(items[1..], c);
      if Passes(items[0], c) {
        assert Filter(items, c) == [items[0]] + rest;
        assert ([items[0]] + rest)[1..] == rest;
      } else {
        assert Filter(items, c) == rest;
      }
    }
  }

  /** A product is shown exactly when it is in the catalog and passes. */
  lemma {:induction false} FilterMembers(items: seq<Product>, c: Criteria)
    ensures forall p :: p in Filter(items, c) <==> p in items && Passes(p, c)
    decreases |items|
  {
    if items != [] {
      FilterMembers(items[1..], c);
      assert items == [items[0]] + items[1..];
    }
  }

  /** Each product is kept as many times as the catalog lists it when it
      passes, and not at all otherwise. */
  lemma {:induction false} FilterCount(items: seq<Product>, c: Criteria)
    ensures forall p :: multiset(Filter(items, c))[p] == if Passes(p, c) then multiset(items)[p] else 0
    decreases |items|
  {
    if items != [] {
      FilterCount(items[1..], c);
      assert items == [items[0]] + items[1..];
    }
  }

  /** With every criterion empty the whole catalog is shown. */
  lemma {:induction false} FilterNoCriteria(items: seq<Product>)
    ensures Filter(items, Criteria("", "", "")) == items
    decreases |items|
  {
    if items != [] {
      FilterNoCriteria(items[1..]);
      assert items == [items[0]] + items[1..];
    }
  }

  /** Filtering a list all of whose products pass returns it unchanged. */
  lemma {:induction false} FilterAllPass(items: seq<Product>, c: Criteria)
    requires forall p :: p in items ==> Passes(p, c)
    ensures Filter(items, c) == items
    decreases |items|
  {
    if items != [] {
      FilterAllPass(items[1..], c);
      assert items == [items[0]] + items[1..];
    }
  }

  /** Filtering twice with the same criteria is filtering once. */
  lemma FilterIdempotent(items: seq<Product>, c: Criteria)
    ensures Filter(Filter(items, c), c) == Filter(items, c)
  {
    FilterMembers(items, c);
    FilterAllPass(Filter(items, c), c);
  }

  /** Filtering a concatenation filters each part on its own. */
  lemma {:induction false} FilterAppend(a: seq<Product>, b: seq<Product>, c: Criteria)
    ensures Filter(a + b, c) == Filter(a, c) + Filter(b, c)
    decreases |a|
  {
    if a != [] {
      FilterAppend(a[1..], b, c);
      assert (a + b)[1..] == a[1..] + b;
    } else {
      assert a + b == b;
    }
  }

  /** The combined filter is the three single-criterion filters applied in
      turn, in the same order. */
  lemma {:induction false} FilterComposition(items: seq<Product>, c: Criteria)
    ensures Filter(items, c) == Filter(Filter(Filter(items, OnlyQuery(c)), OnlySize(c)), OnlyColor(c))
    decreases |items|
  {
    if items != [] {
      var x := items[0];
      var rest := items[1..];
      FilterComposition(rest, c);
      var hq := if Passes(x, OnlyQuery(c)) then [x] else [];
      assert Filter(items, OnlyQuery(c)) == hq + Filter(rest, OnlyQuery(c));
      FilterAppend(hq, Filter(rest, OnlyQuery(c)), OnlySize(c));
      var hs := Filter(hq, OnlySize(c));
      FilterAppend(hs, Filter(Filter(rest, OnlyQuery(c)), OnlySize(c)), OnlyColor(c));
      assert Filter(Filter(hs, OnlyColor(c)), OnlyColor(c)) == Filter(hs, OnlyColor(c)) by {
        FilterIdempotent(hs, OnlyColor(c));
      }
      if Passes(x, c) {
        assert Filter(hs, OnlyColor(c)) == [x];
      } else {
        assert Filter(hs, OnlyColor(c)) == [];
      }
    }
  }

  /** Hence the shown set is the intersection of the single-criterion views. */
  lemma FilterIntersection(items: seq<Product>, c: Criteria, p: Product)
    ensures p in Filter(items, c) <==>
      p in Filter(items, OnlyQuery(c)) && p in Filter(items, OnlySize(c)) && p in Filter(items, OnlyColor(c))
  {
    FilterMembers(items, c);
    FilterMembers(items, OnlyQuery(c));
    FilterMembers(items, OnlySize(c));
    FilterMembers(items, OnlyColor(c));
  }

  /** Filtering a one-product catalog keeps it exactly when it passes. */
  lemma FilterSingle(p: Product, c: Criteria)
    ensures Filter([p], c) == if Passes(p, c) then [p] else []
  {
  }

  /** The sample name, lower-cased. */
  lemma AriaGownLowerName()
    ensures Lower(AriaGown().name) == "aria gown"
  {
  }

  /** The query matches regardless of its case. */
  lemma AriaGownQueryScenario()
    ensures Filter([AriaGown()], Criteria("aria", "", "")) == [AriaGown()]
    ensures Filter([AriaGown()], Criteria("ARIA", "", "")) == [AriaGown()]
  {
    var p := AriaGown();
    FilterSingle(p, Criteria("aria", "", ""));
    FilterSingle(p, Criteria("ARIA", "", ""));
    AriaGownLowerName();
    assert Lower("ARIA") == "aria";
    assert Lower("aria") == "aria";
    assert "aria gown"[..4] == "aria";
  }

  /** A query that occurs nowhere in the name empties the list. */
  lemma AriaGownNoMatchScenario()
    ensures Filter([AriaGown()], Criteria("zeta", "", "")) == []
  {
    FilterSingle(AriaGown(), Criteria("zeta", "", ""));
    AriaGownNotZeta();
  }

  lemma AriaGownNotZeta()
    ensures !MatchesQuery(AriaGown(), "zeta")
  {
    AriaGownLowerName();
    assert Lower("zeta") == "zeta";
    FirstLetterAbsent("aria gown", "zeta");
  }

  /** A size listed only with zero stock does not match, a stocked one does,
      and the colour test is case-sensitive. */
  lemma AriaGownSizeColorScenario()
    ensures Filter([AriaGown()], Criteria("", "M", "")) == []
    ensures Filter([AriaGown()], Criteria("", "S", "")) == [AriaGown()]
    ensures Filter([AriaGown()], Criteria("", "", "red")) == [AriaGown()]
    ensures Filter([AriaGown()], Criteria("", "", "Red")) == []
  {
  }
}
