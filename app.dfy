/** The page's root component `App`: the loaded catalog, the filter state of
    `useFilters`, the booking modal and the catalog-load notice. */
module Shop {
  import opened Catalog
  import opened Filters
  import opened Facets

  /** What `res.json()` produced: an array of products or anything else. */
  datatype CatalogJson = JsonArray(products: seq<Product>) | JsonOther

  /** How the catalog request settled. `LoadFailed` stands for every path into
      the `catch`: a rejected `fetch`, a response that is not ok, or a body
      that does not parse as JSON. */
  datatype LoadResult = Loaded(data: CatalogJson) | LoadFailed

  const FallbackNotice: string :=
    "Using fallback catalog. Upload /public/catalog.json to control inventory."

  /** The catalog section: a loading placeholder, or the grid of filtered
      products with the "no dresses match" notice when it is empty. */
  datatype CatalogView = LoadingPlaceholder | Grid(shown: seq<Product>, noMatches: bool)

  /** The booking modal as rendered: hidden, or open with the subject
      product's name when a card opened it. */
  datatype ModalView = Hidden | Open(forProduct: Option<string>)

  class App {
    var items: seq<Product>
    var modalOpen: bool
    var selected: Option<Product>
    var error: string
    var loading: bool
    // the state cells of `useFilters`
    var q: string
    var size: string
    var color: string

    constructor ()
      ensures items == [] && !modalOpen && selected == None && error == "" && loading
      ensures q == "" && size == "" && color == ""
    {
      items, modalOpen, selected, error, loading := [], false, None, "", true;
      q, size, color := "", "", "";
    }

    /** The three filter cells as the criteria `useFilters` applies. */
    function CurrentCriteria(): Criteria
      reads this
    {
      Criteria(q, size, color)
    }

    /** `filtered`: a subsequence of the catalog holding exactly the
        catalog's products that pass the current criteria. */
    function Filtered(): (r: seq<Product>)
      reads this
      ensures IsSubsequence(r, items)
      ensures forall p :: p in r <==> p in items && Passes(p, CurrentCriteria())
      ensures forall p :: multiset(r)[p] == if Passes(p, CurrentCriteria()) then multiset(items)[p] else 0
      ensures q == "" && size == "" && color == "" ==> r == items
    {
      FilterSubsequence(items, CurrentCriteria());
      FilterMembers(items, CurrentCriteria());
      FilterCount(items, CurrentCriteria());
      FilterNoCriteria(items);
      Filter(items, CurrentCriteria())
    }

    /** The options of the size selector: each label of the catalog once. */
    function SizeOptions(): (r: seq<string>)
      reads this
      ensures NoDuplicates(r)
      ensures forall l :: l in r <==> exists p, s :: p in items && s in SizesOf(p) && s.sizeLabel == l
      ensures forall i, j :: 0 <= i < j < |r| ==>
        r[i] in SizeLabels(items) && r[j] in SizeLabels(items) &&
        FirstIndex(SizeLabels(items), r[i]) < FirstIndex(SizeLabels(items), r[j])
    {
      AllSizesFacet(items);
      AllSizes(items)
    }

    /** The options of the colour selector: each colour of the catalog once. */
    function ColorOptions(): (r: seq<string>)
      reads this
      ensures NoDuplicates(r)
      ensures forall c :: c in r <==> exists p :: p in items && c in ColorsOf(p)
      ensures forall i, j :: 0 <= i < j < |r| ==>
        r[i] in ColorValues(items) && r[j] in ColorValues(items) &&
        FirstIndex(ColorValues(items), r[i]) < FirstIndex(ColorValues(items), r[j])
    {
      AllColorsFacet(items);
      AllColors(items)
    }

    /** The catalog section: the placeholder while loading; afterwards the
        filtered products, with the "no dresses match" notice exactly when
        none passes. */
    function CatalogSection(): (v: CatalogView)
      reads this
      ensures v.LoadingPlaceholder? <==> loading
      ensures v.Grid? ==> IsSubsequence(v.shown, items) && v.shown == Filtered()
      ensures v.Grid? ==> (v.noMatches <==> forall p :: p in items ==> !Passes(p, CurrentCriteria()))
    {
      if loading then LoadingPlaceholder
      else
        var shown := Filtered();
        assert |shown| > 0 ==> shown[0] in shown;
        Grid(shown, |shown| == 0)
    }

    /** The booking modal: rendered only while open, naming the product a
        card selected and no product after "Book now". */
    function Modal(): (v: ModalView)
      reads this
      ensures v.Hidden? <==> !modalOpen
      ensures v.Open? ==> (v.forProduct.Some? <==> selected.Some?)
      ensures v.Open? && selected.Some? ==> v.forProduct == Some(selected.value.name)
    {
      if !modalOpen then Hidden
      else match selected
        case None => Open(None)
        case Some(p) => Open(Some(p.name))
    }

    /** The catalog request settling: an array becomes the catalog, any other
        JSON becomes the empty catalog, and a failure gives the empty catalog
        and the fallback notice. `loading` ends false on every path. */
    method FinishLoad(result: LoadResult)
      modifies this
      ensures !loading
      ensures result == LoadFailed ==> items == [] && error == FallbackNotice
      ensures result == Loaded(JsonOther) ==> items == [] && error == old(error)
      ensures result.Loaded? && result.data.JsonArray? ==>
        items == result.data.products && error == old(error)
      ensures modalOpen == old(modalOpen) && selected == old(selected)
      ensures q == old(q) && size == old(size) && color == old(color)
    {
      match result {
        case LoadFailed =>
          error := FallbackNotice;
          items := [];
        case Loaded(data) =>
          items := if data.JsonArray? then data.products else [];
      }
      loading := false;
    }

    /** The header's "Book now": a booking for no particular product. */
    method BookNow()
      modifies this
      ensures modalOpen && selected == None
      ensures items == old(items) && error == old(error) && loading == old(loading)
      ensures q == old(q) && size == old(size) && color == old(color)
    {
      selected := None;
      modalOpen := true;
    }

    /** The hero's "Book a fitting": opens the modal and keeps whatever
        product was selected before. */
    method BookFromHero()
      modifies this
      ensures modalOpen && selected == old(selected)
      ensures items == old(items) && error == old(error) && loading == old(loading)
      ensures q == old(q) && size == old(size) && color == old(color)
    {
      modalOpen := true;
    }

    /** A product card's "Book a fitting": a booking for that product. */
    method BookProduct(p: Product)
      modifies this
      ensures modalOpen && selected == Some(p)
      ensures items == old(items) && error == old(error) && loading == old(loading)
      ensures q == old(q) && size == old(size) && color == old(color)
    {
      selected := Some(p);
      modalOpen := true;
    }

    /** The modal's "Close": hides it and keeps the selection. */
    method CloseModal()
      modifies this
      ensures !modalOpen && selected == old(selected)
      ensures items == old(items) && error == old(error) && loading == old(loading)
      ensures q == old(q) && size == old(size) && color == old(color)
    {
      modalOpen := false;
    }

    /** The search box, the size selector and the colour selector. */
    method SetQuery(value: string)
      modifies this
      ensures q == value && size == old(size) && color == old(color)
      ensures items == old(items) && error == old(error) && loading == old(loading)
      ensures modalOpen == old(modalOpen) && selected == old(selected)
    {
      q := value;
    }

    method SetSize(value: string)
      modifies this
      ensures size == value && q == old(q) && color == old(color)
      ensures items == old(items) && error == old(error) && loading == old(loading)
      ensures modalOpen == old(modalOpen) && selected == old(selected)
    {
      size := value;
    }

    method SetColor(value: string)
      modifies this
      ensures color == value && q == old(q) && size == old(size)
      ensures items == old(items) && error == old(error) && loading == old(loading)
      ensures modalOpen == old(modalOpen) && selected == old(selected)
    {
      color := value;
    }
  }

  /** A visit: the catalog arrives, a card opens the booking modal for its
      product, the modal is closed and "Book now" reopens it for no product. */
  method BookingScenario(catalog: seq<Product>, p: Product)
    returns (during: ModalView, afterClose: ModalView, generic: ModalView, loading: bool)
    requires p in catalog
    ensures during == Open(Some(p.name))
    ensures afterClose == Hidden
    ensures generic == Open(None)
    ensures !loading
  {
    var app := new App();
    app.FinishLoad(Loaded(JsonArray(catalog)));
    assert p in app.Filtered();
    app.BookProduct(p);
    during := app.Modal();
    app.CloseModal();
    afterClose := app.Modal();
    app.BookNow();
    generic := app.Modal();
    loading := app.loading;
  }
}
