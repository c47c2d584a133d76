/** The catalog's entities as the page receives them from `catalog.json`. */
module Catalog {

  /** A JSON field that may be absent. */
  datatype Option<+T> = None | Some(value: T)

  /** One entry of a product's `sizes` list (`sizeLabel` is the JSON field `label`, a reserved word here). `qty` is a JSON number; the page
      only ever compares it with 0, so it is modelled as an integer that may
      also be negative. */
  datatype Size = Size(sizeLabel: string, qty: int)

  /** A product. `sizes` and `colors` may be missing from the JSON, and a
      missing list behaves like an empty one (or a falsy test) at every use. */
  datatype Product = Product(
    id: string,
    name: string,
    sizes: Option<seq<Size>>,
    colors: Option<seq<string>>)

  /** `p.sizes || []` */
  function SizesOf(p: Product): seq<Size>
  {
    match p.sizes
    case Some(ss) => ss
    case None => []
  }

  /** `p.colors || []` */
  function ColorsOf(p: Product): seq<string>
  {
    match p.colors
    case Some(cs) => cs
    case None => []
  }

  /** A sample product: two sizes, one of them without stock, and one colour. */
  function AriaGown(): Product
  {
    Product("1", "Aria Gown", Some([Size("S", 2), Size("M", 0)]), Some(["red"]))
  }

  /** `xs` is obtained from `ys` by deleting elements, keeping the order of
      the rest. */
  predicate IsSubsequence<T(==)>(xs: seq<T>, ys: seq<T>)
    decreases |ys|
  {
    if xs == [] then true
    else if ys == [] then false
    else (xs[0] == ys[0] && IsSubsequence(xs[1..], ys[1..])) || IsSubsequence(xs, ys[1..])
  }
}
