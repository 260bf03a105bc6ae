/**
 * Query parameters of the marketplace catalogue API (backend/scraper.py):
 * `norm_list`, which flattens a filter argument to the comma-joined form the
 * API expects, and the assembly of the base and per-page parameter dicts.
 */
module ScraperParams {
  import opened Wrappers
  import opened Text

  /** An element of a filter list: Python's `str(x)` renders it. */
  datatype Scalar = SInt(i: int) | SStr(s: string)

  /** A filter argument: None, a string, an int, or an iterable of scalars. */
  datatype Filter = Absent | Literal(s: string) | Number(n: int) | Several(xs: seq<Scalar>)

  function ScalarText(x: Scalar): string
  {
    match x
    case SInt(i) => IntToString(i)
    case SStr(s) => s
  }

  function Texts(xs: seq<Scalar>): (r: seq<string>)
    ensures |r| == |xs| && forall k :: 0 <= k < |xs| ==> r[k] == ScalarText(xs[k])
  {
    if xs == [] then [] else [ScalarText(xs[0])] + Texts(xs[1..])
  }

  /** `norm_list`: None stays None; anything else becomes one string. */
  function NormList(v: Filter): (r: Option<string>)
    ensures r.None? <==> v.Absent?
    ensures v.Literal? ==> r == Some(v.s)
  {
    match v
    case Absent => None
    case Literal(s) => Some(s)
    case Number(n) => Some(IntToString(n))
    case Several(xs) => Some(Join(Texts(xs)))
  }

  /**
   * The normalised form of a number or a non-empty list of numbers reads
   * back, through `split(",")` and `int()`, as exactly the ids given, in order.
   */
  lemma NormListRoundTrip(v: Filter)
    requires v.Number? || (v.Several? && v.xs != [] && forall k :: 0 <= k < |v.xs| ==> v.xs[k].SInt?)
    ensures var parts := Split(NormList(v).value);
      && |parts| == (if v.Number? then 1 else |v.xs|)
      && forall k :: 0 <= k < |parts| ==>
           ParseInt(parts[k]) == (if v.Number? then v.n else v.xs[k].i)
  {
    if v.Number? {
      SplitJoin([IntToString(v.n)]);
      IntRoundTrip(v.n);
    } else {
      var ts := Texts(v.xs);
      SplitJoin(ts);
      forall k | 0 <= k < |ts| ensures ParseInt(ts[k]) == v.xs[k].i {
        IntRoundTrip(v.xs[k].i);
      }
    }
  }

  /** A value in the request's query string. */
  datatype Param = PStr(s: string) | PInt(i: int) | PReal(r: real)

  /** The query-string keys the harvester sends; `Name` gives each one's spelling. */
  datatype Key =
    | Order | Page | PerPage | Time | CatalogId | SearchText
    | PriceFrom | PriceTo | BrandIds | SizeIds | ColorIds

  function Name(k: Key): string
  {
    match k
    case Order => "order"
    case Page => "page"
    case PerPage => "per_page"
    case Time => "time"
    case CatalogId => "catalog_id"
    case SearchText => "search_text"
    case PriceFrom => "price_from"
    case PriceTo => "price_to"
    case BrandIds => "brand_ids"
    case SizeIds => "size_ids"
    case ColorIds => "color_ids"
  }

  type Params = map<Key, Param>

  /** The optional filters of one harvest. */
  datatype Filters = Filters(
    searchText: Option<string>,
    priceFrom: Option<real>,
    priceTo: Option<real>,
    brandIds: Filter,
    sizeIds: Filter,
    colorIds: Filter)

  /** What the source puts under `k`, if anything. */
  function BaseEntry(k: Key, catalogId: Filter, perPage: int, now: int, f: Filters): Option<Param>
  {
    match k
    case Order => Some(PStr("newest_first"))
    case Page => Some(PInt(1))
    case PerPage => Some(PInt(perPage))
    case Time => Some(PInt(now))
    case CatalogId => if catalogId.Absent? then None else Some(PStr(NormList(catalogId).value))
    case SearchText =>
      if f.searchText.Some? && f.searchText.value != "" then Some(PStr(f.searchText.value)) else None
    case PriceFrom => if f.priceFrom.Some? then Some(PReal(f.priceFrom.value)) else None
    case PriceTo => if f.priceTo.Some? then Some(PReal(f.priceTo.value)) else None
    case BrandIds => if f.brandIds.Absent? then None else Some(PStr(NormList(f.brandIds).value))
    case SizeIds => if f.sizeIds.Absent? then None else Some(PStr(NormList(f.sizeIds).value))
    case ColorIds => if f.colorIds.Absent? then None else Some(PStr(NormList(f.colorIds).value))
  }

  const AllKeys: set<Key> := {
    Order, Page, PerPage, Time, CatalogId, SearchText, PriceFrom, PriceTo, BrandIds, SizeIds, ColorIds }

  /**
   * The parameters shared by every page request (`now` stands for
   * `int(time.time())`): the four fixed keys always, each filter key iff its
   * argument is not None, and `search_text` iff it is a non-empty string.
   */
  function BaseParams(catalogId: Filter, perPage: int, now: int, f: Filters): (p: Params)
    ensures Order in p && p[Order] == PStr("newest_first")
    ensures Page in p && p[Page] == PInt(1)
    ensures PerPage in p && p[PerPage] == PInt(perPage)
    ensures Time in p && p[Time] == PInt(now)
    ensures (CatalogId in p <==> !catalogId.Absent?) && (CatalogId in p ==> p[CatalogId] == PStr(NormList(catalogId).value))
    ensures (SearchText in p <==> f.searchText.Some? && f.searchText.value != "")
    ensures SearchText in p ==> p[SearchText] == PStr(f.searchText.value)
    ensures (PriceFrom in p <==> f.priceFrom.Some?) && (PriceFrom in p ==> p[PriceFrom] == PReal(f.priceFrom.value))
    ensures (PriceTo in p <==> f.priceTo.Some?) && (PriceTo in p ==> p[PriceTo] == PReal(f.priceTo.value))
    ensures (BrandIds in p <==> !f.brandIds.Absent?) && (BrandIds in p ==> p[BrandIds] == PStr(NormList(f.brandIds).value))
    ensures (SizeIds in p <==> !f.sizeIds.Absent?) && (SizeIds in p ==> p[SizeIds] == PStr(NormList(f.sizeIds).value))
    ensures (ColorIds in p <==> !f.colorIds.Absent?) && (ColorIds in p ==> p[ColorIds] == PStr(NormList(f.colorIds).value))
  {
    map k | k in AllKeys && BaseEntry(k, catalogId, perPage, now, f).Some? :: BaseEntry(k, catalogId, perPage, now, f).value
  }

  /** The request for page `page`: a copy of the base with only `page` replaced. */
  function PageParams(base: Params, page: int): (p: Params)
    ensures p.Keys == base.Keys + {Page} && p[Page] == PInt(page)
    ensures forall k :: k in base && k != Page ==> p[k] == base[k]
  {
    base[Page := PInt(page)]
  }
}
