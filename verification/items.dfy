/**
 * The projection of a listing, as the marketplace API returns it, onto the
 * twelve columns the rest of the backend stores (backend/scraper.py:272-314).
 */
module ItemFields {
  import opened Values

  /** The twelve output columns. */
  datatype Field =
    | Id | Title | Path | UserId | Url | PhotoUrl | Size
    | PriceAmount | PriceCurrency | Status | Brand | Description

  /** The column name a field is stored under. */
  function Column(f: Field): string
  {
    match f
    case Id => "ID"
    case Title => "TITLE"
    case Path => "PATH"
    case UserId => "USER_ID"
    case Url => "URL"
    case PhotoUrl => "PHOTO_URL"
    case Size => "SIZE"
    case PriceAmount => "TOTAL_ITEM_PRICE_AMOUNT"
    case PriceCurrency => "TOTAL_ITEM_PRICE_CURRENCY"
    case Status => "STATUS"
    case Brand => "BRAND"
    case Description => "DESCRIPTION"
  }

  /**
   * Where a column comes from in the listing: a top-level key, or a key of
   * one of the nested objects `user`, `photo`, `total_item_price`, `item_box`.
   */
  datatype Source = Top(key: string) | Nested(outer: string, inner: string)

  function SourceOf(f: Field): Source
  {
    match f
    case Id => Top("id")
    case Title => Top("title")
    case Path => Top("path")
    case UserId => Nested("user", "id")
    case Url => Top("url")
    case PhotoUrl => Nested("photo", "url")
    case Size => Top("size_title")
    case PriceAmount => Nested("total_item_price", "amount")
    case PriceCurrency => Nested("total_item_price", "currency_code")
    case Status => Top("status")
    case Brand => Nested("item_box", "first_line")
    case Description => Nested("item_box", "accessibility_label")
  }

  /** `d.get(key) or {}` is only usable when a truthy value there is an object. */
  predicate NestedOk(d: Record, key: string)
  {
    key !in d || !Truthy(d[key]) || d[key].Obj?
  }

  /** The listings the projection accepts: objects whose nested parts are objects or falsy. */
  predicate WellShaped(it: Value)
  {
    && it.Obj?
    && NestedOk(it.fields, "user")
    && NestedOk(it.fields, "photo")
    && NestedOk(it.fields, "total_item_price")
    && NestedOk(it.fields, "item_box")
  }

  /** `d.get(key) or {}`: a missing or falsy nested part reads as the empty object. */
  function Sub(d: Record, key: string): Record
    requires NestedOk(d, key)
  {
    if key in d && Truthy(d[key]) then d[key].fields else map[]
  }

  /** Reading the source path of a column from a listing, missing keys giving `None`. */
  function Lookup(it: Value, f: Field): Value
    requires WellShaped(it)
  {
    match SourceOf(f)
    case Top(k) => Get(it.fields, k, Null)
    case Nested(o, k) => Get(Sub(it.fields, o), k, Null)
  }

  /**
   * The record built for one listing. Its twelve columns are the twelve
   * fields of this datatype, so every record has exactly those keys.
   */
  datatype Minimal = Minimal(
    id: Value, title: Value, path: Value, userId: Value, url: Value, photoUrl: Value,
    size: Value, priceAmount: Value, priceCurrency: Value, status: Value, brand: Value,
    description: Value)

  /** The value stored under a column. */
  function Cell(m: Minimal, f: Field): Value
  {
    match f
    case Id => m.id
    case Title => m.title
    case Path => m.path
    case UserId => m.userId
    case Url => m.url
    case PhotoUrl => m.photoUrl
    case Size => m.size
    case PriceAmount => m.priceAmount
    case PriceCurrency => m.priceCurrency
    case Status => m.status
    case Brand => m.brand
    case Description => m.description
  }

  function MinimalItem(it: Value): (r: Minimal)
    requires WellShaped(it)
    ensures forall f: Field :: Cell(r, f) == Lookup(it, f)
    ensures forall f: Field :: SourceOf(f).Nested? && !Truthy(Get(it.fields, SourceOf(f).outer, Null)) ==> Cell(r, f) == Null
  {
    var d := it.fields;
    var user := Sub(d, "user");
    var photo := Sub(d, "photo");
    var tip := Sub(d, "total_item_price");
    var box := Sub(d, "item_box");
    Minimal(
      Get(d, "id", Null), Get(d, "title", Null), Get(d, "path", Null),
      Get(user, "id", Null), Get(d, "url", Null), Get(photo, "url", Null),
      Get(d, "size_title", Null), Get(tip, "amount", Null), Get(tip, "currency_code", Null),
      Get(d, "status", Null), Get(box, "first_line", Null), Get(box, "accessibility_label", Null))
  }

  /** The projection of every listing, in order. */
  function ExtractMinimalItemFields(items: seq<Value>): (r: seq<Minimal>)
    requires forall i :: 0 <= i < |items| ==> WellShaped(items[i])
    ensures |r| == |items|
    ensures forall i, f: Field :: 0 <= i < |items| ==> Cell(r[i], f) == Lookup(items[i], f)
  {
    if items == [] then []
    else ExtractMinimalItemFields(items[..|items| - 1]) + [MinimalItem(items[|items| - 1])]
  }

  /** Projecting a concatenation projects each part: pages may be projected one by one. */
  lemma {:induction false} ExtractAppend(a: seq<Value>, b: seq<Value>)
    requires forall i :: 0 <= i < |a| ==> WellShaped(a[i])
    requires forall i :: 0 <= i < |b| ==> WellShaped(b[i])
    ensures forall i :: 0 <= i < |a + b| ==> WellShaped((a + b)[i])
    ensures ExtractMinimalItemFields(a + b) == ExtractMinimalItemFields(a) + ExtractMinimalItemFields(b)
    decreases |b|
  {
    if b == [] {
      assert a + b == a;
    } else {
      var b0 := b[..|b| - 1];
      assert (a + b)[..|a + b| - 1] == a + b0;
      ExtractAppend(a, b0);
    }
  }
}
