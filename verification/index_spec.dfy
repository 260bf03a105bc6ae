/**
 * What one run of the batch indexer does, stated as functions: which rows
 * are eligible, what loading one batch yields, how the rows are cut into
 * batches and what the store holds afterwards (backend/embeddings.py:73-174).
 * The image fetch, the CLIP encoder and the vector store's `add` are oracles.
 */
module IndexSpec {
  import opened Wrappers
  import opened Values
  import opened Text

  /** A decoded image, as far as the model needs one: an opaque token. */
  type Image = nat

  /** What fetching and decoding an image URL gave: an exception, or a status and maybe a decoded image. */
  datatype Fetched = FetchError | Got(status: int, image: Option<Image>)

  /** The metadata stored with an embedding. */
  datatype Metadata = Metadata(
    title: Value, price: Value, currency: Value, url: Value,
    imageUrl: Value, size: Value, brand: Value)

  /** The observable calls a run makes, in order. */
  datatype Event =
    | Fetch(url: Value)
    | Encode(images: seq<Image>, ok: bool)
    | Add(ids: seq<string>, ok: bool)

  /** Every row's `ID` cell is a scalar whose `str()` is spelled out. */
  predicate IdsReadable(rows: seq<Record>)
  {
    forall i :: 0 <= i < |rows| ==> HasText(Get(rows[i], "ID", Null))
  }

  function PhotoUrl(row: Record): Value
  {
    Get(row, "PHOTO_URL", Null)
  }

  /** `str(row.get("ID"))`. */
  function IdText(row: Record): string
    requires HasText(Get(row, "ID", Null))
  {
    PyStr(Get(row, "ID", Null))
  }

  /** A row is fetched only if its photo URL is truthy and not NaN and its id text is neither empty nor "nan". */
  predicate Eligible(row: Record)
    requires HasText(Get(row, "ID", Null))
  {
    var url := PhotoUrl(row);
    Truthy(url) && !IsNA(url) && IdText(row) != "" && IdText(row) != "nan"
  }

  /**
   * A row without a photo URL, or whose URL is None, NaN or empty or falsy,
   * or whose id text is empty or "nan", is never fetched; a row with a
   * non-empty string URL and any other id text always is.
   */
  lemma EligibleMeans(row: Record)
    requires HasText(Get(row, "ID", Null))
    ensures Eligible(row) ==>
      "PHOTO_URL" in row && row["PHOTO_URL"] !in {Null, NaN, Bool(false), Int(0), Real(0.0), Str("")}
    ensures Eligible(row) ==> IdText(row) != "" && IdText(row) != "nan"
    ensures ("PHOTO_URL" in row && row["PHOTO_URL"].Str? && row["PHOTO_URL"].s != ""
             && IdText(row) != "" && IdText(row) != "nan") ==> Eligible(row)
  {
  }

  /** A fetch that answered 200 and decoded. */
  predicate Loads(f: Fetched)
  {
    f.Got? && f.status == 200 && f.image.Some?
  }

  /** `row.get(column, default)` for the metadata, with the photo URL as the image URL. */
  function MetadataOf(row: Record): Metadata
  {
    Metadata(
      Get(row, "TITLE", Str("")), Get(row, "TOTAL_ITEM_PRICE_AMOUNT", Null),
      Get(row, "TOTAL_ITEM_PRICE_CURRENCY", Str("EUR")), Get(row, "URL", Str("")),
      PhotoUrl(row), Get(row, "SIZE", Str("")), Get(row, "BRAND", Str("")))
  }

  /** Each metadata field is the row's cell when the column is present, and its default otherwise. */
  lemma MetadataFields(row: Record)
    ensures var m := MetadataOf(row);
      m.imageUrl == PhotoUrl(row)
      && ("TITLE" in row ==> m.title == row["TITLE"]) && ("TITLE" !in row ==> m.title == Str(""))
      && ("TOTAL_ITEM_PRICE_AMOUNT" in row ==> m.price == row["TOTAL_ITEM_PRICE_AMOUNT"])
      && ("TOTAL_ITEM_PRICE_AMOUNT" !in row ==> m.price == Null)
      && ("TOTAL_ITEM_PRICE_CURRENCY" in row ==> m.currency == row["TOTAL_ITEM_PRICE_CURRENCY"])
      && ("TOTAL_ITEM_PRICE_CURRENCY" !in row ==> m.currency == Str("EUR"))
      && ("URL" in row ==> m.url == row["URL"]) && ("URL" !in row ==> m.url == Str(""))
      && ("SIZE" in row ==> m.size == row["SIZE"]) && ("SIZE" !in row ==> m.size == Str(""))
      && ("BRAND" in row ==> m.brand == row["BRAND"]) && ("BRAND" !in row ==> m.brand == Str(""))
  {
  }

  /** Number of eligible rows. */
  function EligibleCount(rows: seq<Record>): (n: nat)
    requires IdsReadable(rows)
    ensures n <= |rows|
  {
    if rows == [] then 0
    else EligibleCount(rows[..|rows| - 1]) + (if Eligible(rows[|rows| - 1]) then 1 else 0)
  }

  /** The ids of the eligible rows. */
  function EligibleIds(rows: seq<Record>): set<string>
    requires IdsReadable(rows)
  {
    if rows == [] then {}
    else EligibleIds(rows[..|rows| - 1]) + (if Eligible(rows[|rows| - 1]) then {IdText(rows[|rows| - 1])} else {})
  }

  /** One fetch per eligible row, in row order. */
  function FetchPlan(rows: seq<Record>): seq<Event>
    requires IdsReadable(rows)
  {
    if rows == [] then []
    else FetchPlan(rows[..|rows| - 1]) + (if Eligible(rows[|rows| - 1]) then [Fetch(PhotoUrl(rows[|rows| - 1]))] else [])
  }

  /** The rows that are eligible and whose image loads, in row order. */
  function Kept(rows: seq<Record>, fetch: Value -> Fetched): (k: seq<Record>)
    requires IdsReadable(rows)
    ensures IdsReadable(k) && |k| <= |rows|
  {
    if rows == [] then []
    else
      var prefix := rows[..|rows| - 1];
      var row := rows[|rows| - 1];
      assert forall i :: 0 <= i < |prefix| ==> prefix[i] == rows[i];
      Kept(prefix, fetch) + (if Eligible(row) && Loads(fetch(PhotoUrl(row))) then [row] else [])
  }

  /** A row is kept exactly when it is eligible and its image loads. */
  lemma {:induction false} KeptMembers(rows: seq<Record>, fetch: Value -> Fetched)
    requires IdsReadable(rows)
    ensures var k := Kept(rows, fetch);
      && (forall j :: 0 <= j < |k| ==> k[j] in rows && Eligible(k[j]) && Loads(fetch(PhotoUrl(k[j]))))
      && (forall i :: 0 <= i < |rows| && Eligible(rows[i]) && Loads(fetch(PhotoUrl(rows[i]))) ==> rows[i] in k)
  {
    if rows != [] {
      var prefix := rows[..|rows| - 1];
      assert forall i :: 0 <= i < |prefix| ==> prefix[i] == rows[i];
      KeptMembers(prefix, fetch);
      assert rows == prefix + [rows[|rows| - 1]];
    }
  }

  /** Keeping commutes with concatenation. */
  lemma {:induction false} KeptAppend(a: seq<Record>, b: seq<Record>, fetch: Value -> Fetched)
    requires IdsReadable(a) && IdsReadable(b)
    ensures IdsReadable(a + b) && Kept(a + b, fetch) == Kept(a, fetch) + Kept(b, fetch)
    decreases |b|
  {
    ReadableAppend(a, b);
    if b == [] {
      assert a + b == a;
    } else {
      var ab := a + b;
      var b' := b[..|b| - 1];
      var last := b[|b| - 1];
      assert ab[..|ab| - 1] == a + b';
      assert ab[|ab| - 1] == last;
      assert IdsReadable(b') by {
        assert forall i :: 0 <= i < |b'| ==> b'[i] == b[i];
      }
      KeptAppend(a, b', fetch);
      var t := if Eligible(last) && Loads(fetch(PhotoUrl(last))) then [last] else [];
      assert Kept(ab, fetch) == Kept(a + b', fetch) + t;
      assert Kept(b, fetch) == Kept(b', fetch) + t;
    }
  }

  lemma ReadableAppend(a: seq<Record>, b: seq<Record>)
    requires IdsReadable(a) && IdsReadable(b)
    ensures IdsReadable(a + b)
  {
    assert forall i :: 0 <= i < |b| ==> (a + b)[|a| + i] == b[i];
  }

  /**
   * `Kept` is the order-preserving filter of the rows that are eligible and
   * load: each row is kept or dropped on its own, in place.
   */
  lemma KeptFilters(a: seq<Record>, row: Record, b: seq<Record>, fetch: Value -> Fetched)
    requires IdsReadable(a) && HasText(Get(row, "ID", Null)) && IdsReadable(b)
    ensures IdsReadable(a + [row] + b)
    ensures Kept(a + [row] + b, fetch)
            == Kept(a, fetch) + (if Eligible(row) && Loads(fetch(PhotoUrl(row))) then [row] else []) + Kept(b, fetch)
  {
    assert IdsReadable([row]);
    KeptAppend(a, [row], fetch);
    KeptAppend(a + [row], b, fetch);
    assert [row][..0] == [];
  }

  /** The per-batch lists `ids`, `metadatas` and `images`, and the fetches made filling them. */
  datatype Loaded = Loaded(ids: seq<string>, metas: seq<Metadata>, images: seq<Image>, log: seq<Event>)

  /** Loading the rows of one batch, one row after another. */
  function LoadRows(rows: seq<Record>, fetch: Value -> Fetched): (l: Loaded)
    requires IdsReadable(rows)
    ensures |l.ids| == |l.metas| == |l.images| <= |l.log| == EligibleCount(rows)
    ensures forall k :: 0 <= k < |l.ids| ==> l.ids[k] in EligibleIds(rows)
  {
    if rows == [] then Loaded([], [], [], [])
    else
      var l := LoadRows(rows[..|rows| - 1], fetch);
      var row := rows[|rows| - 1];
      if !Eligible(row) then l
      else
        var url := PhotoUrl(row);
        var f := fetch(url);
        if Loads(f) then Loaded(l.ids + [IdText(row)], l.metas + [MetadataOf(row)], l.images + [f.image.value], l.log + [Fetch(url)])
        else l.(log := l.log + [Fetch(url)])
  }

  /**
   * The lists hold exactly the kept rows, in row order: row `j` of them
   * gives `ids[j]`, `metas[j]`, and the image its fetch decoded.
   */
  lemma {:induction false} LoadRowsKept(rows: seq<Record>, fetch: Value -> Fetched)
    requires IdsReadable(rows)
    ensures var l := LoadRows(rows, fetch); var k := Kept(rows, fetch);
      && |l.ids| == |k|
      && forall j :: 0 <= j < |k| ==>
           && l.ids[j] == IdText(k[j]) && l.metas[j] == MetadataOf(k[j])
           && fetch(PhotoUrl(k[j])) == Got(200, Some(l.images[j]))
  {
    if rows != [] {
      LoadRowsKept(rows[..|rows| - 1], fetch);
    }
  }

  /** No earlier position of `ids` holds `ids[k]`. */
  predicate FirstAt(ids: seq<string>, k: int)
    requires 0 <= k < |ids|
  {
    forall j :: 0 <= j < k ==> ids[j] != ids[k]
  }

  /**
   * Storing a batch: each id not yet present gets the metadata of its first
   * occurrence; ids already present keep theirs.
   */
  function Insert(store: map<string, Metadata>, ids: seq<string>, metas: seq<Metadata>): (s: map<string, Metadata>)
    requires |ids| == |metas|
    ensures s.Keys == store.Keys + set id | id in ids
    ensures forall id :: id in store ==> s[id] == store[id]
  {
    if ids == [] then store
    else
      var s := Insert(store, ids[..|ids| - 1], metas[..|metas| - 1]);
      var id := ids[|ids| - 1];
      assert ids == ids[..|ids| - 1] + [id];
      if id in s then s else s[id := metas[|metas| - 1]]
  }

  /** A new id is stored with the metadata at its first position in the batch. */
  lemma {:induction false} InsertKeepsFirst(store: map<string, Metadata>, ids: seq<string>, metas: seq<Metadata>)
    requires |ids| == |metas|
    ensures forall k :: 0 <= k < |ids| && ids[k] !in store && FirstAt(ids, k) ==>
      Insert(store, ids, metas)[ids[k]] == metas[k]
  {
    if ids != [] {
      var n := |ids| - 1;
      var prefix := ids[..n];
      InsertKeepsFirst(store, prefix, metas[..n]);
      var s0 := Insert(store, prefix, metas[..n]);
      forall k | 0 <= k < |ids| && ids[k] !in store && FirstAt(ids, k)
        ensures Insert(store, ids, metas)[ids[k]] == metas[k]
      {
        if k < n {
          assert prefix[k] == ids[k];
          assert FirstAt(prefix, k) by {
            forall j | 0 <= j < k ensures prefix[j] != prefix[k] {
              assert prefix[j] == ids[j];
            }
          }
          assert ids[k] in s0;
        } else {
          assert ids[n] !in prefix by {
            forall j | 0 <= j < n ensures prefix[j] != ids[n] {
              assert prefix[j] == ids[j];
            }
          }
          assert ids[n] !in s0;
        }
      }
    }
  }

  /** The indexer's running state: the count returned, the store and the calls made. */
  datatype Progress = Progress(count: nat, store: map<string, Metadata>, log: seq<Event>)

  /** One batch: load its rows; skip it if no image loaded; else encode, add and count. */
  function AfterBatch(l: Loaded, encodes: seq<Image> -> bool, adds: seq<string> -> bool, st: Progress): Progress
    requires |l.ids| == |l.metas|
  {
    var log := st.log + l.log;
    if l.images == [] then st.(log := log)
    else if !encodes(l.images) then st.(log := log + [Encode(l.images, false)])
    else if !adds(l.ids) then st.(log := log + [Encode(l.images, true), Add(l.ids, false)])
    else Progress(st.count + |l.ids|, Insert(st.store, l.ids, l.metas), log + [Encode(l.images, true), Add(l.ids, true)])
  }

  /**
   * A batch counts its ids and stores them only when some image loaded and
   * both the encode and the add succeeded; the calls it makes are its
   * fetches, then the encode if any image loaded, then the add if the
   * encode succeeded.
   */
  lemma AfterBatchEffect(l: Loaded, encodes: seq<Image> -> bool, adds: seq<string> -> bool, st: Progress)
    requires |l.ids| == |l.metas|
    ensures var r := AfterBatch(l, encodes, adds, st);
      var added := l.images != [] && encodes(l.images) && adds(l.ids);
      && r.count == st.count + (if added then |l.ids| else 0)
      && (added ==> r.store.Keys == st.store.Keys + (set id | id in l.ids))
      && (!added ==> r.store == st.store)
      && r.log == st.log + l.log
         + (if l.images == [] then [] else [Encode(l.images, encodes(l.images))])
         + (if l.images == [] || !encodes(l.images) then [] else [Add(l.ids, adds(l.ids))])
  {
  }

  /** The batches `range(start, n, size)` visits: rows `[s, min(s + size, n))` for each start `s`. */
  function BatchesFrom(rows: seq<Record>, start: nat, size: nat): (bs: seq<seq<Record>>)
    requires size > 0
    ensures IdsReadable(rows) ==> AllReadable(bs)
    decreases |rows| - start
  {
    if start >= |rows| then []
    else
      var stop := if start + size < |rows| then start + size else |rows|;
      assert forall k :: 0 <= k < stop - start ==> rows[start..stop][k] == rows[start + k];
      [rows[start..stop]] + BatchesFrom(rows, start + size, size)
  }

  /** `range(0, n, size)`: no batch at all when the size is negative. */
  function Batches(rows: seq<Record>, size: int): (bs: seq<seq<Record>>)
    requires size != 0
    ensures IdsReadable(rows) ==> AllReadable(bs)
  {
    if size < 0 then [] else BatchesFrom(rows, 0, size)
  }

  function Flatten(bs: seq<seq<Record>>): seq<Record>
  {
    if bs == [] then [] else bs[0] + Flatten(bs[1..])
  }

  predicate AllReadable(bs: seq<seq<Record>>)
  {
    forall k :: 0 <= k < |bs| ==> IdsReadable(bs[k])
  }

  /** The batch loop from a given state on. */
  function Index(bs: seq<seq<Record>>, fetch: Value -> Fetched, encodes: seq<Image> -> bool,
                 adds: seq<string> -> bool, st: Progress): Progress
    requires AllReadable(bs)
  {
    if bs == [] then st
    else Index(bs[1..], fetch, encodes, adds, AfterBatch(LoadRows(bs[0], fetch), encodes, adds, st))
  }

  // ------------------------------------------------------------- batches

  /** The batches are consecutive, non-empty, at most `size` long, and together are the rows from `start` on. */
  lemma {:induction false} BatchesPartition(rows: seq<Record>, start: nat, size: nat)
    requires size > 0 && start <= |rows|
    ensures Flatten(BatchesFrom(rows, start, size)) == rows[start..]
    ensures forall k :: 0 <= k < |BatchesFrom(rows, start, size)| ==>
      0 < |BatchesFrom(rows, start, size)[k]| <= size
    decreases |rows| - start
  {
    var bs := BatchesFrom(rows, start, size);
    if start < |rows| {
      var stop := if start + size < |rows| then start + size else |rows|;
      BatchesPartition(rows, stop, size);
      assert BatchesFrom(rows, start + size, size) == BatchesFrom(rows, stop, size);
      assert bs[1..] == BatchesFrom(rows, stop, size);
      assert rows[start..] == rows[start..stop] + rows[stop..];
    }
  }

  /** Batch `k` counted from `start` covers rows `[start + k·size, min(start + (k+1)·size, n))`. */
  lemma {:induction false} BatchAt(rows: seq<Record>, start: nat, size: nat, k: nat)
    requires size > 0 && k < |BatchesFrom(rows, start, size)|
    ensures start + k * size < |rows|
    ensures var stop := if start + (k + 1) * size < |rows| then start + (k + 1) * size else |rows|;
      BatchesFrom(rows, start, size)[k] == rows[start + k * size..stop]
    decreases k
  {
    if k > 0 {
      BatchAt(rows, start + size, size, k - 1);
      assert start + size + (k - 1) * size == start + k * size;
      assert start + size + k * size == start + (k + 1) * size;
    }
  }

  /** Batch `k` of `range(0, n, size)` covers rows `[k·size, min((k+1)·size, n))`. */
  lemma BatchesCover(rows: seq<Record>, size: nat)
    requires size > 0
    ensures Flatten(Batches(rows, size)) == rows
    ensures forall k :: 0 <= k < |Batches(rows, size)| ==>
      k * size < |rows| &&
      Batches(rows, size)[k] == rows[k * size..if (k + 1) * size < |rows| then (k + 1) * size else |rows|]
  {
    BatchesPartition(rows, 0, size);
    forall k | 0 <= k < |Batches(rows, size)|
      ensures k * size < |rows|
      ensures Batches(rows, size)[k] == rows[k * size..if (k + 1) * size < |rows| then (k + 1) * size else |rows|]
    {
      BatchAt(rows, 0, size, k);
    }
  }
}
