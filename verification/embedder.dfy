/**
 * The image embedder: a CLIP model and a vector-store collection that may or
 * may not be initialised, and the store's contents (backend/embeddings.py:28-261).
 * Loading the model, opening the store, fetching an image, encoding and
 * adding to the store, and the store's nearest-neighbour query are oracles.
 */
module Embeddings {
  import opened Wrappers
  import opened Values
  import opened IndexSpec
  import opened IndexLaws
  import opened Frames

  /** The exceptions the embedder raises: its own RuntimeError, `range`'s ValueError, or one passed on from an oracle. */
  datatype Failure = RuntimeError | ValueError | Raised

  /** The store's answer to one nearest-neighbour query: ids, distances and metadata dicts, best first. */
  datatype Answer = Answer(ids: seq<string>, distances: seq<real>, metadatas: seq<Record>)

  /** One search result. */
  datatype Hit = Hit(id: string, title: Value, price: Value, currency: Value, url: Value, imageUrl: Value, similarity: real)

  /** Cosine distance to similarity: `1 - d`, clamped to 0 beyond distance 1. */
  function Similarity(d: real): (s: real)
    ensures 0.0 <= d ==> 0.0 <= s <= 1.0
    ensures d <= 1.0 ==> d + s == 1.0
    ensures 1.0 < d ==> s == 0.0
  {
    if d <= 1.0 then 1.0 - d else 0.0
  }

  /** A nearer item is never less similar. */
  lemma SimilarityAntitone(d1: real, d2: real)
    requires d1 <= d2
    ensures Similarity(d2) <= Similarity(d1)
  {
  }

  function Min3(a: nat, b: nat, c: nat): (m: nat)
    ensures m <= a && m <= b && m <= c && (m == a || m == b || m == c)
  {
    if a <= b && a <= c then a else if b <= c then b else c
  }

  /** One result dict: the id, the metadata fields with their defaults, and the similarity. */
  function HitOf(id: string, d: real, meta: Record): Hit
  {
    Hit(id, Get(meta, "title", Str("")), Get(meta, "price", Null), Get(meta, "currency", Str("EUR")),
        Get(meta, "url", Str("")), Get(meta, "image_url", Str("")), Similarity(d))
  }

  /** `zip(ids, distances, metadatas)` mapped to results: one per id, in the store's order. */
  function Hits(a: Answer): (r: seq<Hit>)
    ensures |r| == Min3(|a.ids|, |a.distances|, |a.metadatas|)
    ensures |a.distances| == |a.ids| == |a.metadatas| ==> |r| == |a.ids|
    ensures forall i :: 0 <= i < |r| ==> r[i].id == a.ids[i]
    ensures forall i :: 0 <= i < |r| ==> 0.0 <= a.distances[i] ==> 0.0 <= r[i].similarity <= 1.0
    ensures forall i :: 0 <= i < |r| && "title" !in a.metadatas[i] ==> r[i].title == Str("")
    ensures forall i :: 0 <= i < |r| && "currency" !in a.metadatas[i] ==> r[i].currency == Str("EUR")
    ensures forall i :: 0 <= i < |r| && "url" !in a.metadatas[i] ==> r[i].url == Str("")
    ensures forall i :: 0 <= i < |r| && "image_url" !in a.metadatas[i] ==> r[i].imageUrl == Str("")
    ensures forall i :: 0 <= i < |r| && "price" !in a.metadatas[i] ==> r[i].price == Null
    ensures forall i :: 0 <= i < |r| ==> r[i].similarity == Similarity(a.distances[i])
    ensures forall i :: 0 <= i < |r| ==> var m := a.metadatas[i];
      && ("title" in m ==> r[i].title == m["title"]) && ("price" in m ==> r[i].price == m["price"])
      && ("currency" in m ==> r[i].currency == m["currency"]) && ("url" in m ==> r[i].url == m["url"])
      && ("image_url" in m ==> r[i].imageUrl == m["image_url"])
  {
    var n := Min3(|a.ids|, |a.distances|, |a.metadatas|);
    seq(n, i requires 0 <= i < n => HitOf(a.ids[i], a.distances[i], a.metadatas[i]))
  }

  /** Results come best first: distances in ascending order give similarities in descending order. */
  lemma HitsRanked(a: Answer)
    requires forall i, j :: 0 <= i < j < |a.distances| ==> a.distances[i] <= a.distances[j]
    ensures forall i, j :: 0 <= i < j < |Hits(a)| ==> Hits(a)[j].similarity <= Hits(a)[i].similarity
  {
    var r := Hits(a);
    forall i, j | 0 <= i < j < |r|
      ensures r[j].similarity <= r[i].similarity
    {
      SimilarityAntitone(a.distances[i], a.distances[j]);
    }
  }

  /** Loading one batch's images: the eligible rows are fetched in order and the ones that load are kept. */
  method LoadBatch(batch: seq<Record>, fetch: Value -> Fetched)
    returns (ids: seq<string>, metas: seq<Metadata>, images: seq<Image>, fetched: seq<Event>)
    requires IdsReadable(batch)
    ensures Loaded(ids, metas, images, fetched) == LoadRows(batch, fetch)
  {
    ids, metas, images, fetched := [], [], [], [];
    var j := 0;
    while j < |batch|
      invariant 0 <= j <= |batch|
      invariant Loaded(ids, metas, images, fetched) == LoadRows(batch[..j], fetch)
    {
      var row := batch[j];
      assert batch[..j + 1][..j] == batch[..j];
      assert batch[..j + 1][j] == row;
      if Eligible(row) {
        var url := PhotoUrl(row);
        var f := fetch(url);
        fetched := fetched + [Fetch(url)];
        if Loads(f) {
          ids := ids + [IdText(row)];
          metas := metas + [MetadataOf(row)];
          images := images + [f.image.value];
        }
      }
      j := j + 1;
    }
    assert batch[..|batch|] == batch;
  }

  /** The batch loop from `start` on is one batch, `[start, min(start + size, n))`, followed by the loop from `start + size`. */
  lemma IndexStep(rows: seq<Record>, start: nat, size: nat, fetch: Value -> Fetched,
                  encodes: seq<Image> -> bool, adds: seq<string> -> bool, st: Progress)
    requires size > 0 && start < |rows| && IdsReadable(rows)
    ensures var stop := if start + size < |rows| then start + size else |rows|;
      && IdsReadable(rows[start..stop])
      && AllReadable(BatchesFrom(rows, start + size, size))
      && Index(BatchesFrom(rows, start, size), fetch, encodes, adds, st)
         == Index(BatchesFrom(rows, start + size, size), fetch, encodes, adds,
                  AfterBatch(LoadRows(rows[start..stop], fetch), encodes, adds, st))
  {
    var bs := BatchesFrom(rows, start, size);
    assert bs[0] == rows[start..if start + size < |rows| then start + size else |rows|];
    assert bs[1..] == BatchesFrom(rows, start + size, size);
  }

  class ImageEmbedder {
    /** `self.model is not None`. */
    var modelReady: bool
    /** `self.collection is not None`. */
    var collectionReady: bool
    /** The collection's contents: id to stored metadata. */
    var store: map<string, Metadata>

    /** A fresh embedder over a collection that already holds `persisted`; nothing is loaded yet. */
    constructor(persisted: map<string, Metadata>)
      ensures !modelReady && !collectionReady && store == persisted
    {
      modelReady := false;
      collectionReady := false;
      store := persisted;
    }

    predicate Ready()
      reads this
    {
      modelReady && collectionReady
    }

    /** Loading the local CLIP model: on failure the exception propagates and nothing changes. */
    method InitializeModel(loads: bool) returns (r: Result<(), Failure>)
      modifies this
      ensures r.Ok? <==> loads
      ensures r.Err? ==> r.error == Raised
      ensures modelReady == (old(modelReady) || loads)
      ensures collectionReady == old(collectionReady) && store == old(store)
    {
      if !loads {
        return Err(Raised);
      }
      modelReady := true;
      r := Ok(());
    }

    /**
     * Opening the collection, then counting its items for the log. `opens`
     * is whether binding the client and the collection succeeds, `counts`
     * whether the `count()` after it does. If opening raises nothing
     * changes; if only the count raises, the collection stays bound and the
     * exception still propagates.
     */
    method InitializeDatabase(opens: bool, counts: bool) returns (r: Result<(), Failure>)
      modifies this
      ensures r.Ok? <==> opens && counts
      ensures r.Err? ==> r.error == Raised
      ensures collectionReady == (old(collectionReady) || opens)
      ensures modelReady == old(modelReady) && store == old(store)
    {
      if !opens {
        return Err(Raised);
      }
      collectionReady := true;
      if !counts {
        return Err(Raised);
      }
      r := Ok(());
    }

    /**
     * `process_batch_embeddings`: cut the rows into batches of `batchSize`,
     * load each batch's eligible images, and encode and add each batch that
     * has any. Returns the number of ids added and the calls made.
     */
    method ProcessBatchEmbeddings(rows: seq<Record>, batchSize: int, fetch: Value -> Fetched,
                                  encodes: seq<Image> -> bool, adds: seq<string> -> bool)
      returns (r: Result<nat, Failure>, log: seq<Event>)
      requires IdsReadable(rows)
      modifies this
      ensures modelReady == old(modelReady) && collectionReady == old(collectionReady)
      ensures !Ready() ==> r == Err(RuntimeError) && log == [] && store == old(store)
      ensures Ready() && batchSize == 0 ==> r == Err(ValueError) && log == [] && store == old(store)
      ensures Ready() && batchSize != 0 ==>
        var p := Index(Batches(rows, batchSize), fetch, encodes, adds, Progress(0, old(store), []));
        r == Ok(p.count) && log == p.log && store == p.store
    {
      if !(modelReady && collectionReady) {
        return Err(RuntimeError), [];
      }
      if batchSize == 0 {
        return Err(ValueError), [];
      }
      var count: nat := 0;
      log := [];
      if batchSize > 0 {
        ghost var total := Index(Batches(rows, batchSize), fetch, encodes, adds, Progress(0, store, []));
        var start := 0;
        while start < |rows|
          invariant AllReadable(BatchesFrom(rows, start, batchSize))
          invariant Index(BatchesFrom(rows, start, batchSize), fetch, encodes, adds, Progress(count, store, log)) == total
          invariant modelReady == old(modelReady) && collectionReady == old(collectionReady)
          decreases |rows| - start
        {
          var stop := if start + batchSize < |rows| then start + batchSize else |rows|;
          var batch := rows[start..stop];
          IndexStep(rows, start, batchSize, fetch, encodes, adds, Progress(count, store, log));
          count, log := IndexBatch(batch, fetch, encodes, adds, count, log);
          start := start + batchSize;
        }
      }
      r := Ok(count);
    }

    /**
     * One pass of the batch loop: load the batch's images, and if any
     * loaded, encode them and add them to the store, counting the ids added.
     * A failed encode or add skips the batch.
     */
    method IndexBatch(batch: seq<Record>, fetch: Value -> Fetched, encodes: seq<Image> -> bool,
                      adds: seq<string> -> bool, count: nat, log: seq<Event>)
      returns (count': nat, log': seq<Event>)
      requires IdsReadable(batch)
      modifies this
      ensures modelReady == old(modelReady) && collectionReady == old(collectionReady)
      ensures Progress(count', store, log') == AfterBatch(LoadRows(batch, fetch), encodes, adds, Progress(count, old(store), log))
    {
      var ids, metas, images, fetched := LoadBatch(batch, fetch);
      count', log' := count, log + fetched;
      if images != [] {
        if !encodes(images) {
          log' := log' + [Encode(images, false)];
        } else if !adds(ids) {
          log' := log' + [Encode(images, true), Add(ids, false)];
        } else {
          store := Insert(store, ids, metas);
          count' := count' + |ids|;
          log' := log' + [Encode(images, true), Add(ids, true)];
        }
      }
    }

    /**
     * `embedd_data`: initialise, clean the table, and index it unless every
     * id is already stored. When some id is new, the whole cleaned table is
     * indexed, stored ids included. `counts` is whether the collection's
     * `count()` succeeds while opening it, `recounts` whether the final
     * `count()` for the log does; when only the latter raises, the batches
     * are already stored but the exception replaces the count.
     */
    method EmbeddData(rows: seq<Record>, loads: bool, opens: bool, counts: bool, listFails: bool, recounts: bool,
                      fetch: Value -> Fetched, encodes: seq<Image> -> bool, adds: seq<string> -> bool)
      returns (r: Result<nat, Failure>, log: seq<Event>)
      requires IdsReadable(rows)
      modifies this
      ensures !loads ==>
        (r == Err(Raised) && log == [] && store == old(store)
         && modelReady == old(modelReady) && collectionReady == old(collectionReady))
      ensures loads && !(opens && counts) ==>
        (r == Err(Raised) && log == [] && store == old(store)
         && modelReady && collectionReady == (old(collectionReady) || opens))
      ensures loads && opens && counts ==>
        (Ready() && IdsReadable(Frame(rows)) &&
         var existing := if listFails then {} else old(store).Keys;
         if NewRows(Frame(rows), existing) == [] then r == Ok(0) && log == [] && store == old(store)
         else
           var p := Index(Batches(Frame(rows), 6), fetch, encodes, adds, Progress(0, old(store), []));
           r == (if recounts then Ok(p.count) else Err(Raised)) && log == p.log && store == p.store)
    {
      var m := InitializeModel(loads);
      if m.Err? {
        return Err(Raised), [];
      }
      var d := InitializeDatabase(opens, counts);
      if d.Err? {
        return Err(Raised), [];
      }
      FrameReadable(rows);
      var frame := Frame(rows);
      var existing := if listFails then {} else store.Keys;
      if NewRows(frame, existing) == [] {
        return Ok(0), [];
      }
      r, log := ProcessBatchEmbeddings(frame, 6, fetch, encodes, adds);
      if !recounts {
        r := Err(Raised);
      }
    }

    /**
     * `search_similar`: refused before initialisation; otherwise the store's
     * answer to the encoded query (`None` when encoding or the query raises)
     * mapped to results.
     */
    function SearchSimilar(query: string, topK: int, nearest: (string, int) -> Option<Answer>): (r: Result<seq<Hit>, Failure>)
      reads this
      ensures !Ready() ==> r == Err(RuntimeError)
      ensures Ready() && nearest(query, topK).None? ==> r == Err(Raised)
      ensures Ready() && nearest(query, topK).Some? ==> r.Ok? && |r.value| <= |nearest(query, topK).value.ids|
      ensures r.Ok? ==> forall i :: 0 <= i < |r.value| ==> r.value[i].id == nearest(query, topK).value.ids[i]
      ensures Ready() && nearest(query, topK).Some? ==>
        var a := nearest(query, topK).value;
        r == Ok(if a.ids == [] then [] else Hits(a))
    {
      if !(modelReady && collectionReady) then Err(RuntimeError)
      else
        match nearest(query, topK)
        case None => Err(Raised)
        case Some(a) => Ok(if a.ids == [] then [] else Hits(a))
    }
  }

  /**
   * The indexing quirk: when `embedd_data` indexes at all, it fetches every
   * eligible row of the cleaned table, so a stored eligible row is fetched
   * again and more rows are fetched than the new rows alone would need.
   */
  lemma EmbeddReprocessesAll(rows: seq<Record>, existing: set<string>, fetch: Value -> Fetched,
                             encodes: seq<Image> -> bool, adds: seq<string> -> bool, store: map<string, Metadata>)
    requires IdsReadable(rows)
    ensures IdsReadable(Frame(rows))
    ensures var f := Frame(rows);
      var p := Index(Batches(f, 6), fetch, encodes, adds, Progress(0, store, []));
      && AllReadable(Batches(f, 6))
      && Fetches(p.log) == FetchPlan(f)
      && |FetchPlan(NewRows(f, existing))| <= |FetchPlan(f)|
      && ((exists i :: 0 <= i < |f| && Eligible(f[i]) && IdText(f[i]) in existing) ==>
            |FetchPlan(NewRows(f, existing))| < |Fetches(p.log)|)
  {
    FrameReadable(rows);
    var f := Frame(rows);
    BatchesPartition(f, 0, 6);
    IndexLog(Batches(f, 6), fetch, encodes, adds, Progress(0, store, []));
    assert Fetches([]) == [];
    assert f[0..] == f;
    NewRowsFetchFewer(f, existing);
    LoadFetchesEligible(f, fetch);
    LoadFetchesEligible(NewRows(f, existing), fetch);
  }
}
