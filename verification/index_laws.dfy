/**
 * Properties of the batch indexer's specification: the count it returns,
 * what the store gains, and which rows are fetched (backend/embeddings.py:73-174).
 */
module IndexLaws {
  import opened Values
  import opened IndexSpec

  // ------------------------------------------------------- reading the log

  /** The fetches in a log, in order. */
  function Fetches(log: seq<Event>): seq<Event>
  {
    if log == [] then []
    else (if log[0].Fetch? then [log[0]] else []) + Fetches(log[1..])
  }

  /** The sum of `len(ids)` over the `add` calls that succeeded. */
  function AddedCount(log: seq<Event>): nat
  {
    if log == [] then 0
    else (if log[0].Add? && log[0].ok then |log[0].ids| else 0) + AddedCount(log[1..])
  }

  lemma {:induction false} FetchesAppend(a: seq<Event>, b: seq<Event>)
    ensures Fetches(a + b) == Fetches(a) + Fetches(b)
  {
    if a == [] {
      assert a + b == b;
    } else {
      assert (a + b)[0] == a[0];
      assert (a + b)[1..] == a[1..] + b;
      FetchesAppend(a[1..], b);
    }
  }

  lemma {:induction false} AddedAppend(a: seq<Event>, b: seq<Event>)
    ensures AddedCount(a + b) == AddedCount(a) + AddedCount(b)
  {
    if a == [] {
      assert a + b == b;
    } else {
      assert (a + b)[0] == a[0];
      assert (a + b)[1..] == a[1..] + b;
      AddedAppend(a[1..], b);
    }
  }

  /** A log of fetches only reads back as itself. */
  lemma {:induction false} OnlyFetches(log: seq<Event>)
    requires forall i :: 0 <= i < |log| ==> log[i].Fetch?
    ensures Fetches(log) == log && AddedCount(log) == 0
  {
    if log != [] {
      OnlyFetches(log[1..]);
    }
  }

  // ------------------------------------------------- rows and concatenation

  lemma {:induction false} EligibleAppend(a: seq<Record>, b: seq<Record>)
    requires IdsReadable(a) && IdsReadable(b)
    ensures IdsReadable(a + b)
    ensures EligibleCount(a + b) == EligibleCount(a) + EligibleCount(b)
    ensures EligibleIds(a + b) == EligibleIds(a) + EligibleIds(b)
    ensures FetchPlan(a + b) == FetchPlan(a) + FetchPlan(b)
    decreases |b|
  {
    if b == [] {
      assert a + b == a;
    } else {
      var b0 := b[..|b| - 1];
      assert (a + b)[..|a + b| - 1] == a + b0;
      assert (a + b)[|a + b| - 1] == b[|b| - 1];
      EligibleAppend(a, b0);
    }
  }

  lemma {:induction false} FlattenReadable(bs: seq<seq<Record>>)
    requires AllReadable(bs)
    ensures IdsReadable(Flatten(bs))
  {
    if bs != [] {
      FlattenReadable(bs[1..]);
    }
  }

  /** The fetches made loading a batch are exactly one per eligible row, in order. */
  lemma {:induction false} LoadFetchesEligible(rows: seq<Record>, fetch: Value -> Fetched)
    requires IdsReadable(rows)
    ensures LoadRows(rows, fetch).log == FetchPlan(rows)
    ensures forall i :: 0 <= i < |FetchPlan(rows)| ==> FetchPlan(rows)[i].Fetch?
  {
    if rows != [] {
      LoadFetchesEligible(rows[..|rows| - 1], fetch);
    }
  }

  /** If every eligible row's image loads, every eligible row is kept. */
  lemma {:induction false} LoadKeepsAll(rows: seq<Record>, fetch: Value -> Fetched)
    requires IdsReadable(rows)
    requires forall i :: 0 <= i < |rows| && Eligible(rows[i]) ==> Loads(fetch(PhotoUrl(rows[i])))
    ensures |LoadRows(rows, fetch).ids| == EligibleCount(rows)
  {
    if rows != [] {
      LoadKeepsAll(rows[..|rows| - 1], fetch);
    }
  }

  // ------------------------------------------------------ one batch, the loop

  /** The calls one batch adds to the log: its fetches, then at most one encode and one add. */
  lemma BatchLog(rows: seq<Record>, fetch: Value -> Fetched, encodes: seq<Image> -> bool,
                 adds: seq<string> -> bool, st: Progress)
    requires IdsReadable(rows)
    ensures var l := LoadRows(rows, fetch);
      var st1 := AfterBatch(l, encodes, adds, st);
      && st.log <= st1.log
      && Fetches(st1.log) == Fetches(st.log) + FetchPlan(rows)
      && st1.count == st.count + AddedCount(st1.log) - AddedCount(st.log)
      && (l.images == [] ==> st1.log == st.log + l.log)
  {
    var l := LoadRows(rows, fetch);
    var st1 := AfterBatch(l, encodes, adds, st);
    LoadFetchesEligible(rows, fetch);
    OnlyFetches(l.log);
    var tail: seq<Event> :=
      if l.images == [] then []
      else if !encodes(l.images) then [Encode(l.images, false)]
      else if !adds(l.ids) then [Encode(l.images, true), Add(l.ids, false)]
      else [Encode(l.images, true), Add(l.ids, true)];
    assert st1.log == st.log + l.log + tail;
    if l.images == [] {
      assert Fetches(tail) == [] && AddedCount(tail) == 0;
    } else if !encodes(l.images) {
      assert tail[1..] == [];
      assert Fetches(tail) == [] && AddedCount(tail) == 0 == st1.count - st.count;
    } else {
      assert tail[1..][1..] == [];
      assert Fetches(tail[1..]) == [];
      assert AddedCount(tail) == AddedCount(tail[1..]) == (if adds(l.ids) then |l.ids| else 0);
      assert Fetches(tail) == [] && AddedCount(tail) == st1.count - st.count;
    }
    FetchesAppend(st.log + l.log, tail);
    FetchesAppend(st.log, l.log);
    AddedAppend(st.log + l.log, tail);
    AddedAppend(st.log, l.log);
  }

  /**
   * The batch loop: the count grows by the sum of the successful adds' id
   * lists; the fetches are one per eligible row of the batches, in order.
   */
  lemma {:induction false} IndexLog(bs: seq<seq<Record>>, fetch: Value -> Fetched, encodes: seq<Image> -> bool,
                                    adds: seq<string> -> bool, st: Progress)
    requires AllReadable(bs)
    ensures IdsReadable(Flatten(bs))
    ensures var r := Index(bs, fetch, encodes, adds, st);
      && st.log <= r.log
      && Fetches(r.log) == Fetches(st.log) + FetchPlan(Flatten(bs))
      && r.count == st.count + AddedCount(r.log) - AddedCount(st.log)
  {
    FlattenReadable(bs);
    if bs != [] {
      var st1 := AfterBatch(LoadRows(bs[0], fetch), encodes, adds, st);
      BatchLog(bs[0], fetch, encodes, adds, st);
      IndexLog(bs[1..], fetch, encodes, adds, st1);
      EligibleAppend(bs[0], Flatten(bs[1..]));
      assert Index(bs, fetch, encodes, adds, st) == Index(bs[1..], fetch, encodes, adds, st1);
      assert FetchPlan(Flatten(bs)) == FetchPlan(bs[0]) + FetchPlan(Flatten(bs[1..]));
    }
  }

  /** The count never exceeds the number of eligible rows. */
  lemma {:induction false} IndexCountBound(bs: seq<seq<Record>>, fetch: Value -> Fetched, encodes: seq<Image> -> bool,
                                           adds: seq<string> -> bool, st: Progress)
    requires AllReadable(bs)
    ensures IdsReadable(Flatten(bs))
    ensures Index(bs, fetch, encodes, adds, st).count <= st.count + EligibleCount(Flatten(bs))
  {
    FlattenReadable(bs);
    if bs != [] {
      var st1 := AfterBatch(LoadRows(bs[0], fetch), encodes, adds, st);
      IndexCountBound(bs[1..], fetch, encodes, adds, st1);
      EligibleAppend(bs[0], Flatten(bs[1..]));
    }
  }

  /** When every image loads and every encode and add succeeds, every eligible row is counted. */
  lemma {:induction false} IndexCountsAll(bs: seq<seq<Record>>, fetch: Value -> Fetched, encodes: seq<Image> -> bool,
                                          adds: seq<string> -> bool, st: Progress)
    requires AllReadable(bs)
    requires forall k, i :: 0 <= k < |bs| && 0 <= i < |bs[k]| && Eligible(bs[k][i]) ==> Loads(fetch(PhotoUrl(bs[k][i])))
    requires forall x :: encodes(x)
    requires forall x :: adds(x)
    ensures IdsReadable(Flatten(bs))
    ensures Index(bs, fetch, encodes, adds, st).count == st.count + EligibleCount(Flatten(bs))
  {
    FlattenReadable(bs);
    if bs != [] {
      LoadKeepsAll(bs[0], fetch);
      var st1 := AfterBatch(LoadRows(bs[0], fetch), encodes, adds, st);
      IndexCountsAll(bs[1..], fetch, encodes, adds, st1);
      EligibleAppend(bs[0], Flatten(bs[1..]));
    }
  }

  /** One batch keeps every stored entry and stores only ids of its eligible rows. */
  lemma AfterBatchStore(rows: seq<Record>, fetch: Value -> Fetched, encodes: seq<Image> -> bool,
                        adds: seq<string> -> bool, st: Progress)
    requires IdsReadable(rows)
    ensures var st1 := AfterBatch(LoadRows(rows, fetch), encodes, adds, st);
      && (forall id :: id in st.store ==> id in st1.store && st1.store[id] == st.store[id])
      && st1.store.Keys <= st.store.Keys + EligibleIds(rows)
  {
  }

  /** The store keeps every entry it had and gains only ids of eligible rows. */
  lemma {:induction false} IndexStore(bs: seq<seq<Record>>, fetch: Value -> Fetched, encodes: seq<Image> -> bool,
                                      adds: seq<string> -> bool, st: Progress)
    requires AllReadable(bs)
    ensures IdsReadable(Flatten(bs))
    ensures var r := Index(bs, fetch, encodes, adds, st);
      && (forall id :: id in st.store ==> id in r.store && r.store[id] == st.store[id])
      && r.store.Keys <= st.store.Keys + EligibleIds(Flatten(bs))
  {
    FlattenReadable(bs);
    if bs != [] {
      var st1 := AfterBatch(LoadRows(bs[0], fetch), encodes, adds, st);
      AfterBatchStore(bs[0], fetch, encodes, adds, st);
      IndexStore(bs[1..], fetch, encodes, adds, st1);
      EligibleAppend(bs[0], Flatten(bs[1..]));
      assert EligibleIds(Flatten(bs)) == EligibleIds(bs[0]) + EligibleIds(Flatten(bs[1..]));
    }
  }
}
