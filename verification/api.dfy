/**
 * The HTTP API in front of the embedder (backend/app.py): the API key read
 * from the environment and sanitised, the key check every route depends on,
 * the global embedder set up at startup, and the health, stats and search
 * handlers. Every handler wraps its body in a catch-all that turns any
 * exception, its own HTTP errors included, into status 500.
 */
module Api {
  import opened Wrappers
  import opened Values
  import opened Text
  import opened IndexSpec
  import opened Embeddings

  // ------------------------------------------------------------- the API key

  const DefaultApiKey: string := "dev-secret-key"

  /** `raw.strip().strip('"').strip("'")`. */
  function SanitizeApiKey(raw: string): (k: string)
    ensures |k| <= |raw|
    ensures k != [] ==> k[0] != '\'' && k[|k| - 1] != '\''
  {
    Strip(Strip(Strip(raw, Whitespace), {'"'}), {'\''})
  }

  /** The sanitised key is a contiguous piece of the raw value. */
  lemma SanitizedIsSlice(raw: string)
    ensures IsSlice(SanitizeApiKey(raw), raw)
  {
    var a := Strip(raw, Whitespace);
    var b := Strip(a, {'"'});
    var c := Strip(b, {'\''});
    StripIsSlice(raw, Whitespace);
    StripIsSlice(a, {'"'});
    StripIsSlice(b, {'\''});
    SliceOfSlice(c, b, a);
    SliceOfSlice(c, a, raw);
  }

  /** `API_KEY`: the environment's value, or the development default, sanitised. */
  function ApiKey(env: Option<string>): (k: string)
    ensures env.None? ==> k == DefaultApiKey
    ensures env.Some? ==> IsSlice(k, env.value)
  {
    var raw := if env.Some? then env.value else DefaultApiKey;
    SanitizedIsSlice(raw);
    DefaultKeyIsClean();
    SanitizeApiKey(raw)
  }

  /** A key that starts and ends with neither whitespace nor a quote is left as it is. */
  lemma CleanKeyKept(s: string)
    requires s != [] && s[0] !in Whitespace + {'"', '\''} && s[|s| - 1] !in Whitespace + {'"', '\''}
    ensures SanitizeApiKey(s) == s
  {
    StripKeeps(s, Whitespace);
    StripKeeps(s, {'"'});
    StripKeeps(s, {'\''});
  }

  /** The development default needs no sanitising. */
  lemma DefaultKeyIsClean()
    ensures SanitizeApiKey(DefaultApiKey) == DefaultApiKey
  {
    var d := DefaultApiKey;
    assert d[0] == 'd' && d[|d| - 1] == 'y';
    CleanKeyKept(d);
  }

  /** The value `'"k"'`: single quotes around double quotes around `k`. */
  const NestedQuotes: string := "'\"k\"'"

  lemma NestedQuotesStripWhitespace()
    ensures Strip(NestedQuotes, Whitespace) == NestedQuotes
  {
    assert NestedQuotes[0] !in Whitespace;
    assert NestedQuotes[4] !in Whitespace;
  }

  lemma NestedQuotesStripDouble()
    ensures Strip(NestedQuotes, {'"'}) == NestedQuotes
  {
  }

  lemma NestedQuotesStripSingle()
    ensures Strip(NestedQuotes, {'\''}) == "\"k\""
  {
    assert NestedQuotes == ['\''] + InnerQuoted + ['\''];
    assert InnerQuoted[0] == '"' && InnerQuoted[2] == '"';
    StripAround(InnerQuoted, '\'');
  }

  /** The value `"k"`: the key in double quotes. */
  const InnerQuoted: string := "\"k\""

  /** Quotes nested the other way round survive: `'"k"'` loses only its single quotes. */
  lemma SanitizeKeepsInnerQuotes()
    ensures SanitizeApiKey(NestedQuotes) == InnerQuoted
  {
    NestedQuotesStripWhitespace();
    NestedQuotesStripDouble();
    NestedQuotesStripSingle();
  }

  lemma InnerQuotedStripWhitespace()
    ensures Strip(InnerQuoted, Whitespace) == InnerQuoted
  {
    assert InnerQuoted[0] !in Whitespace;
    assert InnerQuoted[2] !in Whitespace;
  }

  lemma InnerQuotedStripDouble()
    ensures Strip(InnerQuoted, {'"'}) == "k"
  {
    assert LStrip(InnerQuoted, {'"'}) == "k\"" by {
      assert InnerQuoted[1..] == "k\"";
    }
    assert RStrip("k\"", {'"'}) == "k" by {
      assert "k\""[..1] == "k";
    }
  }

  lemma BareKeyStripSingle()
    ensures Strip("k", {'\''}) == "k"
  {
  }

  /** A second pass removes the double quotes too. */
  lemma SanitizeInnerQuoted()
    ensures SanitizeApiKey(InnerQuoted) == "k"
  {
    InnerQuotedStripWhitespace();
    InnerQuotedStripDouble();
    BareKeyStripSingle();
  }

  /** Hence sanitising is not idempotent. */
  lemma SanitizeNotIdempotent()
    ensures SanitizeApiKey(SanitizeApiKey(NestedQuotes)) == "k" != SanitizeApiKey(NestedQuotes)
  {
    SanitizeKeepsInnerQuotes();
    SanitizeInnerQuoted();
    assert |InnerQuoted| == 3;
  }

  // ------------------------------------------------------------ the key check

  /** Why a request failed; the detail text is not modelled. */
  datatype Reason = MissingKey | InvalidKey | NotInitialized | EmptyQuery | Internal

  datatype HttpError = HttpError(status: int, reason: Reason)

  /** The `x-api-key` header as the dependency sees it: absent and empty both read as `None`. */
  function HeaderValue(header: Option<string>): (v: Option<string>)
    ensures v.None? <==> header.None? || header.value == ""
    ensures v.Some? ==> v == header && v.value != ""
  {
    if header.Some? && header.value != "" then header else None
  }

  /** `verify_api_key`. */
  function VerifyApiKey(header: Option<string>, apiKey: string): (r: Result<(), HttpError>)
    ensures r.Ok? <==> HeaderValue(header) == Some(apiKey)
    ensures HeaderValue(header).None? ==> r == Err(HttpError(401, MissingKey))
    ensures HeaderValue(header).Some? && HeaderValue(header).value != apiKey ==> r == Err(HttpError(401, InvalidKey))
  {
    var v := HeaderValue(header);
    if v.None? then Err(HttpError(401, MissingKey))
    else if v.value != apiKey then Err(HttpError(401, InvalidKey))
    else Ok(())
  }

  /** An empty key locks every request out: no header reads as the empty string. */
  lemma EmptyKeyLocksOut(header: Option<string>)
    ensures VerifyApiKey(header, "").Err?
  {
  }

  // --------------------------------------------------- what the handlers see

  /** The global `embedder` as the handlers read it. */
  datatype Backend = NoEmbedder | Embedder(modelReady: bool, collectionReady: bool, items: nat)

  predicate Ready(b: Backend)
  {
    b.Embedder? && b.modelReady && b.collectionReady
  }

  datatype Health = Unhealthy(reason: Reason) | Healthy(modelLoaded: bool, databaseConnected: bool, totalItems: nat)

  /** `health_check`; `countFails` is whether `collection.count()` raises. */
  function HealthCheck(b: Backend, countFails: bool): (h: Health)
    ensures h.Healthy? <==> Ready(b) && !countFails
    ensures h.Healthy? ==> h.modelLoaded && h.databaseConnected && h.totalItems == b.items
  {
    if !Ready(b) then Unhealthy(NotInitialized)
    else if countFails then Unhealthy(Internal)
    else Healthy(true, true, b.items)
  }

  datatype Stats = Stats(totalItems: nat, collectionName: string)

  /** `get_stats` as written: the 503 raised inside the `try` comes out as 500. */
  function GetStats(b: Backend, countFails: bool): (r: Result<Stats, HttpError>)
    ensures r.Ok? <==> b.Embedder? && b.collectionReady && !countFails
    ensures r.Ok? ==> r.value.totalItems == b.items
    ensures r.Err? ==> r.error.status == 500
  {
    if b.NoEmbedder? || !b.collectionReady then Err(HttpError(500, NotInitialized))
    else if countFails then Err(HttpError(500, Internal))
    else Ok(Stats(b.items, "vinted_dresses_db"))
  }

  /** `get_stats` as its `raise HTTPException(503)` means it: an uninitialised store answers 503. */
  function IntendedGetStats(b: Backend, countFails: bool): (r: Result<Stats, HttpError>)
    ensures b.NoEmbedder? || !b.collectionReady ==> r == Err(HttpError(503, NotInitialized))
    ensures b.Embedder? && b.collectionReady ==> r == GetStats(b, countFails)
  {
    if b.NoEmbedder? || !b.collectionReady then Err(HttpError(503, NotInitialized))
    else GetStats(b, countFails)
  }

  /** As written, no stats request is ever answered with 503. */
  lemma StatsNever503(b: Backend, countFails: bool)
    ensures GetStats(b, countFails).Err? ==> GetStats(b, countFails).error.status != 503
    ensures (b.NoEmbedder? || !b.collectionReady) ==> GetStats(b, countFails) == Err(HttpError(500, NotInitialized))
  {
  }

  // ----------------------------------------------------------------- search

  datatype SearchResult = SearchResult(
    id: string, title: Value, price: Value, currency: Value, url: Value, imageUrl: Value, similarity: real)

  datatype SearchResponse = SearchResponse(results: seq<SearchResult>, totalFound: nat)

  /**
   * One response entry from one `search_similar` result. Every result dict
   * carries all seven keys, so the handler's own defaults never apply and
   * each field is passed on as it is.
   */
  function ToResult(h: Hit): SearchResult
  {
    SearchResult(h.id, h.title, h.price, h.currency, h.url, h.imageUrl, h.similarity)
  }

  function Respond(hits: seq<Hit>): (r: SearchResponse)
    ensures |r.results| == |hits| && r.totalFound == |r.results|
    ensures forall i :: 0 <= i < |hits| ==> r.results[i].id == hits[i].id && r.results[i].similarity == hits[i].similarity
    ensures forall i :: 0 <= i < |hits| ==> var e := r.results[i];
      && e.title == hits[i].title && e.price == hits[i].price && e.currency == hits[i].currency
      && e.url == hits[i].url && e.imageUrl == hits[i].imageUrl
  {
    SearchResponse(seq(|hits|, i requires 0 <= i < |hits| => ToResult(hits[i])), |hits|)
  }

  /**
   * `search_items` as written, given what `search_similar` would answer:
   * the 503 and 400 raised inside the `try` come out as 500.
   */
  function SearchItems(b: Backend, query: string, answer: Result<seq<Hit>, Failure>): (r: Result<SearchResponse, HttpError>)
    ensures !Ready(b) ==> r == Err(HttpError(500, NotInitialized))
    ensures Ready(b) && IsBlank(query) ==> r == Err(HttpError(500, EmptyQuery))
    ensures r.Ok? <==> Ready(b) && !IsBlank(query) && answer.Ok?
    ensures r.Err? ==> r.error.status == 500
    ensures r.Ok? ==> r.value.totalFound == |r.value.results| == |answer.value|
    ensures r.Ok? ==> forall i :: 0 <= i < |answer.value| ==> r.value.results[i].id == answer.value[i].id
    ensures r.Ok? ==> r.value == Respond(answer.value)
  {
    if !Ready(b) then Err(HttpError(500, NotInitialized))
    else if IsBlank(query) then Err(HttpError(500, EmptyQuery))
    else if answer.Err? then Err(HttpError(500, Internal))
    else Ok(Respond(answer.value))
  }

  /** `search_items` with its client errors let through: 503 before initialisation, 400 for a blank query. */
  function IntendedSearchItems(b: Backend, query: string, answer: Result<seq<Hit>, Failure>): (r: Result<SearchResponse, HttpError>)
    ensures !Ready(b) ==> r == Err(HttpError(503, NotInitialized))
    ensures Ready(b) && IsBlank(query) ==> r == Err(HttpError(400, EmptyQuery))
    ensures Ready(b) && !IsBlank(query) ==> r == SearchItems(b, query, answer)
  {
    if !Ready(b) then Err(HttpError(503, NotInitialized))
    else if IsBlank(query) then Err(HttpError(400, EmptyQuery))
    else SearchItems(b, query, answer)
  }

  /** As written, a client never sees 503 or 400 from a search. */
  lemma SearchMasksClientErrors(b: Backend, query: string, answer: Result<seq<Hit>, Failure>)
    ensures SearchItems(b, query, answer).Err? ==> SearchItems(b, query, answer).error.status !in {400, 503}
    ensures SearchItems(NoEmbedder, "dress", answer) == Err(HttpError(500, NotInitialized))
    ensures SearchItems(Embedder(true, true, 0), " ", answer) == Err(HttpError(500, EmptyQuery))
  {
  }

  // -------------------------------------------------------------- the server

  class Server {
    /** The global `embedder`, `None` until startup. */
    var embedder: ImageEmbedder?

    constructor()
      ensures embedder == null
    {
      embedder := null;
    }

    function Backend(): (b: Backend)
      reads this, embedder
      ensures b.NoEmbedder? <==> embedder == null
      ensures b.Embedder? ==> Ready(b) == embedder.Ready() && b.items == |embedder.store|
    {
      if embedder == null then NoEmbedder
      else Embedder(embedder.modelReady, embedder.collectionReady, |embedder.store|)
    }

    /**
     * `startup_event`: the global is bound to a new embedder before it is
     * initialised, so a failed startup leaves it bound. `counts` is whether
     * the collection's `count()` inside `initialize_database` succeeds,
     * `recounts` whether the one for the ready message does; when only a
     * count raises, the embedder is left ready although startup failed.
     */
    method Startup(persisted: map<string, Metadata>, loads: bool, opens: bool, counts: bool, recounts: bool)
      returns (r: Result<(), Failure>)
      modifies this
      ensures embedder != null && fresh(embedder)
      ensures Backend() == Embedder(loads, loads && opens, |persisted|)
      ensures r.Ok? <==> loads && opens && counts && recounts
    {
      embedder := new ImageEmbedder(persisted);
      var m := embedder.InitializeModel(loads);
      if m.Err? {
        return Err(m.error);
      }
      r := embedder.InitializeDatabase(opens, counts);
      if r.Ok? && !recounts {
        r := Err(Raised);
      }
    }

    /** A search request against the current embedder. */
    function Search(query: string, topK: int, nearest: (string, int) -> Option<Answer>): (r: Result<SearchResponse, HttpError>)
      reads this, embedder
      ensures r.Ok? <==> embedder != null && embedder.Ready() && !IsBlank(query) && nearest(query, topK).Some?
      ensures r.Err? ==> r.error.status == 500
      ensures r.Ok? ==> r.value.totalFound <= |nearest(query, topK).value.ids|
      ensures r.Ok? ==>
        var a := nearest(query, topK).value;
        r == Ok(Respond(if a.ids == [] then [] else Hits(a)))
    {
      var answer := if embedder == null then Err(RuntimeError) else embedder.SearchSimilar(query, topK, nearest);
      SearchItems(Backend(), query, answer)
    }
  }
}
