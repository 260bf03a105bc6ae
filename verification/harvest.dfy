/**
 * `VintedScraper.fetch_vinted_items_fr` (backend/scraper.py): walk pages
 * 1..max_pages, each under a bounded retry loop that reacts to the response,
 * and accumulate the items of every page that parsed.
 *
 * The network is an oracle `respond` from the request (its running index, its
 * parameters and the session in use) to a response. Sleeps are recorded as
 * trace events: fixed backoffs in tenths of a second, random pauses as bare
 * events. A session is a number, replaced by the next one after each 403.
 */
module Scraper {
  import opened Values
  import opened ScraperParams

  /** What `resp.json()` gives: not JSON at all, or a body whose `items` list is `items`. */
  datatype Body = NotJson | Json(items: seq<Value>)

  /** `RequestFailed` is a `requests.RequestException` raised by `session.get`. */
  datatype Response = RequestFailed | Reply(status: int, body: Body)

  datatype Request = Request(index: nat, params: Params, session: nat)

  /** The branch of the retry loop a response takes, in the order backend/scraper.py tests them. */
  datatype Verdict =
    | Forbidden      // 403: new session, retry
    | TooMany        // 429: back off 5 + 3 * attempt seconds, retry
    | Unauthorized   // 401: give up, return what was collected
    | ServerError    // >= 500: back off 2 * attempt seconds, retry
    | BadJson        // body is not JSON: back off 2 * attempt seconds, retry
    | NetworkError   // RequestException: back off 1.5 * attempt seconds, retry
    | Success(items: seq<Value>)

  function Classify(r: Response): Verdict
  {
    match r
    case RequestFailed => NetworkError
    case Reply(status, body) =>
      if status == 403 then Forbidden
      else if status == 429 then TooMany
      else if status == 401 then Unauthorized
      else if status >= 500 then ServerError
      else if body.NotJson? then BadJson
      else Success(body.items)
  }

  /**
   * Each verdict stands for exactly the responses that reach its branch, so
   * the order of the tests only matters between 403, 429, 401 and 5xx,
   * which no status meets twice.
   */
  lemma ClassifyBranches(r: Response)
    ensures var v := Classify(r);
      && (v.NetworkError? <==> r.RequestFailed?)
      && (v.Forbidden? <==> r.Reply? && r.status == 403)
      && (v.TooMany? <==> r.Reply? && r.status == 429)
      && (v.Unauthorized? <==> r.Reply? && r.status == 401)
      && (v.ServerError? <==> r.Reply? && r.status >= 500)
      && (v.BadJson? <==> r.Reply? && r.status !in {401, 403, 429} && r.status < 500 && r.body.NotJson?)
      && (v.Success? <==> r.Reply? && r.status !in {401, 403, 429} && r.status < 500 && r.body.Json?)
      && (v.Success? ==> v.items == r.body.items)
  {
  }

  predicate BacksOff(v: Verdict)
  {
    v.TooMany? || v.ServerError? || v.BadJson? || v.NetworkError?
  }

  /** Backoff in tenths of a second after failed attempt number `attempt`. */
  function Backoff(v: Verdict, attempt: nat): (t: nat)
    requires BacksOff(v)
    ensures 15 * attempt <= t <= 50 + 30 * attempt
    ensures v.TooMany? ==> t >= 50
  {
    match v
    case TooMany => 50 + 30 * attempt
    case ServerError => 20 * attempt
    case BadJson => 20 * attempt
    case NetworkError => 15 * attempt
  }

  /** Every backoff grows strictly with the attempt number, and 429 waits longest. */
  lemma BackoffGrows(v: Verdict, a: nat, b: nat)
    requires BacksOff(v) && 1 <= a < b
    ensures Backoff(v, a) < Backoff(v, b)
    ensures Backoff(v, a) <= Backoff(TooMany, a)
  {
  }

  datatype Event =
    | Get(page: int, attempt: nat, session: nat, verdict: Verdict)  // one request and how its reply was classified
    | NewSession                                     // create_public_session_fr() after a 403
    | Jitter                                         // random 2-5 s sleep after a 403
    | Sleep(tenths: nat)                             // a fixed backoff
    | Fetched(page: int, items: seq<Value>)          // a page accepted
    | PolitePause                                    // random pause between pages

  /** The scraper's settings for one harvest, with the base parameters already built. */
  datatype Job = Job(maxPages: int, perPage: int, maxRetries: int, base: Params)

  /** The harvest cursor: items so far, the trace, requests issued, current session. */
  datatype Cursor = Cursor(collected: seq<Value>, trace: seq<Event>, requests: nat, session: nat)

  /** How one page's retry loop ended. */
  datatype PageEnd = Accepted(items: seq<Value>) | Exhausted | Blocked

  /** Why the harvest ended. */
  datatype Stop = Completed | Unauthorized401(page: int) | GaveUp(page: int)

  datatype Outcome = Outcome(cursor: Cursor, stop: Stop)

  /** The retry loop for page `p`, after `attempt` attempts. */
  function TryPage(job: Job, p: int, attempt: nat, c: Cursor, respond: Request -> Response): (Cursor, PageEnd)
    decreases if attempt < job.maxRetries then job.maxRetries - attempt else 0
  {
    if attempt >= job.maxRetries then (c, Exhausted)
    else
      var a := attempt + 1;
      var v := Classify(respond(Request(c.requests, PageParams(job.base, p), c.session)));
      var c1 := c.(requests := c.requests + 1, trace := c.trace + [Get(p, a, c.session, v)]);
      match v
      case Unauthorized => (c1, Blocked)
      case Success(items) => (c1.(collected := c1.collected + items, trace := c1.trace + [Fetched(p, items)]), Accepted(items))
      case Forbidden => TryPage(job, p, a, c1.(session := c1.session + 1, trace := c1.trace + [NewSession] + [Jitter]), respond)
      case _ => TryPage(job, p, a, c1.(trace := c1.trace + [Sleep(Backoff(v, a))]), respond)
  }

  /**
   * The page loop from page `p` on. A short page rebinds the loop variable to
   * `max_pages`, which only suppresses the polite pause: the next page is still fetched.
   */
  function HarvestFrom(job: Job, p: int, c: Cursor, respond: Request -> Response): Outcome
    decreases if p <= job.maxPages then job.maxPages - p + 1 else 0
  {
    if p > job.maxPages then Outcome(c, Completed)
    else
      var (c1, end) := TryPage(job, p, 0, c, respond);
      match end
      case Blocked => Outcome(c1, Unauthorized401(p))
      case Exhausted => Outcome(c1, GaveUp(p))
      case Accepted(items) =>
        var page := if |items| < job.perPage then job.maxPages else p;
        var c2 := if page < job.maxPages then c1.(trace := c1.trace + [PolitePause]) else c1;
        HarvestFrom(job, p + 1, c2, respond)
  }

  function Harvest(job: Job, respond: Request -> Response): Outcome
  {
    HarvestFrom(job, 1, Cursor([], [], 0, 0), respond)
  }

  /** The scraper's own settings (the fields `fetch_vinted_items_fr` reads). */
  datatype Settings = Settings(catalogId: Filter, maxPages: int, perPage: int)

  function JobOf(s: Settings, f: Filters, maxRetries: int, now: int): Job
  {
    Job(s.maxPages, s.perPage, maxRetries, BaseParams(s.catalogId, s.perPage, now, f))
  }

  /**
   * The retry loop for page `p`: request, classify, and either accept the
   * page, give up on a 401, or back off and retry, at most `max_retries` times.
   */
  method RetryPage(job: Job, p: int, collected: seq<Value>, trace: seq<Event>, requests: nat, session: nat,
                   respond: Request -> Response)
    returns (collected': seq<Value>, trace': seq<Event>, requests': nat, session': nat, end: PageEnd)
    ensures (Cursor(collected', trace', requests', session'), end)
            == TryPage(job, p, 0, Cursor(collected, trace, requests, session), respond)
  {
    collected', trace', requests', session' := collected, trace, requests, session;
    var params := PageParams(job.base, p);
    var attempt: nat := 0;
    while attempt < job.maxRetries
      invariant TryPage(job, p, attempt, Cursor(collected', trace', requests', session'), respond)
                == TryPage(job, p, 0, Cursor(collected, trace, requests, session), respond)
      decreases job.maxRetries - attempt
    {
      attempt := attempt + 1;
      var v := Classify(respond(Request(requests', params, session')));
      trace' := trace' + [Get(p, attempt, session', v)];
      requests' := requests' + 1;
      if v.Forbidden? {
        session' := session' + 1;
        trace' := trace' + [NewSession] + [Jitter];
      } else if v.Unauthorized? {
        return collected', trace', requests', session', Blocked;
      } else if v.Success? {
        collected' := collected' + v.items;
        trace' := trace' + [Fetched(p, v.items)];
        return collected', trace', requests', session', Accepted(v.items);
      } else {
        trace' := trace' + [Sleep(Backoff(v, attempt))];
      }
    }
    end := Exhausted;
  }

  /** `fetch_vinted_items_fr`, returning the collected items, the trace and why it stopped. */
  method FetchItems(settings: Settings, filters: Filters, maxRetries: int, now: int, respond: Request -> Response)
    returns (collected: seq<Value>, trace: seq<Event>, stop: Stop)
    ensures var h := Harvest(JobOf(settings, filters, maxRetries, now), respond);
      collected == h.cursor.collected && trace == h.cursor.trace && stop == h.stop
  {
    var job := JobOf(settings, filters, maxRetries, now);
    collected, trace, stop := [], [], Completed;
    var requests: nat, session: nat := 0, 0;
    var p := 1;
    while p <= job.maxPages
      invariant 1 <= p && stop == Completed
      invariant HarvestFrom(job, p, Cursor(collected, trace, requests, session), respond) == Harvest(job, respond)
      decreases job.maxPages - p
    {
      var page := p;
      var end;
      collected, trace, requests, session, end := RetryPage(job, p, collected, trace, requests, session, respond);
      if end.Blocked? {
        stop := Unauthorized401(p);
        return;
      } else if end.Exhausted? {
        stop := GaveUp(p);
        return;
      }
      if |end.items| < job.perPage {
        page := job.maxPages;  // meant to end the page loop; only skips the pause below
      }
      if page < job.maxPages {
        trace := trace + [PolitePause];
      }
      p := p + 1;
    }
  }
}
