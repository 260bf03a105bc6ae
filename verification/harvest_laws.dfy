/**
 * What `fetch_vinted_items_fr` promises, proved about the page loop
 * (Scraper.HarvestFrom) that Scraper.FetchItems is verified against.
 */
module HarvestLaws {
  import opened Values
  import opened ScraperParams
  import opened Scraper

  /** The items of the accepted pages, concatenated in trace order. */
  function Collected(t: seq<Event>): seq<Value>
  {
    if t == [] then []
    else Collected(t[..|t| - 1]) + (if t[|t| - 1].Fetched? then t[|t| - 1].items else [])
  }

  /** The number of requests in a trace. */
  function Requests(t: seq<Event>): nat
  {
    if t == [] then 0 else Requests(t[..|t| - 1]) + (if t[|t| - 1].Get? then 1 else 0)
  }

  /** The cursor's accumulator and request counter agree with its trace. */
  ghost predicate Consistent(c: Cursor)
  {
    c.collected == Collected(c.trace) && c.requests == Requests(c.trace)
  }

  /** Every request and accepted page of `t` is for a page in `lo..hi`. */
  ghost predicate PagesWithin(t: seq<Event>, lo: int, hi: int)
  {
    forall i :: 0 <= i < |t| && (t[i].Get? || t[i].Fetched?) ==> lo <= t[i].page <= hi
  }

  /** Every accepted page of `t` comes before page `q`. */
  ghost predicate FetchedBelow(t: seq<Event>, q: int)
  {
    forall i :: 0 <= i < |t| && t[i].Fetched? ==> t[i].page < q
  }

  /** Accepted pages appear in strictly increasing page order. */
  ghost predicate FetchedInOrder(t: seq<Event>)
  {
    forall i, j :: 0 <= i < j < |t| && t[i].Fetched? && t[j].Fetched? ==> t[i].page < t[j].page
  }

  /** The events `c1` added after `c` concern page `p` only. */
  ghost predicate NewEventsFor(c: Cursor, c1: Cursor, p: int)
  {
    forall i :: |c.trace| <= i < |c1.trace| && (c1.trace[i].Get? || c1.trace[i].Fetched?) ==> c1.trace[i].page == p
  }

  function Budget(n: int): nat
  {
    if n > 0 then n else 0
  }

  /** The number of sessions created after a 403. */
  function Renewals(t: seq<Event>): nat
  {
    if t == [] then 0 else Renewals(t[..|t| - 1]) + (if t[|t| - 1].NewSession? then 1 else 0)
  }

  lemma AppendOne(t: seq<Event>, e: Event)
    ensures Collected(t + [e]) == Collected(t) + (if e.Fetched? then e.items else [])
    ensures Requests(t + [e]) == Requests(t) + (if e.Get? then 1 else 0)
    ensures Renewals(t + [e]) == Renewals(t) + (if e.NewSession? then 1 else 0)
  {
    assert (t + [e])[..|t|] == t;
  }

  /**
   * What one page's retry loop may do, going from `c` to `c1`: only append
   * to the trace and the accumulator, keeping them consistent, touch page `p`
   * only, and accept at most one page: the last event, whose items are
   * exactly what it appends. A 401 ends it on the request that got it.
   */
  ghost predicate PageShape(c: Cursor, c1: Cursor, end: PageEnd, p: int)
  {
    && c.trace <= c1.trace && Consistent(c1) && NewEventsFor(c, c1, p)
    && (forall i :: |c.trace| <= i < |c1.trace| && c1.trace[i].Fetched? ==> end.Accepted? && i == |c1.trace| - 1)
    && c1.collected == c.collected + (if end.Accepted? then end.items else [])
    && (end.Blocked? ==> |c.trace| < |c1.trace| && c1.trace[|c1.trace| - 1].Get?)
    && (end.Accepted? ==> |c.trace| < |c1.trace| && c1.trace[|c1.trace| - 1] == Fetched(p, end.items))
  }

  /** Failed attempts in front of a page's remaining loop do not change its shape. */
  lemma ShapeExtend(c: Cursor, c2: Cursor, c3: Cursor, end: PageEnd, p: int)
    requires c.trace <= c2.trace && c2.collected == c.collected && NewEventsFor(c, c2, p)
    requires forall i :: |c.trace| <= i < |c2.trace| ==> !c2.trace[i].Fetched?
    requires PageShape(c2, c3, end, p)
    ensures PageShape(c, c3, end, p)
  {
    forall i | |c.trace| <= i < |c3.trace| && (c3.trace[i].Get? || c3.trace[i].Fetched?)
      ensures c3.trace[i].page == p
    {
      if i < |c2.trace| {
        assert c3.trace[i] == c2.trace[i];
      }
    }
  }

  lemma BlockedShape(c: Cursor, p: int, a: nat)
    requires Consistent(c)
    ensures PageShape(c, c.(requests := c.requests + 1, trace := c.trace + [Get(p, a, c.session, Unauthorized)]), Blocked, p)
  {
    AppendOne(c.trace, Get(p, a, c.session, Unauthorized));
  }

  lemma AcceptedShape(c: Cursor, p: int, a: nat, items: seq<Value>)
    requires Consistent(c)
    ensures var c1 := c.(requests := c.requests + 1, trace := c.trace + [Get(p, a, c.session, Success(items))]);
      PageShape(c, c1.(collected := c1.collected + items, trace := c1.trace + [Fetched(p, items)]), Accepted(items), p)
  {
    var g := Get(p, a, c.session, Success(items));
    var c1 := c.(requests := c.requests + 1, trace := c.trace + [g]);
    var c2 := c1.(collected := c1.collected + items, trace := c1.trace + [Fetched(p, items)]);
    AppendOne(c.trace, g);
    AppendOne(c1.trace, Fetched(p, items));
    assert c2.trace == c.trace + [g, Fetched(p, items)];
    assert c2.trace[|c2.trace| - 1] == Fetched(p, items);
  }

  /** A failed attempt: one request for page `p`, then an event that is neither a request nor a page. */
  lemma RetriedShape(c: Cursor, c2: Cursor, p: int, a: nat, v: Verdict, e: Event)
    requires Consistent(c) && !e.Get? && !e.Fetched?
    requires c2.trace == c.trace + [Get(p, a, c.session, v)] + [e]
    requires c2.collected == c.collected && c2.requests == c.requests + 1
    ensures Consistent(c2) && c.trace <= c2.trace && NewEventsFor(c, c2, p)
    ensures forall i :: |c.trace| <= i < |c2.trace| ==> !c2.trace[i].Fetched?
  {
    AppendOne(c.trace, Get(p, a, c.session, v));
    AppendOne(c.trace + [Get(p, a, c.session, v)], e);
  }

  /** A 403: one request for page `p`, then a new session and a random sleep. */
  lemma RenewedShape(c: Cursor, c2: Cursor, p: int, a: nat)
    requires Consistent(c)
    requires c2.trace == c.trace + [Get(p, a, c.session, Forbidden)] + [NewSession] + [Jitter]
    requires c2.collected == c.collected && c2.requests == c.requests + 1
    ensures Consistent(c2) && c.trace <= c2.trace && NewEventsFor(c, c2, p)
    ensures forall i :: |c.trace| <= i < |c2.trace| ==> !c2.trace[i].Fetched?
  {
    var t1 := c.trace + [Get(p, a, c.session, Forbidden)];
    AppendOne(c.trace, Get(p, a, c.session, Forbidden));
    AppendOne(t1, NewSession);
    AppendOne(t1 + [NewSession], Jitter);
  }

  lemma {:induction false} TryPageShape(job: Job, p: int, attempt: nat, c: Cursor, respond: Request -> Response)
    requires Consistent(c)
    ensures PageShape(c, TryPage(job, p, attempt, c, respond).0, TryPage(job, p, attempt, c, respond).1, p)
    decreases if attempt < job.maxRetries then job.maxRetries - attempt else 0
  {
    var r := TryPage(job, p, attempt, c, respond);
    if attempt < job.maxRetries {
      var a := attempt + 1;
      var v := Classify(respond(Request(c.requests, PageParams(job.base, p), c.session)));
      var c1 := c.(requests := c.requests + 1, trace := c.trace + [Get(p, a, c.session, v)]);
      if v.Unauthorized? {
        BlockedShape(c, p, a);
      } else if v.Success? {
        AcceptedShape(c, p, a, v.items);
      } else if v.Forbidden? {
        var c2 := c1.(session := c1.session + 1, trace := c1.trace + [NewSession] + [Jitter]);
        assert r == TryPage(job, p, a, c2, respond);
        RenewedShape(c, c2, p, a);
        TryPageShape(job, p, a, c2, respond);
        ShapeExtend(c, c2, r.0, r.1, p);
      } else {
        var c2 := c1.(trace := c1.trace + [Sleep(Backoff(v, a))]);
        assert r == TryPage(job, p, a, c2, respond);
        RetriedShape(c, c2, p, a, v, Sleep(Backoff(v, a)));
        TryPageShape(job, p, a, c2, respond);
        ShapeExtend(c, c2, r.0, r.1, p);
      }
    }
  }

  /**
   * Each page issues at most `max_retries` requests, one per attempt; a page
   * that exhausts its retries has issued exactly that many and added nothing.
   */
  lemma {:induction false} TryPageRequests(job: Job, p: int, attempt: nat, c: Cursor, respond: Request -> Response)
    ensures var (c1, end) := TryPage(job, p, attempt, c, respond);
      && c.requests <= c1.requests <= c.requests + Budget(job.maxRetries - attempt)
      && (end.Exhausted? ==> c1.requests == c.requests + Budget(job.maxRetries - attempt) && c1.collected == c.collected)
    decreases if attempt < job.maxRetries then job.maxRetries - attempt else 0
  {
    if attempt < job.maxRetries {
      var a := attempt + 1;
      var v := Classify(respond(Request(c.requests, PageParams(job.base, p), c.session)));
      var c1 := c.(requests := c.requests + 1, trace := c.trace + [Get(p, a, c.session, v)]);
      match v
      case Unauthorized =>
      case Success(items) =>
      case Forbidden =>
        TryPageRequests(job, p, a, c1.(session := c1.session + 1, trace := c1.trace + [NewSession] + [Jitter]), respond);
      case _ =>
        TryPageRequests(job, p, a, c1.(trace := c1.trace + [Sleep(Backoff(v, a))]), respond);
    }
  }

  // ------------------------------------------------------------------------
  // What the replies decide: every request records the verdict on the reply
  // to it, and what the loop does next is fixed by that verdict.

  /**
   * Every request in `t` was the next one in order (its index is the number
   * of requests before it), went out for its page in the session the
   * renewals before it had reached, and records the verdict on the reply
   * `respond` gave to exactly that request.
   */
  ghost predicate Heard(job: Job, respond: Request -> Response, t: seq<Event>)
    decreases |t|
  {
    t == [] ||
    (var s := t[..|t| - 1]; var e := t[|t| - 1];
     && Heard(job, respond, s)
     && (e.Get? ==> e.session == Renewals(s)
                    && e.verdict == Classify(respond(Request(Requests(s), PageParams(job.base, e.page), e.session)))))
  }

  lemma HeardAppend(job: Job, respond: Request -> Response, t: seq<Event>, e: Event)
    ensures Heard(job, respond, t + [e]) <==>
      Heard(job, respond, t) &&
      (e.Get? ==> e.session == Renewals(t)
                  && e.verdict == Classify(respond(Request(Requests(t), PageParams(job.base, e.page), e.session))))
  {
    assert (t + [e])[..|t|] == t;
  }

  /** A verdict the retry loop retries on. */
  predicate Retryable(v: Verdict)
  {
    v.Forbidden? || BacksOff(v)
  }

  /**
   * Event `b` may come right after event `a`: a 403 is followed by a new
   * session and then a random sleep, a retryable failure by the backoff for
   * its attempt, a success by its page's items, and nothing follows a 401;
   * and those events come only there.
   */
  predicate Follows(a: Event, b: Event)
  {
    && (a.Get? && a.verdict.Forbidden? ==> b == NewSession)
    && (a.Get? && BacksOff(a.verdict) ==> b == Sleep(Backoff(a.verdict, a.attempt)))
    && (a.Get? && a.verdict.Success? ==> b == Fetched(a.page, a.verdict.items))
    && !(a.Get? && a.verdict.Unauthorized?)
    && (a.NewSession? ==> b == Jitter)
    && (b.NewSession? ==> a.Get? && a.verdict.Forbidden?)
    && (b.Jitter? ==> a.NewSession?)
    && (b.Sleep? ==> a.Get? && BacksOff(a.verdict))
    && (b.Fetched? ==> a.Get? && a.verdict.Success?)
    && (b.PolitePause? ==> a.Fetched?)
  }

  ghost predicate Reacts(t: seq<Event>)
  {
    forall i :: 0 <= i < |t| - 1 ==> Follows(t[i], t[i + 1])
  }

  lemma ReactsAppend(t: seq<Event>, e: Event)
    requires Reacts(t) && (t != [] ==> Follows(t[|t| - 1], e))
    ensures Reacts(t + [e])
  {
    var t' := t + [e];
    forall i | 0 <= i < |t'| - 1 ensures Follows(t'[i], t'[i + 1]) {
      assert t'[i] == t[i];
      if i + 1 < |t| {
        assert t'[i + 1] == t[i + 1];
      }
    }
  }

  /** Nothing waits for its reaction at the end of `t`. */
  predicate Settled(t: seq<Event>)
  {
    t == [] || (!t[|t| - 1].Get? && !t[|t| - 1].NewSession?)
  }

  /** A trace whose requests were heard and reacted to, with the cursor's session counting the renewals. */
  ghost predicate Answered(job: Job, respond: Request -> Response, c: Cursor)
  {
    Heard(job, respond, c.trace) && Reacts(c.trace) && c.session == Renewals(c.trace)
  }

  /** Appending one event that may follow keeps a trace answered. */
  lemma AnswerOne(job: Job, respond: Request -> Response, c: Cursor, e: Event)
    requires Answered(job, respond, c) && Consistent(c) && (c.trace != [] ==> Follows(c.trace[|c.trace| - 1], e))
    requires e.Get? ==> e.session == c.session
                        && e.verdict == Classify(respond(Request(c.requests, PageParams(job.base, e.page), e.session)))
    ensures var c1 := c.(collected := c.collected + (if e.Fetched? then e.items else []),
                         requests := c.requests + (if e.Get? then 1 else 0),
                         session := c.session + (if e.NewSession? then 1 else 0),
                         trace := c.trace + [e]);
      Answered(job, respond, c1) && Consistent(c1)
  {
    AppendOne(c.trace, e);
    HeardAppend(job, respond, c.trace, e);
    ReactsAppend(c.trace, e);
  }

  /**
   * What one page's retry loop adds to an answered trace: a 401 ends it on
   * the request that got it; otherwise nothing is left waiting; and a page
   * out of retries heard only retryable verdicts.
   */
  ghost predicate PageAnswers(job: Job, respond: Request -> Response, c: Cursor, c1: Cursor, end: PageEnd, p: int)
  {
    && Answered(job, respond, c1)
    && (end.Blocked? ==>
          && |c.trace| < |c1.trace| && c1.trace[|c1.trace| - 1].Get?
          && c1.trace[|c1.trace| - 1].page == p && c1.trace[|c1.trace| - 1].verdict == Unauthorized)
    && (!end.Blocked? ==> Settled(c1.trace))
    && (end.Exhausted? ==>
          forall i :: |c.trace| <= i < |c1.trace| && c1.trace[i].Get? ==> Retryable(c1.trace[i].verdict))
  }

  /** Failed attempts in front of a page's remaining loop keep it out of non-retryable verdicts. */
  lemma RetriedAnswers(c: Cursor, c2: Cursor, c3: Cursor, end: PageEnd)
    requires c.trace <= c2.trace <= c3.trace
    requires forall i :: |c.trace| <= i < |c2.trace| && c2.trace[i].Get? ==> Retryable(c2.trace[i].verdict)
    requires end.Exhausted? ==> forall i :: |c2.trace| <= i < |c3.trace| && c3.trace[i].Get? ==> Retryable(c3.trace[i].verdict)
    ensures end.Exhausted? ==> forall i :: |c.trace| <= i < |c3.trace| && c3.trace[i].Get? ==> Retryable(c3.trace[i].verdict)
  {
    assert forall i :: 0 <= i < |c2.trace| ==> c3.trace[i] == c2.trace[i];
  }

  /** The request an attempt sends, recorded with the verdict on its reply. */
  function Attempt(job: Job, p: int, a: nat, c: Cursor, respond: Request -> Response): Event
  {
    Get(p, a, c.session, Classify(respond(Request(c.requests, PageParams(job.base, p), c.session))))
  }

  /** A 403 leaves an answered, settled trace whose only new request is retryable. */
  lemma RenewStep(job: Job, p: int, a: nat, c: Cursor, respond: Request -> Response)
    requires Consistent(c) && Answered(job, respond, c) && Settled(c.trace)
    requires Attempt(job, p, a, c, respond).verdict.Forbidden?
    ensures var g := Attempt(job, p, a, c, respond);
      var c2 := c.(requests := c.requests + 1, session := c.session + 1, trace := c.trace + [g] + [NewSession] + [Jitter]);
      && Consistent(c2) && Answered(job, respond, c2) && Settled(c2.trace) && c.trace <= c2.trace
      && forall i :: |c.trace| <= i < |c2.trace| && c2.trace[i].Get? ==> Retryable(c2.trace[i].verdict)
  {
    var g := Attempt(job, p, a, c, respond);
    var c1 := c.(requests := c.requests + 1, trace := c.trace + [g]);
    AnswerOne(job, respond, c, g);
    assert c1.trace[|c1.trace| - 1] == g;
    var c1' := c1.(session := c1.session + 1, trace := c1.trace + [NewSession]);
    AnswerOne(job, respond, c1, NewSession);
    assert c1'.trace[|c1'.trace| - 1] == NewSession;
    AnswerOne(job, respond, c1', Jitter);
    assert c1.trace + [NewSession] + [Jitter] == c.trace + [g, NewSession, Jitter];
  }

  /** A backoff leaves an answered, settled trace whose only new request is retryable. */
  lemma BackoffStep(job: Job, p: int, a: nat, c: Cursor, respond: Request -> Response)
    requires Consistent(c) && Answered(job, respond, c) && Settled(c.trace)
    requires BacksOff(Attempt(job, p, a, c, respond).verdict)
    ensures var g := Attempt(job, p, a, c, respond);
      var c2 := c.(requests := c.requests + 1, trace := c.trace + [g] + [Sleep(Backoff(g.verdict, a))]);
      && Consistent(c2) && Answered(job, respond, c2) && Settled(c2.trace) && c.trace <= c2.trace
      && forall i :: |c.trace| <= i < |c2.trace| && c2.trace[i].Get? ==> Retryable(c2.trace[i].verdict)
  {
    var g := Attempt(job, p, a, c, respond);
    var c1 := c.(requests := c.requests + 1, trace := c.trace + [g]);
    AnswerOne(job, respond, c, g);
    assert c1.trace[|c1.trace| - 1] == g;
    AnswerOne(job, respond, c1, Sleep(Backoff(g.verdict, a)));
    assert c1.trace + [Sleep(Backoff(g.verdict, a))] == c.trace + [g, Sleep(Backoff(g.verdict, a))];
  }

  /** A 401 or a success ends the page on an answered trace. */
  lemma FinalStep(job: Job, p: int, a: nat, c: Cursor, respond: Request -> Response)
    requires Consistent(c) && Answered(job, respond, c) && Settled(c.trace)
    requires !Retryable(Attempt(job, p, a, c, respond).verdict)
    ensures var g := Attempt(job, p, a, c, respond);
      var c1 := c.(requests := c.requests + 1, trace := c.trace + [g]);
      && (g.verdict.Unauthorized? ==> Consistent(c1) && PageAnswers(job, respond, c, c1, Blocked, p))
      && (g.verdict.Success? ==>
            var c2 := c1.(collected := c1.collected + g.verdict.items, trace := c1.trace + [Fetched(p, g.verdict.items)]);
            Consistent(c2) && PageAnswers(job, respond, c, c2, Accepted(g.verdict.items), p))
  {
    var g := Attempt(job, p, a, c, respond);
    var c1 := c.(requests := c.requests + 1, trace := c.trace + [g]);
    AnswerOne(job, respond, c, g);
    assert c1.trace[|c1.trace| - 1] == g;
    if g.verdict.Success? {
      AnswerOne(job, respond, c1, Fetched(p, g.verdict.items));
    }
  }

  lemma {:induction false} TryPageAnswers(job: Job, p: int, attempt: nat, c: Cursor, respond: Request -> Response)
    requires Consistent(c) && Answered(job, respond, c) && Settled(c.trace)
    ensures Consistent(TryPage(job, p, attempt, c, respond).0)
    ensures PageAnswers(job, respond, c, TryPage(job, p, attempt, c, respond).0, TryPage(job, p, attempt, c, respond).1, p)
    decreases if attempt < job.maxRetries then job.maxRetries - attempt else 0
  {
    var r := TryPage(job, p, attempt, c, respond);
    if attempt < job.maxRetries {
      var a := attempt + 1;
      var g := Attempt(job, p, a, c, respond);
      var v := g.verdict;
      if v.Forbidden? {
        var c2 := c.(requests := c.requests + 1, session := c.session + 1, trace := c.trace + [g] + [NewSession] + [Jitter]);
        assert r == TryPage(job, p, a, c2, respond);
        RenewStep(job, p, a, c, respond);
        TryPageAnswers(job, p, a, c2, respond);
        TryPageExtends(job, p, a, c2, respond);
        RetriedAnswers(c, c2, r.0, r.1);
      } else if BacksOff(v) {
        var c2 := c.(requests := c.requests + 1, trace := c.trace + [g] + [Sleep(Backoff(v, a))]);
        assert r == TryPage(job, p, a, c2, respond);
        BackoffStep(job, p, a, c, respond);
        TryPageAnswers(job, p, a, c2, respond);
        TryPageExtends(job, p, a, c2, respond);
        RetriedAnswers(c, c2, r.0, r.1);
      } else {
        FinalStep(job, p, a, c, respond);
        var c1 := c.(requests := c.requests + 1, trace := c.trace + [g]);
        if v.Unauthorized? {
          assert r == (c1, Blocked);
        } else {
          assert r == (c1.(collected := c1.collected + v.items, trace := c1.trace + [Fetched(p, v.items)]), Accepted(v.items));
        }
      }
    }
  }

  // ------------------------------------------------------------------------
  // Attempt numbers: the k-th request of a page's retry loop is attempt k.

  lemma {:induction false} RequestsAppend(u: seq<Event>, v: seq<Event>)
    ensures Requests(u + v) == Requests(u) + Requests(v)
    decreases |v|
  {
    if v == [] {
      assert u + v == u;
    } else {
      var v' := v[..|v| - 1];
      assert u + v == (u + v') + [v[|v| - 1]];
      AppendOne(u + v', v[|v| - 1]);
      RequestsAppend(u, v');
      AppendOne(v', v[|v| - 1]);
      assert v == v' + [v[|v| - 1]];
    }
  }

  /** Request `i` of `t` carries attempt number `a0` plus its own position among the requests of `t`. */
  ghost predicate Numbered(t: seq<Event>, a0: nat)
  {
    forall i :: 0 <= i < |t| && t[i].Get? ==> t[i].attempt == a0 + Requests(t[..i + 1])
  }

  lemma NumberedAppend(u: seq<Event>, v: seq<Event>, a0: nat)
    requires Numbered(u, a0) && Numbered(v, a0 + Requests(u))
    ensures Numbered(u + v, a0)
  {
    forall i | 0 <= i < |u + v| && (u + v)[i].Get?
      ensures (u + v)[i].attempt == a0 + Requests((u + v)[..i + 1])
    {
      NumberedAppendAt(u, v, a0, i);
    }
  }

  /** Request `i` of `u + v` is numbered by its place in `u`, or by the requests of `u` and its place in `v`. */
  lemma NumberedAppendAt(u: seq<Event>, v: seq<Event>, a0: nat, i: nat)
    requires Numbered(u, a0) && Numbered(v, a0 + Requests(u))
    requires i < |u + v| && (u + v)[i].Get?
    ensures (u + v)[i].attempt == a0 + Requests((u + v)[..i + 1])
  {
    var t := u + v;
    if i < |u| {
      assert t[..i + 1] == u[..i + 1];
      assert t[i] == u[i];
      assert u[i].attempt == a0 + Requests(u[..i + 1]);
    } else {
      var k := i - |u|;
      assert t[..i + 1] == u + v[..k + 1];
      assert t[i] == v[k];
      assert v[k].attempt == a0 + Requests(u) + Requests(v[..k + 1]);
      RequestsAppend(u, v[..k + 1]);
    }
  }

  /** One attempt's own events: its request, then only reactions. */
  lemma NumberedOne(u: seq<Event>, a0: nat)
    requires |u| > 0 && u[0].Get? && u[0].attempt == a0 + 1
    requires forall i :: 1 <= i < |u| ==> !u[i].Get?
    ensures Numbered(u, a0) && Requests(u) == 1
  {
    var g, rest := [u[0]], u[1..];
    assert u == g + rest;
    AppendOne([], u[0]);
    assert [] + [u[0]] == g && g[..1] == g;
    assert Numbered(g, a0);
    assert forall i :: 0 <= i < |rest| ==> !rest[i].Get? by {
      forall i | 0 <= i < |rest| ensures !rest[i].Get? {
        assert rest[i] == u[i + 1];
      }
    }
    NoRequests(rest);
    NumberedAppend(g, rest, a0);
    RequestsAppend(g, rest);
  }

  lemma {:induction false} NoRequests(t: seq<Event>)
    requires forall i :: 0 <= i < |t| ==> !t[i].Get?
    ensures Requests(t) == 0
    decreases |t|
  {
    if t != [] {
      NoRequests(t[..|t| - 1]);
    }
  }

  /** One attempt's events, then a stretch numbered from the next attempt on. */
  lemma NumberedAfter(before: seq<Event>, own: seq<Event>, t: seq<Event>, attempt: nat)
    requires before + own <= t
    requires |own| > 0 && own[0].Get? && own[0].attempt == attempt + 1
    requires forall i :: 1 <= i < |own| ==> !own[i].Get?
    requires Numbered(t[|before + own|..], attempt + 1)
    ensures Numbered(t[|before|..], attempt)
  {
    NumberedOne(own, attempt);
    assert t[|before|..] == own + t[|before + own|..];
    NumberedAppend(own, t[|before + own|..], attempt);
  }

  /**
   * The retry loop from `attempt` on numbers its requests `attempt + 1`,
   * `attempt + 2`, … in the order it sends them.
   */
  lemma {:induction false} TryPageNumbers(job: Job, p: int, attempt: nat, c: Cursor, respond: Request -> Response)
    ensures var t := TryPage(job, p, attempt, c, respond).0.trace;
      c.trace <= t && Numbered(t[|c.trace|..], attempt)
    decreases if attempt < job.maxRetries then job.maxRetries - attempt else 0
  {
    var t := TryPage(job, p, attempt, c, respond).0.trace;
    TryPageExtends(job, p, attempt, c, respond);
    if attempt < job.maxRetries {
      var a := attempt + 1;
      var g := Attempt(job, p, a, c, respond);
      var v := g.verdict;
      if Retryable(v) {
        var own := if v.Forbidden? then [g, NewSession, Jitter] else [g, Sleep(Backoff(v, a))];
        var c2 := if v.Forbidden?
          then c.(requests := c.requests + 1, session := c.session + 1, trace := c.trace + [g] + [NewSession] + [Jitter])
          else c.(requests := c.requests + 1, trace := c.trace + [g] + [Sleep(Backoff(v, a))]);
        assert c2.trace == c.trace + own;
        assert t == TryPage(job, p, a, c2, respond).0.trace;
        TryPageNumbers(job, p, a, c2, respond);
        NumberedAfter(c.trace, own, t, attempt);
      } else {
        var own := t[|c.trace|..];
        if v.Unauthorized? {
          assert own == [g];
        } else {
          assert own == [g, Fetched(p, v.items)];
        }
        NumberedOne(own, attempt);
      }
    } else {
      assert t[|c.trace|..] == [];
    }
  }

  /** Later requests in a numbered stretch carry larger attempt numbers. */
  lemma AttemptsIncrease(t: seq<Event>, a0: nat, i: nat, j: nat)
    requires Numbered(t, a0) && i < j < |t| && t[i].Get? && t[j].Get?
    ensures t[i].attempt < t[j].attempt
  {
    assert t[..j + 1] == t[..i + 1] + t[i + 1..j + 1];
    RequestsAppend(t[..i + 1], t[i + 1..j + 1]);
    var w := t[i + 1..j + 1];
    assert w == w[..|w| - 1] + [t[j]];
    AppendOne(w[..|w| - 1], t[j]);
  }

  /**
   * Within one page, each retry after the same retryable failure waits
   * strictly longer than the one before: the sleep after a request is the
   * backoff for its attempt, and attempts grow along the page.
   */
  lemma PageBackoffsGrow(job: Job, p: int, c: Cursor, respond: Request -> Response, i: nat, j: nat)
    requires Consistent(c) && Answered(job, respond, c) && Settled(c.trace)
    requires var t := TryPage(job, p, 0, c, respond).0.trace;
      |c.trace| <= i < j < |t| && t[i].Get? && t[j].Get? && BacksOff(t[i].verdict) && t[j].verdict == t[i].verdict
    ensures var t := TryPage(job, p, 0, c, respond).0.trace;
      && j + 1 < |t|
      && t[i + 1] == Sleep(Backoff(t[i].verdict, t[i].attempt))
      && t[j + 1] == Sleep(Backoff(t[j].verdict, t[j].attempt))
      && t[i + 1].tenths < t[j + 1].tenths
  {
    var (c1, end) := TryPage(job, p, 0, c, respond);
    var t := c1.trace;
    TryPageAnswers(job, p, 0, c, respond);
    TryPageNumbers(job, p, 0, c, respond);
    assert j + 1 == |t| ==> !Settled(t);
    SleepsGrow(t, |c.trace|, i, j);
  }

  /** In a reacting trace numbered from `n` on, two backoffs after the same verdict sleep for longer the later they come. */
  lemma SleepsGrow(t: seq<Event>, n: nat, i: nat, j: nat)
    requires Reacts(t) && n <= |t| && Numbered(t[n..], 0)
    requires n <= i < j && j + 1 < |t| && t[i].Get? && t[j].Get?
    requires BacksOff(t[i].verdict) && t[j].verdict == t[i].verdict
    ensures t[i + 1] == Sleep(Backoff(t[i].verdict, t[i].attempt))
    ensures t[j + 1] == Sleep(Backoff(t[j].verdict, t[j].attempt))
    ensures t[i + 1].tenths < t[j + 1].tenths
  {
    assert t[n..][i - n] == t[i] && t[n..][j - n] == t[j];
    AttemptsIncrease(t[n..], 0, i - n, j - n);
    assert Follows(t[i], t[i + 1]) && Follows(t[j], t[j + 1]);
    BackoffGrows(t[i].verdict, t[i].attempt, t[j].attempt);
  }

  /** What the page loop from `p` on adds to an answered trace, by how it stopped. */
  ghost predicate LoopAnswers(job: Job, respond: Request -> Response, h: Outcome)
  {
    var t := h.cursor.trace;
    && Answered(job, respond, h.cursor)
    && (h.stop.Unauthorized401? ==>
          |t| > 0 && t[|t| - 1].Get? && t[|t| - 1].page == h.stop.page && t[|t| - 1].verdict == Unauthorized)
    && (!h.stop.Unauthorized401? ==> Settled(t))
    && (h.stop.GaveUp? ==> forall i :: 0 <= i < |t| && t[i].Get? && t[i].page == h.stop.page ==> Retryable(t[i].verdict))
  }

  /** Giving up on page `p`: the requests for `p` are all among the page's own, which all failed. */
  lemma GaveUpAnswers(c: Cursor, c1: Cursor, p: int)
    requires c.trace <= c1.trace && PagesWithin(c.trace, 1, p - 1)
    requires forall i :: |c.trace| <= i < |c1.trace| && c1.trace[i].Get? ==> Retryable(c1.trace[i].verdict)
    ensures forall i :: 0 <= i < |c1.trace| && c1.trace[i].Get? && c1.trace[i].page == p ==> Retryable(c1.trace[i].verdict)
  {
    assert forall i :: 0 <= i < |c.trace| ==> c1.trace[i] == c.trace[i];
  }

  /** An accepted page, with or without the polite pause after it, leaves the cursor answered and ready for the next page. */
  lemma AcceptedAnswers(job: Job, respond: Request -> Response, c: Cursor, c1: Cursor, end: PageEnd, p: int, pause: bool)
    requires 1 <= p && ReadyFor(c, p) && end.Accepted?
    requires PageShape(c, c1, end, p) && PageAnswers(job, respond, c, c1, end, p)
    ensures var c2 := if pause then c1.(trace := c1.trace + [PolitePause]) else c1;
      ReadyFor(c2, p + 1) && Answered(job, respond, c2) && Settled(c2.trace)
  {
    AcceptedReady(c, c1, end, p, pause);
    if pause {
      AnswerOne(job, respond, c1, PolitePause);
    }
  }

  lemma {:induction false} HarvestFromAnswers(job: Job, p: int, c: Cursor, respond: Request -> Response)
    requires 1 <= p && ReadyFor(c, p) && Answered(job, respond, c) && Settled(c.trace)
    ensures LoopAnswers(job, respond, HarvestFrom(job, p, c, respond))
    decreases if p <= job.maxPages then job.maxPages - p + 1 else 0
  {
    if p <= job.maxPages && TryPage(job, p, 0, c, respond).1.Accepted? {
      AcceptedGoesOnAnswered(job, p, c, respond);
      HarvestFromAnswers(job, p + 1, Onward(job, p, c, respond), respond);
    }
    AnswersStep(job, p, c, respond);
  }

  /** An accepted page hands the loop an answered, settled cursor ready for the next page. */
  lemma AcceptedGoesOnAnswered(job: Job, p: int, c: Cursor, respond: Request -> Response)
    requires 1 <= p <= job.maxPages && ReadyFor(c, p) && Answered(job, respond, c) && Settled(c.trace)
    requires TryPage(job, p, 0, c, respond).1.Accepted?
    ensures var c2 := Onward(job, p, c, respond);
      ReadyFor(c2, p + 1) && Answered(job, respond, c2) && Settled(c2.trace)
  {
    var (c1, end) := TryPage(job, p, 0, c, respond);
    TryPageAnswers(job, p, 0, c, respond);
    TryPageShape(job, p, 0, c, respond);
    AcceptedAnswers(job, respond, c, c1, end, p, Pauses(job, p, end.items));
  }

  /** One page of the loop: what is answered from the next page on after an accepted page is answered from this page on. */
  lemma AnswersStep(job: Job, p: int, c: Cursor, respond: Request -> Response)
    requires 1 <= p && ReadyFor(c, p) && Answered(job, respond, c) && Settled(c.trace)
    requires p <= job.maxPages && TryPage(job, p, 0, c, respond).1.Accepted? ==>
      LoopAnswers(job, respond, HarvestFrom(job, p + 1, Onward(job, p, c, respond), respond))
    ensures LoopAnswers(job, respond, HarvestFrom(job, p, c, respond))
  {
    if p <= job.maxPages {
      var (c1, end) := TryPage(job, p, 0, c, respond);
      if end.Accepted? {
        HarvestFromAccepted(job, p, c, respond);
      } else {
        TryPageAnswers(job, p, 0, c, respond);
        HarvestFromStops(job, p, c, respond);
        if end.Exhausted? {
          TryPageExtends(job, p, 0, c, respond);
          GaveUpAnswers(c, c1, p);
        }
      }
    }
  }

  /**
   * Every request of a harvest went out as the next one, in the session the
   * 403s so far had reached, and records the verdict on the reply to it;
   * after each verdict comes the loop's reaction to it (a new session and a
   * random sleep after a 403, the attempt's backoff after a 429, a 5xx, a
   * body that is not JSON or a network error, the page's items after a
   * success). A harvest stopped by a 401 ends on the request that got it, and
   * one that gave up on a page got only retryable verdicts for that page.
   */
  lemma HarvestAnswers(job: Job, respond: Request -> Response)
    ensures LoopAnswers(job, respond, Harvest(job, respond))
  {
    HarvestFromAnswers(job, 1, Cursor([], [], 0, 0), respond);
  }

  /** What holds of the cursor before page `p` is tried. */
  ghost predicate ReadyFor(c: Cursor, p: int)
  {
    Consistent(c) && FetchedInOrder(c.trace) && PagesWithin(c.trace, 1, p - 1)
  }

  /** After page `p`'s retry loop the cursor is ready for page `p + 1`; a page not accepted added no page. */
  lemma PageStep(c: Cursor, c1: Cursor, end: PageEnd, p: int)
    requires 1 <= p && ReadyFor(c, p) && PageShape(c, c1, end, p)
    ensures ReadyFor(c1, p + 1)
    ensures !end.Accepted? ==> FetchedBelow(c1.trace, p)
  {
    forall i | 0 <= i < |c1.trace| && (c1.trace[i].Get? || c1.trace[i].Fetched?)
      ensures 1 <= c1.trace[i].page <= p
    {
      if i < |c.trace| {
        assert c1.trace[i] == c.trace[i];
      }
    }
    forall i, j | 0 <= i < j < |c1.trace| && c1.trace[i].Fetched? && c1.trace[j].Fetched?
      ensures c1.trace[i].page < c1.trace[j].page
    {
      assert c1.trace[i] == c.trace[i];
      if j < |c.trace| {
        assert c1.trace[j] == c.trace[j];
      }
    }
    if !end.Accepted? {
      forall i | 0 <= i < |c1.trace| && c1.trace[i].Fetched?
        ensures c1.trace[i].page < p
      {
        assert c1.trace[i] == c.trace[i];
      }
    }
  }

  /** The polite pause changes neither pages nor items. */
  lemma PauseStep(c1: Cursor, q: int)
    requires ReadyFor(c1, q)
    ensures var c2 := c1.(trace := c1.trace + [PolitePause]); ReadyFor(c2, q) && c1.trace <= c2.trace
  {
    AppendOne(c1.trace, PolitePause);
    var t := c1.trace + [PolitePause];
    assert forall i :: 0 <= i < |c1.trace| ==> t[i] == c1.trace[i];
  }

  /** What the page loop from `p` on guarantees, going from `c` to the outcome `h`. */
  ghost predicate LoopShape(job: Job, p: int, c: Cursor, h: Outcome)
  {
    && c.trace <= h.cursor.trace && c.collected <= h.cursor.collected
    && Consistent(h.cursor) && FetchedInOrder(h.cursor.trace)
    && (h.stop.Completed? ==> PagesWithin(h.cursor.trace, 1, if p <= job.maxPages then job.maxPages else p - 1))
    && (!h.stop.Completed? ==>
          && p <= h.stop.page <= job.maxPages
          && PagesWithin(h.cursor.trace, 1, h.stop.page)
          && FetchedBelow(h.cursor.trace, h.stop.page))
    && (h.stop.Unauthorized401? ==> |h.cursor.trace| > 0 && h.cursor.trace[|h.cursor.trace| - 1].Get?)
  }

  /** What the loop guarantees from page `p + 1` on, it guarantees from page `p` on when page `p` only extended the cursor. */
  lemma LoopShapeBack(job: Job, p: int, c: Cursor, c2: Cursor, h: Outcome)
    requires 1 <= p <= job.maxPages
    requires c.trace <= c2.trace && c.collected <= c2.collected
    requires LoopShape(job, p + 1, c2, h)
    ensures LoopShape(job, p, c, h)
  {
  }

  /** Whether the page loop pauses after accepting `items` on page `p`: the short-page rebinding only skips this pause. */
  predicate Pauses(job: Job, p: int, items: seq<Value>)
  {
    (if |items| < job.perPage then job.maxPages else p) < job.maxPages
  }

  /** The cursor the page loop carries to page `p + 1` after accepting `items` on page `p`. */
  function NextCursor(job: Job, p: int, c1: Cursor, items: seq<Value>): Cursor
  {
    if Pauses(job, p, items) then c1.(trace := c1.trace + [PolitePause]) else c1
  }

  /** The cursor the page loop goes on with after page `p` was accepted. */
  function Onward(job: Job, p: int, c: Cursor, respond: Request -> Response): Cursor
    requires TryPage(job, p, 0, c, respond).1.Accepted?
  {
    var (c1, end) := TryPage(job, p, 0, c, respond);
    NextCursor(job, p, c1, end.items)
  }

  /** After an accepted page the loop goes on from the next page with the next cursor. */
  lemma HarvestFromAccepted(job: Job, p: int, c: Cursor, respond: Request -> Response)
    requires p <= job.maxPages && TryPage(job, p, 0, c, respond).1.Accepted?
    ensures var (c1, end) := TryPage(job, p, 0, c, respond);
      HarvestFrom(job, p, c, respond) == HarvestFrom(job, p + 1, NextCursor(job, p, c1, end.items), respond)
  {
  }

  /** An accepted page, with or without the polite pause after it, only extends the cursor and leaves it ready for the next page. */
  lemma AcceptedReady(c: Cursor, c1: Cursor, end: PageEnd, p: int, pause: bool)
    requires 1 <= p && ReadyFor(c, p) && PageShape(c, c1, end, p)
    ensures var c2 := if pause then c1.(trace := c1.trace + [PolitePause]) else c1;
      ReadyFor(c2, p + 1) && c.trace <= c2.trace && c.collected <= c2.collected
  {
    PageStep(c, c1, end, p);
    if pause {
      PauseStep(c1, p + 1);
    }
  }

  lemma {:induction false} HarvestFromShape(job: Job, p: int, c: Cursor, respond: Request -> Response)
    requires 1 <= p && ReadyFor(c, p)
    ensures LoopShape(job, p, c, HarvestFrom(job, p, c, respond))
    decreases if p <= job.maxPages then job.maxPages - p + 1 else 0
  {
    if p <= job.maxPages && TryPage(job, p, 0, c, respond).1.Accepted? {
      AcceptedGoesOn(job, p, c, respond);
      HarvestFromShape(job, p + 1, Onward(job, p, c, respond), respond);
    }
    ShapeStep(job, p, c, respond);
  }

  /** One page of the loop: what holds from the next page on after an accepted page holds from this page on. */
  lemma ShapeStep(job: Job, p: int, c: Cursor, respond: Request -> Response)
    requires 1 <= p && ReadyFor(c, p)
    requires p <= job.maxPages && TryPage(job, p, 0, c, respond).1.Accepted? ==>
      LoopShape(job, p + 1, Onward(job, p, c, respond), HarvestFrom(job, p + 1, Onward(job, p, c, respond), respond))
    ensures LoopShape(job, p, c, HarvestFrom(job, p, c, respond))
  {
    if p <= job.maxPages {
      var (c1, end) := TryPage(job, p, 0, c, respond);
      if end.Accepted? {
        var c2 := Onward(job, p, c, respond);
        AcceptedGoesOn(job, p, c, respond);
        LoopShapeBack(job, p, c, c2, HarvestFrom(job, p + 1, c2, respond));
      } else {
        StopShape(job, p, c, respond);
      }
    }
  }

  /** A page that was not accepted ends the loop on that page. */
  lemma HarvestFromStops(job: Job, p: int, c: Cursor, respond: Request -> Response)
    requires p <= job.maxPages && !TryPage(job, p, 0, c, respond).1.Accepted?
    ensures var (c1, end) := TryPage(job, p, 0, c, respond);
      HarvestFrom(job, p, c, respond) == Outcome(c1, if end.Blocked? then Unauthorized401(p) else GaveUp(p))
  {
  }

  /** A page that was not accepted ends the loop there, with the shape its retry loop left. */
  lemma StopShape(job: Job, p: int, c: Cursor, respond: Request -> Response)
    requires 1 <= p <= job.maxPages && ReadyFor(c, p) && !TryPage(job, p, 0, c, respond).1.Accepted?
    ensures LoopShape(job, p, c, HarvestFrom(job, p, c, respond))
  {
    var (c1, end) := TryPage(job, p, 0, c, respond);
    TryPageShape(job, p, 0, c, respond);
    HarvestFromStops(job, p, c, respond);
    PageStep(c, c1, end, p);
  }

  /** An accepted page hands the loop a cursor that only extends `c` and is ready for the next page. */
  lemma AcceptedGoesOn(job: Job, p: int, c: Cursor, respond: Request -> Response)
    requires 1 <= p <= job.maxPages && ReadyFor(c, p) && TryPage(job, p, 0, c, respond).1.Accepted?
    ensures var c2 := Onward(job, p, c, respond);
      && ReadyFor(c2, p + 1) && c.trace <= c2.trace && c.collected <= c2.collected
      && HarvestFrom(job, p, c, respond) == HarvestFrom(job, p + 1, c2, respond)
  {
    var (c1, end) := TryPage(job, p, 0, c, respond);
    TryPageShape(job, p, 0, c, respond);
    AcceptedReady(c, c1, end, p, Pauses(job, p, end.items));
    HarvestFromAccepted(job, p, c, respond);
  }

  /** The page loop from `p` on issues at most `max_retries` requests for each remaining page. */
  lemma BudgetStep(m: int, r: nat, before: nat, mid: nat, after: nat)
    requires mid <= before + r && after <= mid + Budget(m) * r && m >= 0
    ensures after <= before + Budget(m + 1) * r
  {
    assert Budget(m + 1) * r == Budget(m) * r + r;
  }

  lemma {:induction false} HarvestFromRequests(job: Job, p: int, c: Cursor, respond: Request -> Response)
    requires 1 <= p
    ensures HarvestFrom(job, p, c, respond).cursor.requests
            <= c.requests + Budget(job.maxPages - p + 1) * Budget(job.maxRetries)
    decreases if p <= job.maxPages then job.maxPages - p + 1 else 0
  {
    var h := HarvestFrom(job, p, c, respond);
    if p <= job.maxPages {
      var (c1, end) := TryPage(job, p, 0, c, respond);
      TryPageRequests(job, p, 0, c, respond);
      assert c1.requests <= c.requests + Budget(job.maxRetries);
      if end.Accepted? {
        var page := if |end.items| < job.perPage then job.maxPages else p;
        var c2 := if page < job.maxPages then c1.(trace := c1.trace + [PolitePause]) else c1;
        assert h == HarvestFrom(job, p + 1, c2, respond);
        HarvestFromRequests(job, p + 1, c2, respond);
        BudgetStep(job.maxPages - p, Budget(job.maxRetries), c.requests, c2.requests, h.cursor.requests);
      } else {
        assert h.cursor == c1;
      }
    }
  }

  /**
   * The harvest's result is exactly the items of the accepted pages, in
   * increasing page order, each page within 1..max_pages; nothing accepted
   * is ever dropped, and the request counter counts the requests issued.
   */
  lemma HarvestAccumulates(job: Job, respond: Request -> Response)
    ensures var h := Harvest(job, respond);
      && h.cursor.collected == Collected(h.cursor.trace)
      && h.cursor.requests == Requests(h.cursor.trace)
      && FetchedInOrder(h.cursor.trace)
      && PagesWithin(h.cursor.trace, 1, job.maxPages)
  {
    HarvestFromShape(job, 1, Cursor([], [], 0, 0), respond);
    var h := Harvest(job, respond);
    if job.maxPages < 1 {
      assert h.cursor.trace == [];
    }
  }

  /** At most `max_pages * max_retries` requests in all. */
  lemma HarvestRequestBound(job: Job, respond: Request -> Response)
    ensures Requests(Harvest(job, respond).cursor.trace) <= Budget(job.maxPages) * Budget(job.maxRetries)
  {
    HarvestFromShape(job, 1, Cursor([], [], 0, 0), respond);
    HarvestFromRequests(job, 1, Cursor([], [], 0, 0), respond);
  }

  /**
   * A harvest cut short at page `q` (a 401, or a page out of retries) never
   * requests a later page and returns only items of pages before `q`; after a
   * 401 the last thing done is the request for `q` whose reply was the 401,
   * and a page given up on got only retryable replies.
   */
  lemma HarvestStopsAtFailure(job: Job, respond: Request -> Response)
    ensures var h := Harvest(job, respond); var t := h.cursor.trace;
      !h.stop.Completed? ==>
        && 1 <= h.stop.page <= job.maxPages
        && PagesWithin(t, 1, h.stop.page)
        && FetchedBelow(t, h.stop.page)
        && h.cursor.collected == Collected(t)
        && (h.stop.Unauthorized401? ==>
              |t| > 0 && t[|t| - 1].Get? && t[|t| - 1].page == h.stop.page && t[|t| - 1].verdict == Unauthorized)
        && (h.stop.GaveUp? ==>
              forall i :: 0 <= i < |t| && t[i].Get? && t[i].page == h.stop.page ==> Retryable(t[i].verdict))
  {
    HarvestFromShape(job, 1, Cursor([], [], 0, 0), respond);
    HarvestAnswers(job, respond);
  }

  /** With `max_retries <= 0` no request is issued and the result is empty. */
  lemma NoRetriesNoRequests(job: Job, respond: Request -> Response)
    requires job.maxRetries <= 0
    ensures var h := Harvest(job, respond);
      h.cursor.collected == [] && Requests(h.cursor.trace) == 0
      && (job.maxPages >= 1 ==> h.stop == GaveUp(1))
  {
    HarvestRequestBound(job, respond);
    HarvestAccumulates(job, respond);
  }

  // ------------------------------------------------------------------------
  // The short-page heuristic. The comments at backend/scraper.py:223 and 229
  // say a page with fewer than `per_page` items ends the harvest; assigning
  // `page = self.max_pages` only rebinds the loop variable, so the loop goes
  // on to the next page and the only effect is that the polite pause is skipped.

  lemma {:induction false} TryPageExtends(job: Job, p: int, attempt: nat, c: Cursor, respond: Request -> Response)
    ensures c.trace <= TryPage(job, p, attempt, c, respond).0.trace
    decreases if attempt < job.maxRetries then job.maxRetries - attempt else 0
  {
    if attempt < job.maxRetries {
      var a := attempt + 1;
      var v := Classify(respond(Request(c.requests, PageParams(job.base, p), c.session)));
      var c1 := c.(requests := c.requests + 1, trace := c.trace + [Get(p, a, c.session, v)]);
      if v.Forbidden? {
        TryPageExtends(job, p, a, c1.(session := c1.session + 1, trace := c1.trace + [NewSession] + [Jitter]), respond);
      } else if BacksOff(v) {
        TryPageExtends(job, p, a, c1.(trace := c1.trace + [Sleep(Backoff(v, a))]), respond);
      }
    }
  }

  lemma {:induction false} HarvestFromExtends(job: Job, p: int, c: Cursor, respond: Request -> Response)
    ensures c.trace <= HarvestFrom(job, p, c, respond).cursor.trace
    decreases if p <= job.maxPages then job.maxPages - p + 1 else 0
  {
    if p <= job.maxPages {
      var (c1, end) := TryPage(job, p, 0, c, respond);
      TryPageExtends(job, p, 0, c, respond);
      if end.Accepted? {
        var page := if |end.items| < job.perPage then job.maxPages else p;
        var c2 := if page < job.maxPages then c1.(trace := c1.trace + [PolitePause]) else c1;
        HarvestFromExtends(job, p + 1, c2, respond);
      }
    }
  }

  /**
   * As written: after a short page `p` below `max_pages` the very next event
   * is the first request for page `p + 1` (and no polite pause comes between).
   */
  lemma ShortPageStillAdvances(job: Job, p: int, c: Cursor, respond: Request -> Response)
    requires 1 <= p < job.maxPages && job.maxRetries >= 1
    requires TryPage(job, p, 0, c, respond).1.Accepted?
    requires |TryPage(job, p, 0, c, respond).1.items| < job.perPage
    ensures var c1 := TryPage(job, p, 0, c, respond).0;
      var t := HarvestFrom(job, p, c, respond).cursor.trace;
      |c1.trace| < |t| &&
      t[|c1.trace|] == Get(p + 1, 1, c1.session, Classify(respond(Request(c1.requests, PageParams(job.base, p + 1), c1.session))))
  {
    var c1 := TryPage(job, p, 0, c, respond).0;
    assert HarvestFrom(job, p, c, respond) == HarvestFrom(job, p + 1, c1, respond);
    var c3 := TryPage(job, p + 1, 0, c1, respond).0;
    var v := Classify(respond(Request(c1.requests, PageParams(job.base, p + 1), c1.session)));
    var g := c1.(requests := c1.requests + 1, trace := c1.trace + [Get(p + 1, 1, c1.session, v)]);
    if v.Forbidden? {
      TryPageExtends(job, p + 1, 1, g.(session := g.session + 1, trace := g.trace + [NewSession] + [Jitter]), respond);
    } else if BacksOff(v) {
      TryPageExtends(job, p + 1, 1, g.(trace := g.trace + [Sleep(Backoff(v, 1))]), respond);
    }
    assert g.trace <= c3.trace;
    HarvestFromExtends(job, p + 1, c1, respond);
    var t := HarvestFrom(job, p + 1, c1, respond).cursor.trace;
    assert c3.trace <= t by {
      var (c4, end) := TryPage(job, p + 1, 0, c1, respond);
      if end.Accepted? {
        var page := if |end.items| < job.perPage then job.maxPages else p + 1;
        var c5 := if page < job.maxPages then c4.(trace := c4.trace + [PolitePause]) else c4;
        HarvestFromExtends(job, p + 2, c5, respond);
      }
    }
    assert t[|c1.trace|] == g.trace[|c1.trace|];
  }

  /** A two-page harvest whose every answer is an empty page requests both pages. */
  lemma ShortPageCounterexample()
    ensures var h := Harvest(Job(2, 10, 1, map[]), (r: Request) => Reply(200, Json([])));
      Requests(h.cursor.trace) == 2 && h.stop == Completed
  {
    var job := Job(2, 10, 1, map[]);
    var respond := (r: Request) => Reply(200, Json([]));
    var c1 := Cursor([], [Get(1, 1, 0, Success([])), Fetched(1, [])], 1, 0);
    var c2 := Cursor([], [Get(1, 1, 0, Success([])), Fetched(1, []), Get(2, 1, 0, Success([])), Fetched(2, [])], 2, 0);
    assert Classify(respond(Request(0, PageParams(job.base, 1), 0))) == Success([]);
    assert Classify(respond(Request(1, PageParams(job.base, 2), 0))) == Success([]);
    assert [] + [Get(1, 1, 0, Success([]))] + [Fetched(1, [])] == c1.trace;
    assert c1.trace + [Get(2, 1, 0, Success([]))] + [Fetched(2, [])] == c2.trace;
    assert TryPage(job, 1, 0, Cursor([], [], 0, 0), respond).1 == Accepted([]);
    assert TryPage(job, 1, 0, Cursor([], [], 0, 0), respond).0.trace == c1.trace;
    assert TryPage(job, 1, 0, Cursor([], [], 0, 0), respond).0.collected == c1.collected;
    assert TryPage(job, 1, 0, Cursor([], [], 0, 0), respond) == (c1, Accepted([]));
    assert TryPage(job, 2, 0, c1, respond) == (c2, Accepted([]));
    assert Harvest(job, respond) == HarvestFrom(job, 2, c1, respond) == HarvestFrom(job, 3, c2, respond);
    AppendOne([], Get(1, 1, 0, Success([])));
    AppendOne([Get(1, 1, 0, Success([]))], Fetched(1, []));
    AppendOne([Get(1, 1, 0, Success([])), Fetched(1, [])], Get(2, 1, 0, Success([])));
    AppendOne([Get(1, 1, 0, Success([])), Fetched(1, []), Get(2, 1, 0, Success([]))], Fetched(2, []));
  }

  /** The page loop as its comments describe it: a short page ends the harvest. */
  function IntendedHarvestFrom(job: Job, p: int, c: Cursor, respond: Request -> Response): Outcome
    decreases if p <= job.maxPages then job.maxPages - p + 1 else 0
  {
    if p > job.maxPages then Outcome(c, Completed)
    else
      var (c1, end) := TryPage(job, p, 0, c, respond);
      match end
      case Blocked => Outcome(c1, Unauthorized401(p))
      case Exhausted => Outcome(c1, GaveUp(p))
      case Accepted(items) =>
        if |items| < job.perPage then Outcome(c1, Completed)
        else
          var c2 := if p < job.maxPages then c1.(trace := c1.trace + [PolitePause]) else c1;
          IntendedHarvestFrom(job, p + 1, c2, respond)
  }

  function IntendedHarvest(job: Job, respond: Request -> Response): Outcome
  {
    IntendedHarvestFrom(job, 1, Cursor([], [], 0, 0), respond)
  }

  ghost predicate NoShortPage(t: seq<Event>, perPage: int)
  {
    forall i :: 0 <= i < |t| && t[i].Fetched? ==> |t[i].items| >= perPage
  }

  /** A page with fewer than `perPage` items can only be the last event. */
  ghost predicate ShortPageLast(t: seq<Event>, perPage: int)
  {
    forall i :: 0 <= i < |t| && t[i].Fetched? && |t[i].items| < perPage ==> i == |t| - 1
  }

  /** One full page within the corrected loop keeps every page accepted so far full. */
  lemma FullPageStep(c: Cursor, c1: Cursor, end: PageEnd, p: int, perPage: int, pause: bool)
    requires PageShape(c, c1, end, p) && NoShortPage(c.trace, perPage)
    requires end.Accepted? ==> |end.items| >= perPage
    ensures NoShortPage((if pause then c1.(trace := c1.trace + [PolitePause]) else c1).trace, perPage)
  {
    var t := (if pause then c1.(trace := c1.trace + [PolitePause]) else c1).trace;
    forall i | 0 <= i < |t| && t[i].Fetched?
      ensures |t[i].items| >= perPage
    {
      if i < |c.trace| {
        assert t[i] == c.trace[i];
      } else {
        assert i == |c1.trace| - 1;
      }
    }
  }

  /** A page ending the corrected loop leaves a short page, if any, as the last event. */
  lemma LastPageStep(c: Cursor, c1: Cursor, end: PageEnd, p: int, perPage: int)
    requires PageShape(c, c1, end, p) && NoShortPage(c.trace, perPage)
    ensures ShortPageLast(c1.trace, perPage)
  {
    assert forall i :: 0 <= i < |c.trace| ==> c1.trace[i] == c.trace[i];
  }

  lemma {:induction false} IntendedShortPageIsLast(job: Job, p: int, c: Cursor, respond: Request -> Response)
    requires Consistent(c) && NoShortPage(c.trace, job.perPage)
    ensures ShortPageLast(IntendedHarvestFrom(job, p, c, respond).cursor.trace, job.perPage)
    decreases if p <= job.maxPages then job.maxPages - p + 1 else 0
  {
    if p <= job.maxPages {
      var (c1, end) := TryPage(job, p, 0, c, respond);
      TryPageShape(job, p, 0, c, respond);
      if end.Accepted? && |end.items| >= job.perPage {
        var c2 := if p < job.maxPages then c1.(trace := c1.trace + [PolitePause]) else c1;
        FullPageStep(c, c1, end, p, job.perPage, p < job.maxPages);
        if p < job.maxPages {
          AppendOne(c1.trace, PolitePause);
        }
        assert Consistent(c2);
        assert IntendedHarvestFrom(job, p, c, respond) == IntendedHarvestFrom(job, p + 1, c2, respond);
        IntendedShortPageIsLast(job, p + 1, c2, respond);
      } else {
        LastPageStep(c, c1, end, p, job.perPage);
      }
    }
  }

  /** Corrected: once a short page is accepted, no further request is issued. */
  lemma IntendedStopsAfterShortPage(job: Job, respond: Request -> Response)
    ensures var t := IntendedHarvest(job, respond).cursor.trace;
      forall i, j :: 0 <= i < j < |t| && t[i].Fetched? && |t[i].items| < job.perPage ==> !t[j].Get?
  {
    IntendedShortPageIsLast(job, 1, Cursor([], [], 0, 0), respond);
    var t := IntendedHarvestFrom(job, 1, Cursor([], [], 0, 0), respond).cursor.trace;
    assert t == IntendedHarvest(job, respond).cursor.trace;
  }
}
