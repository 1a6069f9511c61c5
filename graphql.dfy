/**
 * graphql.js: the decision logic of `graphqlRequest`. Each call (the first,
 * and each recursive retry) loads the stored credentials, refreshes them when
 * either is missing, sends the query once, and classifies the status: 0
 * throws, 401/403 refresh and retry, 429 retries while `retryCount < 5`, and
 * everything else is returned. The browser that carries the request is not
 * modelled; what the environment does at each attempt is given as a `Step`.
 */
module GraphQL {
  import opened Values

  const MaxRetries: nat := 5

  /** `{_ksr_session, csrf}` as `loadAuthData` or `refreshAuth` gives them. */
  datatype Creds = Creds(session: Value, csrf: Value)

  predicate Complete(c: Creds) {
    Truthy(c.session) && Truthy(c.csrf)
  }

  /** One call of `refreshAuth`: new credentials, or the error it throws. */
  datatype Refresh = Refreshed(creds: Creds) | RefreshFailed(message: string)

  /** What the in-page `fetch` reports: the status, the parsed body when the
      text parses as JSON, the raw text, and for status 0 the error message. */
  datatype Transport<J> = Transport(status: int, json: Option<J>, raw: string, error: Option<string>)

  /** What the environment does during one attempt: the credentials on disk,
      the result of `refreshAuth` if they are incomplete, the transport
      outcome, and the result of `refreshAuth` after a 401 or 403. */
  datatype Step<J> = Step(stored: Creds, initialRefresh: Refresh, transport: Transport<J>, authRefresh: Refresh)

  /** A returned value: the parsed body, or `{status, raw}` when it did not parse. */
  datatype Response<J> = Json(body: J) | StatusRaw(status: int, raw: string)

  /** How a call of `graphqlRequest` ends: a value, or a thrown error. */
  datatype Reply<J> = Replied(response: Response<J>) | Threw(message: string)

  /** The observable events of a call chain, in order. */
  datatype Event = RefreshAuth | Sent(retryCount: nat, creds: Creds, status: int)

  /** A call chain: its events and how it ended; `reply` is None when the
      given steps ran out before the chain ended. */
  datatype Run<J> = Run(events: seq<Event>, reply: Option<Reply<J>>)

  /** The outcome of one attempt: the call chain ends, or retries. */
  datatype AttemptResult<J> = Finished(events: seq<Event>, reply: Reply<J>) | Retry(events: seq<Event>)

  /** `result.json ?? { status, raw }` */
  function ResponseOf<J>(t: Transport<J>): Response<J> {
    match t.json
    case Some(body) => Json(body)
    case None => StatusRaw(t.status, t.raw)
  }

  /** `result.error || "Fetch failed"` */
  function FetchError<J>(t: Transport<J>): string {
    if PresentString(t.error) then t.error.value else "Fetch failed"
  }

  predicate AuthRejected(status: int) {
    status == 401 || status == 403
  }

  /** Whether an attempt got as far as sending the request. */
  predicate SentRequest<J>(s: Step<J>) {
    Complete(s.stored) || s.initialRefresh.Refreshed?
  }

  /** One attempt at retry count `retryCount`. */
  function Attempt<J>(s: Step<J>, retryCount: nat): (a: AttemptResult<J>)
    // the credential check comes before the request
    ensures Complete(s.stored) ==> |a.events| > 0 && a.events[0] == Sent(retryCount, s.stored, s.transport.status)
    ensures !Complete(s.stored) ==> |a.events| > 0 && a.events[0] == RefreshAuth
    ensures !Complete(s.stored) && s.initialRefresh.RefreshFailed? ==>
              a == Finished([RefreshAuth], Threw(s.initialRefresh.message))
    ensures !Complete(s.stored) && s.initialRefresh.Refreshed? ==>
              |a.events| > 1 && a.events[1] == Sent(retryCount, s.initialRefresh.creds, s.transport.status)
    // the classification, once the request was sent
    ensures var sent := SentRequest(s);
      && (a.Retry? <==> sent && ((AuthRejected(s.transport.status) && s.authRefresh.Refreshed?)
                                 || (s.transport.status == 429 && retryCount < MaxRetries)))
      && (sent && s.transport.status == 0 ==> a.reply == Threw(FetchError(s.transport)))
      && (a.Finished? && a.reply.Replied? <==>
            sent && s.transport.status != 0 && !AuthRejected(s.transport.status)
            && (s.transport.status == 429 ==> retryCount >= MaxRetries))
      && (a.Finished? && a.reply.Replied? ==> a.reply.response == ResponseOf(s.transport))
    // a 401/403 refreshes the credentials after the request; a refresh that throws ends the call
    ensures SentRequest(s) && AuthRejected(s.transport.status) ==>
        var creds := if Complete(s.stored) then s.stored else s.initialRefresh.creds;
        && |a.events| >= 2
        && a.events[|a.events| - 2] == Sent(retryCount, creds, s.transport.status)
        && a.events[|a.events| - 1] == RefreshAuth
        && (s.authRefresh.RefreshFailed? ==> a.Finished? && a.reply == Threw(s.authRefresh.message))
  {
    var pre: seq<Event> := if Complete(s.stored) then [] else [RefreshAuth];
    var creds := if Complete(s.stored) then Success(s.stored)
                 else if s.initialRefresh.Refreshed? then Success(s.initialRefresh.creds)
                 else Failure(s.initialRefresh.message);
    if creds.Failure? then Finished(pre, Threw(creds.error))
    else
      var t := s.transport;
      var sent := pre + [Sent(retryCount, creds.value, t.status)];
      if t.status == 0 then Finished(sent, Threw(FetchError(t)))
      else if AuthRejected(t.status) then
        match s.authRefresh
        case RefreshFailed(msg) => Finished(sent + [RefreshAuth], Threw(msg))
        case Refreshed(_) => Retry(sent + [RefreshAuth])
      else if t.status == 429 && retryCount < MaxRetries then Retry(sent)
      else Finished(sent, Replied(ResponseOf(t)))
  }

  /** `graphqlRequest(query, variables, retryCount)` against the attempts `steps`. */
  function Request<J>(steps: seq<Step<J>>, retryCount: nat): Run<J>
    decreases |steps|
  {
    if steps == [] then Run([], None)
    else
      match Attempt(steps[0], retryCount)
      case Finished(events, reply) => Run(events, Some(reply))
      case Retry(events) =>
        var rest := Request(steps[1..], retryCount + 1);
        Run(events + rest.events, rest.reply)
  }

  /** The retry counts of the requests a chain sends. */
  function SentCounts(events: seq<Event>): seq<nat> {
    if events == [] then []
    else (if events[0].Sent? then [events[0].retryCount] else []) + SentCounts(events[1..])
  }

  /** How many requests of a chain got status `status`. */
  function CountStatus(events: seq<Event>, status: int): nat {
    if events == [] then 0
    else (if events[0].Sent? && events[0].status == status then 1 else 0) + CountStatus(events[1..], status)
  }

  lemma {:induction false} SentCountsAppend(a: seq<Event>, b: seq<Event>)
    ensures SentCounts(a + b) == SentCounts(a) + SentCounts(b)
    decreases |a|
  {
    if a == [] {
      assert a + b == b;
    } else {
      assert (a + b)[0] == a[0];
      assert (a + b)[1..] == a[1..] + b;
      SentCountsAppend(a[1..], b);
      var head: seq<nat> := if a[0].Sent? then [a[0].retryCount] else [];
      assert SentCounts(a + b) == head + SentCounts(a[1..] + b);
      assert SentCounts(a) == head + SentCounts(a[1..]);
    }
  }

  lemma {:induction false} CountStatusAppend(a: seq<Event>, b: seq<Event>, status: int)
    ensures CountStatus(a + b, status) == CountStatus(a, status) + CountStatus(b, status)
    decreases |a|
  {
    if a == [] {
      assert a + b == b;
    } else {
      assert (a + b)[0] == a[0];
      assert (a + b)[1..] == a[1..] + b;
      CountStatusAppend(a[1..], b, status);
    }
  }

  /** An attempt sends at most one request, at the current retry count. */
  lemma AttemptSendsOnce<J>(s: Step<J>, retryCount: nat, status: int)
    ensures var a := Attempt(s, retryCount);
      && SentCounts(a.events) == (if SentRequest(s) then [retryCount] else [])
      && CountStatus(a.events, status) == (if SentRequest(s) && s.transport.status == status then 1 else 0)
  {
    var a := Attempt(s, retryCount);
    if SentRequest(s) {
      var pre: seq<Event> := if Complete(s.stored) then [] else [RefreshAuth];
      var creds := if Complete(s.stored) then s.stored else s.initialRefresh.creds;
      var sent := pre + [Sent(retryCount, creds, s.transport.status)];
      assert a.events == sent || a.events == sent + [RefreshAuth];
      SentCountsAppend(pre, [Sent(retryCount, creds, s.transport.status)]);
      SentCountsAppend(sent, [RefreshAuth]);
      CountStatusAppend(pre, [Sent(retryCount, creds, s.transport.status)], status);
      CountStatusAppend(sent, [RefreshAuth], status);
    } else {
      assert a.events == [RefreshAuth];
    }
  }

  /** `counts` is `start, start + 1, start + 2, ...` */
  predicate CountsFrom(counts: seq<nat>, start: nat) {
    forall k :: 0 <= k < |counts| ==> counts[k] == start + k
  }

  /** Every retry, whether after a 401/403 or a 429, raises the one shared
      counter by exactly one: the k-th request is sent with `retryCount + k`. */
  lemma {:induction false} RetryCountsConsecutive<J>(steps: seq<Step<J>>, retryCount: nat)
    ensures CountsFrom(SentCounts(Request(steps, retryCount).events), retryCount)
    decreases |steps|
  {
    if steps != [] {
      var a := Attempt(steps[0], retryCount);
      AttemptSendsOnce(steps[0], retryCount, 0);
      if a.Retry? {
        var rest := Request(steps[1..], retryCount + 1);
        RetryCountsConsecutive(steps[1..], retryCount + 1);
        SentCountsAppend(a.events, rest.events);
        var counts := SentCounts(Request(steps, retryCount).events);
        var later := SentCounts(rest.events);
        assert counts == [retryCount] + later;
        forall k | 0 <= k < |counts| ensures counts[k] == retryCount + k {
          if k > 0 {
            assert counts[k] == later[k - 1];
            assert CountsFrom(later, retryCount + 1);
          }
        }
      }
    }
  }

  /** At most 5 retries follow a 429 in any call chain: from `retryCount`, no
      more than `6 - retryCount` requests (and never fewer than one) can be
      answered 429, however auth retries are interleaved. */
  lemma {:induction false} RateLimitBudget<J>(steps: seq<Step<J>>, retryCount: nat)
    ensures CountStatus(Request(steps, retryCount).events, 429)
            <= if retryCount < MaxRetries then MaxRetries + 1 - retryCount else 1
    decreases |steps|
  {
    if steps != [] {
      var a := Attempt(steps[0], retryCount);
      AttemptSendsOnce(steps[0], retryCount, 429);
      if a.Retry? {
        var rest := Request(steps[1..], retryCount + 1);
        assert Request(steps, retryCount).events == a.events + rest.events;
        RateLimitBudget(steps[1..], retryCount + 1);
        CountStatusAppend(a.events, rest.events, 429);
        if CountStatus(a.events, 429) > 0 {
          RetriedOn429(steps[0], retryCount);
        }
      }
    }
  }

  /** An attempt answered 429 retries only below the ceiling. */
  lemma RetriedOn429<J>(s: Step<J>, retryCount: nat)
    requires Attempt(s, retryCount).Retry? && CountStatus(Attempt(s, retryCount).events, 429) > 0
    ensures retryCount < MaxRetries
  {
    AttemptSendsOnce(s, retryCount, 429);
  }

  /** An attempt whose credentials are on disk and whose request gets `status`. */
  predicate Answered<J>(s: Step<J>, status: int) {
    Complete(s.stored) && s.transport.status == status
  }

  /** A transport that keeps answering 429: the chain sends the request
      `6 - retryCount` times and then returns the last response; the
      exhausted 429 is returned, not thrown. */
  lemma {:induction false} RateLimitedToExhaustion<J>(steps: seq<Step<J>>, retryCount: nat)
    requires retryCount <= MaxRetries
    requires |steps| > MaxRetries - retryCount
    requires forall i :: 0 <= i < |steps| ==> Answered(steps[i], 429)
    ensures var run := Request(steps, retryCount);
      && run.reply == Some(Replied(ResponseOf(steps[MaxRetries - retryCount].transport)))
      && |SentCounts(run.events)| == MaxRetries + 1 - retryCount
    decreases MaxRetries - retryCount
  {
    var a := Attempt(steps[0], retryCount);
    assert SentCounts([a.events[0]]) == [retryCount];
    if retryCount < MaxRetries {
      assert Answered(steps[1..][0], 429);
      RateLimitedToExhaustion(steps[1..], retryCount + 1);
      SentCountsAppend(a.events, Request(steps[1..], retryCount + 1).events);
    }
  }

  /** 401 and 403 have no retry ceiling: any number of rejections, each
      followed by a successful refresh, still ends in the response that comes
      after them, whatever the counter has reached. The answer that ends the
      run may have any status the code does not retry or throw on: not 0,
      401, 403 or 429. */
  lemma {:induction false} AuthRetriesUnbounded<J>(steps: seq<Step<J>>, retryCount: nat, k: nat, status: int)
    requires k < |steps|
    requires forall i :: 0 <= i < k ==> Complete(steps[i].stored) && AuthRejected(steps[i].transport.status)
                                         && steps[i].authRefresh.Refreshed?
    requires Answered(steps[k], status) && status != 0 && !AuthRejected(status) && status != 429
    ensures Request(steps, retryCount).reply == Some(Replied(ResponseOf(steps[k].transport)))
    decreases k
  {
    if k > 0 {
      forall i | 0 <= i < k - 1
        ensures Complete(steps[1..][i].stored) && AuthRejected(steps[1..][i].transport.status)
                && steps[1..][i].authRefresh.Refreshed?
      {
        assert steps[1..][i] == steps[i + 1];
      }
      AuthRetriesUnbounded(steps[1..], retryCount + 1, k - 1, status);
    }
  }

  /** Auth retries spend the budget that 429 retries check: after five
      rejections a 429 is returned at once. */
  lemma AuthRetriesExhaustRateBudget<J>(steps: seq<Step<J>>)
    requires |steps| > MaxRetries
    requires forall i :: 0 <= i < MaxRetries ==> Complete(steps[i].stored) && AuthRejected(steps[i].transport.status)
                                                 && steps[i].authRefresh.Refreshed?
    requires Answered(steps[MaxRetries], 429)
    ensures Request(steps, 0).reply == Some(Replied(ResponseOf(steps[MaxRetries].transport)))
  {
    var s := steps;
    assert s[1..][1..] == s[2..] && s[2..][1..] == s[3..] && s[3..][1..] == s[4..] && s[4..][1..] == s[5..];
    AuthRetried(s, 0);
    AuthRetried(s[1..], 1);
    AuthRetried(s[2..], 2);
    AuthRetried(s[3..], 3);
    AuthRetried(s[4..], 4);
    assert s[5..][0] == s[5];
    SpentRateLimitReturns(s[5..], 5);
  }

  /** A rejected attempt followed by a successful refresh hands the call on
      to the next attempt, at the count plus one. */
  lemma AuthRetried<J>(steps: seq<Step<J>>, retryCount: nat)
    requires |steps| > 0 && Complete(steps[0].stored) && AuthRejected(steps[0].transport.status)
    requires steps[0].authRefresh.Refreshed?
    ensures Request(steps, retryCount).reply == Request(steps[1..], retryCount + 1).reply
  {
    assert Attempt(steps[0], retryCount).Retry?;
  }

  /** Once the count has reached 5, a 429 is returned. */
  lemma SpentRateLimitReturns<J>(steps: seq<Step<J>>, retryCount: nat)
    requires |steps| > 0 && Answered(steps[0], 429) && retryCount >= MaxRetries
    ensures Request(steps, retryCount).reply == Some(Replied(ResponseOf(steps[0].transport)))
  {
  }

  /** The call ends without a value exactly when every scripted attempt asked
      for a retry. */
  lemma {:induction false} Unanswered<J>(steps: seq<Step<J>>, retryCount: nat)
    ensures Request(steps, retryCount).reply.None? <==>
      forall i :: 0 <= i < |steps| ==> Attempt(steps[i], retryCount + i).Retry?
    decreases |steps|
  {
    if steps != [] {
      Unanswered(steps[1..], retryCount + 1);
      if Attempt(steps[0], retryCount).Retry? {
        forall i | 0 <= i < |steps[1..]|
          ensures Attempt(steps[1..][i], retryCount + 1 + i) == Attempt(steps[i + 1], retryCount + (i + 1))
        {
          assert steps[1..][i] == steps[i + 1];
        }
      }
    }
  }

  /** A chain that returns a value returns the response of one of its
      attempts, one that was neither 0, 401 nor 403, and a 429 only once the
      counter had reached 5. A body with GraphQL `errors` is such a value. */
  lemma {:induction false} ReturnedResponses<J>(steps: seq<Step<J>>, retryCount: nat)
    requires Request(steps, retryCount).reply.Some? && Request(steps, retryCount).reply.value.Replied?
    ensures exists k :: 0 <= k < |steps| && ReturnedAt(steps, retryCount, k)
    decreases |steps|
  {
    if Attempt(steps[0], retryCount).Finished? {
      assert ReturnedAt(steps, retryCount, 0);
    } else {
      ReturnedResponses(steps[1..], retryCount + 1);
      var k :| 0 <= k < |steps| - 1 && ReturnedAt(steps[1..], retryCount + 1, k);
      assert ReturnedAt(steps, retryCount, k + 1);
    }
  }

  ghost predicate ReturnedAt<J>(steps: seq<Step<J>>, retryCount: nat, k: nat)
    requires k < |steps|
  {
    var t := steps[k].transport;
    && Request(steps, retryCount).reply == Some(Replied(ResponseOf(t)))
    && t.status != 0 && !AuthRejected(t.status)
    && (t.status == 429 ==> retryCount + k >= MaxRetries)
  }

  /** Status 0 never retries: the chain throws the transport's message, or
      "Fetch failed", right after sending. */
  lemma StatusZeroThrows<J>(steps: seq<Step<J>>, retryCount: nat)
    requires steps != [] && Answered(steps[0], 0)
    ensures Request(steps, retryCount) ==
            Run([Sent(retryCount, steps[0].stored, 0)], Some(Threw(FetchError(steps[0].transport))))
  {
  }

  /** Missing credentials are refreshed before the request, and the request
      carries the refreshed pair. */
  lemma RefreshBeforeRequest<J>(steps: seq<Step<J>>, retryCount: nat)
    requires steps != [] && !Complete(steps[0].stored)
    ensures var run := Request(steps, retryCount);
      && run.events[0] == RefreshAuth
      && (steps[0].initialRefresh.Refreshed? ==>
            run.events[1] == Sent(retryCount, steps[0].initialRefresh.creds, steps[0].transport.status))
      && (steps[0].initialRefresh.RefreshFailed? ==>
            run == Run([RefreshAuth], Some(Threw(steps[0].initialRefresh.message))))
  {
    var a := Attempt(steps[0], retryCount);
    if a.Retry? {
      var rest := Request(steps[1..], retryCount + 1);
      assert (a.events + rest.events)[0] == a.events[0];
      assert (a.events + rest.events)[1] == a.events[1];
    }
  }
}
