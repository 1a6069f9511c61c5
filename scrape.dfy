/**
 * scrape.js: `runScraper(maxPages)` pages through the recommended-projects
 * query, following `pageInfo.endCursor` while `pageInfo.hasNextPage` holds,
 * collects the edges of every page into a batch, merges the batch into the
 * store once it holds at least 50 edges, and merges what is left after the
 * loop. The loop is a do-while: the first page is always requested, and the
 * page limit is checked after each page.
 */
module Scrape {
  import opened Values
  import opened Records
  import opened GraphQL
  import opened Files

  const BatchSize: nat := 50

  datatype PageInfo = PageInfo(hasNextPage: Value, endCursor: Value)

  /** `data.projects` of a reply; `edges` and `pageInfo` are None when missing. */
  datatype Connection = Connection(edges: Option<seq<Edge>>, pageInfo: Option<PageInfo>)

  /** A parsed reply body; `projects` is None when `data` or `data.projects`
      is missing or null (for instance when the body only holds `errors`). */
  datatype Payload = Payload(projects: Option<Connection>)

  /** What `graphqlRequest(query2, { nextCursor })` does for the page with
      the given index and cursor. */
  type Fetch = (nat, Value) -> Reply<Payload>

  /** `data?.data?.projects?.edges || []`; a `{status, raw}` reply has none. */
  function PageEdges(r: Response<Payload>): seq<Edge> {
    if r.Json? && r.body.projects.Some? && r.body.projects.value.edges.Some?
    then r.body.projects.value.edges.value
    else []
  }

  /** `pageInfo?.hasNextPage ? pageInfo.endCursor : null` */
  function NextCursor(r: Response<Payload>): Value {
    if r.Json? && r.body.projects.Some? && r.body.projects.value.pageInfo.Some?
       && Truthy(r.body.projects.value.pageInfo.value.hasNextPage)
    then r.body.projects.value.pageInfo.value.endCursor
    else Null
  }

  /** Why a run ended early: a request threw, or a merge threw. */
  datatype ScrapeError = RequestFailed(message: string) | MergeFailed(error: MergeError)

  /** The loop's variables between two pages, with what has been observed so
      far: the cursors sent, the batches handed to the merge, and the stores
      written. */
  datatype Progress = Progress(
    cursor: Value,
    batch: seq<Edge>,
    pages: nat,
    total: nat,
    store: Store,
    cursors: seq<Value>,
    flushes: seq<seq<Edge>>,
    saved: seq<Store>)

  /** How a run ends: the cursors sent in order, the batches merged in order
      (including one whose merge threw), the edge count, the store, the stores
      written, and the error that ended the run early, if any. */
  datatype Outcome = Outcome(
    cursors: seq<Value>,
    flushes: seq<seq<Edge>>,
    total: nat,
    store: Store,
    saved: seq<Store>,
    error: Option<ScrapeError>)

  /** `saveOrUpdateProjects(batchOfEdges)`, the n-th one with the n-th clock reading. */
  function Flush(p: Progress, clock: nat -> string): Result<Progress, MergeError> {
    match Merge(p.store, Array(p.batch), clock(|p.flushes|))
    case Failure(e) => Failure(e)
    case Success(st) =>
      Success(p.(batch := [], store := st.projects, flushes := p.flushes + [p.batch],
                 saved := p.saved + [st.projects]))
  }

  /** A run that stops because the merge of `p.batch` threw. */
  function MergeStopped(p: Progress, e: MergeError): Outcome {
    Outcome(p.cursors, p.flushes + [p.batch], p.total, p.store, p.saved, Some(MergeFailed(e)))
  }

  /** After the loop: the last batch is merged, however small. */
  function Final(p: Progress, clock: nat -> string): Outcome {
    match Flush(p, clock)
    case Failure(e) => MergeStopped(p, e)
    case Success(q) => Outcome(q.cursors, q.flushes, q.total, q.store, q.saved, None)
  }

  /** One pass of the loop body ends the run, or yields the variables for
      the next pass (before the loop condition is tested). */
  datatype Pass = Next(next: Progress) | Stopped(outcome: Outcome)

  /** One pass of the loop body: request the page at `p.cursor`, add its
      edges to the batch, merge the batch once it holds 50 edges. */
  function PageStep(fetch: Fetch, clock: nat -> string, p: Progress): (s: Pass)
    ensures s.Next? ==>
      && fetch(p.pages, p.cursor).Replied?
      && s.next.cursor == NextCursor(fetch(p.pages, p.cursor).response)
      && s.next.cursors == p.cursors + [p.cursor]
      && s.next.pages == p.pages + 1
    ensures s.Stopped? ==> s.outcome.cursors == p.cursors + [p.cursor] && s.outcome.error.Some?
    ensures s.Stopped? && s.outcome.error.value.RequestFailed? ==>
      fetch(p.pages, p.cursor) == Threw(s.outcome.error.value.message)
  {
    var cursors := p.cursors + [p.cursor];
    match fetch(p.pages, p.cursor)
    case Threw(msg) => Stopped(Outcome(cursors, p.flushes, p.total, p.store, p.saved, Some(RequestFailed(msg))))
    case Replied(resp) =>
      var q := Absorb(p, resp);
      var flushed := if |q.batch| >= BatchSize then Flush(q, clock) else Success(q);
      if flushed.Failure? then Stopped(MergeStopped(q, flushed.error))
      else Next(flushed.value.(pages := p.pages + 1))
  }

  /** The do-while condition, tested after the page count was raised. */
  predicate Stops(maxPages: int, p: Progress) {
    p.pages >= maxPages || !Truthy(p.cursor)
  }

  /** The rest of the run from the top of the loop body. */
  function Continue(fetch: Fetch, clock: nat -> string, maxPages: int, p: Progress): Outcome
    decreases if maxPages > p.pages then maxPages - p.pages else 0
  {
    match PageStep(fetch, clock, p)
    case Stopped(o) => o
    case Next(r) => if Stops(maxPages, r) then Final(r, clock) else Continue(fetch, clock, maxPages, r)
  }

  function Start(existing: Store): Progress {
    Progress(Null, [], 0, 0, existing, [], [], [])
  }

  /** A whole run of `runScraper(maxPages)` over the store `existing`. */
  function Scrape(fetch: Fetch, clock: nat -> string, maxPages: int, existing: Store): Outcome {
    Continue(fetch, clock, maxPages, Start(existing))
  }

  /** One pass of the loop body on the loop's variables `p`, the imperative
      counterpart of `PageStep`. `file` holds `p.store`, and its writes so far
      end with `p.saved`. */
  method PagePass(file: ProjectFile, fetch: Fetch, clock: nat -> string, p: Progress, ghost earlier: seq<Store>)
    returns (s: Pass)
    requires file.contents == p.store && file.saves == earlier + p.saved
    modifies file
    ensures s == PageStep(fetch, clock, p)
    ensures s.Next? ==> file.contents == s.next.store && file.saves == earlier + s.next.saved
    ensures s.Stopped? ==> file.contents == s.outcome.store && file.saves == earlier + s.outcome.saved
  {
    var data := fetch(p.pages, p.cursor);
    var cursors := p.cursors + [p.cursor];
    if data.Threw? {
      return Stopped(Outcome(cursors, p.flushes, p.total, p.store, p.saved, Some(RequestFailed(data.message))));
    }
    var edges := PageEdges(data.response);
    var q := p.(cursor := NextCursor(data.response), batch := p.batch + edges, total := p.total + |edges|,
                cursors := cursors);
    assert q == Absorb(p, data.response);
    if |q.batch| >= BatchSize {
      var r, _, _ := SaveOrUpdateProjects(file, Array(q.batch), clock(|q.flushes|));
      if r.Failure? {
        return Stopped(MergeStopped(q, r.error));
      }
      q := q.(batch := [], store := r.value, flushes := q.flushes + [q.batch], saved := q.saved + [r.value]);
      assert file.saves == earlier + q.saved;
    }
    return Next(q.(pages := p.pages + 1));
  }

  /** `runScraper(maxPages)`: `fetch` answers the requests, `clock` gives the
      time each merge reads, and `file` is `projects.json`. The loop's
      variables `nextCursor`, `batchOfEdges`, `pageCount` and `totalEdges`
      are the fields of `p`. */
  method RunScraper(file: ProjectFile, fetch: Fetch, clock: nat -> string, maxPages: int)
    returns (cursors: seq<Value>, flushes: seq<seq<Edge>>, totalEdges: nat, error: Option<ScrapeError>)
    modifies file
    ensures var o := Scrape(fetch, clock, maxPages, old(file.contents));
      && cursors == o.cursors && flushes == o.flushes && totalEdges == o.total && error == o.error
      && file.contents == o.store && file.saves == old(file.saves) + o.saved
  {
    var p := Start(file.contents);
    ghost var outcome := Scrape(fetch, clock, maxPages, old(file.contents));
    while true
      invariant Continue(fetch, clock, maxPages, p) == outcome
      invariant file.contents == p.store && file.saves == old(file.saves) + p.saved
      decreases if maxPages > p.pages then maxPages - p.pages else 0
    {
      var s := PagePass(file, fetch, clock, p, old(file.saves));
      if s.Stopped? {
        return s.outcome.cursors, s.outcome.flushes, s.outcome.total, s.outcome.error;
      }
      p := s.next;
      if p.pages >= maxPages || !Truthy(p.cursor) {
        break;
      }
    }
    var r, _, _ := SaveOrUpdateProjects(file, Array(p.batch), clock(|p.flushes|));
    cursors, flushes, totalEdges := p.cursors, p.flushes + [p.batch], p.total;
    error := if r.Failure? then Some(MergeFailed(r.error)) else None;
    if r.Success? {
      assert file.saves == old(file.saves) + (p.saved + [r.value]);
    }
  }

  // ---- the cursor chain ----

  /** Each cursor after the first is the `endCursor` of the page before it,
      which was answered and said it had a next page. */
  ghost predicate Linked(fetch: Fetch, cs: seq<Value>) {
    forall i :: 0 <= i < |cs| - 1 ==> LinkAt(fetch, cs, i)
  }

  ghost predicate LinkAt(fetch: Fetch, cs: seq<Value>, i: nat)
    requires i < |cs| - 1
  {
    fetch(i, cs[i]).Replied? && cs[i + 1] == NextCursor(fetch(i, cs[i]).response) && Truthy(cs[i + 1])
  }

  /** The loop is at its top with `p`: what holds there. */
  ghost predicate AtTop(fetch: Fetch, maxPages: int, p: Progress) {
    && |p.cursors| == p.pages
    && (p.pages == 0 || p.pages < maxPages)
    && (p.cursors + [p.cursor])[0] == Null
    && Linked(fetch, p.cursors + [p.cursor])
  }

  function Max1(n: int): nat {
    if n < 1 then 1 else n
  }

  /** What the cursors of a run from `p` look like. */
  ghost predicate CursorsOk(fetch: Fetch, maxPages: int, o: Outcome) {
    var cs := o.cursors;
    && |cs| >= 1 && cs[0] == Null && |cs| <= Max1(maxPages)
    && Linked(fetch, cs)
    && (o.error.Some? && o.error.value.RequestFailed? ==>
          fetch(|cs| - 1, cs[|cs| - 1]) == Threw(o.error.value.message))
    && (o.error.None? ==>
          && fetch(|cs| - 1, cs[|cs| - 1]).Replied?
          && (|cs| >= maxPages || !Truthy(NextCursor(fetch(|cs| - 1, cs[|cs| - 1]).response))))
  }

  lemma {:induction false} ContinueCursors(fetch: Fetch, clock: nat -> string, maxPages: int, p: Progress)
    requires AtTop(fetch, maxPages, p)
    ensures CursorsOk(fetch, maxPages, Continue(fetch, clock, maxPages, p))
    decreases if maxPages > p.pages then maxPages - p.pages else 0
  {
    var cs := p.cursors + [p.cursor];
    match PageStep(fetch, clock, p)
    case Stopped(o) =>
    case Next(r) =>
      if Stops(maxPages, r) {
        assert Final(r, clock).cursors == cs;
      } else {
        var cs' := r.cursors + [r.cursor];
        assert cs'[0] == cs[0];
        forall i | 0 <= i < |cs'| - 1 ensures LinkAt(fetch, cs', i) {
          if i < |cs| - 1 {
            assert LinkAt(fetch, cs, i);
          }
        }
        ContinueCursors(fetch, clock, maxPages, r);
      }
  }

  /** The run sends the null cursor first and each later cursor is the
      `endCursor` of the page before, which said `hasNextPage`; it requests
      at most `max(1, maxPages)` pages. A run that ends normally ends on an
      answered page that reached the page limit or had no next page; one
      that ends on a thrown request reports that request's error. No empty
      page stops the run by itself. */
  lemma ScrapeCursors(fetch: Fetch, clock: nat -> string, maxPages: int, existing: Store)
    ensures CursorsOk(fetch, maxPages, Scrape(fetch, clock, maxPages, existing))
  {
    ContinueCursors(fetch, clock, maxPages, Start(existing));
  }

  // ---- batches ----

  /** The edges the page request `i` with cursor `c` yielded; none if it threw. */
  ghost function EdgesAt(fetch: Fetch, i: nat, c: Value): seq<Edge> {
    if fetch(i, c).Replied? then PageEdges(fetch(i, c).response) else []
  }

  /** The edges of each page requested with the cursors `cs`, in order. */
  ghost function Pages(fetch: Fetch, cs: seq<Value>): (pages: seq<seq<Edge>>)
    ensures |pages| == |cs|
    decreases |cs|
  {
    if cs == [] then [] else Pages(fetch, cs[..|cs| - 1]) + [EdgesAt(fetch, |cs| - 1, cs[|cs| - 1])]
  }

  function Concat(ss: seq<seq<Edge>>): seq<Edge>
    decreases |ss|
  {
    if ss == [] then [] else Concat(ss[..|ss| - 1]) + ss[|ss| - 1]
  }

  lemma ConcatSnoc(ss: seq<seq<Edge>>, x: seq<Edge>)
    ensures Concat(ss + [x]) == Concat(ss) + x
  {
    assert (ss + [x])[..|ss|] == ss;
  }

  lemma PagesSnoc(fetch: Fetch, cs: seq<Value>, c: Value)
    ensures Pages(fetch, cs + [c]) == Pages(fetch, cs) + [EdgesAt(fetch, |cs|, c)]
  {
    assert (cs + [c])[..|cs|] == cs;
  }

  /** What holds of the batches at the top of the loop. */
  ghost predicate Batched(fetch: Fetch, p: Progress) {
    && |p.cursors| == p.pages
    && Concat(p.flushes) + p.batch == Concat(Pages(fetch, p.cursors))
    && p.total == |Concat(Pages(fetch, p.cursors))|
    && |p.batch| < BatchSize
    && forall j :: 0 <= j < |p.flushes| ==> |p.flushes[j]| >= BatchSize
  }

  /** What a run hands to the merge. */
  ghost predicate BatchesOk(fetch: Fetch, o: Outcome) {
    var all := Concat(Pages(fetch, o.cursors));
    && o.total == |all|
    && Concat(o.flushes) <= all
    && (forall j :: 0 <= j < |o.flushes| - 1 ==> |o.flushes[j]| >= BatchSize)
    && (o.error.None? ==>
          && Concat(o.flushes) == all
          && |o.flushes| >= 1
          && |o.flushes[|o.flushes| - 1]| < BatchSize)
  }

  lemma FinalBatches(fetch: Fetch, clock: nat -> string, r: Progress)
    requires Batched(fetch, r)
    ensures BatchesOk(fetch, Final(r, clock))
  {
    ConcatSnoc(r.flushes, r.batch);
  }

  /** What holds after one pass: the loop's batch invariant, or the run's
      batch guarantees when the pass ended it. */
  ghost predicate PassOk(fetch: Fetch, s: Pass) {
    if s.Next? then Batched(fetch, s.next) else BatchesOk(fetch, s.outcome)
  }

  lemma PageStepBatches(fetch: Fetch, clock: nat -> string, p: Progress)
    requires Batched(fetch, p)
    ensures PassOk(fetch, PageStep(fetch, clock, p))
  {
    match fetch(p.pages, p.cursor)
    case Threw(_) =>
      ThrownPage(fetch, clock, p);
    case Replied(resp) =>
      RepliedPage(fetch, clock, p, resp);
  }

  /** The loop variables once the answered page `resp` has been taken in. */
  function Absorb(p: Progress, resp: Response<Payload>): Progress {
    p.(cursor := NextCursor(resp), batch := p.batch + PageEdges(resp),
       total := p.total + |PageEdges(resp)|, cursors := p.cursors + [p.cursor])
  }

  /** The edges fetched once the page at `p.cursor` is in. */
  lemma PageIn(fetch: Fetch, p: Progress)
    requires Batched(fetch, p)
    ensures Concat(Pages(fetch, p.cursors + [p.cursor]))
            == Concat(p.flushes) + (p.batch + EdgesAt(fetch, p.pages, p.cursor))
  {
    PagesSnoc(fetch, p.cursors, p.cursor);
    ConcatSnoc(Pages(fetch, p.cursors), EdgesAt(fetch, p.pages, p.cursor));
  }

  lemma ThrownPage(fetch: Fetch, clock: nat -> string, p: Progress)
    requires Batched(fetch, p)
    requires fetch(p.pages, p.cursor).Threw?
    ensures PassOk(fetch, PageStep(fetch, clock, p))
  {
    PageIn(fetch, p);
  }

  lemma RepliedPage(fetch: Fetch, clock: nat -> string, p: Progress, resp: Response<Payload>)
    requires Batched(fetch, p)
    requires fetch(p.pages, p.cursor) == Replied(resp)
    ensures PassOk(fetch, PageStep(fetch, clock, p))
  {
    PageIn(fetch, p);
    var q := Absorb(p, resp);
    assert q.cursors == p.cursors + [p.cursor] && q.batch == p.batch + EdgesAt(fetch, p.pages, p.cursor);
    ConcatSnoc(q.flushes, q.batch);
    BatchedStep(fetch, clock, q);
    var flushed := if |q.batch| >= BatchSize then Flush(q, clock) else Success(q);
    assert PageStep(fetch, clock, p) == if flushed.Failure? then Stopped(MergeStopped(q, flushed.error))
                                        else Next(flushed.value.(pages := p.pages + 1));
  }

  /** The flush test of one pass, after the page's edges joined the batch. */
  lemma BatchedStep(fetch: Fetch, clock: nat -> string, q: Progress)
    requires |q.cursors| == q.pages + 1
    requires Concat(q.flushes) + q.batch == Concat(Pages(fetch, q.cursors))
    requires q.total == |Concat(Pages(fetch, q.cursors))|
    requires forall j :: 0 <= j < |q.flushes| ==> |q.flushes[j]| >= BatchSize
    requires Concat(q.flushes + [q.batch]) == Concat(q.flushes) + q.batch
    ensures var flushed := if |q.batch| >= BatchSize then Flush(q, clock) else Success(q);
      PassOk(fetch, if flushed.Failure? then Stopped(MergeStopped(q, flushed.error))
                    else Next(flushed.value.(pages := q.pages + 1)))
  {
    if |q.batch| >= BatchSize && Flush(q, clock).Success? {
      var r := Flush(q, clock).value;
      assert r.flushes == q.flushes + [q.batch] && r.batch == [];
      assert Concat(r.flushes) + r.batch == Concat(q.flushes + [q.batch]);
    }
  }

  lemma {:induction false} ContinueBatches(fetch: Fetch, clock: nat -> string, maxPages: int, p: Progress)
    requires Batched(fetch, p)
    ensures BatchesOk(fetch, Continue(fetch, clock, maxPages, p))
    decreases if maxPages > p.pages then maxPages - p.pages else 0
  {
    PageStepBatches(fetch, clock, p);
    match PageStep(fetch, clock, p)
    case Stopped(o) =>
    case Next(r) =>
      if Stops(maxPages, r) {
        FinalBatches(fetch, clock, r);
      } else {
        ContinueBatches(fetch, clock, maxPages, r);
      }
  }

  /** Every merge but the last gets at least 50 edges. What is merged is the
      fetched edges in fetch order, with nothing repeated or dropped once the
      run completes; the last merge of a completed run gets fewer than 50
      edges, and it happens even when it gets none. A run stopped by a thrown
      request never merges the batch it was holding. */
  lemma ScrapeBatches(fetch: Fetch, clock: nat -> string, maxPages: int, existing: Store)
    ensures BatchesOk(fetch, Scrape(fetch, clock, maxPages, existing))
  {
    ContinueBatches(fetch, clock, maxPages, Start(existing));
  }

  // ---- the store ----

  /** The ids the batches `fs` carry. */
  function FlushedIds(fs: seq<seq<Edge>>): set<string>
    decreases |fs|
  {
    if fs == [] then {} else FlushedIds(fs[..|fs| - 1]) + Ids(fs[|fs| - 1])
  }

  ghost predicate Stored(existing: Store, p: Progress) {
    && |p.saved| == |p.flushes|
    && p.store.Keys == existing.Keys + FlushedIds(p.flushes)
    && (p.saved != [] ==> p.saved[|p.saved| - 1] == p.store)
  }

  /** What a run leaves in the store. */
  ghost predicate StoreOk(existing: Store, o: Outcome) {
    && |o.saved| <= |o.flushes| <= |o.saved| + 1
    && ((o.error.Some? && o.error.value.MergeFailed?) <==> |o.flushes| == |o.saved| + 1)
    && o.store.Keys == existing.Keys + FlushedIds(o.flushes[..|o.saved|])
    && o.store == (if o.saved == [] then existing else o.saved[|o.saved| - 1])
  }

  lemma FlushStored(existing: Store, clock: nat -> string, p: Progress)
    requires Stored(existing, p)
    ensures Flush(p, clock).Success? ==> Stored(existing, Flush(p, clock).value)
  {
    if Flush(p, clock).Success? {
      var q := Flush(p, clock).value;
      MergeKeepsIds(p.store, p.batch, clock(|p.flushes|));
      assert q.flushes[..|p.flushes|] == p.flushes;
    }
  }

  lemma PageStepStored(fetch: Fetch, clock: nat -> string, existing: Store, p: Progress)
    requires Stored(existing, p)
    requires p.saved == [] ==> p.store == existing
    ensures PageStep(fetch, clock, p).Next? ==> Stored(existing, PageStep(fetch, clock, p).next)
    ensures PageStep(fetch, clock, p).Next? && PageStep(fetch, clock, p).next.saved == [] ==>
              PageStep(fetch, clock, p).next.store == existing
    ensures PageStep(fetch, clock, p).Stopped? ==> StoreOk(existing, PageStep(fetch, clock, p).outcome)
  {
    match fetch(p.pages, p.cursor)
    case Threw(_) =>
      assert p.flushes[..|p.saved|] == p.flushes;
    case Replied(resp) =>
      var q := Absorb(p, resp);
      FlushStored(existing, clock, q);
      assert (q.flushes + [q.batch])[..|q.saved|] == q.flushes;
  }

  lemma FinalStored(existing: Store, clock: nat -> string, r: Progress)
    requires Stored(existing, r)
    requires r.saved == [] ==> r.store == existing
    ensures StoreOk(existing, Final(r, clock))
  {
    FlushStored(existing, clock, r);
    assert (r.flushes + [r.batch])[..|r.saved|] == r.flushes;
    if Flush(r, clock).Success? {
      var q := Flush(r, clock).value;
      assert q.flushes[..|q.saved|] == q.flushes;
    }
  }

  lemma {:induction false} ContinueStored(fetch: Fetch, clock: nat -> string, maxPages: int, existing: Store, p: Progress)
    requires Stored(existing, p)
    requires p.saved == [] ==> p.store == existing
    ensures StoreOk(existing, Continue(fetch, clock, maxPages, p))
    decreases if maxPages > p.pages then maxPages - p.pages else 0
  {
    PageStepStored(fetch, clock, existing, p);
    match PageStep(fetch, clock, p)
    case Stopped(o) =>
    case Next(r) =>
      if Stops(maxPages, r) {
        FinalStored(existing, clock, r);
      } else {
        ContinueStored(fetch, clock, maxPages, existing, r);
      }
  }

  /** Each merge that does not throw is written out, and the store ends as
      the last one written. Its ids are the ids it started with plus those of
      every batch merged without an exception; a batch whose merge threw adds
      nothing. */
  lemma ScrapeStore(fetch: Fetch, clock: nat -> string, maxPages: int, existing: Store)
    ensures StoreOk(existing, Scrape(fetch, clock, maxPages, existing))
  {
    ContinueStored(fetch, clock, maxPages, existing, Start(existing));
  }
}
