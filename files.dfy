/**
 * files.js: the `projects.json` store and `saveOrUpdateProjects`, which merges
 * one batch of fetched edges into it. The merge creates a record on the first
 * sighting of an id, fills descriptive fields only when they are missing,
 * appends a funding snapshot only when it differs from the last one, and
 * never removes an id.
 */
module Files {
  import opened Values
  import opened Records
  import Slug

  /** The `projects.json` file: its current contents and every write made to
      it, oldest first. Reading it is `loadProjects`, writing it `saveProjects`. */
  class ProjectFile {
    var contents: Store
    var saves: seq<Store>

    constructor (initial: Store)
      ensures contents == initial && saves == []
    {
      contents, saves := initial, [];
    }

    /** `loadProjects`: returns the store as last written. A missing or
        unreadable file is not modelled (see the README on file I/O). */
    method Load() returns (m: Store)
      ensures m == contents
    {
      m := contents;
    }

    /** `saveProjects`: replaces the whole file. */
    method Save(m: Store)
      modifies this
      ensures contents == m && saves == old(saves) + [m]
    {
      contents, saves := m, saves + [m];
    }
  }

  /** The argument of `saveOrUpdateProjects`: an array of edges or anything else. */
  datatype ApiData = Array(items: seq<Edge>) | NotArray

  /** What `saveOrUpdateProjects` throws: its own input check, and the
      TypeErrors raised by `url.match` on a non-string URL and by
      `node.pledged.amount` on a missing `pledged`. */
  datatype MergeError = ExpectedArrayInput | UrlNotString(id: string) | PledgedMissing(id: string)

  /** The id an edge is filed under; None when `item?.node?.id` is falsy. */
  function IdOf(e: Edge): Option<string> {
    if e.node.Some? && PresentString(e.node.value.id) then Some(e.node.value.id.value) else None
  }

  /** The exception an identified node raises before anything is stored. */
  function NodeFault(node: Node, id: string): Option<MergeError> {
    if !node.url.Str? then Some(UrlNotString(id))
    else if node.pledged.None? then Some(PledgedMissing(id))
    else None
  }

  /** An edge that makes the merge throw. */
  predicate Faulty(e: Edge) {
    IdOf(e).Some? && NodeFault(e.node.value, IdOf(e).value).Some?
  }

  /** The latest funding data of a node. */
  function FundingSnapshot(node: Node, now: string): Snapshot
    requires node.pledged.Some?
  {
    Snapshot(
      Str(now),
      Or(node.backersCount, Num(0)),
      Or(node.pledged.value.amount, Num(0)),
      Or(node.pledged.value.currency, Null),
      Or(node.percentFunded, Num(0)),
      Or(node.deadlineAt, Null))
  }

  function CreatorOf(node: Node): Creator {
    var name := if node.creator.Some? then node.creator.value.name else Undefined;
    var url := if node.creator.Some? then node.creator.value.url else Undefined;
    Creator(Or(name, Str("")), Or(url, Str("")), Undefined)
  }

  function TagsOf(node: Node): Tags {
    Tags(Or(node.isLaunched, Bool(false)),
         Or(node.isProjectWeLove, Bool(false)),
         Or(node.isProjectOfTheDay, Bool(false)))
  }

  function SlugValue(url: string): Value {
    match Slug.ExtractSlug(url)
    case Some(s) => Str(s)
    case None => Null
  }

  /** The snapshot compared against: the last entry, or `{}` for an empty history. */
  function LastSnapshot(history: seq<Snapshot>): Snapshot {
    if history == [] then Snapshot(Undefined, Undefined, Undefined, Undefined, Undefined, Undefined)
    else history[|history| - 1]
  }

  /** The de-duplication rule: only backers, pledged amount and percentage count. */
  predicate Differs(last: Snapshot, snap: Snapshot) {
    || last.backersCount != snap.backersCount
    || last.pledged != snap.pledged
    || last.percentFunded != snap.percentFunded
  }

  /** The record made on the first sighting of `id`. */
  function NewRecord(id: string, node: Node, snap: Snapshot, now: string): Project
    requires node.url.Str?
  {
    Project(
      id := Str(id),
      slug := SlugValue(node.url.s),
      url := node.url,
      name := Or(node.name, Str("")),
      description := Or(node.description, Str("")),
      creator := Some(CreatorOf(node)),
      fundingHistory := Some([snap]),
      tags := Some(TagsOf(node)),
      lastUpdated := Str(now),
      collaborators := None,
      enriched := Undefined,
      isLaunched := Undefined,
      deadlineAt := Undefined,
      currency := Undefined)
  }

  /** A re-sighting of a stored record `p`. */
  function Resight(p: Project, node: Node, snap: Snapshot, now: string): (q: Project)
    // fill-if-missing: a truthy name or description is kept
    ensures Truthy(p.name) ==> q.name == p.name
    ensures Truthy(p.description) ==> q.description == p.description
    ensures !Truthy(p.name) ==> q.name == Or(node.name, Str(""))
    ensures !Truthy(p.description) ==> q.description == Or(node.description, Str(""))
    // creator and tags are set only when absent
    ensures q.creator == if p.creator.Some? then p.creator else Some(CreatorOf(node))
    ensures q.tags == if p.tags.Some? then p.tags else Some(TagsOf(node))
    // the history is kept and grows by the snapshot exactly when it differs
    ensures q.fundingHistory.Some?
    ensures var h := p.fundingHistory.GetOr([]);
      && |q.fundingHistory.value| == (if Differs(LastSnapshot(h), snap) then |h| + 1 else |h|)
      && q.fundingHistory.value[..|h|] == h
      && (|q.fundingHistory.value| > |h| ==> q.fundingHistory.value[|h|] == snap)
    ensures q.lastUpdated == Str(now)
    // nothing else changes
    ensures q.(name := p.name, description := p.description, creator := p.creator,
               tags := p.tags, fundingHistory := p.fundingHistory, lastUpdated := p.lastUpdated) == p
  {
    var history := p.fundingHistory.GetOr([]);
    p.(name := Or(p.name, Or(node.name, Str(""))),
       description := Or(p.description, Or(node.description, Str(""))),
       creator := if p.creator.Some? then p.creator else Some(CreatorOf(node)),
       tags := if p.tags.Some? then p.tags else Some(TagsOf(node)),
       fundingHistory := Some(if Differs(LastSnapshot(history), snap) then history + [snap] else history),
       lastUpdated := Str(now))
  }

  /** The record stored under `id` after one sighting of `node`. */
  function Upsert(projects: Store, id: string, node: Node, now: string): (p: Project)
    requires node.url.Str? && node.pledged.Some?
    // the last entry of the history carries the node's current funding values
    ensures p.fundingHistory.Some? && p.fundingHistory.value != []
    ensures !Differs(LastSnapshot(p.fundingHistory.value), FundingSnapshot(node, now))
    ensures p.lastUpdated == Str(now)
    // a stored history is kept as a prefix; a new id starts from the snapshot alone
    ensures id in projects ==> var h := projects[id].fundingHistory.GetOr([]);
      |h| <= |p.fundingHistory.value| && p.fundingHistory.value[..|h|] == h
    ensures id !in projects ==> p.fundingHistory == Some([FundingSnapshot(node, now)])
  {
    var snap := FundingSnapshot(node, now);
    if id in projects then Resight(projects[id], node, snap, now) else NewRecord(id, node, snap, now)
  }

  /** The merge's state: the store and the two counters it logs. */
  datatype MergeState = MergeState(projects: Store, created: nat, updated: nat)

  /** One iteration of the merge loop. */
  function MergeItem(st: MergeState, e: Edge, now: string): (r: Result<MergeState, MergeError>)
    ensures IdOf(e).None? ==> r == Success(st)
    ensures r.Failure? <==> Faulty(e)
    ensures r.Success? && IdOf(e).Some? ==>
      var id := IdOf(e).value;
      && r.value.projects == st.projects[id := Upsert(st.projects, id, e.node.value, now)]
      && r.value.created == st.created + (if id in st.projects then 0 else 1)
      && r.value.updated == st.updated + (if id in st.projects then 1 else 0)
  {
    match IdOf(e)
    case None => Success(st)
    case Some(id) =>
      var node := e.node.value;
      match NodeFault(node, id)
      case Some(err) => Failure(err)
      case None =>
        var snap := FundingSnapshot(node, now);
        if id !in st.projects then
          Success(MergeState(st.projects[id := NewRecord(id, node, snap, now)], st.created + 1, st.updated))
        else
          Success(MergeState(st.projects[id := Resight(st.projects[id], node, snap, now)], st.created, st.updated + 1))
  }

  /** The merge loop over `items`, stopped by the first exception. */
  function MergeItems(existing: Store, items: seq<Edge>, now: string): Result<MergeState, MergeError>
    decreases |items|
  {
    if items == [] then Success(MergeState(existing, 0, 0))
    else
      match MergeItems(existing, items[..|items| - 1], now)
      case Failure(err) => Failure(err)
      case Success(st) => MergeItem(st, items[|items| - 1], now)
  }

  /** `saveOrUpdateProjects` as a function of the stored data. */
  function Merge(existing: Store, apiData: ApiData, now: string): Result<MergeState, MergeError> {
    if apiData.NotArray? then Failure(ExpectedArrayInput) else MergeItems(existing, apiData.items, now)
  }

  /** `saveOrUpdateProjects(apiData)`, with `now` for the clock. The store is
      written once, and only when the whole batch merged without an exception. */
  method SaveOrUpdateProjects(file: ProjectFile, apiData: ApiData, now: string)
    returns (r: Result<Store, MergeError>, newProjects: nat, updatedProjects: nat)
    modifies file
    ensures apiData.NotArray? ==> r == Failure(ExpectedArrayInput)
    ensures r.Failure? ==> Merge(old(file.contents), apiData, now) == Failure(r.error)
                           && file.contents == old(file.contents) && file.saves == old(file.saves)
    ensures r.Success? ==>
      var st := Merge(old(file.contents), apiData, now);
      && st == Success(MergeState(r.value, newProjects, updatedProjects))
      && file.contents == r.value
      && file.saves == old(file.saves) + [r.value]
  {
    if apiData.NotArray? {
      return Failure(ExpectedArrayInput), 0, 0;
    }
    var existing := file.Load();
    ghost var loaded := existing;
    newProjects, updatedProjects := 0, 0;
    var items := apiData.items;
    for i := 0 to |items|
      invariant MergeItems(loaded, items[..i], now) == Success(MergeState(existing, newProjects, updatedProjects))
      invariant file.contents == loaded && file.saves == old(file.saves)
    {
      assert items[..i + 1][..i] == items[..i];
      var step := MergeEdge(MergeState(existing, newProjects, updatedProjects), items[i], now);
      if step.Failure? {
        MergeFailureIsFinal(loaded, items, i + 1, now);
        return Failure(step.error), 0, 0;
      }
      existing, newProjects, updatedProjects := step.value.projects, step.value.created, step.value.updated;
    }
    assert items[..|items|] == items;
    file.Save(existing);
    r := Success(existing);
  }

  /** One pass of the merge loop over the edge `item`, the imperative
      counterpart of `MergeItem`: an edge without an id is skipped, a faulty
      one throws, any other creates or updates a record. */
  method MergeEdge(st: MergeState, item: Edge, now: string) returns (r: Result<MergeState, MergeError>)
    ensures r == MergeItem(st, item, now)
  {
    if item.node.None? || !PresentString(item.node.value.id) {
      return Success(st);
    }
    var node := item.node.value;
    var id := node.id.value;
    if !node.url.Str? {
      return Failure(UrlNotString(id));
    }
    var slug := Slug.ExtractSlug(node.url.s);
    if node.pledged.None? {
      return Failure(PledgedMissing(id));
    }
    var snapshot := FundingSnapshot(node, now);
    var existing := st.projects;
    if id !in existing {
      existing := existing[id := NewRecord(id, node, snapshot, now)];
      return Success(MergeState(existing, st.created + 1, st.updated));
    } else {
      var p := UpdateStored(existing[id], node, snapshot, now);
      existing := existing[id := p];
      return Success(MergeState(existing, st.created, st.updated + 1));
    }
  }

  /** The in-place update of a stored record on a re-sighting, one field at
      a time: the imperative counterpart of `Resight`. */
  method UpdateStored(stored: Project, node: Node, snapshot: Snapshot, now: string) returns (p: Project)
    ensures p == Resight(stored, node, snapshot, now)
  {
    p := stored;
    p := p.(name := Or(p.name, Or(node.name, Str(""))));
    p := p.(description := Or(p.description, Or(node.description, Str(""))));
    if p.creator.None? {
      p := p.(creator := Some(CreatorOf(node)));
    }
    if p.tags.None? {
      p := p.(tags := Some(TagsOf(node)));
    }
    var history := p.fundingHistory.GetOr([]);
    if Differs(LastSnapshot(history), snapshot) {
      history := history + [snapshot];
    }
    p := p.(fundingHistory := Some(history));
    p := p.(lastUpdated := Str(now));
  }

  /** Once an exception is raised, the rest of the batch does not matter. */
  lemma {:induction false} MergeFailureIsFinal(existing: Store, items: seq<Edge>, k: nat, now: string)
    requires k <= |items|
    requires MergeItems(existing, items[..k], now).Failure?
    ensures MergeItems(existing, items, now) == MergeItems(existing, items[..k], now)
    decreases |items| - k
  {
    if k < |items| {
      assert items[..k + 1][..k] == items[..k];
      MergeFailureIsFinal(existing, items, k + 1, now);
    } else {
      assert items[..k] == items;
    }
  }

  /** The ids a batch files records under. */
  function Ids(items: seq<Edge>): set<string>
    decreases |items|
  {
    if items == [] then {}
    else
      Ids(items[..|items| - 1]) + match IdOf(items[|items| - 1]) case Some(id) => {id} case None => {}
  }

  /** How many edges of a batch carry an id. */
  function CountIdentified(items: seq<Edge>): nat
    decreases |items|
  {
    if items == [] then 0
    else CountIdentified(items[..|items| - 1]) + if IdOf(items[|items| - 1]).Some? then 1 else 0
  }

  /** How many edges of a batch carry the id `id`. */
  function Sightings(items: seq<Edge>, id: string): nat
    decreases |items|
  {
    if items == [] then 0
    else Sightings(items[..|items| - 1], id) + if IdOf(items[|items| - 1]) == Some(id) then 1 else 0
  }

  /** The funding history kept for `id`; `[]` when there is none. */
  function HistoryOf(projects: Store, id: string): seq<Snapshot> {
    if id in projects then projects[id].fundingHistory.GetOr([]) else []
  }

  predicate DistinctIds(items: seq<Edge>) {
    forall i, j :: 0 <= i < j < |items| && IdOf(items[i]).Some? ==> IdOf(items[i]) != IdOf(items[j])
  }

  lemma {:induction false} IdsMembers(items: seq<Edge>, id: string)
    ensures id in Ids(items) <==> exists j :: 0 <= j < |items| && IdOf(items[j]) == Some(id)
    decreases |items|
  {
    if items != [] {
      var n := |items| - 1;
      IdsMembers(items[..n], id);
      if id in Ids(items[..n]) {
        var j :| 0 <= j < n && IdOf(items[..n][j]) == Some(id);
        assert IdOf(items[j]) == Some(id);
      }
      if exists j :: 0 <= j < |items| && IdOf(items[j]) == Some(id) {
        var j :| 0 <= j < |items| && IdOf(items[j]) == Some(id);
        if j < n { assert IdOf(items[..n][j]) == Some(id); }
      }
    }
  }

  lemma PrefixSucceeds(existing: Store, items: seq<Edge>, now: string)
    requires items != [] && MergeItems(existing, items, now).Success?
    ensures MergeItems(existing, items[..|items| - 1], now).Success?
  {
  }

  /** One more edge: the merge fails when the shorter batch failed or the
      new edge is faulty. */
  lemma MergeStepFails(existing: Store, items: seq<Edge>, now: string)
    requires items != []
    ensures MergeItems(existing, items, now).Failure? <==>
      MergeItems(existing, items[..|items| - 1], now).Failure? || Faulty(items[|items| - 1])
  {
  }

  /** A faulty edge of a batch is one of its shorter batch or its last edge. */
  predicate AnyFaulty(items: seq<Edge>) {
    exists k :: 0 <= k < |items| && Faulty(items[k])
  }

  lemma FaultyInSnoc(items: seq<Edge>)
    requires items != []
    ensures AnyFaulty(items) <==> AnyFaulty(items[..|items| - 1]) || Faulty(items[|items| - 1])
  {
    var n := |items| - 1;
    var init := items[..n];
    if exists k :: 0 <= k < n && Faulty(init[k]) {
      var k :| 0 <= k < n && Faulty(init[k]);
      assert Faulty(items[k]);
    }
    if exists k :: 0 <= k < |items| && Faulty(items[k]) {
      var k :| 0 <= k < |items| && Faulty(items[k]);
      if k < n { assert Faulty(init[k]); }
    }
  }

  /** The merge fails exactly when some identified edge has a non-string URL
      or no `pledged` object. */
  lemma {:induction false} MergeFailsIffFaulty(existing: Store, items: seq<Edge>, now: string)
    ensures MergeItems(existing, items, now).Failure? <==> exists k :: 0 <= k < |items| && Faulty(items[k])
    decreases |items|
  {
    if items != [] {
      MergeStepFails(existing, items, now);
      MergeFailsIffFaulty(existing, items[..|items| - 1], now);
      FaultyInSnoc(items);
    }
  }

  /** The exception a batch raises does not depend on the stored data. */
  lemma {:induction false} MergeFailureIgnoresStore(existing: Store, other: Store, items: seq<Edge>, now: string)
    requires MergeItems(existing, items, now).Failure?
    ensures MergeItems(other, items, now) == MergeItems(existing, items, now)
    decreases |items|
  {
    var n := |items| - 1;
    if MergeItems(existing, items[..n], now).Failure? {
      MergeFailureIgnoresStore(existing, other, items[..n], now);
    } else if MergeItems(other, items[..n], now).Failure? {
      MergeFailureIgnoresStore(other, existing, items[..n], now);
    }
  }

  /** Ids are only ever added, and records whose ids are not in the batch are
      left as they were. */
  lemma {:induction false} MergeKeepsIds(existing: Store, items: seq<Edge>, now: string)
    requires MergeItems(existing, items, now).Success?
    ensures var st := MergeItems(existing, items, now).value;
      && st.projects.Keys == existing.Keys + Ids(items)
      && (forall id :: id in existing && id !in Ids(items) ==> st.projects[id] == existing[id])
    decreases |items|
  {
    if items != [] {
      var n := |items| - 1;
      PrefixSucceeds(existing, items, now);
      MergeKeepsIds(existing, items[..n], now);
      var st' := MergeItems(existing, items[..n], now).value;
      var st := MergeItems(existing, items, now).value;
      assert st == MergeItem(st', items[n], now).value;
      match IdOf(items[n])
      case None =>
        assert Ids(items) == Ids(items[..n]);
      case Some(id) =>
        assert Ids(items) == Ids(items[..n]) + {id};
        assert st.projects == st'.projects[id := Upsert(st'.projects, id, items[n].node.value, now)];
    }
  }

  /** `q` keeps every descriptive field `p` had filled: a truthy name or
      description, and a present creator or tags. */
  predicate KeepsDescriptive(p: Project, q: Project) {
    && (Truthy(p.name) ==> q.name == p.name)
    && (Truthy(p.description) ==> q.description == p.description)
    && (p.creator.Some? ==> q.creator == p.creator)
    && (p.tags.Some? ==> q.tags == p.tags)
  }

  /** Fill-if-missing over a whole batch: a stored record keeps its id, and
      a merge never changes a descriptive field it already had filled, however
      often the batch sights the id. */
  lemma {:induction false} MergeKeepsDescriptive(existing: Store, items: seq<Edge>, now: string, id: string)
    requires MergeItems(existing, items, now).Success?
    requires id in existing
    ensures id in MergeItems(existing, items, now).value.projects
    ensures KeepsDescriptive(existing[id], MergeItems(existing, items, now).value.projects[id])
    decreases |items|
  {
    MergeKeepsIds(existing, items, now);
    if items != [] {
      var n := |items| - 1;
      PrefixSucceeds(existing, items, now);
      MergeKeepsIds(existing, items[..n], now);
      MergeKeepsDescriptive(existing, items[..n], now, id);
      var st' := MergeItems(existing, items[..n], now).value;
      assert MergeItems(existing, items, now) == MergeItem(st', items[n], now);
    }
  }

  /** The top-level `isLaunched`, `deadlineAt` and `currency` of every record
      are missing: files.js keeps those values under `tags` and in the
      funding snapshots only. */
  predicate TopLevelUnset(projects: Store) {
    forall id :: id in projects ==>
      && projects[id].isLaunched == Undefined
      && projects[id].deadlineAt == Undefined
      && projects[id].currency == Undefined
  }

  /** The merge never writes the top-level properties the active-project
      filter and the currency listing read. */
  lemma {:induction false} MergeLeavesTopLevelUnset(existing: Store, items: seq<Edge>, now: string)
    requires TopLevelUnset(existing)
    requires MergeItems(existing, items, now).Success?
    ensures TopLevelUnset(MergeItems(existing, items, now).value.projects)
    decreases |items|
  {
    if items != [] {
      var n := |items| - 1;
      PrefixSucceeds(existing, items, now);
      MergeLeavesTopLevelUnset(existing, items[..n], now);
      var st' := MergeItems(existing, items[..n], now).value;
      assert MergeItems(existing, items, now) == MergeItem(st', items[n], now);
    }
  }

  /** Each identified edge either creates a record (one more id) or updates one. */
  lemma {:induction false} MergeCounts(existing: Store, items: seq<Edge>, now: string)
    requires MergeItems(existing, items, now).Success?
    ensures var st := MergeItems(existing, items, now).value;
      && st.created + st.updated == CountIdentified(items)
      && |st.projects| == |existing| + st.created
    decreases |items|
  {
    if items != [] {
      var n := |items| - 1;
      PrefixSucceeds(existing, items, now);
      MergeCounts(existing, items[..n], now);
      var st' := MergeItems(existing, items[..n], now).value;
      var st := MergeItems(existing, items, now).value;
      assert st == MergeItem(st', items[n], now).value;
      if IdOf(items[n]).Some? {
        var id := IdOf(items[n]).value;
        if id !in st'.projects {
          assert |st'.projects[id := Upsert(st'.projects, id, items[n].node.value, now)]| == |st'.projects| + 1;
        } else {
          assert st'.projects[id := Upsert(st'.projects, id, items[n].node.value, now)].Keys == st'.projects.Keys;
        }
      }
    }
  }

  /** Funding history is append-only: what a record had before the batch is a
      prefix of what it has after, and each sighting adds at most one entry. */
  lemma {:induction false} HistoryAppendOnly(existing: Store, items: seq<Edge>, now: string, id: string)
    requires MergeItems(existing, items, now).Success?
    ensures var h0 := HistoryOf(existing, id);
            var h := HistoryOf(MergeItems(existing, items, now).value.projects, id);
      && |h0| <= |h| <= |h0| + Sightings(items, id)
      && h[..|h0|] == h0
    decreases |items|
  {
    if items != [] {
      var n := |items| - 1;
      PrefixSucceeds(existing, items, now);
      HistoryAppendOnly(existing, items[..n], now, id);
      var st' := MergeItems(existing, items[..n], now).value;
      var h0, h1 := HistoryOf(existing, id), HistoryOf(st'.projects, id);
      var h := HistoryOf(MergeItems(existing, items, now).value.projects, id);
      if IdOf(items[n]) == Some(id) {
        assert h[..|h1|] == h1;
        assert h[..|h0|] == h1[..|h0|];
      }
    }
  }

  /** A first sighting creates a record with a one-entry history holding the
      current snapshot, stamped `now`. */
  lemma FirstSighting(st: MergeState, e: Edge, now: string)
    requires IdOf(e).Some? && IdOf(e).value !in st.projects && !Faulty(e)
    ensures MergeItem(st, e, now).Success?
    ensures var id, node := IdOf(e).value, e.node.value;
            var p := MergeItem(st, e, now).value.projects[id];
      && p.fundingHistory == Some([FundingSnapshot(node, now)])
      && p.lastUpdated == Str(now)
      && p.id == Str(id)
      && p.url == node.url
      && p.slug == SlugValue(node.url.s)
      && p.name == Or(node.name, Str(""))
      && p.description == Or(node.description, Str(""))
      && p.creator == Some(CreatorOf(node))
      && p.tags == Some(TagsOf(node))
  {
  }

  /** A later sighting of the same node, at a time `now2`, adds no snapshot:
      only `lastUpdated` moves to `now2`. */
  lemma UpsertStable(projects: Store, id: string, node: Node, now: string, now2: string)
    requires node.url.Str? && node.pledged.Some?
    ensures Resight(Upsert(projects, id, node, now), node, FundingSnapshot(node, now2), now2)
            == Upsert(projects, id, node, now).(lastUpdated := Str(now2))
  {
    var snap := FundingSnapshot(node, now);
    var snap2 := FundingSnapshot(node, now2);
    var q := Upsert(projects, id, node, now);
    var r := Resight(q, node, snap2, now2);
    var h := q.fundingHistory.value;
    assert !Differs(LastSnapshot(h), snap2) by {
      if id in projects {
        var h0 := projects[id].fundingHistory.GetOr([]);
        if Differs(LastSnapshot(h0), snap) {
          assert h == h0 + [snap];
        } else {
          assert h == h0;
        }
      }
    }
    assert r.fundingHistory == q.fundingHistory;
  }

  /** With no other edge of the batch carrying its id, the record under the id
      of edge `k` is exactly one sighting of that edge's node. */
  lemma {:induction false} MergeAtId(existing: Store, items: seq<Edge>, now: string, k: nat)
    requires MergeItems(existing, items, now).Success?
    requires k < |items| && IdOf(items[k]).Some?
    requires forall j :: 0 <= j < |items| && j != k ==> IdOf(items[j]) != IdOf(items[k])
    ensures !Faulty(items[k])
    ensures IdOf(items[k]).value in MergeItems(existing, items, now).value.projects
    ensures var id := IdOf(items[k]).value;
      MergeItems(existing, items, now).value.projects[id] == Upsert(existing, id, items[k].node.value, now)
    decreases |items|
  {
    MergeFailsIffFaulty(existing, items, now);
    var n := |items| - 1;
    var id := IdOf(items[k]).value;
    PrefixSucceeds(existing, items, now);
    var prefix := items[..n];
    var st' := MergeItems(existing, prefix, now).value;
    assert MergeItems(existing, items, now) == MergeItem(st', items[n], now);
    if k == n {
      MergeKeepsIds(existing, prefix, now);
      IdsMembers(prefix, id);
      assert id !in Ids(prefix);
    } else {
      forall j | 0 <= j < |prefix| && j != k ensures IdOf(prefix[j]) != IdOf(prefix[k]) {
        assert prefix[j] == items[j];
      }
      MergeAtId(existing, prefix, now, k);
      assert prefix[k] == items[k];
    }
  }

  /** Merging a batch whose edges carry distinct ids again, at a later time
      `now2`, keeps every id and adds no snapshot: the records of the batch
      only get `lastUpdated` set to `now2`, and the other records are untouched. */
  lemma MergeIdempotent(existing: Store, items: seq<Edge>, now: string, now2: string)
    requires MergeItems(existing, items, now).Success?
    requires DistinctIds(items)
    ensures var once := MergeItems(existing, items, now).value.projects;
      && MergeItems(once, items, now2).Success?
      && MergeItems(once, items, now2).value.projects.Keys == once.Keys
      && forall id :: id in once ==>
           MergeItems(once, items, now2).value.projects[id]
             == if id in Ids(items) then once[id].(lastUpdated := Str(now2)) else once[id]
  {
    var once := MergeItems(existing, items, now).value.projects;
    if MergeItems(once, items, now2).Failure? {
      MergeFailsIffFaulty(existing, items, now);
      MergeFailsIffFaulty(once, items, now2);
    }
    var twice := MergeItems(once, items, now2).value.projects;
    MergeKeepsIds(existing, items, now);
    MergeKeepsIds(once, items, now2);
    forall id | id in once
      ensures twice[id] == if id in Ids(items) then once[id].(lastUpdated := Str(now2)) else once[id]
    {
      IdsMembers(items, id);
      if id in Ids(items) {
        var k :| 0 <= k < |items| && IdOf(items[k]) == Some(id);
        forall j | 0 <= j < |items| && j != k ensures IdOf(items[j]) != IdOf(items[k]) {
          if j < k && IdOf(items[j]).Some? {}
        }
        MergeAtId(existing, items, now, k);
        MergeAtId(once, items, now2, k);
        UpsertStable(existing, id, items[k].node.value, now, now2);
      }
    }
  }

  /** A two-edge batch is the merge loop run twice. */
  lemma MergePair(existing: Store, e1: Edge, e2: Edge, now: string)
    ensures var first := MergeItem(MergeState(existing, 0, 0), e1, now);
      MergeItems(existing, [e1, e2], now) ==
        if first.Failure? then first else MergeItem(first.value, e2, now)
  {
    assert [e1, e2][..1] == [e1];
    assert [e1][..0] == [];
    assert MergeItems(existing, [], now) == Success(MergeState(existing, 0, 0));
    assert MergeItems(existing, [e1], now) == MergeItem(MergeState(existing, 0, 0), e1, now);
  }

  /** Two sightings of a new id: the history holds both snapshots when they
      differ in backers, pledged amount or percentage, and only the first
      otherwise (so an identical re-sighting does not grow it). */
  lemma TwoSightings(existing: Store, e1: Edge, e2: Edge, now: string)
    requires IdOf(e1).Some? && IdOf(e2) == IdOf(e1) && IdOf(e1).value !in existing
    requires !Faulty(e1) && !Faulty(e2)
    ensures MergeItems(existing, [e1, e2], now).Success?
    ensures var s1, s2 := FundingSnapshot(e1.node.value, now), FundingSnapshot(e2.node.value, now);
      HistoryOf(MergeItems(existing, [e1, e2], now).value.projects, IdOf(e1).value)
        == if Differs(s1, s2) then [s1, s2] else [s1]
  {
    MergePair(existing, e1, e2, now);
    var id := IdOf(e1).value;
    var st := MergeItem(MergeState(existing, 0, 0), e1, now).value;
    assert st.projects[id].fundingHistory == Some([FundingSnapshot(e1.node.value, now)]);
  }

  /** Idempotence fails for a batch that carries one id twice with different
      backer counts: the second merge appends both snapshots again. */
  lemma RepeatedIdNotIdempotent(now: string)
    ensures var e1, e2 := Edge(Some(SampleNode(1))), Edge(Some(SampleNode(2)));
      var once := MergeItems(map[], [e1, e2], now);
      && once.Success?
      && |HistoryOf(once.value.projects, "p")| == 2
      && MergeItems(once.value.projects, [e1, e2], now).Success?
      && |HistoryOf(MergeItems(once.value.projects, [e1, e2], now).value.projects, "p")| == 4
  {
    var e1, e2 := Edge(Some(SampleNode(1))), Edge(Some(SampleNode(2)));
    assert Differs(FundingSnapshot(e1.node.value, now), FundingSnapshot(e2.node.value, now));
    TwoSightings(map[], e1, e2, now);
    var once := MergeItems(map[], [e1, e2], now).value.projects;
    MergePair(once, e1, e2, now);
    var h := HistoryOf(once, "p");
    var st := MergeItem(MergeState(once, 0, 0), e1, now).value;
    assert HistoryOf(st.projects, "p") == h + [FundingSnapshot(e1.node.value, now)];
  }

  function SampleNode(backers: int): Node {
    Node(Some("p"), Str("u"), Undefined, Undefined, None, Num(backers),
         Some(Money(Undefined, Undefined)), Undefined, Undefined, Undefined, Undefined, Undefined)
  }
}
