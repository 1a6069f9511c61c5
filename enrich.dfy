/**
 * depreciated/enrich.js: `enrichNewProjects` selects the stored projects that
 * have a slug and are not yet `_enriched`, asks the API for each one's
 * creator and collaborators, writes them into the record in place, and saves
 * the whole store after every 10th enrichment and once more at the end if
 * there is unsaved work. An exception on one project is caught and the loop
 * moves on to the next.
 */
module Enrich {
  import opened Values
  import opened Records
  import opened GraphQL
  import opened Files

  const SaveEvery: nat := 10

  datatype LaunchedProjects = LaunchedProjects(totalCount: Value)

  /** `project.creator` of a reply; `launchedProjects` is None when missing. */
  datatype CreatorData = CreatorData(launchedProjects: Option<LaunchedProjects>)

  /** `project.collaborators`: `edges` is None when missing or null; an edge
      is None when it or its `node` is null, and otherwise `node.name`. */
  datatype Collaborators = Collaborators(edges: Option<seq<Option<Value>>>)

  datatype ProjectData = ProjectData(creator: Option<CreatorData>, collaborators: Option<Collaborators>)

  /** A parsed reply body; `project` is None when `data` or `data.project`
      is missing or null. */
  datatype EnrichBody = EnrichBody(project: Option<ProjectData>)

  /** What `graphqlRequest(query, { slug })` does for the i-th selected project. */
  type Respond = (nat, Value) -> Reply<EnrichBody>

  /** `p.slug && !p._enriched` */
  predicate Selectable(p: Project) {
    Truthy(p.slug) && !Truthy(p.enriched)
  }

  /** `Object.values(projects).filter(...)`, as the keys of the kept records. */
  function Selected(projects: Store, order: seq<string>): (keys: seq<string>)
    requires AllIn(order, projects)
    ensures AllIn(keys, projects)
    decreases |order|
  {
    if order == [] then []
    else
      var rest := Selected(projects, order[..|order| - 1]);
      var k := order[|order| - 1];
      if Selectable(projects[k]) then rest + [k] else rest
  }

  /** `data.data?.project`; a `{status, raw}` reply has none. */
  function ProjectOf(r: Response<EnrichBody>): Option<ProjectData> {
    if r.Json? then r.body.project else None
  }

  /** `project.creator?.launchedProjects?.totalCount ?? 0` */
  function PreviousProjects(d: ProjectData): Value {
    var count := if d.creator.Some? && d.creator.value.launchedProjects.Some?
                 then d.creator.value.launchedProjects.value.totalCount else Undefined;
    Coalesce(count, Num(0))
  }

  /** `edges.map((e) => e.node.name)`: None when an edge or node is missing,
      which throws a TypeError. */
  function Names(edges: seq<Option<Value>>): (r: Option<seq<Value>>)
    ensures r.Some? <==> forall i :: 0 <= i < |edges| ==> edges[i].Some?
    ensures r.Some? ==> |r.value| == |edges| && forall i :: 0 <= i < |edges| ==> r.value[i] == edges[i].value
    decreases |edges|
  {
    if edges == [] then Some([])
    else
      var init := Names(edges[..|edges| - 1]);
      var last := edges[|edges| - 1];
      if init.None? || last.None? then None else Some(init.value + [last.value])
  }

  /** `project.collaborators?.edges.map(...) ?? []`: None when it throws
      (collaborators present but `edges` missing, or a missing edge or node). */
  function CollaboratorNames(d: ProjectData): Option<seq<Value>> {
    match d.collaborators
    case None => Some([])
    case Some(c) => if c.edges.None? then None else Names(c.edges.value)
  }

  /** The record's creator once `previousProjects` is set, `{}` if it had none. */
  function WithPrevious(c: Option<Creator>, previous: Value): Creator {
    c.GetOr(Creator(Undefined, Undefined, Undefined)).(previousProjects := previous)
  }

  /** The effect of one pass of the loop on the record. `Crashed` is a caught
      exception, with the record as the exception left it. */
  datatype Enrichment = Enriched(record: Project) | NoData | Crashed(record: Project)

  function EnrichRecord(p: Project, reply: Reply<EnrichBody>, now: string): (e: Enrichment)
    // a thrown request leaves the record as it was
    ensures reply.Threw? ==> e == Crashed(p)
    // no project data: skipped, the record as it was
    ensures e.NoData? <==> reply.Replied? && ProjectOf(reply.response).None?
    ensures reply.Replied? && ProjectOf(reply.response).Some? ==>
      var d := ProjectOf(reply.response).value;
      var creator := Some(WithPrevious(p.creator, PreviousProjects(d)));
      && (e.Enriched? <==> CollaboratorNames(d).Some?)
      // the collaborator list throws after the creator was written
      && (e.Crashed? ==> e.record == p.(creator := creator))
      && (e.Enriched? ==>
            e.record == p.(creator := creator, collaborators := CollaboratorNames(d),
                           enriched := Bool(true), lastUpdated := Str(now)))
  {
    match reply
    case Threw(_) => Crashed(p)
    case Replied(r) =>
      match ProjectOf(r)
      case None => NoData
      case Some(d) =>
        var q := p.(creator := Some(WithPrevious(p.creator, PreviousProjects(d))));
        match CollaboratorNames(d)
        case None => Crashed(q)
        case Some(names) => Enriched(q.(collaborators := Some(names), enriched := Bool(true), lastUpdated := Str(now)))
  }

  /** The body of the loop's `try` block for one record `p`, the imperative
      counterpart of `EnrichRecord`: the program mutates the record field by
      field; here each step builds a new record. */
  method EnrichProject(p: Project, data: Reply<EnrichBody>, now: string) returns (e: Enrichment)
    ensures e == EnrichRecord(p, data, now)
  {
    if data.Threw? {
      return Crashed(p);
    }
    var project := ProjectOf(data.response);
    if project.None? {
      return NoData;
    }
    var d := project.value;
    var q := p;
    if q.creator.None? {
      q := q.(creator := Some(Creator(Undefined, Undefined, Undefined)));
    }
    q := q.(creator := Some(q.creator.value.(previousProjects := PreviousProjects(d))));
    var names := CollaboratorNames(d);
    if names.None? {
      return Crashed(q);
    }
    q := q.(collaborators := names);
    q := q.(enriched := Bool(true));
    q := q.(lastUpdated := Str(now));
    e := Enriched(q);
  }

  /** The loop's variables, with the stores written so far and the keys
      enriched so far. */
  datatype EnrichState = EnrichState(projects: Store, count: nat, dirty: bool, saves: seq<Store>, done: set<string>)

  /** One pass of the loop, for the `i`-th selected key (always a key of the
      store; the first test only keeps the function total). */
  function EnrichStep(st: EnrichState, key: string, i: nat, respond: Respond, clock: nat -> string): EnrichState
  {
    if key !in st.projects then st else
    var p := st.projects[key];
    match EnrichRecord(p, respond(i, p.slug), clock(i))
    case NoData => st
    case Crashed(q) => st.(projects := st.projects[key := q])
    case Enriched(q) =>
      var projects := st.projects[key := q];
      var count := st.count + 1;
      if count % SaveEvery == 0
      then EnrichState(projects, count, false, st.saves + [projects], st.done + {key})
      else EnrichState(projects, count, true, st.saves, st.done + {key})
  }

  /** The three outcomes of a pass, one by one. */
  lemma StepCases(st: EnrichState, key: string, i: nat, respond: Respond, clock: nat -> string)
    requires key in st.projects
    ensures var p := st.projects[key];
      var e := EnrichRecord(p, respond(i, p.slug), clock(i));
      && (e.NoData? ==> EnrichStep(st, key, i, respond, clock) == st)
      && (e.Crashed? ==> EnrichStep(st, key, i, respond, clock) == st.(projects := st.projects[key := e.record]))
      && (e.Enriched? ==>
            var projects := st.projects[key := e.record];
            EnrichStep(st, key, i, respond, clock) ==
              if (st.count + 1) % SaveEvery == 0
              then EnrichState(projects, st.count + 1, false, st.saves + [projects], st.done + {key})
              else EnrichState(projects, st.count + 1, true, st.saves, st.done + {key}))
  {
  }

  /** The loop over the first `n` selected keys. */
  function EnrichLoop(projects: Store, keys: seq<string>, respond: Respond, clock: nat -> string, n: nat): (st: EnrichState)
    requires n <= |keys|
    decreases n
  {
    if n == 0 then EnrichState(projects, 0, false, [], {})
    else EnrichStep(EnrichLoop(projects, keys, respond, clock, n - 1), keys[n - 1], n - 1, respond, clock)
  }

  /** What a run does: the stores saved, in order, the count, the store in
      memory at the end, the keys selected and the keys enriched. */
  datatype EnrichRun = EnrichRun(saves: seq<Store>, count: nat, projects: Store, selected: seq<string>, enriched: set<string>)

  function RunOf(projects: Store, order: seq<string>, respond: Respond, clock: nat -> string): EnrichRun
    requires AllIn(order, projects)
  {
    var keys := Selected(projects, order);
    var st := EnrichLoop(projects, keys, respond, clock, |keys|);
    EnrichRun(st.saves + (if st.dirty then [st.projects] else []), st.count, st.projects, keys, st.done)
  }

  /** The store on disk after the saves `saves`, starting from `base`. */
  function Written(base: Store, saves: seq<Store>): Store {
    if saves == [] then base else saves[|saves| - 1]
  }

  /** One pass of the loop body for the `index`-th selected key. `st` holds
      the loop's variables (`projects`, `enrichedCount`,
      `changedSinceLastSave`) and what the run has done so far; `file` has
      seen the writes `earlier + st.saves`. */
  method EnrichPass(file: ProjectFile, st: EnrichState, key: string, index: nat, respond: Respond,
                    clock: nat -> string, ghost earlier: seq<Store>, ghost base: Store)
    returns (next: EnrichState)
    requires key in st.projects
    requires file.saves == earlier + st.saves && file.contents == Written(base, st.saves)
    modifies file
    ensures next == EnrichStep(st, key, index, respond, clock)
    ensures next.projects.Keys == st.projects.Keys
    ensures file.saves == earlier + next.saves && file.contents == Written(base, next.saves)
  {
    var projects, enrichedCount, changedSinceLastSave := st.projects, st.count, st.dirty;
    var saves, done := st.saves, st.done;
    var p := projects[key];
    var data := respond(index, p.slug);
    var e := EnrichProject(p, data, clock(index));
    StepCases(st, key, index, respond, clock);
    if e.Crashed? {
      projects := projects[key := e.record];
    } else if e.Enriched? {
      projects := projects[key := e.record];
      enrichedCount := enrichedCount + 1;
      changedSinceLastSave := true;
      done := done + {key};
      if enrichedCount % SaveEvery == 0 && changedSinceLastSave {
        file.Save(projects);
        saves := saves + [projects];
        changedSinceLastSave := false;
      }
    }
    next := EnrichState(projects, enrichedCount, changedSinceLastSave, saves, done);
  }

  /** `enrichNewProjects()`: `order` is the order `Object.values` visits the
      store in, `respond` answers the requests and `clock` gives the time of
      the i-th enrichment. */
  method EnrichNewProjects(file: ProjectFile, order: seq<string>, respond: Respond, clock: nat -> string)
    returns (enrichedCount: nat)
    requires AllIn(order, file.contents)
    modifies file
    ensures var run := RunOf(old(file.contents), order, respond, clock);
      && enrichedCount == run.count
      && file.saves == old(file.saves) + run.saves
      && file.contents == Written(old(file.contents), run.saves)
  {
    var projects := file.Load();
    var projectsToEnrich := Selected(projects, order);
    ghost var run := RunOf(projects, order, respond, clock);
    if |projectsToEnrich| == 0 {
      assert run.saves == [];
      return 0;
    }
    var st := EnrichState(projects, 0, false, [], {});
    for index := 0 to |projectsToEnrich|
      invariant EnrichLoop(projects, projectsToEnrich, respond, clock, index) == st
      invariant file.saves == old(file.saves) + st.saves
      invariant AllIn(projectsToEnrich, st.projects)
      invariant file.contents == Written(projects, st.saves)
    {
      st := EnrichPass(file, st, projectsToEnrich[index], index, respond, clock, old(file.saves), projects);
    }
    enrichedCount := st.count;
    assert run.saves == st.saves + (if st.dirty then [st.projects] else []);
    if st.dirty {
      file.Save(st.projects);
      assert (st.saves + [st.projects])[|st.saves|] == st.projects;
    }
  }

  // ---- selection ----

  /** Exactly the records with a truthy `slug` and a falsy `_enriched` are
      selected, each once when the store's keys are visited once. */
  lemma {:induction false} SelectedExactly(projects: Store, order: seq<string>)
    requires AllIn(order, projects)
    ensures forall k :: k in Selected(projects, order) <==> k in order && Selectable(projects[k])
    ensures Distinct(order) ==> Distinct(Selected(projects, order))
    decreases |order|
  {
    if order != [] {
      var init := order[..|order| - 1];
      assert AllIn(init, projects);
      SelectedExactly(projects, init);
      assert order == init + [order[|order| - 1]];
      if Distinct(order) {
        assert Distinct(init) by {
          forall i, j | 0 <= i < j < |init| ensures init[i] != init[j] {
            assert init[i] == order[i] && init[j] == order[j];
          }
        }
        var k := order[|order| - 1];
        assert k !in init by {
          forall i | 0 <= i < |init| ensures init[i] != k {
            assert init[i] == order[i];
          }
        }
      }
    }
  }

  // ---- the save schedule ----

  /** After each pass the unsaved-work flag is set exactly when the count is
      not a multiple of 10, and one save has happened per 10 enrichments. */
  lemma {:induction false} LoopSchedule(projects: Store, keys: seq<string>, respond: Respond, clock: nat -> string, n: nat)
    requires n <= |keys|
    ensures var st := EnrichLoop(projects, keys, respond, clock, n);
      && (st.dirty <==> st.count % SaveEvery != 0)
      && |st.saves| == st.count / SaveEvery
    decreases n
  {
    if n > 0 {
      var st := EnrichLoop(projects, keys, respond, clock, n - 1);
      LoopSchedule(projects, keys, respond, clock, n - 1);
      if keys[n - 1] in st.projects {
        StepCases(st, keys[n - 1], n - 1, respond, clock);
      }
    }
  }

  /** A run saves `ceil(count / 10)` times: after every 10th enrichment, and
      once more at the end when the count is not a multiple of 10. A run that
      enriches nothing (nothing selected, or every request failing) never
      writes the store. */
  lemma RunSaves(projects: Store, order: seq<string>, respond: Respond, clock: nat -> string)
    requires AllIn(order, projects)
    ensures var run := RunOf(projects, order, respond, clock);
      && |run.saves| == (run.count + SaveEvery - 1) / SaveEvery
      && (run.count == 0 <==> run.saves == [])
  {
    var keys := Selected(projects, order);
    LoopSchedule(projects, keys, respond, clock, |keys|);
  }

  // ---- what changes ----

  /** The keys among the first `n` of `keys`. */
  function Visited(keys: seq<string>, n: nat): set<string>
    requires n <= |keys|
  {
    if n == 0 then {} else Visited(keys, n - 1) + {keys[n - 1]}
  }

  lemma {:induction false} VisitedMembers(keys: seq<string>, n: nat)
    requires n <= |keys|
    ensures forall k :: k in Visited(keys, n) <==> k in keys[..n]
  {
    if n > 0 {
      VisitedMembers(keys, n - 1);
      assert keys[..n] == keys[..n - 1] + [keys[n - 1]];
    }
  }

  lemma {:induction false} VisitedFresh(keys: seq<string>, n: nat)
    requires n <= |keys| && Distinct(keys)
    ensures forall j :: n <= j < |keys| ==> keys[j] !in Visited(keys, n)
  {
    if n > 0 {
      VisitedFresh(keys, n - 1);
    }
  }

  /** The store keeps its keys, and every record not visited yet is as it was. */
  lemma {:induction false} LoopKeys(projects: Store, keys: seq<string>, respond: Respond, clock: nat -> string, n: nat)
    requires n <= |keys|
    ensures var st := EnrichLoop(projects, keys, respond, clock, n);
      && st.projects.Keys == projects.Keys
      && forall k :: k in projects && k !in Visited(keys, n) ==> st.projects[k] == projects[k]
    decreases n
  {
    if n > 0 {
      LoopKeys(projects, keys, respond, clock, n - 1);
      var st := EnrichLoop(projects, keys, respond, clock, n - 1);
      if keys[n - 1] in st.projects {
        StepCases(st, keys[n - 1], n - 1, respond, clock);
      }
    }
  }

  /** Every store the loop has written so far has the keys of the store it
      started from, and holds every record not visited yet as it was. */
  lemma {:induction false} SavesKeep(projects: Store, keys: seq<string>, respond: Respond, clock: nat -> string, n: nat)
    requires n <= |keys|
    ensures forall j :: 0 <= j < |EnrichLoop(projects, keys, respond, clock, n).saves| ==>
      && EnrichLoop(projects, keys, respond, clock, n).saves[j].Keys == projects.Keys
      && forall k :: k in projects && k !in Visited(keys, n) ==>
           EnrichLoop(projects, keys, respond, clock, n).saves[j][k] == projects[k]
    decreases n
  {
    if n > 0 {
      SavesKeep(projects, keys, respond, clock, n - 1);
      LoopKeys(projects, keys, respond, clock, n - 1);
      var st := EnrichLoop(projects, keys, respond, clock, n - 1);
      if keys[n - 1] in st.projects {
        StepCases(st, keys[n - 1], n - 1, respond, clock);
      }
    }
  }

  /** Records that were not selected are left as they were, in memory and in
      every store written; no record is added or removed. */
  lemma Unselected(projects: Store, order: seq<string>, respond: Respond, clock: nat -> string, k: string)
    requires AllIn(order, projects)
    requires k in projects && !(k in order && Selectable(projects[k]))
    ensures var run := RunOf(projects, order, respond, clock);
      && run.projects.Keys == projects.Keys
      && k in run.projects && run.projects[k] == projects[k]
      && (forall j :: 0 <= j < |run.saves| ==> run.saves[j].Keys == projects.Keys && run.saves[j][k] == projects[k])
      && k in Written(projects, run.saves) && Written(projects, run.saves)[k] == projects[k]
  {
    var keys := Selected(projects, order);
    SelectedExactly(projects, order);
    LoopKeys(projects, keys, respond, clock, |keys|);
    SavesKeep(projects, keys, respond, clock, |keys|);
    VisitedMembers(keys, |keys|);
    assert keys[..|keys|] == keys;
  }

  // ---- what is enriched ----

  /** What holds of the enriched keys once the keys `visited` were visited. */
  ghost predicate DoneOk(visited: set<string>, st: EnrichState) {
    && (forall k :: k in st.done ==> k in visited && k in st.projects && st.projects[k].enriched == Bool(true))
    && |st.done| == st.count
    && (forall k :: k in visited && k !in st.done ==> k in st.projects && !Truthy(st.projects[k].enriched))
    && (!st.dirty && st.done != {} ==>
          st.saves != [] && forall k :: k in st.done ==>
            k in st.saves[|st.saves| - 1] && st.saves[|st.saves| - 1][k].enriched == Bool(true))
  }

  predicate AllSelectable(keys: seq<string>, projects: Store) {
    forall i :: 0 <= i < |keys| ==> keys[i] in projects && Selectable(projects[keys[i]])
  }

  /** `DoneOk` after each of the first `n` passes of the loop. */
  ghost predicate DoneAt(projects: Store, keys: seq<string>, respond: Respond, clock: nat -> string, n: nat)
    requires n <= |keys|
    decreases n
  {
    && DoneOk(Visited(keys, n), EnrichLoop(projects, keys, respond, clock, n))
    && (n > 0 ==> DoneAt(projects, keys, respond, clock, n - 1))
  }

  lemma {:induction false} LoopDone(projects: Store, keys: seq<string>, respond: Respond, clock: nat -> string, n: nat)
    requires n <= |keys| && Distinct(keys) && AllSelectable(keys, projects)
    ensures DoneAt(projects, keys, respond, clock, n)
    decreases n
  {
    if n > 0 {
      LoopDone(projects, keys, respond, clock, n - 1);
      NextKeyReady(projects, keys, respond, clock, n);
      LoopDoneNext(projects, keys, respond, clock, n);
    }
  }

  lemma LoopDoneNext(projects: Store, keys: seq<string>, respond: Respond, clock: nat -> string, n: nat)
    requires 0 < n <= |keys|
    requires var st, key := EnrichLoop(projects, keys, respond, clock, n - 1), keys[n - 1];
      && key in st.projects && key !in Visited(keys, n - 1) && !Truthy(st.projects[key].enriched)
      && (st.dirty <==> st.count % SaveEvery != 0)
    requires DoneAt(projects, keys, respond, clock, n - 1)
    ensures DoneAt(projects, keys, respond, clock, n)
  {
    var st, key := EnrichLoop(projects, keys, respond, clock, n - 1), keys[n - 1];
    LoopDoneStep(st, key, n - 1, respond, clock, Visited(keys, n - 1));
    assert EnrichLoop(projects, keys, respond, clock, n) == EnrichStep(st, key, n - 1, respond, clock);
  }

  /** The key visited by the `n`-th pass is new, present and not enriched. */
  lemma NextKeyReady(projects: Store, keys: seq<string>, respond: Respond, clock: nat -> string, n: nat)
    requires 0 < n <= |keys| && Distinct(keys) && AllSelectable(keys, projects)
    ensures var st, key := EnrichLoop(projects, keys, respond, clock, n - 1), keys[n - 1];
      && key in st.projects && key !in Visited(keys, n - 1) && !Truthy(st.projects[key].enriched)
      && (st.dirty <==> st.count % SaveEvery != 0)
  {
    var key := keys[n - 1];
    LoopSchedule(projects, keys, respond, clock, n - 1);
    VisitedFresh(keys, n - 1);
    assert key in projects && Selectable(projects[key]);
    LoopLeavesUnvisited(projects, keys, respond, clock, n - 1, key);
  }

  lemma LoopLeavesUnvisited(projects: Store, keys: seq<string>, respond: Respond, clock: nat -> string, n: nat, k: string)
    requires n <= |keys| && k in projects && k !in Visited(keys, n)
    ensures k in EnrichLoop(projects, keys, respond, clock, n).projects
    ensures EnrichLoop(projects, keys, respond, clock, n).projects[k] == projects[k]
  {
    LoopKeys(projects, keys, respond, clock, n);
  }

  lemma LoopDoneStep(st: EnrichState, key: string, i: nat, respond: Respond, clock: nat -> string, visited: set<string>)
    requires key in st.projects && key !in visited && !Truthy(st.projects[key].enriched)
    requires st.dirty <==> st.count % SaveEvery != 0
    requires DoneOk(visited, st)
    ensures DoneOk(visited + {key}, EnrichStep(st, key, i, respond, clock))
  {
    StepCases(st, key, i, respond, clock);
    var p := st.projects[key];
    var e := EnrichRecord(p, respond(i, p.slug), clock(i));
    assert key !in st.done;
    if e.Crashed? {
      assert e.record.enriched == p.enriched;
      DoneAfterUpdate(visited, st, key, e.record);
    } else if e.Enriched? {
      var projects := st.projects[key := e.record];
      var count := st.count + 1;
      DoneAfterEnriched(visited, st, key, e.record, count % SaveEvery == 0);
    } else {
      DoneAfterUpdate(visited, st, key, p);
      assert st.projects[key := p] == st.projects;
    }
  }

  /** A pass that leaves the record unenriched (skipped, or a caught exception). */
  lemma DoneAfterUpdate(visited: set<string>, st: EnrichState, key: string, q: Project)
    requires key in st.projects && key !in visited && key !in st.done && !Truthy(q.enriched)
    requires DoneOk(visited, st)
    ensures DoneOk(visited + {key}, st.(projects := st.projects[key := q]))
  {
    var r := st.(projects := st.projects[key := q]);
    forall k | k in r.done
      ensures k in visited + {key} && k in r.projects && r.projects[k].enriched == Bool(true)
    {
      assert k != key;
    }
    forall k | k in visited + {key} && k !in r.done
      ensures k in r.projects && !Truthy(r.projects[k].enriched)
    {
      if k != key {
        assert k in visited;
      }
    }
  }

  /** A pass that enriches the record, and saves when `save` holds. */
  lemma DoneAfterEnriched(visited: set<string>, st: EnrichState, key: string, q: Project, save: bool)
    requires key in st.projects && key !in visited && key !in st.done && q.enriched == Bool(true)
    requires DoneOk(visited, st)
    ensures var projects := st.projects[key := q];
      DoneOk(visited + {key},
             if save then EnrichState(projects, st.count + 1, false, st.saves + [projects], st.done + {key})
             else EnrichState(projects, st.count + 1, true, st.saves, st.done + {key}))
  {
    var projects := st.projects[key := q];
    var done := st.done + {key};
    assert |done| == |st.done| + 1;
    forall k | k in done
      ensures k in visited + {key} && k in projects && projects[k].enriched == Bool(true)
    {
      if k != key {
        assert k in st.done;
      }
    }
    forall k | k in visited + {key} && k !in done
      ensures k in projects && !Truthy(projects[k].enriched)
    {
      assert k in visited;
    }
  }

  /** Every project enriched in a run is marked `_enriched` in the store
      left on disk at the end, and the count is the number of them; a
      selected project that was skipped or failed is still not enriched. */
  lemma EnrichedAreSaved(projects: Store, order: seq<string>, respond: Respond, clock: nat -> string)
    requires Enumerates(order, projects)
    ensures var run := RunOf(projects, order, respond, clock);
      var disk := Written(projects, run.saves);
      && run.count == |run.enriched|
      && (forall k :: k in run.enriched ==> k in disk && disk[k].enriched == Bool(true))
      && (forall k :: k in run.selected && k !in run.enriched ==> k in run.projects && !Truthy(run.projects[k].enriched))
  {
    var keys := Selected(projects, order);
    SelectedExactly(projects, order);
    assert AllSelectable(keys, projects) by {
      forall i | 0 <= i < |keys| ensures keys[i] in projects && Selectable(projects[keys[i]]) {
        assert keys[i] in keys;
      }
    }
    LoopDone(projects, keys, respond, clock, |keys|);
    VisitedAll(keys);
    RunFromDone(projects, EnrichLoop(projects, keys, respond, clock, |keys|), keys, Visited(keys, |keys|));
  }

  /** After the whole run every selected key has been visited. */
  lemma VisitedAll(keys: seq<string>)
    ensures forall k :: k in Visited(keys, |keys|) <==> k in keys
  {
    VisitedMembers(keys, |keys|);
    assert keys[..|keys|] == keys;
  }

  /** A final loop state with the invariant, seen as a run: the last store
      written holds every enriched record. */
  lemma RunFromDone(base: Store, st: EnrichState, keys: seq<string>, visited: set<string>)
    requires DoneOk(visited, st)
    requires forall k :: k in visited <==> k in keys
    ensures var run := EnrichRun(st.saves + (if st.dirty then [st.projects] else []), st.count, st.projects, keys, st.done);
      var disk := Written(base, run.saves);
      && run.count == |run.enriched|
      && (forall k :: k in run.enriched ==> k in disk && disk[k].enriched == Bool(true))
      && (forall k :: k in run.selected && k !in run.enriched ==> k in run.projects && !Truthy(run.projects[k].enriched))
  {
    var saves := st.saves + (if st.dirty then [st.projects] else []);
    if st.dirty {
      assert Written(base, saves) == st.projects;
    } else if st.done != {} {
      assert saves == st.saves;
    }
  }
}
