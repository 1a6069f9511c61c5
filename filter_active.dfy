/**
 * filter-active.js: `main` reads the store, keeps the records that are
 * launched and whose deadline lies after the current Unix second, writes them
 * to `active_projects.json` under their own ids, and reports how many it kept.
 */
module FilterActive {
  import opened Values
  import opened Records
  import Files

  /** `Math.floor(Date.now() / 1000)`: the Unix second containing `nowMs`. */
  function NowUnix(nowMs: int): (s: int)
    ensures s * 1000 <= nowMs < s * 1000 + 1000
  {
    nowMs / 1000
  }

  /** `project.isLaunched === true && typeof project.deadlineAt === "number"
      && project.deadlineAt > nowUnix` */
  predicate IsActive(p: Project, nowUnix: int) {
    p.isLaunched == Bool(true) && p.deadlineAt.Num? && p.deadlineAt.n > nowUnix
  }

  /** The number of active records among `keys`, counted one key at a time. */
  function CountActive(projects: Store, keys: seq<string>, nowUnix: int): (n: nat)
    requires AllIn(keys, projects)
    ensures n <= |keys|
    decreases |keys|
  {
    if keys == [] then 0
    else
      var k := keys[|keys| - 1];
      CountActive(projects, keys[..|keys| - 1], nowUnix) + (if IsActive(projects[k], nowUnix) then 1 else 0)
  }

  /** The ids of the active records, in the order they are visited: the key
      order of the output object. */
  function ActiveOrder(projects: Store, keys: seq<string>, nowUnix: int): (r: seq<string>)
    requires AllIn(keys, projects)
    ensures |r| == CountActive(projects, keys, nowUnix)
    ensures forall i :: 0 <= i < |r| ==> r[i] in keys && IsActive(projects[r[i]], nowUnix)
    decreases |keys|
  {
    if keys == [] then []
    else
      var k := keys[|keys| - 1];
      var rest := ActiveOrder(projects, keys[..|keys| - 1], nowUnix);
      if IsActive(projects[k], nowUnix) then rest + [k] else rest
  }

  /** `r` is `s` with some elements left out, the others kept in order. */
  predicate Subsequence(r: seq<string>, s: seq<string>)
    decreases |s|
  {
    if s == [] then r == []
    else
      || (r != [] && r[|r| - 1] == s[|s| - 1] && Subsequence(r[..|r| - 1], s[..|s| - 1]))
      || Subsequence(r, s[..|s| - 1])
  }

  /** The output's key order is the visit order with the inactive records
      left out. */
  lemma {:induction false} ActiveOrderInVisitOrder(projects: Store, keys: seq<string>, nowUnix: int)
    requires AllIn(keys, projects)
    ensures Subsequence(ActiveOrder(projects, keys, nowUnix), keys)
    decreases |keys|
  {
    if keys != [] {
      var init, k := keys[..|keys| - 1], keys[|keys| - 1];
      assert AllIn(init, projects);
      ActiveOrderInVisitOrder(projects, init, nowUnix);
      var rest := ActiveOrder(projects, init, nowUnix);
      if IsActive(projects[k], nowUnix) {
        assert (rest + [k])[..|rest|] == rest;
      }
    }
  }

  /** The output's keys are exactly the visited ids of active records. */
  lemma {:induction false} ActiveOrderMembers(projects: Store, keys: seq<string>, nowUnix: int)
    requires AllIn(keys, projects)
    ensures forall k :: k in ActiveOrder(projects, keys, nowUnix) <==> k in keys && IsActive(projects[k], nowUnix)
    decreases |keys|
  {
    if keys != [] {
      var init, k := keys[..|keys| - 1], keys[|keys| - 1];
      assert AllIn(init, projects);
      ActiveOrderMembers(projects, init, nowUnix);
      assert keys == init + [k];
    }
  }

  /** Over keys visited once each, no id appears twice in the output. */
  lemma {:induction false} ActiveOrderDistinct(projects: Store, keys: seq<string>, nowUnix: int)
    requires AllIn(keys, projects)
    requires Distinct(keys)
    ensures Distinct(ActiveOrder(projects, keys, nowUnix))
    decreases |keys|
  {
    if keys != [] {
      var init, k := keys[..|keys| - 1], keys[|keys| - 1];
      assert AllIn(init, projects);
      assert Distinct(init) by {
        forall i, j | 0 <= i < j < |init| ensures init[i] != init[j] {
          assert init[i] == keys[i] && init[j] == keys[j];
        }
      }
      ActiveOrderDistinct(projects, init, nowUnix);
      ActiveOrderMembers(projects, init, nowUnix);
      assert k !in init by {
        forall i | 0 <= i < |init| ensures init[i] != k {
          assert init[i] == keys[i];
        }
      }
      var rest := ActiveOrder(projects, init, nowUnix);
      if IsActive(projects[k], nowUnix) {
        var r := rest + [k];
        forall i, j | 0 <= i < j < |r| ensures r[i] != r[j] {
          if j == |rest| {
            assert r[i] == rest[i] && rest[i] in rest;
          } else {
            assert r[i] == rest[i] && r[j] == rest[j];
          }
        }
      }
    }
  }

  /** `activeProjects` after visiting `keys`: each active record stored
      under its own id. */
  function ActiveMap(projects: Store, keys: seq<string>, nowUnix: int): Store
    requires AllIn(keys, projects)
    decreases |keys|
  {
    if keys == [] then map[]
    else
      var k := keys[|keys| - 1];
      var m := ActiveMap(projects, keys[..|keys| - 1], nowUnix);
      if IsActive(projects[k], nowUnix) then m[k := projects[k]] else m
  }

  /**
   * The loop of `main` over `Object.entries(allProjects)`, visited in
   * `order`. `active` is `activeProjects`, `keys` its key order, and `count`
   * the number reported in the closing message.
   */
  method FilterActiveProjects(allProjects: Store, order: seq<string>, nowUnix: int)
    returns (active: Store, keys: seq<string>, count: nat)
    requires Enumerates(order, allProjects)
    ensures active.Keys <= allProjects.Keys
    ensures forall id :: id in active ==> active[id] == allProjects[id]
    ensures forall id :: id in allProjects ==> (id in active <==> IsActive(allProjects[id], nowUnix))
    ensures keys == ActiveOrder(allProjects, order, nowUnix)
    ensures count == CountActive(allProjects, order, nowUnix)
  {
    active, keys := map[], [];
    for i := 0 to |order|
      invariant active == ActiveMap(allProjects, order[..i], nowUnix)
      invariant keys == ActiveOrder(allProjects, order[..i], nowUnix)
    {
      PrefixStep(allProjects, order, i, nowUnix);
      var id := order[i];
      var project := allProjects[id];
      var isActive := IsActive(project, nowUnix);
      if isActive {
        active := active[id := project];
        keys := keys + [id];
      }
    }
    assert order[..|order|] == order;
    ActiveMapMembers(allProjects, order, nowUnix);
    ActiveMapSize(allProjects, order, nowUnix);
    count := |active|;
  }

  /** One more key visited. */
  lemma PrefixStep(projects: Store, keys: seq<string>, i: nat, nowUnix: int)
    requires AllIn(keys, projects) && i < |keys|
    ensures var k, active := keys[i], IsActive(projects[keys[i]], nowUnix);
      && ActiveMap(projects, keys[..i + 1], nowUnix)
         == (var m := ActiveMap(projects, keys[..i], nowUnix); if active then m[k := projects[k]] else m)
      && ActiveOrder(projects, keys[..i + 1], nowUnix)
         == ActiveOrder(projects, keys[..i], nowUnix) + (if active then [k] else [])
      && CountActive(projects, keys[..i + 1], nowUnix)
         == CountActive(projects, keys[..i], nowUnix) + (if active then 1 else 0)
  {
    assert keys[..i + 1][..i] == keys[..i];
  }

  /** The output holds exactly the active records among the visited keys,
      each unchanged under its own id. */
  lemma {:induction false} ActiveMapMembers(projects: Store, keys: seq<string>, nowUnix: int)
    requires AllIn(keys, projects)
    ensures var m := ActiveMap(projects, keys, nowUnix);
      && (forall id :: id in m ==> id in projects && m[id] == projects[id])
      && (forall id :: id in m <==> id in keys && id in projects && IsActive(projects[id], nowUnix))
    decreases |keys|
  {
    if keys != [] {
      var init := keys[..|keys| - 1];
      assert AllIn(init, projects);
      ActiveMapMembers(projects, init, nowUnix);
      assert keys == init + [keys[|keys| - 1]];
    }
  }

  /** Over keys visited once each, the output has `CountActive` entries. */
  lemma {:induction false} ActiveMapSize(projects: Store, keys: seq<string>, nowUnix: int)
    requires AllIn(keys, projects)
    requires Distinct(keys)
    ensures |ActiveMap(projects, keys, nowUnix)| == CountActive(projects, keys, nowUnix)
    decreases |keys|
  {
    if keys != [] {
      var init, k := keys[..|keys| - 1], keys[|keys| - 1];
      assert AllIn(init, projects);
      ActiveMapSize(projects, init, nowUnix);
      ActiveMapMembers(projects, init, nowUnix);
    }
  }

  /** A record is active exactly when it is launched and its deadline, in
      milliseconds, lies strictly after `nowMs`: the rounding down of the
      current time to whole seconds changes no verdict. A deadline equal to
      the current second is not active. */
  lemma ActiveIffDeadlineAfterNow(p: Project, nowMs: int)
    ensures IsActive(p, NowUnix(nowMs)) <==>
            p.isLaunched == Bool(true) && p.deadlineAt.Num? && p.deadlineAt.n * 1000 > nowMs
    ensures p.deadlineAt == Num(NowUnix(nowMs)) ==> !IsActive(p, NowUnix(nowMs))
  {
    var s := NowUnix(nowMs);
    if p.deadlineAt.Num? {
      var d := p.deadlineAt.n;
      if d > s {
        assert d * 1000 >= s * 1000 + 1000;
      } else {
        assert d * 1000 <= s * 1000;
      }
    }
  }

  /** The count equals the number of records of the store that are active. */
  lemma CountIsActiveRecords(projects: Store, order: seq<string>, nowUnix: int)
    requires Enumerates(order, projects)
    ensures CountActive(projects, order, nowUnix) == |set id | id in projects && IsActive(projects[id], nowUnix)|
  {
    ActiveMapMembers(projects, order, nowUnix);
    ActiveMapSize(projects, order, nowUnix);
    assert ActiveMap(projects, order, nowUnix).Keys == set id | id in projects && IsActive(projects[id], nowUnix);
  }

  /** No record of a store built by files.js from an empty start is active:
      the filter reads the top-level `isLaunched` and `deadlineAt`, which the
      merge leaves missing. */
  lemma MergedStoreHasNoActive(items: seq<Edge>, now: string, nowUnix: int)
    requires Files.MergeItems(map[], items, now).Success?
    ensures var projects := Files.MergeItems(map[], items, now).value.projects;
      forall id :: id in projects ==> !IsActive(projects[id], nowUnix)
  {
    Files.MergeLeavesTopLevelUnset(map[], items, now);
  }
}
