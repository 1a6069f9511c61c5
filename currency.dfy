/**
 * currency.js: visits every record of the store with `for...in`, adds each
 * truthy `currency` to a `Set`, and lists the set as an array. A JavaScript
 * `Set` keeps one copy of each value in the order values were first added,
 * so the listing is a sequence without repeats.
 */
module Currency {
  import opened Values
  import opened Records
  import Files

  /** `Array.from(currencies)` after visiting `keys`. */
  function Listed(data: Store, keys: seq<string>): (l: seq<Value>)
    requires AllIn(keys, data)
    ensures |l| <= |keys|
    ensures forall i :: 0 <= i < |l| ==> Truthy(l[i])
    decreases |keys|
  {
    if keys == [] then []
    else
      var prev := Listed(data, keys[..|keys| - 1]);
      var c := data[keys[|keys| - 1]].currency;
      if Truthy(c) && c !in prev then prev + [c] else prev
  }

  /** The position among `keys` of the first record whose currency is `v`,
      or `|keys|` when there is none. */
  function FirstAt(data: Store, keys: seq<string>, v: Value): (j: nat)
    requires AllIn(keys, data)
    ensures j <= |keys|
    ensures j < |keys| ==> data[keys[j]].currency == v
    ensures forall i :: 0 <= i < j ==> data[keys[i]].currency != v
    decreases |keys|
  {
    if keys == [] then 0
    else
      var n := |keys| - 1;
      var j := FirstAt(data, keys[..n], v);
      if j < n then j
      else if data[keys[n]].currency == v then n
      else |keys|
  }

  /** The top-level loop of currency.js over the store's keys in `order`. */
  method CollectCurrencies(data: Store, order: seq<string>) returns (currencies: seq<Value>)
    requires AllIn(order, data)
    ensures currencies == Listed(data, order)
  {
    currencies := [];
    for i := 0 to |order|
      invariant currencies == Listed(data, order[..i])
    {
      assert order[..i + 1][..i] == order[..i];
      var project := data[order[i]];
      if Truthy(project.currency) {
        // `Set.add` leaves a set that already holds the value unchanged
        if project.currency !in currencies {
          currencies := currencies + [project.currency];
        }
      }
    }
    assert order[..|order|] == order;
  }

  /** Every listed code is truthy and is the currency of a visited record. */
  lemma {:induction false} ListedSound(data: Store, keys: seq<string>)
    requires AllIn(keys, data)
    ensures forall a :: 0 <= a < |Listed(data, keys)| ==>
      Truthy(Listed(data, keys)[a]) && FirstAt(data, keys, Listed(data, keys)[a]) < |keys|
    decreases |keys|
  {
    if keys != [] {
      var init := keys[..|keys| - 1];
      assert AllIn(init, data);
      ListedSound(data, init);
    }
  }

  /** Every visited record with a truthy currency has it listed; records
      with a missing or empty currency add nothing. */
  lemma {:induction false} ListedComplete(data: Store, keys: seq<string>)
    requires AllIn(keys, data)
    ensures forall i :: 0 <= i < |keys| && Truthy(data[keys[i]].currency) ==>
      data[keys[i]].currency in Listed(data, keys)
    decreases |keys|
  {
    if keys != [] {
      var init := keys[..|keys| - 1];
      assert AllIn(init, data);
      ListedComplete(data, init);
      forall i | 0 <= i < |keys| - 1 && Truthy(data[keys[i]].currency)
        ensures data[keys[i]].currency in Listed(data, keys)
      {
        assert keys[i] == init[i];
      }
    }
  }

  /** Codes are listed in the order of their first occurrence among the
      visited records. */
  lemma {:induction false} ListedInFirstOccurrenceOrder(data: Store, keys: seq<string>)
    requires AllIn(keys, data)
    ensures forall a, b :: 0 <= a < b < |Listed(data, keys)| ==>
      FirstAt(data, keys, Listed(data, keys)[a]) < FirstAt(data, keys, Listed(data, keys)[b])
    decreases |keys|
  {
    if keys != [] {
      var n := |keys| - 1;
      var init := keys[..n];
      assert AllIn(init, data);
      ListedInFirstOccurrenceOrder(data, init);
      ListedSound(data, init);
      ListedComplete(data, init);
      var prev, c := Listed(data, init), data[keys[n]].currency;
      var l := Listed(data, keys);
      assert l == if Truthy(c) && c !in prev then prev + [c] else prev;
      forall a | 0 <= a < |prev|
        ensures FirstAt(data, keys, prev[a]) == FirstAt(data, init, prev[a]) < n
      {
      }
      forall a, b | 0 <= a < b < |l|
        ensures FirstAt(data, keys, l[a]) < FirstAt(data, keys, l[b])
      {
        assert l[a] == prev[a];
        if b < |prev| {
          assert l[b] == prev[b];
        } else {
          // a new code was never seen before: its first occurrence is the last key
          assert l[b] == c && c !in prev;
          assert FirstAt(data, keys, c) == n;
          assert FirstAt(data, keys, prev[a]) < n;
        }
      }
    }
  }

  /** Each code is listed at most once. */
  lemma ListedDistinct(data: Store, keys: seq<string>)
    requires AllIn(keys, data)
    ensures Distinct(Listed(data, keys))
  {
    ListedInFirstOccurrenceOrder(data, keys);
  }

  /** Over the whole store: the listed codes are exactly the truthy
      currencies of its records. */
  lemma ListedIsStoreCurrencies(data: Store, order: seq<string>)
    requires Enumerates(order, data)
    ensures forall v :: v in Listed(data, order) <==>
      Truthy(v) && exists id :: id in data && data[id].currency == v
  {
    ListedSound(data, order);
    ListedComplete(data, order);
    var l := Listed(data, order);
    forall v | v in l
      ensures exists id :: id in data && data[id].currency == v
    {
      var a :| 0 <= a < |l| && l[a] == v;
      assert data[order[FirstAt(data, order, v)]].currency == v;
    }
    forall v, id | Truthy(v) && id in data && data[id].currency == v
      ensures v in l
    {
      var i :| 0 <= i < |order| && order[i] == id;
    }
  }

  /** A store built by files.js from an empty start lists no currency: the
      listing reads the top-level `currency`, which the merge leaves missing. */
  lemma MergedStoreListsNothing(items: seq<Edge>, now: string, order: seq<string>)
    requires Files.MergeItems(map[], items, now).Success?
    requires AllIn(order, Files.MergeItems(map[], items, now).value.projects)
    ensures Listed(Files.MergeItems(map[], items, now).value.projects, order) == []
  {
    var data := Files.MergeItems(map[], items, now).value.projects;
    Files.MergeLeavesTopLevelUnset(map[], items, now);
    ListedSound(data, order);
  }
}
