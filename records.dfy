/**
 * The entities shared by the scraper's scripts: the GraphQL project node as
 * it arrives in a page of results, and the project record as it is kept in
 * the `projects.json` store (a mapping from project id to record).
 */
module Records {
  import opened Values

  /** `node.pledged`: a GraphQL Money value. */
  datatype Money = Money(amount: Value, currency: Value)

  /** `node.creator` as fetched. */
  datatype NodeCreator = NodeCreator(name: Value, url: Value)

  /** One project node of a page. `id` is a GraphQL ID string; `pledged` and
      `creator` are None when the property is null or missing. */
  datatype Node = Node(
    id: Option<string>,
    url: Value,
    name: Value,
    description: Value,
    creator: Option<NodeCreator>,
    backersCount: Value,
    pledged: Option<Money>,
    percentFunded: Value,
    deadlineAt: Value,
    isLaunched: Value,
    isProjectWeLove: Value,
    isProjectOfTheDay: Value)

  /** One element of `edges`; `node` is None when the edge or its node is null. */
  datatype Edge = Edge(node: Option<Node>)

  /** One entry of a record's `fundingHistory`. */
  datatype Snapshot = Snapshot(
    timestamp: Value,
    backersCount: Value,
    pledged: Value,
    currency: Value,
    percentFunded: Value,
    deadlineAt: Value)

  /** A record's `creator` object; `previousProjects` is added by enrichment. */
  datatype Creator = Creator(name: Value, url: Value, previousProjects: Value)

  datatype Tags = Tags(isLaunched: Value, isProjectWeLove: Value, isProjectOfTheDay: Value)

  /**
   * A stored project record. Object-valued properties are None when missing
   * (or null); primitive ones are `Undefined` when missing. `enriched` is the
   * `_enriched` flag; `isLaunched`, `deadlineAt` and `currency` are the
   * top-level properties read by the active-project filter and the currency
   * listing.
   */
  datatype Project = Project(
    id: Value,
    slug: Value,
    url: Value,
    name: Value,
    description: Value,
    creator: Option<Creator>,
    fundingHistory: Option<seq<Snapshot>>,
    tags: Option<Tags>,
    lastUpdated: Value,
    collaborators: Option<seq<Value>>,
    enriched: Value,
    isLaunched: Value,
    deadlineAt: Value,
    currency: Value)

  /** The store: project id to record. */
  type Store = map<string, Project>

  /** No element of `s` appears twice. */
  predicate Distinct<T(==)>(s: seq<T>) {
    forall i, j :: 0 <= i < j < |s| ==> s[i] != s[j]
  }

  /** `order` lists every key of `m` exactly once: the order in which
      `Object.values`, `Object.entries` and `for...in` visit the store. */
  ghost predicate Enumerates<V>(order: seq<string>, m: map<string, V>) {
    && Distinct(order)
    && (forall i :: 0 <= i < |order| ==> order[i] in m)
    && (forall k :: k in m ==> k in order)
  }

  /** Every key of `keys` names a record of `projects`. */
  predicate AllIn(keys: seq<string>, projects: Store) {
    forall i :: 0 <= i < |keys| ==> keys[i] in projects
  }
}
