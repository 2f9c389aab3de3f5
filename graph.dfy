/** The graph database the operations talk to: labelled nodes with
    engine-assigned ids and property maps, and typed relationships. `Store` is
    its value, `Graph` the object the mutating operations update in place. */
module GraphStore {
  import opened Values

  /** An engine-assigned node id, or an id argument after `parseInt`. */
  type Id = int

  datatype Label = User | Section | Publication | Event

  datatype EdgeKind = Owns | CreatesPublication | CreatesEvent | PrevPublication | Created

  /** A relationship `(src) -[:kind]-> (dst)`. */
  datatype Edge = Edge(src: Id, kind: EdgeKind, dst: Id)

  /** A node with its (single) label and its properties. */
  datatype Node = Node(tag: Label, props: Props)

  datatype Store = Store(nodes: map<Id, Node>, edges: set<Edge>, nextId: Id) {

    /** What every store reached through the operations satisfies: ids are
        handed out below `nextId`, relationships join existing nodes, and a
        history link points to an older node. */
    ghost predicate Valid() {
      && 0 <= nextId
      && (forall id :: id in nodes ==> 0 <= id < nextId)
      && (forall e :: e in edges ==> e.src in nodes && e.dst in nodes && (e.kind == PrevPublication ==> e.dst < e.src))
    }

    /** No node has two owners. Kept apart from `Valid` and proved for every
        reachable store in `Mutations`. */
    ghost predicate SingleOwners() {
      forall e, f :: e in edges && f in edges && e.kind == Owns && f.kind == Owns && e.dst == f.dst ==> e.src == f.src
    }

    predicate Has(id: Id, tag: Label) {
      id in nodes && nodes[id].tag == tag
    }

    /** Linking `e` keeps the store valid. */
    ghost predicate CanLink(e: Edge) {
      && e.src in nodes && e.dst in nodes
      && (e.kind == PrevPublication ==> e.dst < e.src)
    }

    /** `CREATE (n)`: the new node takes the next id. */
    function WithNode(n: Node): (r: Store)
      ensures Valid() ==> nextId !in nodes && r.Valid()
    {
      Store(nodes[nextId := n], edges, nextId + 1)
    }

    function Link(e: Edge): (r: Store)
      ensures Valid() && CanLink(e) ==> r.Valid()
    {
      Store(nodes, edges + {e}, nextId)
    }

    /** `DELETE r` of a relationship. */
    function Unlink(e: Edge): (r: Store)
      ensures Valid() ==> r.Valid()
    {
      Store(nodes, edges - {e}, nextId)
    }

    /** `SET` on the properties of an existing node; its label stays. */
    function SetProps(id: Id, p: Props): (r: Store)
      requires id in nodes
      ensures Valid() ==> r.Valid()
    {
      Store(nodes[id := Node(nodes[id].tag, p)], edges, nextId)
    }

    /** `DETACH DELETE n`: the node and every relationship touching it go. */
    function DetachDelete(id: Id): (r: Store)
      ensures Valid() ==> r.Valid()
    {
      Store(nodes - {id}, (set e | e in edges && e.src != id && e.dst != id), nextId)
    }
  }

  const Empty: Store := Store(map[], {}, 0)

  /** What a mutating operation leaves behind: the store afterwards, and
      either the ids of the records its statement returned or what it threw. */
  datatype Step = Step(after: Store, result: Outcome<seq<Id>>)

  /** `(user:USER) WHERE user.subId = $subId` */
  predicate IsUser(s: Store, u: Id, subId: string) {
    s.Has(u, User) && Get(s.nodes[u].props, SubId) == Str(subId)
  }

  /** `(user:USER {subId}) -[:OWNS]-> (section:SECTION) WHERE ID(section) = $sectionId` */
  predicate OwnsSection(s: Store, subId: string, section: Id) {
    s.Has(section, Section) && exists u :: u in s.nodes && Edge(u, Owns, section) in s.edges && IsUser(s, u, subId)
  }

  /** The ownership chain `(user {subId}) -[:OWNS]-> (section) -[:kind]-> (target:label)`. */
  predicate Reaches(s: Store, subId: string, section: Id, kind: EdgeKind, tag: Label, target: Id) {
    OwnsSection(s, subId, section) && s.Has(target, tag) && Edge(section, kind, target) in s.edges
  }

  /** A single-node MATCH pattern. */
  datatype Pattern =
    | UsersWith(subId: string)
    | SectionsOf(subId: string)
    | LinkedFrom(src: Id, kind: EdgeKind, tag: Label)

  predicate Matches(s: Store, pat: Pattern, id: Id) {
    match pat
    case UsersWith(subId) => IsUser(s, id, subId)
    case SectionsOf(subId) => OwnsSection(s, subId, id)
    case LinkedFrom(src, kind, tag) => s.Has(id, tag) && Edge(src, kind, id) in s.edges
  }

  /** Strictly increasing, hence free of duplicates. */
  predicate Increasing(ids: seq<Id>) {
    forall i, j :: 0 <= i < j < |ids| ==> ids[i] < ids[j]
  }

  /** Two increasing sequences with the same elements are the same sequence. */
  lemma {:induction false} IncreasingUnique(a: seq<Id>, b: seq<Id>)
    requires Increasing(a) && Increasing(b)
    requires forall x :: x in a <==> x in b
    ensures a == b
    decreases |a|
  {
    assert a != [] ==> a[0] in a && a[0] in b;
    assert b != [] ==> b[0] in b && b[0] in a;
    if a != [] && b != [] {
      assert a[0] == b[0];
      forall x ensures x in a[1..] <==> x in b[1..] {
        if x in a[1..] { assert x in a && x != a[0]; }
        if x in b[1..] { assert x in b && x != b[0]; }
      }
      IncreasingUnique(a[1..], b[1..]);
      assert a == [a[0]] + a[1..] && b == [b[0]] + b[1..];
    }
  }

  /** A row counted once in a list sits at one position only. */
  lemma OncePerList(xs: seq<Id>, i: int, j: int)
    requires 0 <= i < j < |xs| && multiset(xs)[xs[i]] <= 1
    ensures xs[i] != xs[j]
  {
    assert xs == xs[..j] + xs[j..];
    assert xs[i] == xs[..j][i] && xs[j] == xs[j..][0];
  }

  /** The nodes from id `from` on that match `pat`, in the order of a scan by id. */
  function Scan(s: Store, pat: Pattern, from: Id): (r: seq<Id>)
    ensures forall x :: multiset(r)[x] == if from <= x < s.nextId && Matches(s, pat, x) then 1 else 0
    ensures forall k :: 0 <= k < |r| ==> from <= r[k]
    ensures Increasing(r)
    decreases s.nextId - from
  {
    if from >= s.nextId then []
    else
      var rest := Scan(s, pat, from + 1);
      if Matches(s, pat, from) then
        assert multiset([from] + rest) == multiset{from} + multiset(rest);
        [from] + rest
      else rest
  }

  /** The rows of a MATCH: every matching node exactly once. The engine leaves
      their order open; the model takes them by ascending id. */
  function Rows(s: Store, pat: Pattern): (r: seq<Id>)
    requires s.Valid()
    ensures forall x :: x in r <==> Matches(s, pat, x)
    ensures forall x :: multiset(r)[x] == if Matches(s, pat, x) then 1 else 0
    ensures (forall x :: !Matches(s, pat, x)) ==> r == []
    ensures Increasing(r)
  {
    var r := Scan(s, pat, 0);
    assert forall x :: x in r <==> x in multiset(r);
    assert r != [] ==> r[0] in r;
    r
  }

  /** The `createdAt` sort key; anything but a timestamp sorts as null. */
  function CreatedKey(p: Props): Option<int> {
    match Get(p, CreatedAt)
    case Time(t) => Some(t)
    case _ => None
  }

  function KeyOf(s: Store, id: Id): Option<int> {
    if id in s.nodes then CreatedKey(s.nodes[id].props) else None
  }

  /** Cypher's ascending order: nulls come last. */
  predicate KeyLe(a: Option<int>, b: Option<int>) {
    b.None? || (a.Some? && a.value <= b.value)
  }

  /** `ORDER BY x` (ascending) or `ORDER BY x DESC`, which puts nulls first. */
  predicate InOrder(a: Option<int>, b: Option<int>, descending: bool) {
    if descending then KeyLe(b, a) else KeyLe(a, b)
  }

  ghost predicate Ordered(s: Store, ids: seq<Id>, descending: bool) {
    forall i, j :: 0 <= i < j < |ids| ==> InOrder(KeyOf(s, ids[i]), KeyOf(s, ids[j]), descending)
  }

  /** Putting `h` in front of an ordered `t` that it may precede keeps it ordered. */
  lemma OrderedCons(s: Store, h: Id, t: seq<Id>, descending: bool)
    requires Ordered(s, t, descending)
    requires forall k :: 0 <= k < |t| ==> InOrder(KeyOf(s, h), KeyOf(s, t[k]), descending)
    ensures Ordered(s, [h] + t, descending)
  {
    var r := [h] + t;
    forall i, j | 0 <= i < j < |r| ensures InOrder(KeyOf(s, r[i]), KeyOf(s, r[j]), descending) {
      if i == 0 {
        assert r[j] == t[j - 1];
      } else {
        assert r[i] == t[i - 1] && r[j] == t[j - 1];
      }
    }
  }

  function Insert(s: Store, x: Id, xs: seq<Id>, descending: bool): (r: seq<Id>)
    requires Ordered(s, xs, descending)
    ensures Ordered(s, r, descending)
    ensures multiset(r) == multiset(xs) + multiset{x}
  {
    if xs == [] || InOrder(KeyOf(s, x), KeyOf(s, xs[0]), descending) then
      assert forall k :: 0 <= k < |xs| ==> InOrder(KeyOf(s, x), KeyOf(s, xs[k]), descending) by {
        forall k | 0 <= k < |xs| ensures InOrder(KeyOf(s, x), KeyOf(s, xs[k]), descending) {
          if k > 0 { assert InOrder(KeyOf(s, xs[0]), KeyOf(s, xs[k]), descending); }
        }
      }
      OrderedCons(s, x, xs, descending);
      [x] + xs
    else
      var rest := Insert(s, x, xs[1..], descending);
      assert xs == [xs[0]] + xs[1..];
      assert forall k :: 0 <= k < |rest| ==> InOrder(KeyOf(s, xs[0]), KeyOf(s, rest[k]), descending) by {
        forall k | 0 <= k < |rest| ensures InOrder(KeyOf(s, xs[0]), KeyOf(s, rest[k]), descending) {
          assert rest[k] in multiset(rest);
          if rest[k] != x {
            assert rest[k] in multiset(xs[1..]);
            var m :| 0 <= m < |xs[1..]| && xs[1..][m] == rest[k];
            assert xs[m + 1] == rest[k];
          }
        }
      }
      OrderedCons(s, xs[0], rest, descending);
      [xs[0]] + rest
  }

  /** `ORDER BY createdAt [DESC]` over rows, a stable insertion sort. */
  function OrderByCreated(s: Store, ids: seq<Id>, descending: bool): (r: seq<Id>)
    ensures Ordered(s, r, descending)
    ensures multiset(r) == multiset(ids)
  {
    if ids == [] then []
    else
      assert ids == [ids[0]] + ids[1..];
      Insert(s, ids[0], OrderByCreated(s, ids[1..], descending), descending)
  }

  /** `{ ...node.properties, id: node.identity.low }` */
  function Project(s: Store, id: Id): (r: Props)
    requires id in s.nodes
    ensures Get(r, Identity) == Int(Low(id))
    ensures forall k :: k != Identity ==> Get(r, k) == Get(s.nodes[id].props, k)
    ensures CreatedKey(r) == KeyOf(s, id)
  {
    s.nodes[id].props[Identity := Int(Low(id))]
  }

  /** `records.map(...)` with `Project` on every row. */
  function ProjectAll(s: Store, ids: seq<Id>): (r: seq<Props>)
    requires forall x :: x in ids ==> x in s.nodes
    ensures |r| == |ids|
    ensures forall i :: 0 <= i < |ids| ==> r[i] == Project(s, ids[i])
  {
    seq(|ids|, i requires 0 <= i < |ids| => Project(s, ids[i]))
  }

  /** The rows of `MATCH (user:USER) -[:OWNS]-> (section:SECTION) -[:kind]-> (x:tag)
      WHERE user.subId = $subId AND ID(section) = $sectionId ... ORDER BY x.createdAt DESC`:
      every node the chain reaches, once, newest first. */
  function ChildRows(s: Store, subId: string, section: Id, kind: EdgeKind, tag: Label): (r: seq<Id>)
    requires s.Valid()
    ensures forall x :: multiset(r)[x] == if Reaches(s, subId, section, kind, tag, x) then 1 else 0
    ensures forall x :: x in r ==> x in s.nodes
    ensures Ordered(s, r, true)
  {
    if OwnsSection(s, subId, section) then
      var rows := Rows(s, LinkedFrom(section, kind, tag));
      var sorted := OrderByCreated(s, rows, true);
      assert forall x :: multiset(rows)[x] == multiset(sorted)[x];
      assert forall x :: x in sorted ==> x in s.nodes by {
        forall x | x in sorted ensures x in s.nodes { assert x in multiset(rows); }
      }
      sorted
    else
      []
  }

  /** The database as mutable state. */
  class Graph {
    var nodes: map<Id, Node>
    var edges: set<Edge>
    var nextId: Id

    function View(): Store
      reads this
    {
      Store(nodes, edges, nextId)
    }

    ghost predicate Valid()
      reads this
    {
      View().Valid()
    }

    constructor ()
      ensures View() == Empty && Valid()
    {
      nodes, edges, nextId := map[], {}, 0;
    }

    method AddNode(n: Node) returns (id: Id)
      modifies this
      ensures id == old(nextId)
      ensures View() == old(View()).WithNode(n)
    {
      id := nextId;
      nodes := nodes[id := n];
      nextId := nextId + 1;
    }

    method Link(e: Edge)
      modifies this
      ensures View() == old(View()).Link(e)
    {
      edges := edges + {e};
    }

    method Unlink(e: Edge)
      modifies this
      ensures View() == old(View()).Unlink(e)
    {
      edges := edges - {e};
    }

    method SetProps(id: Id, p: Props)
      requires id in nodes
      modifies this
      ensures View() == old(View()).SetProps(id, p)
    {
      nodes := nodes[id := Node(nodes[id].tag, p)];
    }

    method DetachDelete(id: Id)
      modifies this
      ensures View() == old(View()).DetachDelete(id)
    {
      nodes := nodes - {id};
      edges := set e | e in edges && e.src != id && e.dst != id;
    }
  }
}
