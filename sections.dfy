/** The section operations: ownership-scoped lookups, creation under every
    USER with the caller's subject id, renaming, and the guarded hard delete. */
module Sections {
  import opened Values
  import opened GraphStore

  /** `getSectionOperation`: the section with that id, if the caller owns it. */
  function GetSection(s: Store, id: Id, subId: string): (r: Outcome<Props>)
    ensures r.Success? <==> OwnsSection(s, subId, id)
    ensures r.Success? ==> r.value == Project(s, id)
    ensures r.Failure? ==> r.error == NotFound
  {
    if OwnsSection(s, subId, id) then Success(Project(s, id)) else Failure(NotFound)
  }

  /** Only the owner sees a section: anyone with another subject id gets NotFound. */
  lemma {:induction false} OnlyOwnerSees(s: Store, id: Id, owner: string, other: string)
    requires s.SingleOwners()
    requires OwnsSection(s, owner, id)
    requires other != owner
    ensures GetSection(s, id, owner).Success?
    ensures GetSection(s, id, other) == Failure(NotFound)
  {
    var u :| u in s.nodes && Edge(u, Owns, id) in s.edges && IsUser(s, u, owner);
    forall v | v in s.nodes && Edge(v, Owns, id) in s.edges ensures !IsUser(s, v, other) {
      assert v == u;
    }
  }

  /** The rows of `listSectionsOperation`: every section the caller owns,
      once, in ascending `createdAt` order. */
  function ListRows(s: Store, subId: string): (r: seq<Id>)
    requires s.Valid()
    ensures forall x :: multiset(r)[x] == if OwnsSection(s, subId, x) then 1 else 0
    ensures forall x :: x in r ==> x in s.nodes
    ensures Ordered(s, r, false)
  {
    var rows := Rows(s, SectionsOf(subId));
    var sorted := OrderByCreated(s, rows, false);
    assert forall x :: multiset(rows)[x] == multiset(sorted)[x];
    assert forall x :: x in sorted ==> x in s.nodes by {
      forall x | x in sorted ensures x in s.nodes { assert x in multiset(rows); }
    }
    sorted
  }

  /** `listSectionsOperation`: the owned sections projected, oldest first. */
  function List(s: Store, subId: string): (r: seq<Props>)
    requires s.Valid()
    ensures |r| == |ListRows(s, subId)|
    ensures forall i :: 0 <= i < |r| ==> r[i] == Project(s, ListRows(s, subId)[i])
    ensures forall i, j :: 0 <= i < j < |r| ==> KeyLe(CreatedKey(r[i]), CreatedKey(r[j]))
  {
    var rows := ListRows(s, subId);
    var r := ProjectAll(s, rows);
    forall i, j | 0 <= i < j < |r| ensures KeyLe(CreatedKey(r[i]), CreatedKey(r[j])) {
      assert CreatedKey(r[i]) == KeyOf(s, rows[i]);
      assert CreatedKey(r[j]) == KeyOf(s, rows[j]);
      assert InOrder(KeyOf(s, rows[i]), KeyOf(s, rows[j]), false);
    }
    r
  }

  /** `{name, createdAt, updatedAt}` of a new section. */
  function SectionProps(name: Value, loadedAt: int): (p: Props)
    ensures Get(p, Name) == Stored(name)
    ensures Get(p, CreatedAt) == Time(loadedAt) && Get(p, UpdatedAt) == Time(loadedAt)
    ensures forall k :: k in p ==> k in {Name, CreatedAt, UpdatedAt}
  {
    Put(Put(Put(map[], Name, name), CreatedAt, Time(loadedAt)), UpdatedAt, Time(loadedAt))
  }

  /** `CREATE (user) -[:OWNS]-> (section:SECTION {...})` for the first `n`
      matched user rows, in row order: the i-th owner gets the section with
      id `s.nextId + i`. */
  function AddSections(s: Store, owners: seq<Id>, n: nat, props: Props): (r: Store)
    requires n <= |owners|
    ensures r.nextId == s.nextId + n
  {
    if n == 0 then s
    else
      var a := AddSections(s, owners, n - 1, props);
      a.WithNode(Node(Section, props)).Link(Edge(owners[n - 1], Owns, a.nextId))
  }

  /** The batch of creations keeps the old nodes as they were and adds one
      new section for each owner. */
  lemma {:induction false} AddSectionsNode(s: Store, owners: seq<Id>, n: nat, props: Props, id: Id)
    requires n <= |owners|
    requires forall x :: x in s.nodes ==> x < s.nextId
    ensures var r := AddSections(s, owners, n, props);
            && (id in r.nodes <==> id in s.nodes || s.nextId <= id < r.nextId)
            && (id in s.nodes ==> r.nodes[id] == s.nodes[id])
            && (s.nextId <= id < r.nextId ==> r.nodes[id] == Node(Section, props))
  {
    if n > 0 {
      AddSectionsNode(s, owners, n - 1, props, id);
      var a := AddSections(s, owners, n - 1, props);
      assert AddSections(s, owners, n, props).nodes == a.nodes[a.nextId := Node(Section, props)];
    }
  }

  /** The batch of creations adds an OWNS link from the i-th owner to the
      i-th new section, and no other relationship. */
  lemma {:induction false} AddSectionsEdge(s: Store, owners: seq<Id>, n: nat, props: Props, e: Edge)
    requires n <= |owners|
    ensures var r := AddSections(s, owners, n, props);
            e in r.edges <==>
              e in s.edges || (e.kind == Owns && s.nextId <= e.dst < r.nextId && e.src == owners[e.dst - s.nextId])
  {
    if n > 0 {
      AddSectionsEdge(s, owners, n - 1, props, e);
    }
  }

  /** The batch of creations keeps the store valid when every owner exists. */
  lemma {:induction false} AddSectionsValid(s: Store, owners: seq<Id>, n: nat, props: Props)
    requires n <= |owners|
    requires s.Valid()
    requires forall u :: u in owners ==> u in s.nodes
    ensures AddSections(s, owners, n, props).Valid()
    ensures forall u :: u in s.nodes ==> u in AddSections(s, owners, n, props).nodes
  {
    if n > 0 {
      AddSectionsValid(s, owners, n - 1, props);
      var a := AddSections(s, owners, n - 1, props);
      assert owners[n - 1] in s.nodes;
      OwnedNodeValid(a, owners[n - 1], props);
    }
  }

  /** One `CREATE (user) -[:OWNS]-> (section)` from an existing node. */
  lemma OwnedNodeValid(a: Store, u: Id, props: Props)
    requires a.Valid() && u in a.nodes
    ensures a.WithNode(Node(Section, props)).Link(Edge(u, Owns, a.nextId)).Valid()
    ensures a.nodes.Keys <= a.WithNode(Node(Section, props)).Link(Edge(u, Owns, a.nextId)).nodes.Keys
  {
  }

  /** The ids `from, from + 1, ..., from + n - 1` that `n` creations take. */
  function Fresh(from: Id, n: nat): (r: seq<Id>)
    ensures |r| == n
  {
    if n == 0 then [] else Fresh(from, n - 1) + [from + n - 1]
  }

  lemma {:induction false} FreshAt(from: Id, n: nat)
    ensures forall k :: 0 <= k < n ==> Fresh(from, n)[k] == from + k
  {
    if n > 0 {
      FreshAt(from, n - 1);
      assert forall k :: 0 <= k < n - 1 ==> Fresh(from, n)[k] == Fresh(from, n - 1)[k];
    }
  }

  /** The rows of `MATCH (user:USER) WHERE user.subId = $userId`. */
  function Owners(s: Store, subId: string): (r: seq<Id>)
    requires s.Valid()
    ensures forall u :: u in r <==> IsUser(s, u, subId)
    ensures (forall u :: !IsUser(s, u, subId)) ==> r == []
  {
    var rows := Rows(s, UsersWith(subId));
    assert forall u :: Matches(s, UsersWith(subId), u) <==> IsUser(s, u, subId);
    rows
  }

  /** `createSectionOperation`: one new section per USER carrying the subject
      id, returned in row order; nothing is thrown. */
  function CreateEffect(s: Store, name: Value, subId: string, loadedAt: int): (r: Step)
    requires s.Valid()
    ensures r.after.Valid()
    ensures r.result.Success? && |r.result.value| == |Owners(s, subId)|
  {
    var owners := Owners(s, subId);
    AddSectionsValid(s, owners, |owners|, SectionProps(name, loadedAt));
    Step(AddSections(s, owners, |owners|, SectionProps(name, loadedAt)), Success(Fresh(s.nextId, |owners|)))
  }

  /** The i-th returned id is a section that did not exist before, carries
      the given name and timestamps, and is owned by the caller. */
  lemma CreateOwnsEach(s: Store, name: Value, subId: string, loadedAt: int, i: int)
    requires s.Valid()
    requires 0 <= i < |CreateEffect(s, name, subId, loadedAt).result.value|
    ensures var r := CreateEffect(s, name, subId, loadedAt);
            var id := r.result.value[i];
            && id !in s.nodes
            && id in r.after.nodes && r.after.nodes[id] == Node(Section, SectionProps(name, loadedAt))
            && OwnsSection(r.after, subId, id)
  {
    var owners := Owners(s, subId);
    var props := SectionProps(name, loadedAt);
    assert CreateEffect(s, name, subId, loadedAt).result.value[i] == s.nextId + i by { FreshAt(s.nextId, |owners|); }
    assert IsUser(s, owners[i], subId) by { assert owners[i] in owners; }
    AddSectionsOwned(s, owners, props, subId, i);
  }

  /** The i-th new section of a batch, owned by the i-th owner. */
  lemma AddSectionsOwned(s: Store, owners: seq<Id>, props: Props, subId: string, i: int)
    requires s.Valid()
    requires 0 <= i < |owners| && IsUser(s, owners[i], subId)
    ensures var t := AddSections(s, owners, |owners|, props);
            && s.nextId + i !in s.nodes
            && s.nextId + i in t.nodes && t.nodes[s.nextId + i] == Node(Section, props)
            && OwnsSection(t, subId, s.nextId + i)
  {
    var n := |owners|;
    var t := AddSections(s, owners, n, props);
    var u := owners[i];
    var id := s.nextId + i;
    assert s.nextId <= id < t.nextId;
    AddSectionsNode(s, owners, n, props, id);
    AddSectionsNode(s, owners, n, props, u);
    AddSectionsEdge(s, owners, n, props, Edge(u, Owns, id));
    assert IsUser(t, u, subId);
  }

  /** Nothing else changes: the old nodes and relationships stay as they
      were, and every new node and relationship belongs to a returned section. */
  lemma CreateFrame(s: Store, name: Value, subId: string, loadedAt: int)
    requires s.Valid()
    ensures var r := CreateEffect(s, name, subId, loadedAt);
            && (forall id :: id in r.after.nodes <==> id in s.nodes || id in r.result.value)
            && (forall id :: id in s.nodes ==> r.after.nodes[id] == s.nodes[id])
            && s.edges <= r.after.edges
            && (forall e :: e in r.after.edges && e !in s.edges ==> e.kind == Owns && e.dst in r.result.value)
  {
    var owners := Owners(s, subId);
    var props := SectionProps(name, loadedAt);
    var r := CreateEffect(s, name, subId, loadedAt);
    var t := r.after;
    var ids := r.result.value;
    assert t == AddSections(s, owners, |owners|, props);
    assert forall id :: id in ids <==> s.nextId <= id < t.nextId by {
      FreshAt(s.nextId, |owners|);
      forall id | s.nextId <= id < t.nextId ensures id in ids { assert ids[id - s.nextId] == id; }
    }
    forall id
      ensures (id in t.nodes <==> id in s.nodes || id in ids) && (id in s.nodes ==> t.nodes[id] == s.nodes[id])
    {
      AddSectionsNode(s, owners, |owners|, props, id);
    }
    forall e ensures (e in s.edges ==> e in t.edges) && (e in t.edges && e !in s.edges ==> e.kind == Owns && e.dst in ids) {
      AddSectionsEdge(s, owners, |owners|, props, e);
    }
  }

  /** Without a USER for the subject id the statement matches no row: the
      store is unchanged and the result is empty, not an error. */
  lemma CreateWithoutUser(s: Store, name: Value, subId: string, loadedAt: int)
    requires s.Valid()
    requires forall u :: !IsUser(s, u, subId)
    ensures CreateEffect(s, name, subId, loadedAt) == Step(s, Success([]))
  {
  }

  /** The loop of `CREATE`s over the matched user rows. */
  method AddEach(g: Graph, owners: seq<Id>, props: Props) returns (ids: seq<Id>)
    modifies g
    ensures g.View() == AddSections(old(g.View()), owners, |owners|, props)
    ensures ids == Fresh(old(g.nextId), |owners|)
  {
    ghost var s0 := g.View();
    ids := [];
    var i := 0;
    while i < |owners|
      invariant 0 <= i <= |owners|
      invariant g.View() == AddSections(s0, owners, i, props)
      invariant ids == Fresh(s0.nextId, i)
    {
      var id := g.AddNode(Node(Section, props));
      g.Link(Edge(owners[i], Owns, id));
      ids := ids + [id];
      i := i + 1;
    }
  }

  method Create(g: Graph, name: Value, subId: string, loadedAt: int) returns (r: Outcome<seq<Id>>)
    requires g.Valid()
    modifies g
    ensures g.Valid()
    ensures Step(g.View(), r) == CreateEffect(old(g.View()), name, subId, loadedAt)
  {
    var owners := Owners(g.View(), subId);
    var props := SectionProps(name, loadedAt);
    AddSectionsValid(g.View(), owners, |owners|, props);
    var ids := AddEach(g, owners, props);
    r := Success(ids);
  }

  /** `updateSectionOperation`: `SET section.name, section.updatedAt` on an
      owned section; for any other id it matches nothing, changes nothing and
      still succeeds. */
  function UpdateEffect(s: Store, id: Id, name: Value, subId: string, loadedAt: int): (r: Step)
    requires s.Valid()
    ensures r.after.Valid()
    ensures r.result == Success(if OwnsSection(s, subId, id) then [id] else [])
    ensures !OwnsSection(s, subId, id) ==> r.after == s
    ensures OwnsSection(s, subId, id) ==>
              && r.after.edges == s.edges && r.after.nextId == s.nextId
              && r.after.nodes.Keys == s.nodes.Keys
              && (forall x :: x in s.nodes && x != id ==> r.after.nodes[x] == s.nodes[x])
              && r.after.nodes[id].tag == Section
              && Get(r.after.nodes[id].props, Name) == Stored(name)
              && Get(r.after.nodes[id].props, UpdatedAt) == Time(loadedAt)
              && (forall k :: k != Name && k != UpdatedAt ==>
                    Get(r.after.nodes[id].props, k) == Get(s.nodes[id].props, k))
  {
    if OwnsSection(s, subId, id) then
      var p := Put(Put(s.nodes[id].props, Name, name), UpdatedAt, Time(loadedAt));
      Step(s.SetProps(id, p), Success([id]))
    else
      Step(s, Success([]))
  }

  method Update(g: Graph, id: Id, name: Value, subId: string, loadedAt: int) returns (r: Outcome<seq<Id>>)
    requires g.Valid()
    modifies g
    ensures g.Valid()
    ensures Step(g.View(), r) == UpdateEffect(old(g.View()), id, name, subId, loadedAt)
  {
    if OwnsSection(g.View(), subId, id) {
      var p := Put(Put(g.nodes[id].props, Name, name), UpdatedAt, Time(loadedAt));
      g.SetProps(id, p);
      r := Success([id]);
    } else {
      r := Success([]);
    }
  }

  /** A rename by the owner is what the owner reads back. */
  lemma UpdateThenGet(s: Store, id: Id, name: Value, subId: string, loadedAt: int)
    requires s.Valid()
    requires OwnsSection(s, subId, id)
    ensures var r := GetSection(UpdateEffect(s, id, name, subId, loadedAt).after, id, subId);
            r.Success? && Get(r.value, Name) == Stored(name) && Get(r.value, UpdatedAt) == Time(loadedAt)
  {
    var after := UpdateEffect(s, id, name, subId, loadedAt).after;
    var u :| u in s.nodes && Edge(u, Owns, id) in s.edges && IsUser(s, u, subId);
    assert u != id;
    assert u in after.nodes && Edge(u, Owns, id) in after.edges && IsUser(after, u, subId);
  }

  /** The guard of `deleteSectionOperation`: some USER has the subject id and
      the section has a PUBLICATION behind a CREATED relationship. Neither
      ownership nor CREATES_PUBLICATION takes part. */
  predicate GuardFires(s: Store, id: Id, subId: string) {
    && (exists u :: u in s.nodes && IsUser(s, u, subId))
    && s.Has(id, Section)
    && (exists p :: p in s.nodes && s.Has(p, Publication) && Edge(id, Created, p) in s.edges)
  }

  /** `deleteSectionOperation`: throws when the guard fires; otherwise
      `DETACH DELETE`s the section with that id whoever owns it, leaving its
      publications and events behind without their incoming relationships. */
  function DeleteEffect(s: Store, id: Id, subId: string): (r: Step)
    requires s.Valid()
    ensures r.after.Valid()
    ensures GuardFires(s, id, subId) ==> r == Step(s, Failure(SectionHasPublications))
    ensures !GuardFires(s, id, subId) ==> r.result == Success([])
    ensures !GuardFires(s, id, subId) && s.Has(id, Section) ==>
              && r.after.nodes == s.nodes - {id}
              && (forall e :: e in r.after.edges <==> e in s.edges && e.src != id && e.dst != id)
    ensures !s.Has(id, Section) ==> r.after == s
  {
    if GuardFires(s, id, subId) then Step(s, Failure(SectionHasPublications))
    else if s.Has(id, Section) then Step(s.DetachDelete(id), Success([]))
    else Step(s, Success([]))
  }

  method Delete(g: Graph, id: Id, subId: string) returns (r: Outcome<seq<Id>>)
    requires g.Valid()
    modifies g
    ensures g.Valid()
    ensures Step(g.View(), r) == DeleteEffect(old(g.View()), id, subId)
  {
    if GuardFires(g.View(), id, subId) {
      return Failure(SectionHasPublications);
    }
    if g.View().Has(id, Section) {
      g.DetachDelete(id);
    }
    r := Success([]);
  }

  /** With no CREATED relationship in the store the guard never fires: any
      caller deletes any section, publications attached to it or not. */
  lemma DeleteIgnoresPublications(s: Store, id: Id, subId: string, p: Id)
    requires s.Valid()
    requires forall e :: e in s.edges ==> e.kind != Created
    requires s.Has(id, Section) && s.Has(p, Publication) && Edge(id, CreatesPublication, p) in s.edges
    ensures DeleteEffect(s, id, subId).result == Success([])
    ensures id !in DeleteEffect(s, id, subId).after.nodes
    ensures p in DeleteEffect(s, id, subId).after.nodes
    ensures Edge(id, CreatesPublication, p) !in DeleteEffect(s, id, subId).after.edges
  {
  }

  /** Deletion is by id alone: a caller who does not own the section deletes
      it, and its owner can no longer read it. */
  lemma StrangerDeletes(s: Store, id: Id, owner: string, stranger: string)
    requires s.Valid()
    requires OwnsSection(s, owner, id) && !GuardFires(s, id, stranger)
    ensures var r := DeleteEffect(s, id, stranger);
            r.result == Success([]) && GetSection(r.after, id, owner) == Failure(NotFound)
  {
  }
}
