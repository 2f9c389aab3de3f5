/** The publication operations: reads along the ownership chain, creation
    under an owned section, versioned updates and soft deletes. */
module Publications {
  import opened Values
  import opened GraphStore

  /** The GraphQL input of the mutations; absent fields are `Undefined`. */
  datatype PublicationInput = PublicationInput(
    id: Id,
    sectionId: Id,
    title: Value,
    subtitle: Value,
    tags: Value,
    description: Value,
    image: Value,
    metadata: Value,
    isCompleted: Value)

  /** `{ ...node.properties, id: node.identity.low, metadata: JSON.parse(node.properties.metadata) }`:
      the projection fails when the stored `metadata` does not parse. */
  function Record(s: Store, id: Id): (r: Outcome<Props>)
    requires id in s.nodes
    ensures r.Success? <==> Decode(Get(s.nodes[id].props, Metadata)).Success?
    ensures r.Failure? ==> r.error == MalformedJson
    ensures r.Success? ==>
              && Get(r.value, Metadata) == Decode(Get(s.nodes[id].props, Metadata)).value
              && Get(r.value, Identity) == Int(Low(id))
              && (forall k :: k != Identity && k != Metadata ==> Get(r.value, k) == Get(s.nodes[id].props, k))
              && CreatedKey(r.value) == KeyOf(s, id)
  {
    match Decode(Get(s.nodes[id].props, Metadata))
    case Success(m) => Success(Project(s, id)[Metadata := m])
    case Failure(e) => Failure(MalformedJson)
  }

  /** `records.map(...)` with `Record`: the first row whose metadata does not
      parse throws out of the whole map. */
  function Records(s: Store, ids: seq<Id>): (r: Outcome<seq<Props>>)
    requires forall x :: x in ids ==> x in s.nodes
    ensures r.Success? <==> forall i :: 0 <= i < |ids| ==> Record(s, ids[i]).Success?
    ensures r.Failure? ==> r.error == MalformedJson
    ensures r.Success? ==>
              |r.value| == |ids| && forall i :: 0 <= i < |ids| ==> Record(s, ids[i]) == Success(r.value[i])
  {
    if ids == [] then Success([])
    else
      match Record(s, ids[0])
      case Failure(e) => Failure(e)
      case Success(head) =>
        match Records(s, ids[1..])
        case Failure(e) => Failure(e)
        case Success(tail) =>
          var r := [head] + tail;
          assert forall i :: 1 <= i < |ids| ==> ids[i] == ids[1..][i - 1] && r[i] == tail[i - 1];
          Success(r)
  }

  /** `getPublicationOperation`: the publication, if the caller's section
      links it by CREATES_PUBLICATION; NotFound otherwise. */
  function GetPublication(s: Store, id: Id, sectionId: Id, subId: string): (r: Outcome<Props>)
    ensures r.Success? ==> Reaches(s, subId, sectionId, CreatesPublication, Publication, id)
    ensures !Reaches(s, subId, sectionId, CreatesPublication, Publication, id) ==> r == Failure(NotFound)
    ensures Reaches(s, subId, sectionId, CreatesPublication, Publication, id) ==> r == Record(s, id)
  {
    if Reaches(s, subId, sectionId, CreatesPublication, Publication, id) then Record(s, id)
    else Failure(NotFound)
  }

  /** `listPublicationsOperation`: the records of every publication the
      caller's section links, newest first, soft-deleted ones included. It
      throws MalformedJson exactly when some row's metadata does not parse. */
  function ListPublications(s: Store, sectionId: Id, subId: string): (r: Outcome<seq<Props>>)
    requires s.Valid()
    ensures var rows := ChildRows(s, subId, sectionId, CreatesPublication, Publication);
            r.Success? <==> forall i :: 0 <= i < |rows| ==> Record(s, rows[i]).Success?
    ensures r.Failure? ==> r.error == MalformedJson
    ensures r.Success? ==>
              var rows := ChildRows(s, subId, sectionId, CreatesPublication, Publication);
              |r.value| == |rows| && forall i :: 0 <= i < |rows| ==> Record(s, rows[i]) == Success(r.value[i])
  {
    Records(s, ChildRows(s, subId, sectionId, CreatesPublication, Publication))
  }

  /** The list succeeds if and only if every publication the caller's
      section links has metadata that parses. */
  lemma ListSucceeds(s: Store, sectionId: Id, subId: string)
    requires s.Valid()
    ensures ListPublications(s, sectionId, subId).Success? <==>
              forall x :: Reaches(s, subId, sectionId, CreatesPublication, Publication, x) ==> Record(s, x).Success?
  {
    var rows := ChildRows(s, subId, sectionId, CreatesPublication, Publication);
    if ListPublications(s, sectionId, subId).Success? {
      forall x | Reaches(s, subId, sectionId, CreatesPublication, Publication, x) ensures Record(s, x).Success? {
        assert x in multiset(rows);
        var i :| 0 <= i < |rows| && rows[i] == x;
      }
    } else {
      var i :| 0 <= i < |rows| && !Record(s, rows[i]).Success?;
      assert rows[i] in multiset(rows);
    }
  }

  /** The list is newest first, records without a timestamp first. */
  lemma ListNewestFirst(s: Store, sectionId: Id, subId: string)
    requires s.Valid()
    requires ListPublications(s, sectionId, subId).Success?
    ensures var r := ListPublications(s, sectionId, subId).value;
            forall i, j :: 0 <= i < j < |r| ==> KeyLe(CreatedKey(r[j]), CreatedKey(r[i]))
  {
    var rows := ChildRows(s, subId, sectionId, CreatesPublication, Publication);
    var r := ListPublications(s, sectionId, subId).value;
    forall i, j | 0 <= i < j < |r| ensures KeyLe(CreatedKey(r[j]), CreatedKey(r[i])) {
      assert Record(s, rows[i]) == Success(r[i]) && Record(s, rows[j]) == Success(r[j]);
      assert InOrder(KeyOf(s, rows[i]), KeyOf(s, rows[j]), true);
    }
  }

  /** Exactly the publications the section links are listed, each at one
      position only, and the record there is the publication's own. */
  lemma ListIsTheSection(s: Store, sectionId: Id, subId: string, p: Id)
    requires s.Valid()
    requires ListPublications(s, sectionId, subId).Success?
    ensures var rows := ChildRows(s, subId, sectionId, CreatesPublication, Publication);
            var r := ListPublications(s, sectionId, subId).value;
            && (Reaches(s, subId, sectionId, CreatesPublication, Publication, p) <==>
                  exists i :: 0 <= i < |r| && rows[i] == p)
            && (forall i, j :: 0 <= i < j < |r| ==> rows[i] != rows[j])
            && (forall i :: 0 <= i < |r| && rows[i] == p ==>
                  r[i] == Record(s, p).value && Get(r[i], Identity) == Int(Low(p)))
  {
    var rows := ChildRows(s, subId, sectionId, CreatesPublication, Publication);
    if Reaches(s, subId, sectionId, CreatesPublication, Publication, p) {
      assert p in multiset(rows);
    }
    forall i | 0 <= i < |rows| ensures Reaches(s, subId, sectionId, CreatesPublication, Publication, rows[i]) {
      assert rows[i] in multiset(rows);
    }
    forall i, j | 0 <= i < j < |rows| ensures rows[i] != rows[j] {
      OncePerList(rows, i, j);
    }
  }

  /** `searchPublicationsOperation`: `hits` is what the full-text index
      yields for the search text. When the caller owns the section every hit
      is returned, wherever it hangs; otherwise the result is empty. */
  function Search(s: Store, sectionId: Id, hits: seq<Id>, subId: string): (r: Outcome<seq<Props>>)
    requires forall i :: 0 <= i < |hits| ==> hits[i] in s.nodes && s.nodes[hits[i]].tag == Publication
    ensures !OwnsSection(s, subId, sectionId) ==> r == Success([])
    ensures OwnsSection(s, subId, sectionId) ==>
              (r.Success? <==> forall i :: 0 <= i < |hits| ==> Record(s, hits[i]).Success?)
    ensures OwnsSection(s, subId, sectionId) && r.Success? ==>
              |r.value| == |hits| && forall i :: 0 <= i < |hits| ==> Record(s, hits[i]) == Success(r.value[i])
  {
    if OwnsSection(s, subId, sectionId) then Records(s, hits) else Success([])
  }

  /** The search is not confined to the section: a publication that hangs off
      another user's section is returned when the index hits it. */
  lemma SearchCrossesSections(s: Store, sectionId: Id, subId: string, other: Id, p: Id)
    requires s.Valid()
    requires OwnsSection(s, subId, sectionId) && other != sectionId
    requires Edge(other, CreatesPublication, p) in s.edges && s.Has(p, Publication)
    requires Record(s, p).Success?
    ensures Search(s, sectionId, [p], subId) == Success([Record(s, p).value])
  {
    var r := Records(s, [p]);
    assert r.Success? && |r.value| == 1 && Record(s, [p][0]) == Success(r.value[0]);
    assert r.value == [Record(s, p).value];
  }

  /** The properties `createPublicationOperation` stores: `subtitle` and
      `tags` only when truthy, `metadata` as JSON text, `isCompleted`
      defaulting to false, and both timestamps at module load. */
  function NewProps(input: PublicationInput, loadedAt: int): (p: Props)
    ensures Get(p, Title) == Stored(input.title)
    ensures Get(p, Subtitle) == (if Truthy(input.subtitle) then input.subtitle else Undefined)
    ensures Get(p, Tags) == (if Truthy(input.tags) then input.tags else Undefined)
    ensures Get(p, Description) == Stored(input.description)
    ensures Get(p, Image) == Stored(input.image)
    ensures Get(p, Metadata) == Encode(input.metadata)
    ensures Get(p, IsCompleted) == (if Truthy(input.isCompleted) then input.isCompleted else Bool(false))
    ensures Get(p, CreatedAt) == Time(loadedAt) && Get(p, UpdatedAt) == Time(loadedAt)
    ensures Get(p, DeletedAt) == Undefined
    ensures forall k :: k in p ==>
              k in {Title, Subtitle, Tags, Description, Image, Metadata, IsCompleted, CreatedAt, UpdatedAt}
  {
    var p := Put(map[], Title, input.title);
    var p := if Truthy(input.subtitle) then Put(p, Subtitle, input.subtitle) else p;
    var p := if Truthy(input.tags) then Put(p, Tags, input.tags) else p;
    var p := Put(p, Description, input.description);
    var p := Put(p, Image, input.image);
    var p := Put(p, Metadata, Encode(input.metadata));
    var p := Put(p, IsCompleted, Or(input.isCompleted, Bool(false)));
    var p := Put(p, CreatedAt, Time(loadedAt));
    Put(p, UpdatedAt, Time(loadedAt))
  }

  /** `createPublicationOperation`: "Section not found." unless the caller
      owns the section; otherwise one new PUBLICATION linked from it. */
  function CreateEffect(s: Store, input: PublicationInput, subId: string, loadedAt: int): (r: Step)
    requires s.Valid()
    ensures r.after.Valid()
    ensures !OwnsSection(s, subId, input.sectionId) ==> r == Step(s, Failure(SectionNotFound))
    ensures OwnsSection(s, subId, input.sectionId) ==>
              && r.result == Success([s.nextId])
              && s.nextId !in s.nodes
              && r.after.nodes == s.nodes[s.nextId := Node(Publication, NewProps(input, loadedAt))]
              && r.after.edges == s.edges + {Edge(input.sectionId, CreatesPublication, s.nextId)}
  {
    if !OwnsSection(s, subId, input.sectionId) then Step(s, Failure(SectionNotFound))
    else
      var e := Edge(input.sectionId, CreatesPublication, s.nextId);
      Step(s.WithNode(Node(Publication, NewProps(input, loadedAt))).Link(e), Success([s.nextId]))
  }

  method Create(g: Graph, input: PublicationInput, subId: string, loadedAt: int) returns (r: Outcome<seq<Id>>)
    requires g.Valid()
    modifies g
    ensures g.Valid()
    ensures Step(g.View(), r) == CreateEffect(old(g.View()), input, subId, loadedAt)
  {
    if !OwnsSection(g.View(), subId, input.sectionId) {
      return Failure(SectionNotFound);
    }
    var id := g.AddNode(Node(Publication, NewProps(input, loadedAt)));
    g.Link(Edge(input.sectionId, CreatesPublication, id));
    r := Success([id]);
  }

  /** A created publication is found again through the same section, and its
      metadata comes back as supplied, `null` included, except that `NaN`
      comes back as `null`; without metadata the read throws, because
      `JSON.parse(undefined)` does. */
  lemma CreateThenGet(s: Store, input: PublicationInput, subId: string, loadedAt: int)
    requires s.Valid()
    requires OwnsSection(s, subId, input.sectionId)
    ensures var after := CreateEffect(s, input, subId, loadedAt).after;
            var r := GetPublication(after, s.nextId, input.sectionId, subId);
            && (input.metadata != Undefined ==>
                  r.Success? && Get(r.value, Metadata) == (if input.metadata == NaN then Null else input.metadata)
                  && Get(r.value, Identity) == Int(Low(s.nextId)))
            && (input.metadata == Undefined ==> r == Failure(MalformedJson))
  {
    var after := CreateEffect(s, input, subId, loadedAt).after;
    var u :| u in s.nodes && Edge(u, Owns, input.sectionId) in s.edges && IsUser(s, u, subId);
    assert u in after.nodes && IsUser(after, u, subId);
    assert Reaches(after, subId, input.sectionId, CreatesPublication, Publication, s.nextId);
  }

  /** The fields of the new version: each input field when truthy, else the
      old value; `metadata` is stored as given, not as JSON text; `createdAt`
      is carried over and `updatedAt` is the statement's `datetime()`. */
  function VersionProps(old_: Props, input: PublicationInput, now: int): (p: Props)
    ensures Get(p, Title) == Stored(Or(input.title, Get(old_, Title)))
    ensures Get(p, Subtitle) == Stored(Or(input.subtitle, Get(old_, Subtitle)))
    ensures Get(p, Tags) == Stored(Or(input.tags, Get(old_, Tags)))
    ensures Get(p, Description) == Stored(Or(input.description, Get(old_, Description)))
    ensures Get(p, Image) == Stored(Or(input.image, Get(old_, Image)))
    ensures Get(p, Metadata) == Stored(Or(input.metadata, Get(old_, Metadata)))
    ensures Get(p, IsCompleted) == Stored(Or(input.isCompleted, Get(old_, IsCompleted)))
    ensures Get(p, CreatedAt) == Stored(Get(old_, CreatedAt))
    ensures Get(p, UpdatedAt) == Time(now)
    ensures Get(p, DeletedAt) == Undefined
  {
    var p := Put(map[], Title, Or(input.title, Get(old_, Title)));
    var p := Put(p, Subtitle, Or(input.subtitle, Get(old_, Subtitle)));
    var p := Put(p, Tags, Or(input.tags, Get(old_, Tags)));
    var p := Put(p, Description, Or(input.description, Get(old_, Description)));
    var p := Put(p, Image, Or(input.image, Get(old_, Image)));
    var p := Put(p, Metadata, Or(input.metadata, Get(old_, Metadata)));
    var p := Put(p, IsCompleted, Or(input.isCompleted, Get(old_, IsCompleted)));
    var p := Put(p, CreatedAt, Get(old_, CreatedAt));
    Put(p, UpdatedAt, Time(now))
  }

  /** `updatePublicationOperation`: "Publication not found." unless the
      caller's section links the publication. Otherwise a new version takes
      the next id and the section's link; it points back at the old one by
      PREV_PUBLICATION, and the old one keeps its data with `updatedAt` set
      to `now`. */
  function UpdateEffect(s: Store, input: PublicationInput, subId: string, now: int): (r: Step)
    requires s.Valid()
    ensures r.after.Valid()
    ensures !Reaches(s, subId, input.sectionId, CreatesPublication, Publication, input.id) ==>
              r == Step(s, Failure(PublicationNotFound))
    ensures Reaches(s, subId, input.sectionId, CreatesPublication, Publication, input.id) ==>
              r.result == Success([]) && r.after.nextId == s.nextId + 1 && r.after.Has(s.nextId, Publication)
  {
    if !Reaches(s, subId, input.sectionId, CreatesPublication, Publication, input.id) then
      Step(s, Failure(PublicationNotFound))
    else
      var old_ := s.nodes[input.id].props;
      var n := s.nextId;
      var s1 := s.Unlink(Edge(input.sectionId, CreatesPublication, input.id));
      var s2 := s1.WithNode(Node(Publication, VersionProps(old_, input, now)));
      var s3 := s2.Link(Edge(input.sectionId, CreatesPublication, n));
      var s4 := s3.Link(Edge(n, PrevPublication, input.id));
      Step(s4.SetProps(input.id, Put(old_, UpdatedAt, Time(now))), Success([]))
  }

  /** The versions an update leaves behind: the new one under the next id
      with the merged fields, the old one with only `updatedAt` changed. */
  lemma UpdateVersions(s: Store, input: PublicationInput, subId: string, now: int)
    requires s.Valid()
    requires Reaches(s, subId, input.sectionId, CreatesPublication, Publication, input.id)
    ensures var after := UpdateEffect(s, input, subId, now).after;
            var old_ := s.nodes[input.id].props;
            && s.nextId !in s.nodes
            && after.nodes == s.nodes[s.nextId := Node(Publication, VersionProps(old_, input, now))]
                                     [input.id := Node(Publication, Put(old_, UpdatedAt, Time(now)))]
  {
  }

  /** The links an update rearranges: the section's link moves to the new
      version, which links back to the old one by PREV_PUBLICATION. */
  lemma UpdateLinks(s: Store, input: PublicationInput, subId: string, now: int)
    requires s.Valid()
    requires Reaches(s, subId, input.sectionId, CreatesPublication, Publication, input.id)
    ensures UpdateEffect(s, input, subId, now).after.edges
              == s.edges - {Edge(input.sectionId, CreatesPublication, input.id)}
                 + {Edge(input.sectionId, CreatesPublication, s.nextId), Edge(s.nextId, PrevPublication, input.id)}
  {
  }

  method Update(g: Graph, input: PublicationInput, subId: string, now: int) returns (r: Outcome<seq<Id>>)
    requires g.Valid()
    modifies g
    ensures g.Valid()
    ensures Step(g.View(), r) == UpdateEffect(old(g.View()), input, subId, now)
  {
    if !Reaches(g.View(), subId, input.sectionId, CreatesPublication, Publication, input.id) {
      return Failure(PublicationNotFound);
    }
    var old_ := g.nodes[input.id].props;
    g.Unlink(Edge(input.sectionId, CreatesPublication, input.id));
    var n := g.AddNode(Node(Publication, VersionProps(old_, input, now)));
    g.Link(Edge(input.sectionId, CreatesPublication, n));
    g.Link(Edge(n, PrevPublication, input.id));
    g.SetProps(input.id, Put(old_, UpdatedAt, Time(now)));
    r := Success([]);
  }

  /** After an update the section lists the new version and no longer the
      old one; the old one survives, reachable from the new one by history. */
  lemma UpdateReplacesHead(s: Store, input: PublicationInput, subId: string, now: int)
    requires s.Valid()
    requires Reaches(s, subId, input.sectionId, CreatesPublication, Publication, input.id)
    ensures var after := UpdateEffect(s, input, subId, now).after;
            var rows := ChildRows(after, subId, input.sectionId, CreatesPublication, Publication);
            && multiset(rows)[s.nextId] == 1
            && multiset(rows)[input.id] == 0
            && after.Has(input.id, Publication)
            && Edge(s.nextId, PrevPublication, input.id) in after.edges
  {
    var after := UpdateEffect(s, input, subId, now).after;
    UpdateVersions(s, input, subId, now);
    UpdateLinks(s, input, subId, now);
    HeadMoved(s, after, subId, input.sectionId, input.id, s.nextId);
  }

  /** The reasoning of `UpdateReplacesHead` on any store whose links were
      rearranged as an update rearranges them. */
  lemma HeadMoved(s: Store, after: Store, subId: string, section: Id, id: Id, n: Id)
    requires s.Valid() && after.Valid()
    requires Reaches(s, subId, section, CreatesPublication, Publication, id)
    requires n !in s.nodes && after.Has(n, Publication)
    requires forall v :: v in s.nodes && v != id ==> v in after.nodes && after.nodes[v] == s.nodes[v]
    requires after.edges == s.edges - {Edge(section, CreatesPublication, id)}
                            + {Edge(section, CreatesPublication, n), Edge(n, PrevPublication, id)}
    ensures var rows := ChildRows(after, subId, section, CreatesPublication, Publication);
            multiset(rows)[n] == 1 && multiset(rows)[id] == 0
  {
    var u :| u in s.nodes && Edge(u, Owns, section) in s.edges && IsUser(s, u, subId);
    assert u != id;
    assert IsUser(after, u, subId);
    assert Edge(u, Owns, section) in after.edges;
    assert Reaches(after, subId, section, CreatesPublication, Publication, n);
    assert id != n && section != n;
    assert Edge(section, CreatesPublication, id) !in after.edges;
    assert !Reaches(after, subId, section, CreatesPublication, Publication, id);
  }

  /** A falsy input never overwrites: `isCompleted: false` leaves a completed
      publication completed, and an absent field keeps the old value. */
  lemma FalsyKeepsOld(old_: Props, input: PublicationInput, now: int)
    requires !Truthy(input.isCompleted) && !Truthy(input.title)
    ensures Get(VersionProps(old_, input, now), IsCompleted) == Stored(Get(old_, IsCompleted))
    ensures Get(VersionProps(old_, input, now), Title) == Stored(Get(old_, Title))
  {
  }

  /** Created versions store metadata as JSON text, updated versions as
      given: a truthy update value is never the text the creation stored. */
  lemma UpdateStoresRawMetadata(s: Store, input: PublicationInput, subId: string, loadedAt: int, now: int)
    requires s.Valid() && Truthy(input.metadata)
    requires Reaches(s, subId, input.sectionId, CreatesPublication, Publication, input.id)
    ensures Get(UpdateEffect(s, input, subId, now).after.nodes[s.nextId].props, Metadata) == input.metadata
    ensures Get(NewProps(input, loadedAt), Metadata) != input.metadata
  {
    UpdateVersions(s, input, subId, now);
  }

  /** A chain of PREV_PUBLICATION links, newest first. */
  ghost predicate History(s: Store, chain: seq<Id>) {
    forall i :: 0 <= i < |chain| - 1 ==> Edge(chain[i], PrevPublication, chain[i + 1]) in s.edges
  }

  /** Every history chain goes strictly back in creation order, so no chain
      returns to where it started: the history is acyclic. */
  lemma {:induction false} HistoryDescends(s: Store, chain: seq<Id>)
    requires s.Valid() && History(s, chain) && |chain| >= 2
    ensures chain[|chain| - 1] < chain[0]
    decreases |chain|
  {
    assert Edge(chain[0], PrevPublication, chain[1]) in s.edges;
    if |chain| > 2 {
      HistoryDescends(s, chain[1..]);
    }
  }

  /** `deletePublicationOperation`: a soft delete. The reachable publication
      gets `deletedAt`, nothing else changes; an unreachable one is left alone
      and nothing is thrown. */
  function DeleteEffect(s: Store, id: Id, sectionId: Id, subId: string, loadedAt: int): (r: Step)
    requires s.Valid()
    ensures r.after.Valid()
    ensures !Reaches(s, subId, sectionId, CreatesPublication, Publication, id) ==> r == Step(s, Success([]))
    ensures Reaches(s, subId, sectionId, CreatesPublication, Publication, id) ==>
              && r.result == Success([id])
              && r.after.edges == s.edges && r.after.nextId == s.nextId
              && r.after.nodes == s.nodes[id := Node(Publication, Put(s.nodes[id].props, DeletedAt, Time(loadedAt)))]
  {
    if Reaches(s, subId, sectionId, CreatesPublication, Publication, id) then
      Step(s.SetProps(id, Put(s.nodes[id].props, DeletedAt, Time(loadedAt))), Success([id]))
    else
      Step(s, Success([]))
  }

  method Delete(g: Graph, id: Id, sectionId: Id, subId: string, loadedAt: int) returns (r: Outcome<seq<Id>>)
    requires g.Valid()
    modifies g
    ensures g.Valid()
    ensures Step(g.View(), r) == DeleteEffect(old(g.View()), id, sectionId, subId, loadedAt)
  {
    if Reaches(g.View(), subId, sectionId, CreatesPublication, Publication, id) {
      g.SetProps(id, Put(g.nodes[id].props, DeletedAt, Time(loadedAt)));
      r := Success([id]);
    } else {
      r := Success([]);
    }
  }

  /** Soft-deleted publications stay readable: the same read succeeds after
      the delete and shows `deletedAt`. */
  lemma DeletedStillVisible(s: Store, id: Id, sectionId: Id, subId: string, loadedAt: int)
    requires s.Valid()
    requires GetPublication(s, id, sectionId, subId).Success?
    ensures var r := GetPublication(DeleteEffect(s, id, sectionId, subId, loadedAt).after, id, sectionId, subId);
            r.Success? && Get(r.value, DeletedAt) == Time(loadedAt)
  {
    var after := DeleteEffect(s, id, sectionId, subId, loadedAt).after;
    var u :| u in s.nodes && Edge(u, Owns, sectionId) in s.edges && IsUser(s, u, subId);
    assert u in after.nodes && IsUser(after, u, subId);
    assert Reaches(after, subId, sectionId, CreatesPublication, Publication, id);
  }

  /** A soft delete changes nothing the list depends on: the same
      publications are reachable, with the same metadata. */
  lemma DeleteKeepsChain(s: Store, id: Id, sectionId: Id, subId: string, loadedAt: int, x: Id)
    requires s.Valid()
    requires Reaches(s, subId, sectionId, CreatesPublication, Publication, id)
    ensures var after := DeleteEffect(s, id, sectionId, subId, loadedAt).after;
            && (Reaches(after, subId, sectionId, CreatesPublication, Publication, x) <==>
                  Reaches(s, subId, sectionId, CreatesPublication, Publication, x))
            && (x in s.nodes ==> Get(after.nodes[x].props, Metadata) == Get(s.nodes[x].props, Metadata))
  {
    var after := DeleteEffect(s, id, sectionId, subId, loadedAt).after;
    forall u | u in s.nodes ensures IsUser(after, u, subId) <==> IsUser(s, u, subId) {
      if u == id { assert !s.Has(u, User) && !after.Has(u, User); }
    }
    assert OwnsSection(after, subId, sectionId) <==> OwnsSection(s, subId, sectionId);
  }

  /** A soft-deleted publication stays in its section's list, showing
      `deletedAt`. */
  lemma DeletedStillListed(s: Store, id: Id, sectionId: Id, subId: string, loadedAt: int)
    requires s.Valid()
    requires Reaches(s, subId, sectionId, CreatesPublication, Publication, id)
    requires ListPublications(s, sectionId, subId).Success?
    ensures var after := DeleteEffect(s, id, sectionId, subId, loadedAt).after;
            var r := ListPublications(after, sectionId, subId);
            var rows := ChildRows(after, subId, sectionId, CreatesPublication, Publication);
            && r.Success?
            && exists i :: 0 <= i < |r.value| && rows[i] == id
                           && Get(r.value[i], Identity) == Int(Low(id))
                           && Get(r.value[i], DeletedAt) == Time(loadedAt)
  {
    var after := DeleteEffect(s, id, sectionId, subId, loadedAt).after;
    ListSucceeds(s, sectionId, subId);
    ListSucceeds(after, sectionId, subId);
    forall x | Reaches(after, subId, sectionId, CreatesPublication, Publication, x)
      ensures Record(after, x).Success?
    {
      DeleteKeepsChain(s, id, sectionId, subId, loadedAt, x);
    }
    var rows := ChildRows(after, subId, sectionId, CreatesPublication, Publication);
    DeleteKeepsChain(s, id, sectionId, subId, loadedAt, id);
    assert id in multiset(rows);
    var i :| 0 <= i < |rows| && rows[i] == id;
  }
}
