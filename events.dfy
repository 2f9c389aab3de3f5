/** The event operations: reads along the ownership chain, creation under an
    owned section, field-by-field updates and hard deletes. */
module Events {
  import opened Values
  import opened GraphStore

  /** The GraphQL input of the mutations; absent fields are `Undefined`. */
  datatype EventInput = EventInput(
    id: Id,
    sectionId: Id,
    dateStart: Value,
    dateEnd: Value,
    name: Value,
    description: Value,
    image: Value,
    ticketsAvailable: Value,
    location: Value)

  /** `getEventOperation`: the event, if the caller's section links it by
      CREATES_EVENT; NotFound otherwise. */
  function GetEvent(s: Store, id: Id, sectionId: Id, subId: string): (r: Outcome<Props>)
    ensures r.Success? <==> Reaches(s, subId, sectionId, CreatesEvent, Event, id)
    ensures r.Success? ==> r.value == Project(s, id)
    ensures r.Failure? ==> r.error == NotFound
  {
    if Reaches(s, subId, sectionId, CreatesEvent, Event, id) then Success(Project(s, id))
    else Failure(NotFound)
  }

  /** `listEventsOperation`: every event the caller's section links,
      projected, newest first. */
  function ListEvents(s: Store, sectionId: Id, subId: string): (r: seq<Props>)
    requires s.Valid()
    ensures var rows := ChildRows(s, subId, sectionId, CreatesEvent, Event);
            |r| == |rows| && forall i :: 0 <= i < |rows| ==> r[i] == Project(s, rows[i])
  {
    ProjectAll(s, ChildRows(s, subId, sectionId, CreatesEvent, Event))
  }

  /** The list is in non-increasing `createdAt` order, records without a
      timestamp first. */
  lemma ListNewestFirst(s: Store, sectionId: Id, subId: string)
    requires s.Valid()
    ensures var r := ListEvents(s, sectionId, subId);
            forall i, j :: 0 <= i < j < |r| ==> KeyLe(CreatedKey(r[j]), CreatedKey(r[i]))
  {
    var rows := ChildRows(s, subId, sectionId, CreatesEvent, Event);
    var r := ListEvents(s, sectionId, subId);
    forall i, j | 0 <= i < j < |r| ensures KeyLe(CreatedKey(r[j]), CreatedKey(r[i])) {
      assert CreatedKey(r[i]) == KeyOf(s, rows[i]);
      assert CreatedKey(r[j]) == KeyOf(s, rows[j]);
      assert InOrder(KeyOf(s, rows[i]), KeyOf(s, rows[j]), true);
    }
  }

  /** The list and the single read agree: an event is listed, exactly once,
      if and only if it can be read by id, and the listed record is the one
      the read returns. */
  lemma ListAgreesWithGet(s: Store, sectionId: Id, subId: string, id: Id)
    requires s.Valid()
    ensures var rows := ChildRows(s, subId, sectionId, CreatesEvent, Event);
            && (GetEvent(s, id, sectionId, subId).Success? <==> multiset(rows)[id] == 1)
            && (forall i :: 0 <= i < |rows| ==>
                  GetEvent(s, rows[i], sectionId, subId) == Success(ListEvents(s, sectionId, subId)[i]))
  {
    var rows := ChildRows(s, subId, sectionId, CreatesEvent, Event);
    forall i | 0 <= i < |rows|
      ensures GetEvent(s, rows[i], sectionId, subId) == Success(ListEvents(s, sectionId, subId)[i])
    {
      assert rows[i] in multiset(rows);
    }
  }

  /** The properties `createEventOperation` stores: the fields as given,
      `ticketsAvailable` through `parseInt`, both timestamps at module load. */
  function NewProps(input: EventInput, loadedAt: int): (p: Props)
    ensures Get(p, DateStart) == Stored(input.dateStart)
    ensures Get(p, DateEnd) == Stored(input.dateEnd)
    ensures Get(p, Name) == Stored(input.name)
    ensures Get(p, Description) == Stored(input.description)
    ensures Get(p, Image) == Stored(input.image)
    ensures Get(p, TicketsAvailable) == ParseInt(input.ticketsAvailable)
    ensures Get(p, Location) == Stored(input.location)
    ensures Get(p, CreatedAt) == Time(loadedAt) && Get(p, UpdatedAt) == Time(loadedAt)
    ensures forall k :: k in p ==>
              k in {DateStart, DateEnd, Name, Description, Image, TicketsAvailable, Location, CreatedAt, UpdatedAt}
  {
    var p := Put(map[], DateStart, input.dateStart);
    var p := Put(p, DateEnd, input.dateEnd);
    var p := Put(p, Name, input.name);
    var p := Put(p, Description, input.description);
    var p := Put(p, Image, input.image);
    var p := Put(p, TicketsAvailable, ParseInt(input.ticketsAvailable));
    var p := Put(p, Location, input.location);
    var p := Put(p, CreatedAt, Time(loadedAt));
    Put(p, UpdatedAt, Time(loadedAt))
  }

  /** `createEventOperation`: "Section not found." unless the caller owns the
      section; otherwise one new EVENT linked from it. */
  function CreateEffect(s: Store, input: EventInput, subId: string, loadedAt: int): (r: Step)
    requires s.Valid()
    ensures r.after.Valid()
    ensures !OwnsSection(s, subId, input.sectionId) ==> r == Step(s, Failure(SectionNotFound))
    ensures OwnsSection(s, subId, input.sectionId) ==>
              && r.result == Success([s.nextId])
              && s.nextId !in s.nodes
              && r.after.nodes == s.nodes[s.nextId := Node(Event, NewProps(input, loadedAt))]
              && r.after.edges == s.edges + {Edge(input.sectionId, CreatesEvent, s.nextId)}
  {
    if !OwnsSection(s, subId, input.sectionId) then Step(s, Failure(SectionNotFound))
    else
      var e := Edge(input.sectionId, CreatesEvent, s.nextId);
      Step(s.WithNode(Node(Event, NewProps(input, loadedAt))).Link(e), Success([s.nextId]))
  }

  method Create(g: Graph, input: EventInput, subId: string, loadedAt: int) returns (r: Outcome<seq<Id>>)
    requires g.Valid()
    modifies g
    ensures g.Valid()
    ensures Step(g.View(), r) == CreateEffect(old(g.View()), input, subId, loadedAt)
  {
    if !OwnsSection(g.View(), subId, input.sectionId) {
      return Failure(SectionNotFound);
    }
    var id := g.AddNode(Node(Event, NewProps(input, loadedAt)));
    g.Link(Edge(input.sectionId, CreatesEvent, id));
    r := Success([id]);
  }

  /** A created event is found again through the same section, with the
      parsed ticket count. */
  lemma CreateThenGet(s: Store, input: EventInput, subId: string, loadedAt: int)
    requires s.Valid()
    requires OwnsSection(s, subId, input.sectionId)
    ensures var after := CreateEffect(s, input, subId, loadedAt).after;
            var r := GetEvent(after, s.nextId, input.sectionId, subId);
            && r.Success?
            && Get(r.value, Identity) == Int(Low(s.nextId))
            && Get(r.value, Name) == Stored(input.name)
            && Get(r.value, TicketsAvailable) == ParseInt(input.ticketsAvailable)
  {
    var after := CreateEffect(s, input, subId, loadedAt).after;
    var u :| u in s.nodes && Edge(u, Owns, input.sectionId) in s.edges && IsUser(s, u, subId);
    assert u in after.nodes && IsUser(after, u, subId);
    assert Reaches(after, subId, input.sectionId, CreatesEvent, Event, s.nextId);
  }

  /** `SET event.k = $v` only when the input field is truthy. */
  function SetIf(p: Props, field: Value, key: Key, value: Value): (r: Props)
    ensures Get(r, key) == if Truthy(field) then Stored(value) else Get(p, key)
    ensures forall k :: k != key ==> Get(r, k) == Get(p, k)
  {
    if Truthy(field) then Put(p, key, value) else p
  }

  /** The fields an update may set. */
  predicate Editable(k: Key) {
    k == DateStart || k == DateEnd || k == Name || k == Description || k == Image
    || k == TicketsAvailable || k == Location || k == UpdatedAt
  }

  /** The properties after `updateEventOperation`'s SET: each field set when
      its input is truthy (`ticketsAvailable` through `parseInt`), `updatedAt`
      set to the module-load time, everything else kept. */
  function UpdateProps(old_: Props, input: EventInput, loadedAt: int): (p: Props)
    ensures Get(p, DateStart) == (if Truthy(input.dateStart) then input.dateStart else Get(old_, DateStart))
    ensures Get(p, DateEnd) == (if Truthy(input.dateEnd) then input.dateEnd else Get(old_, DateEnd))
    ensures Get(p, Name) == (if Truthy(input.name) then input.name else Get(old_, Name))
    ensures Get(p, Description) == (if Truthy(input.description) then input.description else Get(old_, Description))
    ensures Get(p, Image) == (if Truthy(input.image) then input.image else Get(old_, Image))
    ensures Get(p, TicketsAvailable) ==
              (if Truthy(input.ticketsAvailable) then ParseInt(input.ticketsAvailable) else Get(old_, TicketsAvailable))
    ensures Get(p, Location) == (if Truthy(input.location) then input.location else Get(old_, Location))
    ensures Get(p, UpdatedAt) == Time(loadedAt)
    ensures forall k :: !Editable(k) ==> Get(p, k) == Get(old_, k)
  {
    var p := SetIf(old_, input.dateStart, DateStart, input.dateStart);
    var p := SetIf(p, input.dateEnd, DateEnd, input.dateEnd);
    var p := SetIf(p, input.name, Name, input.name);
    var p := SetIf(p, input.description, Description, input.description);
    var p := SetIf(p, input.image, Image, input.image);
    var p := SetIf(p, input.ticketsAvailable, TicketsAvailable, ParseInt(input.ticketsAvailable));
    var p := SetIf(p, input.location, Location, input.location);
    Put(p, UpdatedAt, Time(loadedAt))
  }

  /** `updateEventOperation`: "Section not found." unless the caller owns the
      section. The event itself is then matched by id and label alone: it is
      updated whichever section links it, and a missing event changes nothing. */
  function UpdateEffect(s: Store, input: EventInput, subId: string, loadedAt: int): (r: Step)
    requires s.Valid()
    ensures r.after.Valid()
    ensures !OwnsSection(s, subId, input.sectionId) ==> r == Step(s, Failure(SectionNotFound))
    ensures OwnsSection(s, subId, input.sectionId) && !s.Has(input.id, Event) ==> r == Step(s, Success([]))
    ensures OwnsSection(s, subId, input.sectionId) && s.Has(input.id, Event) ==>
              && r.result == Success([input.id])
              && r.after == s.SetProps(input.id, UpdateProps(s.nodes[input.id].props, input, loadedAt))
  {
    if !OwnsSection(s, subId, input.sectionId) then Step(s, Failure(SectionNotFound))
    else if s.Has(input.id, Event) then
      Step(s.SetProps(input.id, UpdateProps(s.nodes[input.id].props, input, loadedAt)), Success([input.id]))
    else
      Step(s, Success([]))
  }

  method Update(g: Graph, input: EventInput, subId: string, loadedAt: int) returns (r: Outcome<seq<Id>>)
    requires g.Valid()
    modifies g
    ensures g.Valid()
    ensures Step(g.View(), r) == UpdateEffect(old(g.View()), input, subId, loadedAt)
  {
    if !OwnsSection(g.View(), subId, input.sectionId) {
      return Failure(SectionNotFound);
    }
    if g.View().Has(input.id, Event) {
      g.SetProps(input.id, UpdateProps(g.nodes[input.id].props, input, loadedAt));
      r := Success([input.id]);
    } else {
      r := Success([]);
    }
  }

  /** The ownership check covers only the section: the owner of one section
      updates an event that another section links and that the owner cannot
      read. */
  lemma UpdateCrossesSections(s: Store, input: EventInput, subId: string, loadedAt: int)
    requires s.Valid()
    requires OwnsSection(s, subId, input.sectionId) && s.Has(input.id, Event)
    requires GetEvent(s, input.id, input.sectionId, subId).Failure?
    ensures var r := UpdateEffect(s, input, subId, loadedAt);
            && r.result == Success([input.id])
            && Get(r.after.nodes[input.id].props, UpdatedAt) == Time(loadedAt)
  {
  }

  /** A ticket count of 0 is falsy, so updating to 0 tickets leaves the old
      count in place. */
  lemma ZeroTicketsIgnored(old_: Props, input: EventInput, loadedAt: int)
    requires input.ticketsAvailable == Int(0)
    ensures Get(UpdateProps(old_, input, loadedAt), TicketsAvailable) == Get(old_, TicketsAvailable)
  {
  }

  /** `deleteEventOperation`: `DETACH DELETE` of the event the caller's
      section links; anything else is left alone. Nothing is returned. */
  function DeleteEffect(s: Store, id: Id, sectionId: Id, subId: string): (r: Step)
    requires s.Valid()
    ensures r.after.Valid()
    ensures r.result == Success([])
    ensures !Reaches(s, subId, sectionId, CreatesEvent, Event, id) ==> r.after == s
    ensures Reaches(s, subId, sectionId, CreatesEvent, Event, id) ==>
              && r.after.nodes == s.nodes - {id}
              && (forall e :: e in r.after.edges <==> e in s.edges && e.src != id && e.dst != id)
  {
    if Reaches(s, subId, sectionId, CreatesEvent, Event, id) then Step(s.DetachDelete(id), Success([]))
    else Step(s, Success([]))
  }

  method Delete(g: Graph, id: Id, sectionId: Id, subId: string) returns (r: Outcome<seq<Id>>)
    requires g.Valid()
    modifies g
    ensures g.Valid()
    ensures Step(g.View(), r) == DeleteEffect(old(g.View()), id, sectionId, subId)
  {
    if Reaches(g.View(), subId, sectionId, CreatesEvent, Event, id) {
      g.DetachDelete(id);
    }
    r := Success([]);
  }

  /** A deleted event is gone: reading it again yields NotFound. */
  lemma DeleteThenGet(s: Store, id: Id, sectionId: Id, subId: string)
    requires s.Valid()
    ensures GetEvent(DeleteEffect(s, id, sectionId, subId).after, id, sectionId, subId) == Failure(NotFound)
  {
  }
}
