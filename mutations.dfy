/** Every store the system can reach: the empty database followed by any
    sequence of sign-ups and mutations, and what holds in all of them. */
module Mutations {
  import opened Values
  import opened GraphStore
  import PostConfirmation
  import Sections
  import Publications
  import Events

  /** One state-changing call, with the clock readings it uses: `loadedAt`
      is the module-load time of the handler, `now` the statement's `datetime()`. */
  datatype Op =
    | SignUp(ev: PostConfirmation.TriggerEvent)
    | CreateSection(name: Value, subId: string, loadedAt: int)
    | UpdateSection(id: Id, name: Value, subId: string, loadedAt: int)
    | DeleteSection(id: Id, subId: string)
    | CreatePublication(pub: Publications.PublicationInput, subId: string, loadedAt: int)
    | UpdatePublication(pub: Publications.PublicationInput, subId: string, now: int)
    | DeletePublication(id: Id, sectionId: Id, subId: string, loadedAt: int)
    | CreateEvent(event: Events.EventInput, subId: string, loadedAt: int)
    | UpdateEvent(event: Events.EventInput, subId: string, loadedAt: int)
    | DeleteEvent(id: Id, sectionId: Id, subId: string)

  function Apply(s: Store, op: Op): (r: Step)
    requires s.Valid()
    ensures r.after.Valid()
  {
    match op
    case SignUp(ev) => Step(PostConfirmation.ConfirmEffect(s, ev), Success([]))
    case CreateSection(name, subId, loadedAt) => Sections.CreateEffect(s, name, subId, loadedAt)
    case UpdateSection(id, name, subId, loadedAt) => Sections.UpdateEffect(s, id, name, subId, loadedAt)
    case DeleteSection(id, subId) => Sections.DeleteEffect(s, id, subId)
    case CreatePublication(pub, subId, loadedAt) => Publications.CreateEffect(s, pub, subId, loadedAt)
    case UpdatePublication(pub, subId, now) => Publications.UpdateEffect(s, pub, subId, now)
    case DeletePublication(id, sectionId, subId, loadedAt) => Publications.DeleteEffect(s, id, sectionId, subId, loadedAt)
    case CreateEvent(event, subId, loadedAt) => Events.CreateEffect(s, event, subId, loadedAt)
    case UpdateEvent(event, subId, loadedAt) => Events.UpdateEffect(s, event, subId, loadedAt)
    case DeleteEvent(id, sectionId, subId) => Events.DeleteEffect(s, id, sectionId, subId)
  }

  /** The store after the calls `ops`, one after the other. */
  function Run(s: Store, ops: seq<Op>): (r: Store)
    requires s.Valid()
    ensures r.Valid()
    decreases |ops|
  {
    if ops == [] then s else Run(Apply(s, ops[0]).after, ops[1..])
  }

  /** No operation ever creates a CREATED relationship. */
  ghost predicate NoCreated(s: Store) {
    forall e :: e in s.edges ==> e.kind != Created
  }

  /** What every reachable store satisfies. */
  ghost predicate Invariant(s: Store) {
    s.Valid() && s.SingleOwners() && NoCreated(s)
  }

  /** A step that adds no OWNS and no CREATED relationship keeps both
      properties. */
  lemma NoNewOwnership(s: Store, t: Store)
    requires Invariant(s) && t.Valid()
    requires forall e :: e in t.edges && (e.kind == Owns || e.kind == Created) ==> e in s.edges
    ensures Invariant(t)
  {
  }

  /** Creating sections gives each new section one owner. */
  lemma SectionsCreateKeeps(s: Store, name: Value, subId: string, loadedAt: int)
    requires Invariant(s)
    ensures Invariant(Sections.CreateEffect(s, name, subId, loadedAt).after)
  {
    var owners := Sections.Owners(s, subId);
    var props := Sections.SectionProps(name, loadedAt);
    assert Sections.CreateEffect(s, name, subId, loadedAt).after == Sections.AddSections(s, owners, |owners|, props);
    AddSectionsSingleOwners(s, owners, props);
    AddSectionsNoCreated(s, owners, props);
  }

  /** A batch of section creations links each new section from one owner
      only, and old sections gain no owner. */
  lemma AddSectionsSingleOwners(s: Store, owners: seq<Id>, props: Props)
    requires s.Valid() && s.SingleOwners()
    ensures Sections.AddSections(s, owners, |owners|, props).SingleOwners()
  {
    var t := Sections.AddSections(s, owners, |owners|, props);
    forall e, f | e in t.edges && f in t.edges && e.kind == Owns && f.kind == Owns && e.dst == f.dst
      ensures e.src == f.src
    {
      Sections.AddSectionsEdge(s, owners, |owners|, props, e);
      Sections.AddSectionsEdge(s, owners, |owners|, props, f);
      assert (e in s.edges ==> e.dst < s.nextId) && (f in s.edges ==> f.dst < s.nextId);
    }
  }

  /** A batch of section creations adds OWNS relationships only. */
  lemma AddSectionsNoCreated(s: Store, owners: seq<Id>, props: Props)
    requires NoCreated(s)
    ensures NoCreated(Sections.AddSections(s, owners, |owners|, props))
  {
    var t := Sections.AddSections(s, owners, |owners|, props);
    forall e | e in t.edges ensures e.kind != Created {
      Sections.AddSectionsEdge(s, owners, |owners|, props, e);
    }
  }

  /** A new version links from the section and back to the old version only. */
  lemma PublicationUpdateKeeps(s: Store, pub: Publications.PublicationInput, subId: string, now: int)
    requires Invariant(s)
    ensures Invariant(Publications.UpdateEffect(s, pub, subId, now).after)
  {
    var t := Publications.UpdateEffect(s, pub, subId, now).after;
    if Reaches(s, subId, pub.sectionId, CreatesPublication, Publication, pub.id) {
      Publications.UpdateLinks(s, pub, subId, now);
      var added := {Edge(pub.sectionId, CreatesPublication, s.nextId), Edge(s.nextId, PrevPublication, pub.id)};
      assert t.edges <= s.edges + added;
      assert forall e :: e in added ==> e.kind != Owns && e.kind != Created;
    }
    NoNewOwnership(s, t);
  }

  lemma PublicationCreateKeeps(s: Store, pub: Publications.PublicationInput, subId: string, loadedAt: int)
    requires Invariant(s)
    ensures Invariant(Publications.CreateEffect(s, pub, subId, loadedAt).after)
  {
    NoNewOwnership(s, Publications.CreateEffect(s, pub, subId, loadedAt).after);
  }

  lemma EventCreateKeeps(s: Store, event: Events.EventInput, subId: string, loadedAt: int)
    requires Invariant(s)
    ensures Invariant(Events.CreateEffect(s, event, subId, loadedAt).after)
  {
    NoNewOwnership(s, Events.CreateEffect(s, event, subId, loadedAt).after);
  }

  /** Every call keeps the invariant. */
  lemma ApplyKeeps(s: Store, op: Op)
    requires Invariant(s)
    ensures Invariant(Apply(s, op).after)
  {
    var t := Apply(s, op).after;
    match op
    case SignUp(ev) =>
      NoNewOwnership(s, t);
    case CreateSection(name, subId, loadedAt) =>
      SectionsCreateKeeps(s, name, subId, loadedAt);
    case UpdateSection(id, name, subId, loadedAt) =>
      NoNewOwnership(s, t);
    case DeleteSection(id, subId) =>
      NoNewOwnership(s, t);
    case CreatePublication(pub, subId, loadedAt) =>
      PublicationCreateKeeps(s, pub, subId, loadedAt);
    case UpdatePublication(pub, subId, now) =>
      PublicationUpdateKeeps(s, pub, subId, now);
    case DeletePublication(id, sectionId, subId, loadedAt) =>
      NoNewOwnership(s, t);
    case CreateEvent(event, subId, loadedAt) =>
      EventCreateKeeps(s, event, subId, loadedAt);
    case UpdateEvent(event, subId, loadedAt) =>
      NoNewOwnership(s, t);
    case DeleteEvent(id, sectionId, subId) =>
      NoNewOwnership(s, t);
  }

  lemma {:induction false} RunKeeps(s: Store, ops: seq<Op>)
    requires Invariant(s)
    ensures Invariant(Run(s, ops))
    decreases |ops|
  {
    if ops != [] {
      ApplyKeeps(s, ops[0]);
      RunKeeps(Apply(s, ops[0]).after, ops[1..]);
    }
  }

  /** In every reachable store the guard of `deleteSectionOperation` never
      fires, since nothing creates a CREATED relationship: a section is
      deleted whatever publications it has. */
  lemma GuardNeverFires(ops: seq<Op>, id: Id, subId: string)
    ensures !Sections.GuardFires(Run(Empty, ops), id, subId)
  {
    RunKeeps(Empty, ops);
  }

  /** In every reachable store a section is visible to its owner alone. */
  lemma OwnerAloneSees(ops: seq<Op>, id: Id, owner: string, other: string)
    requires OwnsSection(Run(Empty, ops), owner, id) && other != owner
    ensures Sections.GetSection(Run(Empty, ops), id, other) == Failure(NotFound)
  {
    RunKeeps(Empty, ops);
    Sections.OnlyOwnerSees(Run(Empty, ops), id, owner, other);
  }

  /** In every reachable store deleting a section succeeds and leaves the
      publications it linked in the store, unreadable through it. */
  lemma DeleteOrphans(ops: seq<Op>, id: Id, subId: string, p: Id, anyone: string)
    requires Run(Empty, ops).Has(id, Section)
    requires Run(Empty, ops).Has(p, Publication) && Edge(id, CreatesPublication, p) in Run(Empty, ops).edges
    ensures var r := Sections.DeleteEffect(Run(Empty, ops), id, subId);
            && r.result == Success([])
            && p in r.after.nodes
            && Publications.GetPublication(r.after, p, id, anyone) == Failure(NotFound)
  {
    RunKeeps(Empty, ops);
  }
}
