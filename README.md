# Ownership-scoped graph repository of mvnifest-shooter-clone

This project models the repository layer of mvnifest-shooter-clone. That layer is a set
of functions which run Cypher statements against a Neo4j database of USER, SECTION,
PUBLICATION and EVENT nodes. The model also covers the sign-up trigger that creates
USER nodes.

The database is modelled twice:
- `GraphStore.Store` is a value: labelled nodes under engine ids, a property map per
  node, typed relationships (OWNS, CREATES_PUBLICATION, CREATES_EVENT, PREV_PUBLICATION,
  CREATED) and the next id to hand out.
- `GraphStore.Graph` is the same state as an object whose fields the mutating operations
  update in place.

Every mutation appears in two forms:
- a function `XxxEffect` that gives the store afterwards, plus the returned record ids
  or the error thrown;
- a module-level method that takes a `Graph`, performs the change step by step through
  the `Graph` methods, and is proved to end in exactly that state.

Lookups are functions over the store.

The model uses openCypher semantics:
- A MATCH with no rows turns the following SET, CREATE or DELETE into a silent no-op.
- CREATE runs once per matched row.
- A property set to `null` or `undefined` is not stored.
- `ORDER BY x` puts nulls last; `ORDER BY x DESC` puts them first.
- `DETACH DELETE` removes a node with its relationships.
- Reading `records[0]` of an empty result throws (`NotFound`).

JavaScript values are modelled by `Values.Value`, which keeps `undefined` and `null`
apart and has an explicit `Truthy`. So `input.x || old.x` and `input.x ? "SET ..." : ""`
behave as in the code: `false`, `0` and `""` never overwrite, and `JSON.stringify(null)`
is the text `null`, which parses back to `null`.

Each handler computes `currentDate` once at module load; it is the `loadedAt` parameter.
Cypher's `datetime()` is the `now` parameter.

`Mutations` replays any sequence of sign-ups and mutations from the empty database. It
proves two facts for every store reached that way:
- every section has a single owner;
- no CREATED relationship ever exists.

From these it derives three consequences:
- the section-delete guard can never fire;
- a section is readable by its owner only;
- deleting a section leaves its publications behind, unreachable.

Three behaviours of the code are easy to misread:
- `createSectionOperation` creates one section for every USER node carrying the
  subject id (CREATE runs once per row), not one section for the caller.
- `searchPublicationsOperation` returns every index hit once the caller owns the
  section; it does not keep the results inside that section.
- `updateEventOperation` matches the event by id alone, so an event is not tied to the
  section named in the input.

## Model

| member | source | states |
|---|---|---|
| Values.Truthy | functions/publications/utils/operations.js:125-126 | falsy are exactly `undefined`, `null`, `false`, `0`, `NaN` and `""`; objects and arrays, even empty, are truthy |
| Values.Or | functions/publications/utils/operations.js:205-211 | `a || b` is one of its operands, the left one when truthy, and is truthy iff either operand is |
| Values.Put | functions/publications/utils/operations.js:123-133 | storing a property: the key reads back the value (`null`/`undefined` remove it, reading back `undefined`), other keys keep their values |
| Values.Encode | functions/publications/utils/operations.js:143 | `JSON.stringify`: undefined stays undefined, `NaN` becomes the text `null`, anything else but a timestamp, `null` included, becomes text that `Decode` turns back into the value |
| Values.Decode | functions/publications/utils/operations.js:24 | `JSON.parse` never succeeds on undefined, and parses `null` to `null` |
| Values.ParseInt | functions/events/utils/operations.js:102 | `parseInt` yields an integer or NaN, and an integer parses to itself |
| Values.Low | functions/users/utils/operations.js:17 | `identity.low` is a signed 32-bit value congruent to the id modulo 2^32, and equals every id below 2^31 |
| GraphStore.Store.WithNode | functions/postConfirmation/index.js:22 | CREATE of a node takes a fresh id and keeps the store valid |
| GraphStore.Store.Link | functions/publications/utils/operations.js:197-198 | adding a relationship between existing nodes (a history link pointing back in time) keeps the store valid |
| GraphStore.Store.Unlink | functions/publications/utils/operations.js:185 | `DELETE oldR` keeps the store valid |
| GraphStore.Store.SetProps | functions/publications/utils/operations.js:228 | SET on an existing node keeps the store valid |
| GraphStore.Store.DetachDelete | functions/events/utils/operations.js:178 | DETACH DELETE keeps the store valid |
| GraphStore.Scan | functions/users/utils/operations.js:5-7 | a scan from an id yields each matching node at or above it exactly once, in increasing id order |
| GraphStore.Rows | functions/users/utils/operations.js:5-7 | the rows of a single-node MATCH: every matching node exactly once, none other, in increasing id order; no match gives no rows |
| GraphStore.OwnsSection | functions/sections/utils/operations.js:7-8 | the pattern `(user:USER {subId}) -[:OWNS]-> (section:SECTION)` with the section's id fixed |
| GraphStore.Reaches | functions/publications/utils/operations.js:7-8 | the ownership chain extended by one `-[:kind]-> (target:label)` step, every id fixed |
| GraphStore.OncePerList | functions/publications/utils/operations.js:35-38 | a row that occurs once in a result sits at one position only |
| GraphStore.IncreasingUnique | functions/users/utils/operations.js:5-7 | two duplicate-free increasing row lists with the same members are the same list |
| GraphStore.OrderedCons | functions/sections/utils/operations.js:33 | putting a row in front of sorted rows it may precede keeps them sorted |
| GraphStore.Insert | functions/sections/utils/operations.js:33 | inserting a row into sorted rows keeps them sorted and adds exactly that row |
| GraphStore.OrderByCreated | functions/publications/utils/operations.js:38 | `ORDER BY createdAt [DESC]` yields a permutation of the rows, sorted with Cypher's null placement |
| GraphStore.Project | functions/users/utils/operations.js:15-18 | `{...properties, id: identity.low}`: the id overrides any stored `id`, every other property is as stored |
| GraphStore.ProjectAll | functions/events/utils/operations.js:45-53 | `records.map` projects every row in order |
| GraphStore.ChildRows | functions/publications/utils/operations.js:35-38 | the chain USER{subId} -OWNS-> SECTION -kind-> target yields each reachable target exactly once, newest first |
| GraphStore.Graph.AddNode | functions/postConfirmation/index.js:22 | in-place CREATE: the node takes `nextId`, which advances |
| GraphStore.Graph.Link | functions/publications/utils/operations.js:197 | in-place MERGE/CREATE of a relationship |
| GraphStore.Graph.Unlink | functions/publications/utils/operations.js:185 | in-place DELETE of a relationship |
| GraphStore.Graph.SetProps | functions/events/utils/operations.js:136-148 | in-place SET of a node's properties |
| GraphStore.Graph.DetachDelete | functions/events/utils/operations.js:178 | in-place DETACH DELETE |
| Users.GetUser | functions/users/utils/operations.js:1-22 | succeeds iff some USER has the subject id, returning the projection of the first such node; otherwise throws NotFound |
| Users.GetUserShape | functions/users/utils/operations.js:15-18 | the returned user carries the engine id under `id`, its `subId`, and every other stored property |
| PostConfirmation.UserProps | functions/postConfirmation/index.js:20-28 | a new USER stores the event's `email` and `sub` as `subId`, and nothing else |
| PostConfirmation.ConfirmEffect | functions/postConfirmation/index.js:20-28 | one new USER node with `email` and `subId` from the event; no other node or relationship changes |
| PostConfirmation.Handler | functions/postConfirmation/index.js:8-33 | performs that creation in place and returns the event unchanged |
| PostConfirmation.ConfirmAddsUser | functions/postConfirmation/index.js:22 | no existence check: each confirmation adds one more USER row for the subject id, even when one exists |
| PostConfirmation.TwiceRows | functions/postConfirmation/index.js:22 | two confirmations of a new subject id leave exactly two USER rows for it, oldest first |
| PostConfirmation.DuplicateKeepsFirstUser | functions/postConfirmation/index.js:22 | after a duplicate confirmation there are two USER nodes for the subject id, and the user lookup returns the first |
| Sections.GetSection | functions/sections/utils/operations.js:3-24 | succeeds iff the caller owns the section, returning its projection; otherwise throws NotFound |
| Sections.OnlyOwnerSees | functions/sections/utils/operations.js:7-8 | with one owner per section, any other subject id gets NotFound |
| Sections.ListRows | functions/sections/utils/operations.js:28-36 | the rows are exactly the owned sections, each once, in ascending `createdAt` order |
| Sections.List | functions/sections/utils/operations.js:26-52 | projects those rows in order; `createdAt` never decreases along the list |
| Sections.SectionProps | functions/sections/utils/operations.js:60-67 | a new section has the given name and both timestamps at module load, and no other property |
| Sections.AddSections | functions/sections/utils/operations.js:56-62 | one CREATE per matched user row takes one id each |
| Sections.AddSectionsNode | functions/sections/utils/operations.js:60 | the creations keep old nodes unchanged and add one SECTION per row |
| Sections.AddSectionsEdge | functions/sections/utils/operations.js:60 | the creations add exactly an OWNS link from each row's user to its new section |
| Sections.AddSectionsValid | functions/sections/utils/operations.js:60 | the creations keep the store valid |
| Sections.OwnedNodeValid | functions/sections/utils/operations.js:60 | one `CREATE (user) -[:OWNS]-> (section)` from an existing user keeps the store valid |
| Sections.Fresh | functions/sections/utils/operations.js:61 | the ids returned for n creations number n |
| Sections.FreshAt | functions/sections/utils/operations.js:61 | the i-th returned id is the i-th id handed out |
| Sections.Owners | functions/sections/utils/operations.js:58-59 | the matched rows are exactly the USER nodes with the subject id |
| Sections.CreateEffect | functions/sections/utils/operations.js:54-75 | never throws, keeps the store valid, and returns one id per matching user |
| Sections.CreateOwnsEach | functions/sections/utils/operations.js:58-61 | each returned id is a new SECTION with the given name and timestamps, owned by the caller |
| Sections.AddSectionsOwned | functions/sections/utils/operations.js:60 | the i-th new section is owned by the i-th matched user |
| Sections.CreateFrame | functions/sections/utils/operations.js:56-62 | nothing else changes: old nodes and relationships stay, new ones are the returned sections and their OWNS links |
| Sections.CreateWithoutUser | functions/sections/utils/operations.js:58-60 | with no USER for the subject id nothing is created and the result is empty, not an error |
| Sections.AddEach | functions/sections/utils/operations.js:60 | the loop of in-place creations reaches the batch's store and returns the fresh ids |
| Sections.Create | functions/sections/utils/operations.js:54-75 | in-place creation ends in `CreateEffect`'s store and result |
| Sections.UpdateEffect | functions/sections/utils/operations.js:77-98 | on an owned section sets only `name` and `updatedAt`, returning it; otherwise changes nothing and returns no row |
| Sections.Update | functions/sections/utils/operations.js:77-98 | in-place update ends in `UpdateEffect`'s store and result |
| Sections.UpdateThenGet | functions/sections/utils/operations.js:81-83 | after a rename by the owner, the owner reads back the new name and time |
| Sections.GuardFires | functions/sections/utils/operations.js:102-114 | the guard query: some USER has the subject id and the section links a PUBLICATION by CREATED; ownership plays no part |
| Sections.DeleteEffect | functions/sections/utils/operations.js:100-131 | throws "Your section has publications." with no change when the guard fires; otherwise DETACH DELETEs the section by id alone |
| Sections.Delete | functions/sections/utils/operations.js:100-131 | in-place delete ends in `DeleteEffect`'s store and result |
| Sections.DeleteIgnoresPublications | functions/sections/utils/operations.js:104-106 | without CREATED relationships the guard does not fire: the section goes, its publications stay, their link is gone |
| Sections.StrangerDeletes | functions/sections/utils/operations.js:116-121 | a caller who does not own the section deletes it, and the owner can no longer read it |
| Publications.Record | functions/publications/utils/operations.js:21-25 | the projection decodes `metadata`, fails with MalformedJson when it does not parse, and keeps every other property |
| Publications.Records | functions/publications/utils/operations.js:46-55 | mapping over rows succeeds iff every row's projection does, and then gives them in row order |
| Publications.GetPublication | functions/publications/utils/operations.js:3-29 | succeeds only when the publication is reachable through the caller's section; unreachable gives NotFound |
| Publications.ListPublications | functions/publications/utils/operations.js:31-61 | the records of the reachable publications in row order; it fails, with MalformedJson, exactly when some row's metadata does not parse |
| Publications.ListSucceeds | functions/publications/utils/operations.js:46-55 | the list succeeds iff every publication the caller's section links has metadata that parses |
| Publications.ListNewestFirst | functions/publications/utils/operations.js:38 | `createdAt` never increases along the list |
| Publications.ListIsTheSection | functions/publications/utils/operations.js:35-36 | a publication is listed iff the caller's section links it, at one position only, and the record there is its own |
| Publications.Search | functions/publications/utils/operations.js:63-100 | nothing unless the caller owns the section; otherwise every index hit, in hit order |
| Publications.SearchCrossesSections | functions/publications/utils/operations.js:72-76 | a hit that hangs off another section is returned |
| Publications.NewProps | functions/publications/utils/operations.js:123-146 | `subtitle`/`tags` only when truthy, `metadata` encoded, `isCompleted` defaulting to false, both timestamps at module load, and no other property |
| Publications.CreateEffect | functions/publications/utils/operations.js:102-154 | "Section not found." with no change unless owned; otherwise exactly one new PUBLICATION linked from the section |
| Publications.Create | functions/publications/utils/operations.js:102-154 | in-place creation ends in `CreateEffect`'s store and result |
| Publications.CreateThenGet | functions/publications/utils/operations.js:119-148 | a created publication reads back with its metadata (`NaN` reads back as `null`); without metadata the read throws |
| Publications.VersionProps | functions/publications/utils/operations.js:186-212 | each field is the input if truthy, else the old one; `createdAt` carried over; `updatedAt` = now; no `deletedAt` |
| Publications.UpdateEffect | functions/publications/utils/operations.js:156-220 | "Publication not found." with no change unless reachable; otherwise one new node and the result is empty |
| Publications.UpdateVersions | functions/publications/utils/operations.js:186-199 | the new version under the next id, and the old one with only `updatedAt` changed |
| Publications.UpdateLinks | functions/publications/utils/operations.js:185-198 | the section's link moves from the old version to the new one, which links back by PREV_PUBLICATION |
| Publications.Update | functions/publications/utils/operations.js:156-220 | in-place update ends in `UpdateEffect`'s store and result |
| Publications.UpdateReplacesHead | functions/publications/utils/operations.js:183-198 | afterwards the section lists the new version and not the old one, which survives behind a history link |
| Publications.HeadMoved | functions/publications/utils/operations.js:185-197 | moving the section's link makes the new version listed once and the old one not at all |
| Publications.FalsyKeepsOld | functions/publications/utils/operations.js:205-211 | `isCompleted: false` and an absent title never overwrite |
| Publications.UpdateStoresRawMetadata | functions/publications/utils/operations.js:186-210 | an update stores metadata as given, a creation stores it encoded |
| Publications.HistoryDescends | functions/publications/utils/operations.js:198 | every PREV_PUBLICATION chain goes strictly back in creation order, so history has no cycle |
| Publications.DeleteEffect | functions/publications/utils/operations.js:222-243 | a reachable publication gets only `deletedAt`; anything else changes nothing and throws nothing |
| Publications.Delete | functions/publications/utils/operations.js:222-243 | in-place delete ends in `DeleteEffect`'s store and result |
| Publications.DeleteKeepsChain | functions/publications/utils/operations.js:226-228 | a soft delete keeps the same publications reachable and every metadata as it was |
| Publications.DeletedStillListed | functions/publications/utils/operations.js:222-243 | a soft-deleted publication stays in its section's list, showing `deletedAt` |
| Publications.DeletedStillVisible | functions/publications/utils/operations.js:226-228 | a soft-deleted publication stays readable and shows `deletedAt` |
| Events.GetEvent | functions/events/utils/operations.js:3-28 | succeeds iff the event is reachable through the caller's section, returning its projection; otherwise NotFound |
| Events.ListEvents | functions/events/utils/operations.js:30-59 | projects the reachable events in row order |
| Events.ListNewestFirst | functions/events/utils/operations.js:37 | `createdAt` never increases along the list |
| Events.ListAgreesWithGet | functions/events/utils/operations.js:3-59 | an event is listed, once, iff it can be read by id, and the listed record is the one read |
| Events.NewProps | functions/events/utils/operations.js:82-106 | the fields as given, `ticketsAvailable` through `parseInt`, both timestamps at module load, and no other property |
| Events.CreateEffect | functions/events/utils/operations.js:61-113 | "Section not found." with no change unless owned; otherwise exactly one new EVENT linked from the section |
| Events.Create | functions/events/utils/operations.js:61-113 | in-place creation ends in `CreateEffect`'s store and result |
| Events.CreateThenGet | functions/events/utils/operations.js:78-107 | a created event reads back with its name and parsed ticket count |
| Events.SetIf | functions/events/utils/operations.js:137-147 | a field is set only when its input is truthy; other fields are untouched |
| Events.UpdateProps | functions/events/utils/operations.js:136-148 | each field set only when its input is truthy, `updatedAt` always set, every other property kept |
| Events.UpdateEffect | functions/events/utils/operations.js:115-168 | "Section not found." unless owned; then the event is matched by id alone; a missing event changes nothing |
| Events.Update | functions/events/utils/operations.js:115-168 | in-place update ends in `UpdateEffect`'s store and result |
| Events.UpdateCrossesSections | functions/events/utils/operations.js:132-135 | an owner of one section updates an event it cannot read |
| Events.ZeroTicketsIgnored | functions/events/utils/operations.js:142-146 | updating to 0 tickets keeps the old count |
| Events.DeleteEffect | functions/events/utils/operations.js:170-191 | DETACH DELETE of a reachable event; otherwise no change; no record either way |
| Events.Delete | functions/events/utils/operations.js:170-191 | in-place delete ends in `DeleteEffect`'s store and result |
| Events.DeleteThenGet | functions/events/utils/operations.js:174-178 | a deleted event reads as NotFound |
| Mutations.Apply | functions/sections/utils/operations.js:54-131 | every mutation keeps the store valid |
| Mutations.Run | functions/sections/utils/operations.js:54-131 | any sequence of mutations keeps the store valid |
| Mutations.NoNewOwnership | functions/sections/utils/operations.js:60 | a step that adds no OWNS and no CREATED relationship keeps single ownership and the absence of CREATED |
| Mutations.SectionsCreateKeeps | functions/sections/utils/operations.js:60 | creating sections gives each new section one owner |
| Mutations.AddSectionsSingleOwners | functions/sections/utils/operations.js:58-60 | each section a batch of creations adds is owned by one user, and no old section gains an owner |
| Mutations.AddSectionsNoCreated | functions/sections/utils/operations.js:60 | a batch of section creations adds no CREATED relationship |
| Mutations.PublicationUpdateKeeps | functions/publications/utils/operations.js:185-198 | versioning adds no ownership |
| Mutations.PublicationCreateKeeps | functions/publications/utils/operations.js:123 | creating a publication adds no ownership |
| Mutations.EventCreateKeeps | functions/events/utils/operations.js:82 | creating an event adds no ownership |
| Mutations.ApplyKeeps | functions/sections/utils/operations.js:60 | every call keeps single ownership and the absence of CREATED |
| Mutations.RunKeeps | functions/sections/utils/operations.js:60 | so does every sequence of calls |
| Mutations.GuardNeverFires | functions/sections/utils/operations.js:104-114 | in every reachable store the delete guard never fires, because nothing creates CREATED |
| Mutations.OwnerAloneSees | functions/sections/utils/operations.js:7-8 | in every reachable store a section is readable by its owner alone |
| Mutations.DeleteOrphans | functions/sections/utils/operations.js:116-121 | in every reachable store a section delete succeeds and leaves its publications behind, unreadable through it |

## Left out

- The driver session, its cached connection, the middy/SSM credential handling, the
  resolver routing table and `console.log` are left out. They are I/O or configuration
  with no logic to state.
- Wrapping a caught error in `new Error(error)` is left out: the model keeps the inner
  error.
- A database failure in the sign-up trigger is not modelled. Every statement is taken to
  succeed unless the operation itself throws.
- Races between an operation's two statements are left out: each operation runs alone
  on the store.
- Publications.Search: the full-text index is a foreign procedure, so the ids it yields
  are a parameter (`hits`). Its ranking and query syntax are not modelled. The hits are
  required to be PUBLICATION nodes, which is what an index over publications yields.
- Row multiplicity: when several owners reach the same section, Cypher returns one row
  per owner, but the model returns each node once. `Mutations.RunKeeps` proves that every
  reachable store has one owner per section, so there the two agree.
- The row order of a MATCH without ORDER BY is left to the engine. The model scans by
  ascending id, so `Users.GetUser` returns the USER with the smallest id. Ties in
  `ORDER BY createdAt` keep that order.
- `JSON.stringify`/`JSON.parse` are modelled abstractly: `Json(doc)` is the text that
  encodes `doc`, and any other string is treated as malformed JSON. An update stores its
  `metadata` raw, so an update that passes metadata as a string (say the text
  `{"k":"v"}`, which `JSON.parse` would accept) makes that version unreadable in the
  model: reading or listing it fails with MalformedJson. Neo4j's refusal of
  map-valued properties (an update may store raw object metadata) is not modelled.
- Values.Encode: a timestamp gets no round-trip claim. `JSON.stringify` turns a `Date`
  into its ISO text, which parses back to a string, and the model has no ISO text;
  metadata from a GraphQL argument is never a `Date`.
- Objects and arrays (a `metadata` object, a `tags` list) are `Object(ref)`, where `ref`
  stands for the contents: truthy even when empty, but what is inside (a `NaN` nested
  in a metadata object, which `JSON.stringify` writes as `null`) is not modelled.
- Neo4j may reuse the id of a deleted node. The model hands out ids from an
  ever-growing `nextId`, so two facts rest on that choice: a PREV_PUBLICATION link
  always points to a smaller id (`Publications.HistoryDescends`), and the first USER
  created for a subject id is the one the lookup returns
  (`PostConfirmation.DuplicateKeepsFirstUser`).
- Publications.VersionProps: a property read back from the store is never `null`, but
  the model does not carry that as an invariant, so an old value is stated through
  `Stored` (`null` reading as `undefined`).
- Publications.FalsyKeepsOld: states the kept value through `Stored`, for the same reason.
- Values.ParseInt: only integer inputs parse. A digit string such as `"12"` is not read
  as 12, because the inputs are modelled as already typed.
- Ids are unbounded integers, and a malformed id argument simply matches nothing. The
  32-bit truncation of `identity.low` is modelled in `Values.Low`.
- `new Date().toJSON()` strings and Cypher `datetime()` values are both `Time(t)`, so they
  are compared by instant. Their formats are not modelled.
- What a mutation returns is the list of ids of its returned records. The resolvers'
  `true` on success lies outside the modelled files.
