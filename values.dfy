/** JavaScript values as the operations see them, and the property maps a
    graph node stores. */
module Values {

  datatype Option<+T> = None | Some(value: T)

  /** A value that crosses the boundary between the resolvers and the graph.
      `Undefined` is JavaScript's `undefined`, also what reading a property
      that is not there yields; `Null` is JavaScript's `null`. A Cypher
      property set to either is not stored. `Object(ref)` is an object or an
      array (a `metadata` object, a `tags` list); `ref` stands for its
      contents, so two objects with the same contents are the same value.
      `Time(t)` is a timestamp at instant `t`, whether it came from
      `new Date().toJSON()` or from Cypher's `datetime()`. `Json(doc)` is the
      text that `JSON.stringify` produced for `doc`. */
  datatype Value =
    | Undefined
    | Null
    | Bool(b: bool)
    | Int(i: int)
    | NaN
    | Str(s: string)
    | Object(ref: int)
    | Time(t: int)
    | Json(doc: Value)

  /** JavaScript truthiness: `undefined`, `null`, `false`, `0`, `NaN` and `""`
      are falsy; every other value, an empty object or array included, is truthy. */
  predicate Truthy(v: Value)
    ensures Truthy(v) <==> v !in {Undefined, Null, Bool(false), Int(0), NaN, Str("")}
  {
    match v
    case Undefined => false
    case Null => false
    case Bool(b) => b
    case Int(i) => i != 0
    case NaN => false
    case Str(s) => s != ""
    case Object(_) => true
    case Time(_) => true
    case Json(_) => true
  }

  /** JavaScript's `a || b`: the left operand when it is truthy, else the right one. */
  function Or(a: Value, b: Value): (r: Value)
    ensures r == a || r == b
    ensures Truthy(r) <==> Truthy(a) || Truthy(b)
    ensures Truthy(a) ==> r == a
  {
    if Truthy(a) then a else b
  }

  /** The property names the operations read and write. `Identity` is the
      `id` field a projection adds to a record; the others are spelled as in
      the stored properties (`subId`, `createdAt`, `ticketsAvailable`, ...). */
  type Key = int
  const Identity: Key := 0
  const SubId: Key := 1
  const Email: Key := 2
  const Name: Key := 3
  const CreatedAt: Key := 4
  const UpdatedAt: Key := 5
  const Title: Key := 6
  const Subtitle: Key := 7
  const Tags: Key := 8
  const Description: Key := 9
  const Image: Key := 10
  const Metadata: Key := 11
  const IsCompleted: Key := 12
  const DeletedAt: Key := 13
  const DateStart: Key := 14
  const DateEnd: Key := 15
  const TicketsAvailable: Key := 16
  const Location: Key := 17

  /** The properties of a node, or the fields of a returned record. */
  type Props = map<Key, Value>

  /** Reading a property that is not there yields `undefined`. */
  function Get(p: Props, key: Key): Value {
    if key in p then p[key] else Undefined
  }

  /** What a property set to `value` holds afterwards: `null` and
      `undefined` are not stored, so the property then reads as `undefined`. */
  function Stored(value: Value): Value {
    if value == Null then Undefined else value
  }

  /** Storing `value` under `key` with Cypher's semantics: a null or
      undefined value is not stored, and overwriting with one removes the
      property. */
  function Put(p: Props, key: Key, value: Value): (r: Props)
    ensures Get(r, key) == Stored(value)
    ensures forall k :: k != key ==> Get(r, k) == Get(p, k)
  {
    if value == Undefined || value == Null then p - {key} else p[key := value]
  }

  /** `JSON.stringify`: `undefined` stays `undefined`, `NaN` becomes the
      text `null`, anything else (`null` included) becomes the JSON text of
      the value. */
  function Encode(v: Value): (r: Value)
    ensures r == Undefined <==> v == Undefined
    ensures v != Undefined && v != NaN && !v.Time? ==> Decode(r) == Success(v)
    ensures v == NaN ==> Decode(r) == Success(Null)
  {
    if v == Undefined then Undefined else if v == NaN then Json(Null) else Json(v)
  }

  /** `JSON.parse` of whatever is stored. Text produced by `Encode` decodes to
      the value it encodes; `null`, booleans and integers coerce to their own
      JSON text; `undefined`, `NaN`, timestamps, objects and text that
      `Encode` did not produce are rejected. */
  function Decode(v: Value): (r: Outcome<Value>)
    ensures r.Success? ==> v != Undefined
    ensures v == Null ==> r == Success(Null)
  {
    match v
    case Json(doc) => Success(doc)
    case Null => Success(v)
    case Bool(_) => Success(v)
    case Int(_) => Success(v)
    case _ => Failure(MalformedJson)
  }

  /** `parseInt(v, 10)` on the inputs the resolvers receive: an integer parses
      to itself, anything else to NaN. */
  function ParseInt(v: Value): (r: Value)
    ensures r.Int? || r == NaN
    ensures v.Int? ==> r == v
  {
    if v.Int? then v else NaN
  }

  const TwoTo32: int := 0x1_0000_0000
  const TwoTo31: int := 0x8000_0000

  /** `node.identity.low`: the driver's 64-bit Integer keeps the low 32 bits of
      an engine id as a signed 32-bit number. */
  function Low(id: int): (r: int)
    ensures -TwoTo31 <= r < TwoTo31
    ensures (id - r) % TwoTo32 == 0
    ensures 0 <= id < TwoTo31 ==> r == id
  {
    var w := id % TwoTo32;
    if w < TwoTo31 then w else w - TwoTo32
  }

  /** What an operation throws. */
  datatype Error =
    | Thrown(message: string)   // `throw new Error(message)` in the operation itself
    | NotFound                  // `result.records[0].get(0)` on an empty result
    | MalformedJson             // `JSON.parse` rejected a stored `metadata`

  const SectionNotFound: Error := Thrown("Section not found.")
  const PublicationNotFound: Error := Thrown("Publication not found.")
  const SectionHasPublications: Error := Thrown("Your section has publications.")

  datatype Outcome<+T> = Success(value: T) | Failure(error: Error)
}
