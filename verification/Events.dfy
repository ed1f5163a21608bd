/** Structural events, and the tree an event sequence spells (src/event.rs). */
module Events {
  import opened Bytes
  import opened Faults
  import opened Tokens

  /** What the parser tells a consumer. A field of a tabular row arrives with its key as one event. */
  datatype Event =
    | StartObject(at: Position)
    | StartRepeatedObject(at: Position)
    | EndObject(at: Position)
    | StartArray(declared: nat, at: Position)
    | EndArray(at: Position)
    | BeginTabular(leafCount: nat, at: Position)
    | Key(key: StringToken, at: Position)
    | Scalar(token: ScalarToken, at: Position)
    | ScalarField(key: StringToken, token: ScalarToken, at: Position)
    | StartObjectField(key: StringToken, at: Position)
    | EndObjectField(at: Position)

  /** How an object was written: an entry body, a list item, a keyed table, a table row, a field group. */
  datatype ObjectKind = Plain | Repeated | Table(leafCount: nat) | Row | Group

  datatype Tree =
    | Leaf(token: ScalarToken, at: Position)
    | Arr(declared: nat, tabular: Option<nat>, items: seq<Tree>, at: Position)
    | Obj(kind: ObjectKind, fields: seq<Field>, at: Position)

  datatype Field = Field(key: StringToken, value: Tree, at: Position)

  function Announcement(leafCount: Option<nat>, at: Position): seq<Event> {
    match leafCount case None => [] case Some(n) => [BeginTabular(n, at)]
  }

  /** The events that spell a tree. */
  function EventsOf(tree: Tree): seq<Event>
    decreases tree, 1
  {
    match tree
    case Leaf(token, at) => [Scalar(token, at)]
    case Arr(declared, tabular, items, at) =>
      [StartArray(declared, at)] + Announcement(tabular, at) + ItemEvents(items) + [EndArray(at)]
    case Obj(kind, fields, at) =>
      match kind
      case Repeated => [StartRepeatedObject(at)] + FieldEvents(fields) + [EndObject(at)]
      case Table(n) => [StartObject(at), BeginTabular(n, at)] + FieldEvents(fields) + [EndObject(at)]
      case Row => [StartObject(at)] + CellEvents(fields) + [EndObject(at)]
      case _ => [StartObject(at)] + FieldEvents(fields) + [EndObject(at)]
  }

  function ItemEvents(items: seq<Tree>): seq<Event>
    decreases items, 0
  {
    if items == [] then [] else EventsOf(items[0]) + ItemEvents(items[1..])
  }

  function FieldEvents(fields: seq<Field>): seq<Event>
    decreases fields, 0
  {
    if fields == [] then [] else FieldEvent(fields[0]) + FieldEvents(fields[1..])
  }

  function FieldEvent(field: Field): seq<Event>
    decreases field, 1
  {
    [Key(field.key, field.at)] + EventsOf(field.value)
  }

  /** The fields of one row: a scalar comes with its key, a field group opens with its key. */
  function CellEvent(field: Field): seq<Event>
    decreases field, 2
  {
    match field.value
    case Leaf(token, _) => [ScalarField(field.key, token, field.at)]
    case Obj(_, fields, at) => [StartObjectField(field.key, field.at)] + CellEvents(fields) + [EndObjectField(at)]
    case Arr(_, _, _, _) => FieldEvent(field)
  }

  function CellEvents(fields: seq<Field>): seq<Event>
    decreases fields, 0
  {
    if fields == [] then [] else CellEvent(fields[0]) + CellEvents(fields[1..])
  }

  // ----- fused events -----------------------------------------------------------------------

  /** What a consumer that does not care for a fused event is given in its place. */
  function Unfused(event: Event): seq<Event> {
    match event
    case ScalarField(key, token, at) => [Key(key, at), Scalar(token, at)]
    case StartObjectField(key, at) => [Key(key, at), StartObject(at)]
    case EndObjectField(at) => [EndObject(at)]
    case StartRepeatedObject(at) => [StartObject(at)]
    case _ => [event]
  }

  function AllUnfused(events: seq<Event>): seq<Event> {
    if events == [] then [] else Unfused(events[0]) + AllUnfused(events[1..])
  }

  /** A consumer that records the events it is given. */
  class Recorder {
    var events: seq<Event>

    constructor ()
      ensures events == []
    {
      events := [];
    }

    method Emit(event: Event)
      modifies this
      ensures events == old(events) + [event]
    {
      events := events + [event];
    }
  }
}
