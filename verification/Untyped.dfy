/** The untyped consumer: a builder stack that turns events into a value (src/untyped.rs). */
module Untyped {
  import opened Bytes
  import opened Faults
  import opened Tokens
  import opened Escapes
  import opened Events
  import opened Values

  datatype Builder = DictBuilder(pairs: seq<Pair>, pendingKey: Option<bytes>) | ListBuilder(items: seq<Value>)

  datatype State = State(stack: seq<Builder>, result: Option<Value>)

  function Top(st: State): Builder
    requires st.stack != []
  {
    st.stack[|st.stack| - 1]
  }

  function Push(st: State, b: Builder): State {
    st.(stack := st.stack + [b])
  }

  function Pop(st: State): State
    requires st.stack != []
  {
    st.(stack := st.stack[..|st.stack| - 1])
  }

  function Replace(st: State, b: Builder): State
    requires st.stack != []
  {
    Push(Pop(st), b)
  }

  function InternalFault<T>(at: Position): Result<T> {
    Err(SyntaxAt(Internal, at))
  }

  /** Put a finished value where the innermost open container expects it. */
  function Place(st: State, value: Value, at: Position): Result<State> {
    if st.stack == [] then Ok(st.(result := Some(value)))
    else
      match Top(st)
      case ListBuilder(items) => Ok(Replace(st, ListBuilder(items + [value])))
      case DictBuilder(pairs, None) => InternalFault(at)
      case DictBuilder(pairs, Some(key)) => Ok(Replace(st, DictBuilder(SetItem(pairs, key, value), None)))
  }

  function TakeKey(st: State, key: StringToken, at: Position): Result<State> {
    if st.stack != [] && Top(st).DictBuilder? then Ok(Replace(st, DictBuilder(Top(st).pairs, Some(TextOf(key)))))
    else InternalFault(at)
  }

  function CloseObject(st: State, at: Position): Result<State> {
    if st.stack != [] && Top(st).DictBuilder? then Place(Pop(st), Dict(Top(st).pairs), at) else InternalFault(at)
  }

  function CloseArray(st: State, at: Position): Result<State> {
    if st.stack != [] && Top(st).ListBuilder? then Place(Pop(st), Seq(Top(st).items), at) else InternalFault(at)
  }

  /** The effect of one event; fused events act as the pair they stand for. */
  function Step(st: State, event: Event): Result<State> {
    match event
    case StartObject(_) => Ok(Push(st, DictBuilder([], None)))
    case StartRepeatedObject(_) => Ok(Push(st, DictBuilder([], None)))
    case EndObject(at) => CloseObject(st, at)
    case StartArray(_, _) => Ok(Push(st, ListBuilder([])))
    case EndArray(at) => CloseArray(st, at)
    case BeginTabular(_, _) => Ok(st)
    case Key(key, at) => TakeKey(st, key, at)
    case Scalar(t, at) => Place(st, TokenValue(t), at)
    case ScalarField(key, t, at) =>
      var next :- TakeKey(st, key, at);
      Place(next, TokenValue(t), at)
    case StartObjectField(key, at) =>
      var next :- TakeKey(st, key, at);
      Ok(Push(next, DictBuilder([], None)))
    case EndObjectField(at) => CloseObject(st, at)
  }

  function Run(st: State, events: seq<Event>): Result<State>
    decreases |events|
  {
    if events == [] then Ok(st)
    else
      var next :- Step(st, events[0]);
      Run(next, events[1..])
  }

  // ----- the consumer -------------------------------------------------------------

  class Consumer {
    var stack: seq<Builder>
    var result: Option<Value>

    constructor ()
      ensures Now() == State([], None)
    {
      stack := [];
      result := None;
    }

    function Now(): State
      reads this
    {
      State(stack, result)
    }

    method Put(value: Value, at: Position) returns (r: Result<()>)
      modifies this
      ensures match Place(old(Now()), value, at)
              case Err(fault) => r == Err(fault)
              case Ok(st) => r == Ok(()) && Now() == st
    {
      var n := |stack|;
      if n == 0 {
        result := Some(value);
        return Ok(());
      }
      match stack[n - 1]
      case ListBuilder(items) =>
        stack := stack[..n - 1] + [ListBuilder(items + [value])];
        return Ok(());
      case DictBuilder(pairs, pendingKey) =>
        if pendingKey.None? { return Err(SyntaxAt(Internal, at)); }
        stack := stack[..n - 1] + [DictBuilder(SetItem(pairs, pendingKey.value, value), None)];
        return Ok(());
    }

    method OnKey(key: StringToken, at: Position) returns (r: Result<()>)
      modifies this
      ensures match TakeKey(old(Now()), key, at)
              case Err(fault) => r == Err(fault)
              case Ok(st) => r == Ok(()) && Now() == st
    {
      var n := |stack|;
      if n == 0 || !stack[n - 1].DictBuilder? { return Err(SyntaxAt(Internal, at)); }
      stack := stack[..n - 1] + [DictBuilder(stack[n - 1].pairs, Some(TextOf(key)))];
      return Ok(());
    }

    method OnEndObject(at: Position) returns (r: Result<()>)
      modifies this
      ensures match CloseObject(old(Now()), at)
              case Err(fault) => r == Err(fault)
              case Ok(st) => r == Ok(()) && Now() == st
    {
      var n := |stack|;
      if n == 0 || !stack[n - 1].DictBuilder? { return Err(SyntaxAt(Internal, at)); }
      var pairs := stack[n - 1].pairs;
      stack := stack[..n - 1];
      r := Put(Dict(pairs), at);
    }

    method OnEndArray(at: Position) returns (r: Result<()>)
      modifies this
      ensures match CloseArray(old(Now()), at)
              case Err(fault) => r == Err(fault)
              case Ok(st) => r == Ok(()) && Now() == st
    {
      var n := |stack|;
      if n == 0 || !stack[n - 1].ListBuilder? { return Err(SyntaxAt(Internal, at)); }
      var items := stack[n - 1].items;
      stack := stack[..n - 1];
      r := Put(Seq(items), at);
    }

    /** Receive one event. */
    method On(event: Event) returns (r: Result<()>)
      modifies this
      ensures match Step(old(Now()), event)
              case Err(fault) => r == Err(fault)
              case Ok(st) => r == Ok(()) && Now() == st
    {
      match event
      case StartObject(_) => stack := stack + [DictBuilder([], None)]; return Ok(());
      case StartRepeatedObject(_) => stack := stack + [DictBuilder([], None)]; return Ok(());
      case EndObject(at) => r := OnEndObject(at);
      case StartArray(_, _) => stack := stack + [ListBuilder([])]; return Ok(());
      case EndArray(at) => r := OnEndArray(at);
      case BeginTabular(_, _) => return Ok(());
      case Key(key, at) => r := OnKey(key, at);
      case Scalar(t, at) => r := Put(TokenValue(t), at);
      case ScalarField(key, t, at) =>
        var _ :- OnKey(key, at);
        r := Put(TokenValue(t), at);
      case StartObjectField(key, at) =>
        var _ :- OnKey(key, at);
        stack := stack + [DictBuilder([], None)];
        return Ok(());
      case EndObjectField(at) => r := OnEndObject(at);
    }

    /** Receive a whole event sequence. */
    method Consume(events: seq<Event>) returns (r: Result<()>)
      modifies this
      ensures match Run(old(Now()), events)
              case Err(fault) => r == Err(fault)
              case Ok(st) => r == Ok(()) && Now() == st
    {
      assert events[0..] == events;
      for i := 0 to |events|
        invariant Run(old(Now()), events) == Run(Now(), events[i..])
      {
        assert events[i..][0] == events[i] && events[i..][1..] == events[i + 1..];
        var _ :- On(events[i]);
      }
      return Ok(());
    }
  }

  // ----- what an event sequence builds ---------------------------------------------

  lemma {:induction false} RunConcat(st: State, a: seq<Event>, b: seq<Event>)
    ensures Run(st, a + b) == match Run(st, a) case Err(fault) => Err(fault) case Ok(next) => Run(next, b)
    decreases |a|
  {
    if a == [] {
      assert a + b == b;
    } else {
      assert (a + b)[1..] == a[1..] + b;
      match Step(st, a[0])
      case Err(_) =>
      case Ok(next) => RunConcat(next, a[1..], b);
    }
  }

  /** The innermost container can take a value. */
  predicate Ready(st: State) {
    st.stack == [] || Top(st).ListBuilder? || Top(st).pendingKey.Some?
  }

  lemma {:induction false} RunOne(st: State, event: Event)
    ensures Run(st, [event]) == Step(st, event)
  {
    match Step(st, event)
    case Err(_) =>
    case Ok(next) => assert [event][1..] == [];
  }

  predicate OpenDict(st: State) {
    st.stack != [] && Top(st).DictBuilder?
  }

  /** The events of a tree put exactly its value in place, from any state that can take one. */
  lemma {:induction false} TreeBuilds(st: State, tree: Tree)
    requires Ready(st)
    ensures Run(st, EventsOf(tree)) == Place(st, Denote(tree), tree.at) && Place(st, Denote(tree), tree.at).Ok?
    decreases tree, 1
  {
    hide Run, Step, DenoteFields, ItemEvents, CellEvents, FieldEvents;
    match tree
    case Leaf(t, at) =>
      RunOne(st, Scalar(t, at));
      ScalarStep(st, t, at);
    case Arr(_, _, items, _) =>
      ItemsBuild(Push(st, ListBuilder([])), items);
      ArrayBuilds(st, tree);
    case Obj(kind, fields, _) =>
      var start := Push(st, DictBuilder([], None));
      if kind.Row? { CellsBuild(start, fields); } else { FieldsBuild(start, fields); }
      ObjectBuilds(st, tree);
  }

  lemma {:induction false} ScalarStep(st: State, t: ScalarToken, at: Position)
    ensures Step(st, Scalar(t, at)) == Place(st, TokenValue(t), at)
  {
  }

  /** The end of an object hands its dictionary to what holds it. */
  lemma {:induction false} EndStep(st: State, pairs: seq<Pair>, at: Position)
    ensures var filled := Push(st, DictBuilder(pairs, None));
            && Step(filled, EndObject(at)) == Place(st, Dict(pairs), at)
            && Step(filled, EndObjectField(at)) == Place(st, Dict(pairs), at)
  {
    assert Pop(Push(st, DictBuilder(pairs, None))) == st;
  }

  lemma {:induction false} ArrayBuilds(st: State, tree: Tree)
    requires Ready(st) && tree.Arr?
    requires var start := Push(st, ListBuilder([]));
             Run(start, ItemEvents(tree.items)) == Ok(Replace(start, ListBuilder([] + DenoteItems(tree.items))))
    ensures Run(st, EventsOf(tree)) == Place(st, Denote(tree), tree.at)
  {
    var start := Push(st, ListBuilder([]));
    var items := DenoteItems(tree.items);
    var filled := Replace(start, ListBuilder(items));
    assert [] + items == items;
    assert Pop(filled) == st;
    RunOne(st, StartArray(tree.declared, tree.at));
    AnnouncementIsIgnored(start, tree.tabular, tree.at);
    RunOne(filled, EndArray(tree.at));
    RunParts(st, [StartArray(tree.declared, tree.at)], Announcement(tree.tabular, tree.at), ItemEvents(tree.items), [EndArray(tree.at)]);
  }

  /** The events that open an object, and those of its fields. */
  function Opening(tree: Tree): seq<Event>
    requires tree.Obj?
  {
    match tree.kind
    case Repeated => [StartRepeatedObject(tree.at)]
    case Table(n) => [StartObject(tree.at), BeginTabular(n, tree.at)]
    case _ => [StartObject(tree.at)]
  }

  lemma {:induction false} OpeningOpens(st: State, tree: Tree)
    requires tree.Obj?
    ensures Run(st, Opening(tree)) == Ok(Push(st, DictBuilder([], None)))
  {
    var start := Push(st, DictBuilder([], None));
    match tree.kind
    case Repeated => RunOne(st, StartRepeatedObject(tree.at));
    case Table(n) =>
      RunOne(st, StartObject(tree.at));
      RunOne(start, BeginTabular(n, tree.at));
      RunConcat(st, [StartObject(tree.at)], [BeginTabular(n, tree.at)]);
      assert [StartObject(tree.at)] + [BeginTabular(n, tree.at)] == Opening(tree);
    case _ => RunOne(st, StartObject(tree.at));
  }

  lemma {:induction false} ObjectBuilds(st: State, tree: Tree)
    requires Ready(st) && tree.Obj?
    requires var start := Push(st, DictBuilder([], None));
             Run(start, if tree.kind.Row? then CellEvents(tree.fields) else FieldEvents(tree.fields)) ==
             Ok(Replace(start, DictBuilder(DenoteFields(tree.fields, []), None)))
    ensures Run(st, EventsOf(tree)) == Place(st, Denote(tree), tree.at)
  {
    var body := if tree.kind.Row? then CellEvents(tree.fields) else FieldEvents(tree.fields);
    var start := Push(st, DictBuilder([], None));
    var pairs := DenoteFields(tree.fields, []);
    assert Denote(tree) == Dict(pairs);
    assert EventsOf(tree) == Opening(tree) + body + [EndObject(tree.at)];
    assert Replace(start, DictBuilder(pairs, None)) == Push(st, DictBuilder(pairs, None));
    hide Run, Step, EventsOf, Denote, DenoteFields, CellEvents, FieldEvents, Opening, Place;
    OpeningOpens(st, tree);
    EndStep(st, pairs, tree.at);
    RunOne(Push(st, DictBuilder(pairs, None)), EndObject(tree.at));
    RunConcat(st, Opening(tree) + body, [EndObject(tree.at)]);
    RunConcat(st, Opening(tree), body);
  }

  lemma {:induction false} RunParts(st: State, a: seq<Event>, b: seq<Event>, c: seq<Event>, d: seq<Event>)
    ensures Run(st, a + b + c + d) ==
            match Run(st, a)
            case Err(f) => Err(f)
            case Ok(s1) =>
              match Run(s1, b)
              case Err(f) => Err(f)
              case Ok(s2) =>
                match Run(s2, c)
                case Err(f) => Err(f)
                case Ok(s3) => Run(s3, d)
  {
    RunConcat(st, a + b + c, d);
    RunConcat(st, a + b, c);
    RunConcat(st, a, b);
  }

  lemma {:induction false} AnnouncementIsIgnored(st: State, tabular: Option<nat>, at: Position)
    ensures Run(st, Announcement(tabular, at)) == Ok(st)
  {
    if tabular.Some? { RunOne(st, BeginTabular(tabular.value, at)); }
  }

  lemma {:induction false} ItemsBuild(st: State, items: seq<Tree>)
    requires st.stack != [] && Top(st).ListBuilder?
    ensures Run(st, ItemEvents(items)) == Ok(Replace(st, ListBuilder(Top(st).items + DenoteItems(items))))
    decreases items, 0
  {
    if items == [] {
      assert Top(st).items + [] == Top(st).items;
      assert Replace(st, Top(st)) == st;
    } else {
      var head, tail := Denote(items[0]), DenoteItems(items[1..]);
      var next := Replace(st, ListBuilder(Top(st).items + [head]));
      TreeBuilds(st, items[0]);
      ItemsBuild(next, items[1..]);
      RunConcat(st, EventsOf(items[0]), ItemEvents(items[1..]));
      assert Top(st).items + [head] + tail == Top(st).items + ([head] + tail);
      assert Pop(next) == Pop(st);
    }
  }

  lemma {:induction false} FieldsBuild(st: State, fields: seq<Field>)
    requires OpenDict(st) && Top(st).pendingKey.None?
    ensures Run(st, FieldEvents(fields)) == Ok(Replace(st, DictBuilder(DenoteFields(fields, Top(st).pairs), None)))
    decreases fields, 0
  {
    if fields == [] {
      assert Replace(st, Top(st)) == st;
    } else {
      FieldBuilds(st, fields[0]);
      var next := Replace(st, DictBuilder(SetItem(Top(st).pairs, TextOf(fields[0].key), DenoteField(fields[0])), None));
      RunConcat(st, FieldEvent(fields[0]), FieldEvents(fields[1..]));
      FieldsBuild(next, fields[1..]);
      assert Pop(next) == Pop(st);
    }
  }

  lemma {:induction false} FieldBuilds(st: State, field: Field)
    requires OpenDict(st)
    ensures Run(st, FieldEvent(field)) ==
            Ok(Replace(st, DictBuilder(SetItem(Top(st).pairs, TextOf(field.key), DenoteField(field)), None)))
    decreases field, 2
  {
    var keyed := Replace(st, DictBuilder(Top(st).pairs, Some(TextOf(field.key))));
    RunOne(st, Key(field.key, field.at));
    TreeBuilds(keyed, field.value);
    RunConcat(st, [Key(field.key, field.at)], EventsOf(field.value));
    assert Pop(keyed) == Pop(st);
  }

  lemma {:induction false} CellsBuild(st: State, fields: seq<Field>)
    requires OpenDict(st) && Top(st).pendingKey.None?
    ensures Run(st, CellEvents(fields)) == Ok(Replace(st, DictBuilder(DenoteFields(fields, Top(st).pairs), None)))
    decreases fields, 0
  {
    if fields == [] {
      assert Replace(st, Top(st)) == st;
    } else {
      CellBuilds(st, fields[0]);
      var next := Replace(st, DictBuilder(SetItem(Top(st).pairs, TextOf(fields[0].key), DenoteField(fields[0])), None));
      RunConcat(st, CellEvent(fields[0]), CellEvents(fields[1..]));
      CellsBuild(next, fields[1..]);
      assert Pop(next) == Pop(st);
    }
  }

  lemma {:induction false} CellBuilds(st: State, field: Field)
    requires OpenDict(st)
    ensures Run(st, CellEvent(field)) ==
            Ok(Replace(st, DictBuilder(SetItem(Top(st).pairs, TextOf(field.key), DenoteField(field)), None)))
    decreases field, 3
  {
    var keyed := Replace(st, DictBuilder(Top(st).pairs, Some(TextOf(field.key))));
    assert Pop(keyed) == Pop(st);
    match field.value
    case Leaf(t, _) => RunOne(st, ScalarField(field.key, t, field.at));
    case Arr(_, _, _, _) => FieldBuilds(st, field);
    case Obj(_, fields, at) =>
      CellsBuild(Push(keyed, DictBuilder([], None)), fields);
      GroupBuilds(st, field);
  }

  lemma {:induction false} GroupBuilds(st: State, field: Field)
    requires OpenDict(st) && field.value.Obj?
    requires var inside := Push(Replace(st, DictBuilder(Top(st).pairs, Some(TextOf(field.key)))), DictBuilder([], None));
             Run(inside, CellEvents(field.value.fields)) == Ok(Replace(inside, DictBuilder(DenoteFields(field.value.fields, []), None)))
    ensures Run(st, CellEvent(field)) ==
            Ok(Replace(st, DictBuilder(SetItem(Top(st).pairs, TextOf(field.key), DenoteField(field)), None)))
  {
    var keyed := Replace(st, DictBuilder(Top(st).pairs, Some(TextOf(field.key))));
    var pairs := DenoteFields(field.value.fields, []);
    var inside := Push(keyed, DictBuilder([], None));
    var open, close := StartObjectField(field.key, field.at), EndObjectField(field.value.at);
    assert CellEvent(field) == [open] + CellEvents(field.value.fields) + [close];
    assert Step(st, open) == Ok(inside);
    assert Pop(keyed) == Pop(st) && DenoteField(field) == Dict(pairs);
    assert Replace(inside, DictBuilder(pairs, None)) == Push(keyed, DictBuilder(pairs, None));
    hide Run, Step, DenoteFields, CellEvents, CellEvent;
    EndStep(keyed, pairs, field.value.at);
    RunOne(st, open);
    RunOne(Push(keyed, DictBuilder(pairs, None)), close);
    RunConcat(st, [open] + CellEvents(field.value.fields), [close]);
    RunConcat(st, [open], CellEvents(field.value.fields));
  }

  /** Fed with the events of any tree, a fresh consumer reaches none of its internal faults and ends with
      exactly the value the tree denotes. */
  lemma {:induction false} EventsBuildTheValue(tree: Tree)
    ensures Run(State([], None), EventsOf(tree)) == Ok(State([], Some(Denote(tree))))
  {
    TreeBuilds(State([], None), tree);
  }

  /** A fused event acts as the events it stands for, in any sequence of events. */
  lemma {:induction false} FusedIsPlain(st: State, events: seq<Event>)
    ensures Run(st, events) == Run(st, AllUnfused(events))
    decreases |events|
  {
    if events != [] {
      FusedOneIsPlain(st, events[0]);
      RunConcat(st, Unfused(events[0]), AllUnfused(events[1..]));
      match Step(st, events[0])
      case Err(_) =>
      case Ok(next) => FusedIsPlain(next, events[1..]);
    }
  }

  lemma {:induction false} FusedOneIsPlain(st: State, event: Event)
    ensures Run(st, Unfused(event)) == Step(st, event)
  {
    match event
    case ScalarField(key, token, at) => RunTwo(st, Key(key, at), Scalar(token, at));
    case StartObjectField(key, at) => RunTwo(st, Key(key, at), StartObject(at));
    case EndObjectField(at) => RunOne(st, EndObject(at));
    case StartRepeatedObject(at) => RunOne(st, StartObject(at));
    case _ => RunOne(st, event);
  }

  lemma {:induction false} RunTwo(st: State, first: Event, second: Event)
    ensures Run(st, [first, second]) == match Step(st, first) { case Err(fault) => Err(fault) case Ok(next) => Step(next, second) }
  {
    RunConcat(st, [first], [second]);
    RunOne(st, first);
    assert [first] + [second] == [first, second];
    if Step(st, first).Ok? { RunOne(Step(st, first).value, second); }
  }
}
