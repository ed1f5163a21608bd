/** A document whose rows a memo gets wrong: a list of structs with an optional struct inside (src/typed.rs). */
module ListExample {
  import opened Bytes
  import opened Faults
  import opened Tokens
  import opened Escapes
  import opened Events
  import opened Values
  import opened Plans
  import opened TypedMachine
  import opened TypedTrees
  import opened TypedProof
  import opened RowMemo
  import opened RowReplay
  import opened ListReplay
  import Header

  // ----- the plan ---------------------------------------------------------------------------------

  const A: bytes := [97]
  const U: bytes := [117]
  const V: bytes := [118]
  const X: bytes := [120]
  const Y: bytes := [121]

  const FREE: Limits := Limits(None, None, None, None, None, None, None)

  function Number(n: int): Typed { Plainly(Int(n)) }

  function NumberField(wire: bytes): FieldPlan { FieldPlan(wire, 3, Some(Number(0))) }

  /** The row: an optional struct `a`, and the numbers `x` and `y`. */
  const OUTER: StructPlan := StructPlan(0, [FieldPlan(A, 1, None), NumberField(X), NumberField(Y)], false)

  /** The struct inside: the numbers `u`, `v` and `x`. */
  const INNER: StructPlan := StructPlan(1, [NumberField(U), NumberField(V), NumberField(X)], false)

  const GRAPH: Graph :=
    [Node(ObjectPlan(OUTER), FREE), Node(UnionPlan(true, [2]), FREE), Node(ObjectPlan(INNER), FREE), Node(IntPlan, FREE)]

  function Strictly(host: map<bytes, HostFloat>): Target { Target(GRAPH, 0, true, host) }

  lemma {:induction false} GraphIsValid()
    ensures ValidGraph(GRAPH) && Resolved(GRAPH, 0) == 0 && Resolved(GRAPH, 1) == 2
  {
    forall i, k | 0 <= i < |GRAPH| && 0 <= k < |Edges(GRAPH[i].plan)| ensures Edges(GRAPH[i].plan)[k] < |GRAPH| {
      if i == 0 { assert Edges(GRAPH[0].plan) == [1, 3, 3]; }
      if i == 2 { assert Edges(GRAPH[2].plan) == [3, 3, 3]; }
    }
    assert Resolve(GRAPH, 2, 3) == Some(2);
    assert Resolve(GRAPH, 1, 4) == Some(2) && Resolve(GRAPH, 0, 4) == Some(0) && Resolve(GRAPH, 3, 4) == Some(3) && Resolve(GRAPH, 2, 4) == Some(2);
  }

  lemma {:induction false} Actions()
    ensures ActionFor(OUTER, A) == TakeField(0) && ActionFor(OUTER, X) == TakeField(1) && ActionFor(INNER, X) == TakeField(2)
  {
    ActionSelects(OUTER, A);
    ActionSelects(OUTER, X);
    ActionSelects(INNER, X);
    hide ActionFor;
    assert OUTER.fields[0].wire == A && OUTER.fields[1].wire == X && OUTER.fields[2].wire == Y;
    assert INNER.fields[0].wire == U && INNER.fields[1].wire == V && INNER.fields[2].wire == X;
  }

  // ----- the document --------------------------------------------------------------------------------

  const AT: Position := Position(1, 1)

  function Named(key: bytes, value: Tree): Field { Field(Bare(key), value, AT) }

  function Digit(d: byte): ScalarToken { IntegerToken([d]) }

  /** `- a: {x: 1}`, `x: 2`. */
  function FirstRow(): Tree {
    Obj(Repeated, [Named(A, Obj(Plain, [Named(X, Leaf(Digit(49), AT))], AT)), Named(X, Leaf(Digit(50), AT))], AT)
  }

  /** `- a: null`, `x: 3`. */
  function SecondRow(): Tree {
    Obj(Repeated, [Named(A, Leaf(NullToken, AT)), Named(X, Leaf(Digit(51), AT))], AT)
  }

  function FirstTail(): seq<Event> { [Key(Bare(X), AT), Scalar(Digit(50), AT), EndObject(AT)] }

  function InnerEvents(): seq<Event> { [StartObject(AT), Key(Bare(X), AT), Scalar(Digit(49), AT), EndObject(AT)] }

  function FirstEvents(): seq<Event> { [StartRepeatedObject(AT), Key(Bare(A), AT)] + InnerEvents() + FirstTail() }

  function SecondEvents(): seq<Event> {
    [StartRepeatedObject(AT), Key(Bare(A), AT), Scalar(NullToken, AT), Key(Bare(X), AT), Scalar(Digit(51), AT), EndObject(AT)]
  }

  lemma {:induction false} RowEvents()
    ensures EventsOf(FirstRow()) == FirstEvents() && EventsOf(SecondRow()) == SecondEvents()
  {
    var inner := [Named(X, Leaf(Digit(49), AT))];
    var first, second := FirstRow().fields, SecondRow().fields;
    assert inner[1..] == [] && first[1..] == [first[1]] && first[1..][1..] == [] && second[1..] == [second[1]] && second[1..][1..] == [];
    assert FieldEvents(inner) == [Key(Bare(X), AT), Scalar(Digit(49), AT)];
    assert EventsOf(first[0].value) == InnerEvents();
    assert FieldEvent(first[0]) == [Key(Bare(A), AT)] + InnerEvents();
    assert FieldEvents(first[1..]) == [Key(Bare(X), AT), Scalar(Digit(50), AT)];
    assert FieldEvents(second[1..]) == [Key(Bare(X), AT), Scalar(Digit(51), AT)];
    assert FieldEvents(second) == [Key(Bare(A), AT), Scalar(NullToken, AT)] + FieldEvents(second[1..]);
  }

  // ----- the states on the way ----------------------------------------------------------------------------

  function AtItems(items: seq<Typed>): State {
    State(Over(ListFrame(items, Uniform(0), false, FREE), Bottom), None, 0, None)
  }

  function InRow(items: seq<Typed>, a: Option<Typed>, x: Option<Typed>, y: Option<Typed>, awaiting: Option<nat>): State {
    Push(AtItems(items), ObjectFrame(OUTER, [a, x, y], awaiting, false))
  }

  function InInner(x: Option<Typed>, awaiting: Option<nat>): State {
    Push(InRow([], None, None, None, Some(0)), ObjectFrame(INNER, [None, None, x], awaiting, false))
  }

  function InnerValue(): Typed { Instance(1, [Number(0), Number(0), Number(1)]) }

  function OuterValue(a: Typed, x: int, y: int): Typed { Instance(0, [a, Number(x), Number(y)]) }

  lemma {:induction false} RowStarts(target: Target, items: seq<Typed>)
    requires target == Strictly(target.host) && ValidGraph(target.graph)
    ensures Step(target, AtItems(items), StartRepeatedObject(AT)) == Ok(InRow(items, None, None, None, None))
  {
    GraphIsValid();
    hide ValidGraph;
    assert EmptySlots(OUTER) == [None, None, None];
  }

  lemma {:induction false} InnerStarts(target: Target)
    requires target == Strictly(target.host) && ValidGraph(target.graph)
    ensures Step(target, InRow([], None, None, None, Some(0)), StartObject(AT)) == Ok(InInner(None, None))
  {
    GraphIsValid();
    hide ValidGraph;
    assert EmptySlots(INNER) == [None, None, None];
  }

  lemma {:induction false} RowKey(target: Target, items: seq<Typed>, a: Option<Typed>, key: bytes)
    requires target == Strictly(target.host) && ValidGraph(target.graph) && ((key == A && a.None?) || key == X)
    ensures Step(target, InRow(items, a, None, None, None), Key(Bare(key), AT)) ==
            Ok(InRow(items, a, None, None, Some(if key == A then 0 else 1)))
  {
    Actions();
    hide ValidGraph, ActionFor;
  }

  lemma {:induction false} InnerKey(target: Target)
    requires target == Strictly(target.host) && ValidGraph(target.graph)
    ensures Step(target, InInner(None, None), Key(Bare(X), AT)) == Ok(InInner(None, Some(2)))
  {
    Actions();
    hide ValidGraph, ActionFor;
  }

  lemma {:induction false} DigitConverts(target: Target, d: byte)
    requires target == Strictly(target.host) && ValidGraph(target.graph) && 49 <= d <= 51
    ensures ConvertScalar(target, 3, Digit(d), AT, |target.graph|) == Ok(Number((d - 48) as int))
  {
    var digits := [d];
    assert digits[..0] == [] && Header.DecimalValue(digits) == (d - 48) as int;
    assert IntegerOf(digits) == (d - 48) as int;
  }

  lemma {:induction false} NullConverts(target: Target)
    requires target == Strictly(target.host) && ValidGraph(target.graph)
    ensures ConvertScalar(target, 1, NullToken, AT, |target.graph|) == Ok(Plainly(Null))
  {
  }

  lemma {:induction false} RowScalar(target: Target, items: seq<Typed>, a: Option<Typed>, slot: nat, d: byte)
    requires target == Strictly(target.host) && ValidGraph(target.graph) && 49 <= d <= 51 && 1 <= slot <= 2
    ensures var number := Some(Number((d - 48) as int));
            Step(target, InRow(items, a, None, None, Some(slot)), Scalar(Digit(d), AT)) ==
            Ok(if slot == 1 then InRow(items, a, number, None, None) else InRow(items, a, None, number, None))
  {
    DigitConverts(target, d);
    hide ValidGraph, ConvertScalar;
    assert OUTER.fields[slot].value == 3;
    var number := Number((d - 48) as int);
    assert WithSlot([a, None, None], 1, number) == [a, Some(number), None];
    assert WithSlot([a, None, None], 2, number) == [a, None, Some(number)];
  }

  lemma {:induction false} NullScalar(target: Target, items: seq<Typed>)
    requires target == Strictly(target.host) && ValidGraph(target.graph)
    ensures Step(target, InRow(items, None, None, None, Some(0)), Scalar(NullToken, AT)) ==
            Ok(InRow(items, Some(Plainly(Null)), None, None, None))
  {
    NullConverts(target);
    hide ValidGraph, ConvertScalar;
    assert OUTER.fields[0].value == 1;
    assert WithSlot([None, None, None], 0, Plainly(Null)) == [Some(Plainly(Null)), None, None];
  }

  lemma {:induction false} InnerScalar(target: Target)
    requires target == Strictly(target.host) && ValidGraph(target.graph)
    ensures Step(target, InInner(None, Some(2)), Scalar(Digit(49), AT)) == Ok(InInner(Some(Number(1)), None))
  {
    DigitConverts(target, 49);
    hide ValidGraph, ConvertScalar;
    assert INNER.fields[2].value == 3;
    assert WithSlot([None, None, None], 2, Number(1)) == [None, None, Some(Number(1))];
  }

  lemma {:induction false} ThreeArguments(fields: seq<FieldPlan>, slots: seq<Option<Typed>>, values: seq<Typed>)
    requires |fields| == |slots| == |values| == 3
    requires forall i :: 0 <= i < 3 ==> slots[i] == Some(values[i]) || (slots[i].None? && fields[i].fallback == Some(values[i]))
    ensures Arguments(fields, slots, AT) == Ok(values)
  {
    assert fields[..3] == fields && fields[..3][..2] == fields[..2] && fields[..2][..1] == fields[..1] && fields[..1][..0] == [];
    assert Arguments([], slots, AT) == Ok([]) && [] + [values[0]] == [values[0]];
    assert SlotAt(slots, 0) == slots[0] && SlotAt(slots, 1) == slots[1] && SlotAt(slots, 2) == slots[2];
    assert Arguments(fields[..1], slots, AT) == Ok([values[0]]);
    assert [values[0]] + [values[1]] == [values[0], values[1]];
    assert Arguments(fields[..2], slots, AT) == Ok([values[0], values[1]]);
    assert [values[0], values[1]] + [values[2]] == values;
  }

  lemma {:induction false} InnerEnds(target: Target)
    requires target == Strictly(target.host) && ValidGraph(target.graph)
    ensures Step(target, InInner(Some(Number(1)), None), EndObject(AT)) == Ok(InRow([], Some(InnerValue()), None, None, None))
  {
    ThreeArguments(INNER.fields, [None, None, Some(Number(1))], [Number(0), Number(0), Number(1)]);
    assert WithSlot([None, None, None], 0, InnerValue()) == [Some(InnerValue()), None, None];
    hide ValidGraph, Arguments;
  }

  lemma {:induction false} RowEnds(target: Target, items: seq<Typed>, a: Typed, x: Option<Typed>, y: Option<Typed>, n: int, m: int)
    requires target == Strictly(target.host) && ValidGraph(target.graph)
    requires (x == Some(Number(n)) || (x.None? && n == 0)) && (y == Some(Number(m)) || (y.None? && m == 0))
    ensures Step(target, InRow(items, Some(a), x, y, None), EndObject(AT)) == Ok(AtItems(items + [OuterValue(a, n, m)]))
  {
    ThreeArguments(OUTER.fields, [Some(a), x, y], [a, Number(n), Number(m)]);
    hide ValidGraph, Arguments;
  }

  // ----- the plain run ------------------------------------------------------------------------------------

  /** One step of a walk through the events of a row. */
  lemma {:induction false} Walk(target: Target, level: nat, st: State, events: seq<Event>, next: State)
    requires ValidGraph(target.graph) && events != [] && Step(target, st, events[0]) == Ok(next)
    ensures Run(target, st, events) == Run(target, next, events[1..])
    ensures Trace(target, level, st, events) ==
            (match Own(level, st, events[0]) { case Some(query) => [query] case None => [] }) + Trace(target, level, next, events[1..])
  {
    hide ValidGraph, Step;
  }

  lemma {:induction false} Arrived(target: Target, level: nat, st: State)
    requires ValidGraph(target.graph)
    ensures Run(target, st, []) == Ok(st) && Trace(target, level, st, []) == []
  {
  }

  lemma {:induction false} InnerRun(target: Target)
    requires target == Strictly(target.host) && ValidGraph(target.graph)
    ensures Run(target, InRow([], None, None, None, Some(0)), InnerEvents()) == Ok(InRow([], Some(InnerValue()), None, None, None))
    ensures Trace(target, 1, InRow([], None, None, None, Some(0)), InnerEvents()) == [Query(INNER, X)]
  {
    var events := InnerEvents();
    assert events[1..][0] == Key(Bare(X), AT) && events[1..][1..][0] == Scalar(Digit(49), AT);
    assert events[1..][1..][1..] == [EndObject(AT)] && [EndObject(AT)][1..] == [];
    var s0, s1, s2, s3, s4 := InRow([], None, None, None, Some(0)), InInner(None, None), InInner(None, Some(2)),
                              InInner(Some(Number(1)), None), InRow([], Some(InnerValue()), None, None, None);
    InnerStarts(target);
    InnerKey(target);
    InnerScalar(target);
    InnerEnds(target);
    assert Own(1, s0, StartObject(AT)) == None && Own(1, s1, Key(Bare(X), AT)) == Some(Query(INNER, X));
    assert Own(1, s2, Scalar(Digit(49), AT)) == None && Own(1, s3, EndObject(AT)) == None;
    hide *;
    Walk(target, 1, s0, events, s1);
    Walk(target, 1, s1, events[1..], s2);
    Walk(target, 1, s2, events[1..][1..], s3);
    Walk(target, 1, s3, [EndObject(AT)], s4);
    Arrived(target, 1, s4);
  }

  lemma {:induction false} RowAsks(items: seq<Typed>, a: Option<Typed>, key: bytes)
    ensures Own(1, InRow(items, a, None, None, None), Key(Bare(key), AT)) == Some(Query(OUTER, key))
  {
    hide OUTER;
    assert Level(AtItems(items).stack) == 1;
  }

  lemma {:induction false} NothingAsked(st: State, event: Event)
    requires KeyOfEvent(event).None?
    ensures Own(1, st, event) == None
  {
  }

  lemma {:induction false} FirstTailRun(target: Target)
    requires target == Strictly(target.host) && ValidGraph(target.graph)
    ensures Run(target, InRow([], Some(InnerValue()), None, None, None), FirstTail()) == Ok(AtItems([OuterValue(InnerValue(), 2, 0)]))
    ensures Trace(target, 1, InRow([], Some(InnerValue()), None, None, None), FirstTail()) == [Query(OUTER, X)]
  {
    var inner, events := Some(InnerValue()), FirstTail();
    assert events[1..][0] == Scalar(Digit(50), AT) && events[1..][1..] == [EndObject(AT)] && [EndObject(AT)][1..] == [];
    var s0, s1, s2, s3 := InRow([], inner, None, None, None), InRow([], inner, None, None, Some(1)),
                          InRow([], inner, Some(Number(2)), None, None), AtItems([] + [OuterValue(InnerValue(), 2, 0)]);
    RowKey(target, [], inner, X);
    RowScalar(target, [], inner, 1, 50);
    RowEnds(target, [], InnerValue(), Some(Number(2)), None, 2, 0);
    RowAsks([], inner, X);
    NothingAsked(s1, Scalar(Digit(50), AT));
    NothingAsked(s2, EndObject(AT));
    assert [] + [OuterValue(InnerValue(), 2, 0)] == [OuterValue(InnerValue(), 2, 0)];
    hide *;
    Walk(target, 1, s0, events, s1);
    Walk(target, 1, s1, events[1..], s2);
    Walk(target, 1, s2, [EndObject(AT)], s3);
    Arrived(target, 1, s3);
  }

  lemma {:induction false} FirstRun(target: Target)
    requires target == Strictly(target.host) && ValidGraph(target.graph)
    ensures Run(target, AtItems([]), FirstEvents()) == Ok(AtItems([OuterValue(InnerValue(), 2, 0)]))
    ensures Trace(target, 1, AtItems([]), FirstEvents()) == [Query(OUTER, A), Query(INNER, X), Query(OUTER, X)]
  {
    FirstSlices();
    hide ValidGraph, Run, Trace, Step, FirstEvents, InnerEvents, FirstTail, InnerValue, OuterValue, Own;
    var events, rest := FirstEvents(), InnerEvents() + FirstTail();
    var s0, s1, s2 := AtItems([]), InRow([], None, None, None, None), InRow([], None, None, None, Some(0));
    RowStarts(target, []);
    RowKey(target, [], None, A);
    RowAsks([], None, A);
    NothingAsked(s0, StartRepeatedObject(AT));
    Walk(target, 1, s0, events, s1);
    Walk(target, 1, s1, events[1..], s2);
    RunConcat(target, s2, InnerEvents(), FirstTail());
    TraceConcat(target, 1, s2, InnerEvents(), FirstTail());
    InnerRun(target);
    FirstTailRun(target);
    JoinRuns(target, s2);
  }

  lemma {:induction false} FirstSlices()
    ensures var events := FirstEvents();
            && |events| > 1 && events[0] == StartRepeatedObject(AT) && events[1..] != [] && events[1..][0] == Key(Bare(A), AT)
            && events[1..][1..] == InnerEvents() + FirstTail()
  {
  }

  lemma {:induction false} JoinRuns(target: Target, st: State)
    requires ValidGraph(target.graph)
    ensures forall r: Result<State>, events :: r.Ok? ==> Then(target, r, events) == Run(target, r.value, events)
  {
    hide ValidGraph, Run;
  }

  lemma {:induction false} SecondRun(target: Target, items: seq<Typed>)
    requires target == Strictly(target.host) && ValidGraph(target.graph)
    ensures Run(target, AtItems(items), SecondEvents()) == Ok(AtItems(items + [OuterValue(Plainly(Null), 3, 0)]))
    ensures Trace(target, 1, AtItems(items), SecondEvents()) == [Query(OUTER, A), Query(OUTER, X)]
  {
    var nothing, events := Some(Plainly(Null)), SecondEvents();
    SecondSlices();
    var s0, s1, s2, s3 := AtItems(items), InRow(items, None, None, None, None), InRow(items, None, None, None, Some(0)),
                          InRow(items, nothing, None, None, None);
    var s4, s5, s6 := InRow(items, nothing, None, None, Some(1)), InRow(items, nothing, Some(Number(3)), None, None),
                      AtItems(items + [OuterValue(Plainly(Null), 3, 0)]);
    RowStarts(target, items);
    RowKey(target, items, None, A);
    NullScalar(target, items);
    RowKey(target, items, nothing, X);
    RowScalar(target, items, nothing, 1, 51);
    RowEnds(target, items, Plainly(Null), Some(Number(3)), None, 3, 0);
    RowAsks(items, None, A);
    RowAsks(items, nothing, X);
    NothingAsked(s0, events[0]);
    NothingAsked(s2, events[2]);
    NothingAsked(s4, events[4]);
    NothingAsked(s5, events[5]);
    hide *;
    Walk(target, 1, s0, events, s1);
    Walk(target, 1, s1, events[1..], s2);
    Walk(target, 1, s2, events[2..], s3);
    Walk(target, 1, s3, events[3..], s4);
    Walk(target, 1, s4, events[4..], s5);
    Walk(target, 1, s5, events[5..], s6);
    Arrived(target, 1, s6);
  }

  lemma {:induction false} SecondSlices()
    ensures var events := SecondEvents();
            && |events| == 6 && events[6..] == []
            && (forall i :: 0 <= i < 6 ==> events[i..] != [] && events[i..][0] == events[i] && events[i..][1..] == events[i + 1..])
            && events[0] == StartRepeatedObject(AT) && events[1] == Key(Bare(A), AT) && events[2] == Scalar(NullToken, AT)
            && events[3] == Key(Bare(X), AT) && events[4] == Scalar(Digit(51), AT) && events[5] == EndObject(AT)
  {
  }

  // ----- the run with the memo ------------------------------------------------------------------------------

  function Recorded(): seq<Query> { [Query(OUTER, A), Query(INNER, X), Query(OUTER, X)] }

  lemma {:induction false} MemoWalk(target: Target, st: State, memo: Memo, events: seq<Event>, next: State, after: Memo)
    requires ValidGraph(target.graph) && events != [] && MemoStep(target, 1, st, memo, events[0]) == Memoed(Ok(next), after)
    ensures MemoRun(target, 1, st, memo, events) == MemoRun(target, 1, next, after, events[1..])
  {
    hide ValidGraph, MemoStep;
  }

  /** Events that ask nothing and do not tend the memo step as they do without it. */
  lemma {:induction false} MemoSilent(target: Target, st: State, memo: Memo, event: Event, next: State)
    requires ValidGraph(target.graph) && Own(1, st, event).None? && Step(target, st, event) == Ok(next) && !Tends(1, st, event, next)
    ensures MemoStep(target, 1, st, memo, event) == Memoed(Ok(next), memo)
  {
    hide ValidGraph, Step, Tends;
  }

  lemma {:induction false} MemoAnswers(target: Target, items: seq<Typed>, a: Option<Typed>, memo: Memo, key: bytes, index: nat)
    requires target == Strictly(target.host) && ValidGraph(target.graph) && Sealed(memo, Recorded())
    requires (memo.cursor == 0 && key == A && index == 0 && a.None?) || (memo.cursor == 1 && key == X && index == 2)
    ensures MemoStep(target, 1, InRow(items, a, None, None, None), memo, Key(Bare(key), AT)) ==
            Memoed(Ok(InRow(items, a, None, None, Some(index))), memo.(cursor := memo.cursor + 1))
  {
    Actions();
    RowAsks(items, a, key);
    hide ActionFor, ValidGraph, Lookup, Holds;
    assert Recorded()[memo.cursor..][0] == Recorded()[memo.cursor];
    SealedLookup(memo, Recorded(), Query(OUTER, key));
    assert Lookup(memo, OUTER, key) == Looked(TakeField(index), memo.(cursor := memo.cursor + 1));
  }

  /** The second row with the memo of the first: `x` is put where the struct inside has its `x`. */
  lemma {:induction false} SecondWithMemo(target: Target, items: seq<Typed>, memo: Memo)
    requires target == Strictly(target.host) && ValidGraph(target.graph) && Sealed(memo, Recorded())
    ensures MemoRun(target, 1, AtItems(items), memo, SecondEvents()).state == Ok(AtItems(items + [OuterValue(Plainly(Null), 0, 3)]))
  {
    var nothing, events := Some(Plainly(Null)), SecondEvents();
    SecondSlices();
    var s0, s1, s2, s3 := AtItems(items), InRow(items, None, None, None, None), InRow(items, None, None, None, Some(0)),
                          InRow(items, nothing, None, None, None);
    var s4, s5, s6 := InRow(items, nothing, None, None, Some(2)), InRow(items, nothing, None, Some(Number(3)), None),
                      AtItems(items + [OuterValue(Plainly(Null), 0, 3)]);
    var m0, m1, m2 := memo.(cursor := 0), memo.(cursor := 1), memo.(cursor := 2);
    SealedMoves(memo, m0, Recorded());
    SealedMoves(memo, m1, Recorded());
    RowStarts(target, items);
    NullScalar(target, items);
    RowScalar(target, items, nothing, 2, 51);
    RowEnds(target, items, Plainly(Null), None, Some(Number(3)), 0, 3);
    MemoAnswers(target, items, None, m0, A, 0);
    MemoAnswers(target, items, nothing, m1, X, 2);
    RowBegins(target, items, memo);
    NothingAsked(s2, events[2]);
    NothingAsked(s4, events[4]);
    assert !Tends(1, s2, events[2], s3) && !Tends(1, s4, events[4], s5);
    RowFinishes(target, items, m2);
    hide *;
    MemoWalk(target, s0, memo, events, s1, m0);
    MemoWalk(target, s1, m0, events[1..], s2, m1);
    MemoSilent(target, s2, m1, events[2], s3);
    MemoWalk(target, s2, m1, events[2..], s3, m1);
    MemoWalk(target, s3, m1, events[3..], s4, m2);
    MemoSilent(target, s4, m2, events[4], s5);
    MemoWalk(target, s4, m2, events[4..], s5, m2);
    MemoWalk(target, s5, m2, events[5..], s6, MemoStep(target, 1, s5, m2, events[5]).memo);
    MemoArrived(target, s6, MemoStep(target, 1, s5, m2, events[5]).memo);
  }

  lemma {:induction false} MemoArrived(target: Target, st: State, memo: Memo)
    requires ValidGraph(target.graph)
    ensures MemoRun(target, 1, st, memo, []).state == Ok(st)
  {
  }

  lemma {:induction false} RowBegins(target: Target, items: seq<Typed>, memo: Memo)
    requires target == Strictly(target.host) && ValidGraph(target.graph)
    ensures MemoStep(target, 1, AtItems(items), memo, StartRepeatedObject(AT)) ==
            Memoed(Ok(InRow(items, None, None, None, None)), memo.(cursor := 0))
  {
    RowStarts(target, items);
    assert Level(AtItems(items).stack) == 1 && UnderList(AtItems(items));
    hide ValidGraph, Step;
    NothingAsked(AtItems(items), StartRepeatedObject(AT));
    assert Tends(1, AtItems(items), StartRepeatedObject(AT), InRow(items, None, None, None, None));
  }

  lemma {:induction false} RowFinishes(target: Target, items: seq<Typed>, memo: Memo)
    requires target == Strictly(target.host) && ValidGraph(target.graph)
    ensures MemoStep(target, 1, InRow(items, Some(Plainly(Null)), None, Some(Number(3)), None), memo, EndObject(AT)).state ==
            Ok(AtItems(items + [OuterValue(Plainly(Null), 0, 3)]))
  {
    RowEnds(target, items, Plainly(Null), None, Some(Number(3)), 0, 3);
    hide ValidGraph, Step;
    NothingAsked(InRow(items, Some(Plainly(Null)), None, Some(Number(3)), None), EndObject(AT));
  }

  // ----- the two runs ---------------------------------------------------------------------------------------

  function Document(): seq<Tree> { [FirstRow(), SecondRow()] }

  /** What the document means under the plan, and what the memo makes of it: the last row's `x` becomes its `y`. */
  lemma {:induction false} ListReplayCanBeWrong(host: map<bytes, HostFloat>)
    ensures var target, st, first := Strictly(host), AtItems([]), OuterValue(InnerValue(), 2, 0);
            && ValidGraph(target.graph) && AtArray(target, 1, st, 0, OUTER)
            && Run(target, st, ItemEvents(Document())) == Ok(AtItems([first, OuterValue(Plainly(Null), 3, 0)]))
            && MemoRun(target, 1, st, FRESH, ItemEvents(Document())).state == Ok(AtItems([first, OuterValue(Plainly(Null), 0, 3)]))
            && !Agrees(target, 1, st, FRESH, ItemEvents(Document())) && !ListAnswers(RowTraces(target, 1, st, Document()))
  {
    GraphIsValid();
    hide ValidGraph, Run, MemoRun, Agrees, AtArray, RowTraces, ListAnswers, Document;
    var target := Strictly(host);
    ItemsAreRows(target);
    DocumentRuns(target);
    DocumentMemoRuns(target);
    NotAnswered();
    DocumentTraces(target);
    FreshItems(target, 1, AtItems([]), 0, OUTER, Document());
  }

  lemma {:induction false} ItemsAreRows(target: Target)
    requires target == Strictly(target.host) && ValidGraph(target.graph)
    ensures AtArray(target, 1, AtItems([]), 0, OUTER)
  {
    GraphIsValid();
    hide ValidGraph;
    assert Level(AtItems([]).stack) == 1;
  }

  lemma {:induction false} DocumentRuns(target: Target)
    requires target == Strictly(target.host) && ValidGraph(target.graph)
    ensures Run(target, AtItems([]), ItemEvents(Document())) ==
            Ok(AtItems([OuterValue(InnerValue(), 2, 0), OuterValue(Plainly(Null), 3, 0)]))
  {
    var first := OuterValue(InnerValue(), 2, 0);
    assert [first] + [OuterValue(Plainly(Null), 3, 0)] == [first, OuterValue(Plainly(Null), 3, 0)];
    hide *;
    DocumentEvents();
    FirstRun(target);
    SecondRun(target, [first]);
    RunConcat(target, AtItems([]), FirstEvents(), SecondEvents());
    JoinRuns(target, AtItems([]));
  }

  lemma {:induction false} DocumentMemoRuns(target: Target)
    requires target == Strictly(target.host) && ValidGraph(target.graph)
    ensures MemoRun(target, 1, AtItems([]), FRESH, ItemEvents(Document())).state ==
            Ok(AtItems([OuterValue(InnerValue(), 2, 0), OuterValue(Plainly(Null), 0, 3)]))
  {
    var first, st, one, two := OuterValue(InnerValue(), 2, 0), AtItems([]), FirstEvents(), SecondEvents();
    assert [first] + [OuterValue(Plainly(Null), 0, 3)] == [first, OuterValue(Plainly(Null), 0, 3)];
    assert FirstRow().Obj? && Recorded() == [Query(OUTER, A), Query(INNER, X), Query(OUTER, X)];
    RowEvents();
    ItemsAreRows(target);
    hide ValidGraph, Run, MemoRun, Agrees, AtArray, Document, FirstRow, FirstEvents, SecondEvents, EventsOf, Trace, Sealed, OuterValue, Recorded;
    DocumentEvents();
    FirstRun(target);
    FirstItem(target, 1, st, 0, OUTER, FirstRow());
    var ran := MemoRun(target, 1, st, FRESH, one);
    SecondWithMemo(target, [first], ran.memo);
    MemoConcat(target, 1, st, FRESH, one, two);
  }

  lemma {:induction false} DocumentEvents()
    ensures ItemEvents(Document()) == FirstEvents() + SecondEvents()
  {
    RowEvents();
    hide FirstRow, SecondRow, FirstEvents, SecondEvents, EventsOf;
    var items := Document();
    assert items[1..] == [SecondRow()] && items[1..][1..] == [];
    assert ItemEvents(items[1..]) == SecondEvents() + [];
  }

  lemma {:induction false} NotAnswered()
    ensures !ListAnswers([Recorded(), [Query(OUTER, A), Query(OUTER, X)]])
  {
    Actions();
    hide ActionFor;
    var first, row := Recorded(), [Query(OUTER, A), Query(OUTER, X)];
    assert first[1..][0] == Query(INNER, X) && row[1..][0] == Query(OUTER, X);
    assert !RowAnswers(first[1..], row[1..]);
    assert !RowAnswers(first, row);
    assert [first, row][1..] == [row];
    assert !LaterAnswer(first, [row]);
  }

  lemma {:induction false} DocumentTraces(target: Target)
    requires target == Strictly(target.host) && ValidGraph(target.graph)
    ensures RowTraces(target, 1, AtItems([]), Document()) == [Recorded(), [Query(OUTER, A), Query(OUTER, X)]]
  {
    var items, st := Document(), AtItems([]);
    assert items[0] == FirstRow() && FirstRow().Obj? && items[1..] == [SecondRow()];
    RowEvents();
    hide ValidGraph, EventsOf, Trace, Run, FirstEvents, SecondEvents, FirstRow, SecondRow, OuterValue, Recorded;
    FirstRun(target);
    SecondTraces(target, [OuterValue(InnerValue(), 2, 0)]);
    assert Recorded() == [Query(OUTER, A), Query(INNER, X), Query(OUTER, X)] by { RecordedIs(); }
    assert RowTraces(target, 1, st, items) == [Recorded()] + [[Query(OUTER, A), Query(OUTER, X)]];
  }

  lemma {:induction false} RecordedIs()
    ensures Recorded() == [Query(OUTER, A), Query(INNER, X), Query(OUTER, X)]
  {
  }

  lemma {:induction false} SecondTraces(target: Target, items: seq<Typed>)
    requires target == Strictly(target.host) && ValidGraph(target.graph)
    ensures RowTraces(target, 1, AtItems(items), [SecondRow()]) == [[Query(OUTER, A), Query(OUTER, X)]]
  {
    var after := AtItems(items + [OuterValue(Plainly(Null), 3, 0)]);
    assert SecondRow().Obj? && [SecondRow()][1..] == [];
    RowEvents();
    hide ValidGraph, EventsOf, Trace, Run, SecondEvents, FirstRow, SecondRow, OuterValue, FirstEvents;
    SecondRun(target, items);
    assert RowTraces(target, 1, after, []) == [];
  }
}
