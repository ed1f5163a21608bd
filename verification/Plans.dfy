/** The compiled type plan: an arena of nodes, and the conversion of one scalar (src/plan.rs, src/typed.rs). */
module Plans {
  import opened Bytes
  import opened Faults
  import opened Tokens
  import opened Escapes
  import opened Values
  import ExactIntegers
  import Utf8

  // ----- plans -----------------------------------------------------------------------------

  /** What a typed decode constructs. */
  datatype Typed =
    | Plainly(value: Value)
    | TypedList(items: seq<Typed>)
    | TypedTuple(items: seq<Typed>)
    | TypedDict(pairs: seq<TypedPair>)
    | Instance(class_: nat, arguments: seq<Typed>)

  datatype TypedPair = TypedPair(key: bytes, value: Typed)

  datatype Limits = Limits(
    ge: Option<int>, gt: Option<int>, le: Option<int>, lt: Option<int>, multipleOf: Option<int>,
    minLength: Option<nat>, maxLength: Option<nat>)

  /** A field; one without a fallback is required. */
  datatype FieldPlan = FieldPlan(wire: bytes, value: nat, fallback: Option<Typed>)

  datatype StructPlan = StructPlan(class_: nat, fields: seq<FieldPlan>, forbidUnknown: bool)

  datatype Plan =
    | AnyPlan
    | NonePlan
    | BoolPlan
    | IntPlan
    | FloatPlan
    | StrPlan
    | ListPlan(item: nat)
    | TuplePlan(item: nat)
    | FixedPlan(positions: seq<nat>)
    | DictPlan(key: nat, value: nat)
    | ObjectPlan(object_: StructPlan)
    | UnionPlan(nullable: bool, members: seq<nat>)

  datatype Node = Node(plan: Plan, limits: Limits)

  type Graph = seq<Node>

  /** The targets of a node's edges. */
  function Edges(plan: Plan): seq<nat> {
    match plan
    case ListPlan(item) => [item]
    case TuplePlan(item) => [item]
    case FixedPlan(positions) => positions
    case DictPlan(key, value) => [key, value]
    case ObjectPlan(o) => seq(|o.fields|, i requires 0 <= i < |o.fields| => o.fields[i].value)
    case UnionPlan(_, members) => members
    case _ => []
  }

  predicate InRange(graph: Graph) {
    forall i, k :: 0 <= i < |graph| && 0 <= k < |Edges(graph[i].plan)| ==> Edges(graph[i].plan)[k] < |graph|
  }

  // ----- optional wrappers -------------------------------------------------------------------

  predicate Wraps(plan: Plan) {
    plan.UnionPlan? && |plan.members| == 1
  }

  /** The node behind at most `steps` single-member unions. */
  function Resolve(graph: Graph, id: nat, steps: nat): (r: Option<nat>)
    requires InRange(graph) && id < |graph|
    ensures r.Some? ==> r.value < |graph| && !Wraps(graph[r.value].plan)
    decreases steps
  {
    if !Wraps(graph[id].plan) then Some(id)
    else if steps == 0 then None
    else
      assert Edges(graph[id].plan)[0] == graph[id].plan.members[0];
      Resolve(graph, graph[id].plan.members[0], steps - 1)
  }

  predicate ChainsEnd(graph: Graph)
    requires InRange(graph)
  {
    forall id :: 0 <= id < |graph| ==> Resolve(graph, id, |graph|).Some?
  }

  predicate ValidGraph(graph: Graph) {
    InRange(graph) && ChainsEnd(graph)
  }

  lemma {:induction false} MoreSteps(graph: Graph, id: nat, steps: nat, more: nat)
    requires InRange(graph) && id < |graph| && steps <= more && Resolve(graph, id, steps).Some?
    ensures Resolve(graph, id, more) == Resolve(graph, id, steps)
    decreases steps
  {
    if Wraps(graph[id].plan) {
      assert Edges(graph[id].plan)[0] == graph[id].plan.members[0];
      MoreSteps(graph, graph[id].plan.members[0], steps - 1, more - 1);
    }
  }

  /** Reject a graph in which following single-member unions from some node never ends. */
  method ValidateContainerChains(graph: Graph) returns (ok: bool)
    requires InRange(graph)
    ensures ok <==> ChainsEnd(graph)
  {
    for start := 0 to |graph|
      invariant forall id :: 0 <= id < start ==> Resolve(graph, id, |graph|).Some?
    {
      var id: nat := start;
      var step: nat := 0;
      while Wraps(graph[id].plan)
        invariant id < |graph| && step <= |graph|
        invariant Resolve(graph, start, |graph|) == Resolve(graph, id, |graph| - step)
        decreases |graph| - step
      {
        if step == |graph| { return false; }
        assert Edges(graph[id].plan)[0] == graph[id].plan.members[0];
        id := graph[id].plan.members[0];
        step := step + 1;
      }
    }
    return true;
  }

  function Resolved(graph: Graph, id: nat): (r: nat)
    requires ValidGraph(graph) && id < |graph|
    ensures r < |graph| && !Wraps(graph[r].plan)
  {
    Resolve(graph, id, |graph|).value
  }

  /** Unwrap single-member unions; in a valid graph the loop never runs out. */
  method ResolveContainer(graph: Graph, start: nat) returns (id: nat)
    requires ValidGraph(graph) && start < |graph|
    ensures id == Resolved(graph, start)
  {
    id := start;
    for step := 0 to |graph| + 1
      invariant id < |graph|
      invariant step <= |graph| ==> Resolve(graph, start, |graph|) == Resolve(graph, id, |graph| - step)
      invariant step == |graph| + 1 ==> Resolve(graph, start, |graph|).None?
    {
      if !Wraps(graph[id].plan) { return id; }
      assert Edges(graph[id].plan)[0] == graph[id].plan.members[0];
      id := graph[id].plan.members[0];
    }
    assert false;
  }

  // ----- keys --------------------------------------------------------------------------------

  datatype FieldAction = TakeField(index: nat) | SkipKey | RejectKey

  /** The field a wire name selects: of fields with one name the last counts. */
  function IndexOfWire(fields: seq<FieldPlan>, wire: bytes): (r: Option<nat>)
    ensures r.Some? ==> r.value < |fields| && fields[r.value].wire == wire
  {
    if fields == [] then None
    else if fields[|fields| - 1].wire == wire then Some(|fields| - 1)
    else IndexOfWire(fields[..|fields| - 1], wire)
  }

  function ActionFor(plan: StructPlan, wire: bytes): (r: FieldAction)
    ensures r.TakeField? ==> r.index < |plan.fields|
  {
    match IndexOfWire(plan.fields, wire)
    case Some(index) => TakeField(index)
    case None => if plan.forbidUnknown then RejectKey else SkipKey
  }

  /** A key selects the last field of its name; without one it is refused exactly when unknown fields are
      forbidden. */
  lemma {:induction false} ActionSelects(plan: StructPlan, wire: bytes)
    ensures match ActionFor(plan, wire)
            case TakeField(index) =>
              plan.fields[index].wire == wire && forall j :: index < j < |plan.fields| ==> plan.fields[j].wire != wire
            case RejectKey => plan.forbidUnknown && forall j :: 0 <= j < |plan.fields| ==> plan.fields[j].wire != wire
            case SkipKey => !plan.forbidUnknown && forall j :: 0 <= j < |plan.fields| ==> plan.fields[j].wire != wire
  {
    LastOfWire(plan.fields, wire);
  }

  lemma {:induction false} LastOfWire(fields: seq<FieldPlan>, wire: bytes)
    ensures match IndexOfWire(fields, wire)
            case Some(index) => forall j :: index < j < |fields| ==> fields[j].wire != wire
            case None => forall j :: 0 <= j < |fields| ==> fields[j].wire != wire
    decreases |fields|
  {
    if fields != [] && fields[|fields| - 1].wire != wire { LastOfWire(fields[..|fields| - 1], wire); }
  }

  // ----- scalars -------------------------------------------------------------------------------

  /** A float the host's parser accepts: its spelling, and its integer if it is whole and at most 2^53. */
  datatype HostFloat = HostFloat(text: bytes, whole: Option<int>)

  /** What a decode needs besides the document. */
  datatype Target = Target(graph: Graph, root: nat, strict: bool, host: map<bytes, HostFloat>)

  predicate ValidTarget(target: Target) {
    ValidGraph(target.graph) && target.root < |target.graph|
  }

  function TypeMismatchAt<T>(at: Position): Result<T> {
    Err(ValidationAt(TypeMismatch, at))
  }

  predicate AtLeast(bound: Option<int>, n: int) { bound.Some? ==> bound.value <= n }

  predicate LengthValid(limits: Limits, length: nat) {
    && (limits.minLength.Some? ==> length >= limits.minLength.value)
    && (limits.maxLength.Some? ==> length <= limits.maxLength.value)
  }

  predicate IntegerValid(limits: Limits, n: int) {
    && AtLeast(limits.ge, n)
    && (limits.gt.Some? ==> n > limits.gt.value)
    && (limits.le.Some? ==> n <= limits.le.value)
    && (limits.lt.Some? ==> n < limits.lt.value)
    && (limits.multipleOf.Some? && limits.multipleOf.value != 0 ==> n % limits.multipleOf.value == 0)
  }

  /** Python counts code points: bytes that do not continue a sequence. */
  function CodePoints(text: bytes): nat {
    if text == [] then 0 else (if Utf8.Continuation(text[0]) then 0 else 1) + CodePoints(text[1..])
  }

  predicate ScalarValid(limits: Limits, value: Value) {
    match value
    case Int(n) => IntegerValid(limits, n)
    case Str(text) => LengthValid(limits, CodePoints(text))
    case _ => true
  }

  function Checked(limits: Limits, value: Value, at: Position): Result<Typed> {
    if ScalarValid(limits, value) then Ok(Plainly(value)) else Err(ValidationAt(Constraint, at))
  }

  function TokenText(token: ScalarToken): Option<bytes> {
    match token
    case BareString(text) => Some(text)
    case QuotedString(inner, escaped) => Some(Unescaped(inner, escaped))
    case _ => None
  }

  const TRUE_WORDS: seq<bytes> := [TRUE_TEXT, [84, 114, 117, 101], [84, 82, 85, 69], [ONE]]
  const FALSE_WORDS: seq<bytes> := [FALSE_TEXT, [70, 97, 108, 115, 101], [70, 65, 76, 83, 69], [ZERO], [MINUS, ZERO]]

  function ConvertBool(token: ScalarToken, strict: bool, at: Position): Result<Typed> {
    match token
    case BoolToken(flag) => Ok(Plainly(Bool(flag)))
    case IntegerToken(text) =>
      if !strict && text == [ZERO] then Ok(Plainly(Bool(false)))
      else if !strict && text == [ONE] then Ok(Plainly(Bool(true)))
      else TypeMismatchAt(at)
    case _ =>
      if strict || TokenText(token).None? then TypeMismatchAt(at)
      else if TokenText(token).value in TRUE_WORDS then Ok(Plainly(Bool(true)))
      else if TokenText(token).value in FALSE_WORDS then Ok(Plainly(Bool(false)))
      else TypeMismatchAt(at)
  }

  predicate HasFloatByte(text: bytes) {
    exists i :: 0 <= i < |text| && (text[i] == DOT || text[i] == LOWER_E || text[i] == UPPER_E)
  }

  /** The integer a string spells: exactly, or through the host's floats when it looks like one. */
  function LenientInteger(text: bytes, host: map<bytes, HostFloat>): Option<int> {
    if HasFloatByte(text) then (if text in host then host[text].whole else None)
    else
      var digits :- ExactIntegers.ExactText(text);
      Some(IntegerOf(digits))
  }

  function ConvertInt(token: ScalarToken, target: Target, limits: Limits, at: Position): Result<Typed> {
    match token
    case IntegerToken(text) => Checked(limits, Int(IntegerOf(text)), at)
    case _ =>
      if target.strict || TokenText(token).None? then TypeMismatchAt(at)
      else match LenientInteger(TokenText(token).value, target.host)
        case None => TypeMismatchAt(at)
        case Some(n) => Checked(limits, Int(n), at)
  }

  function ConvertFloat(token: ScalarToken, target: Target, limits: Limits, at: Position): Result<Typed> {
    match token
    case IntegerToken(text) => Checked(limits, Float(text), at)
    case FloatToken(text) => Checked(limits, Float(text), at)
    case _ =>
      if target.strict || TokenText(token).None? || TokenText(token).value !in target.host then TypeMismatchAt(at)
      else Checked(limits, Float(target.host[TokenText(token).value].text), at)
  }

  function ConvertStr(token: ScalarToken, limits: Limits, at: Position): Result<Typed> {
    match TokenText(token)
    case Some(text) => Checked(limits, Str(text), at)
    case None => TypeMismatchAt(at)
  }

  /** Convert by a node that is no wrapper. */
  function ConvertPlain(token: ScalarToken, target: Target, node: Node, at: Position): Result<Typed> {
    match node.plan
    case AnyPlan => Ok(Plainly(TokenValue(token)))
    case NonePlan => if token.NullToken? then Ok(Plainly(Null)) else TypeMismatchAt(at)
    case BoolPlan => ConvertBool(token, target.strict, at)
    case IntPlan => ConvertInt(token, target, node.limits, at)
    case FloatPlan => ConvertFloat(token, target, node.limits, at)
    case StrPlan => ConvertStr(token, node.limits, at)
    case _ => TypeMismatchAt(at)
  }

  /** A token of exactly the plan's category. */
  predicate ExactMatch(plan: Plan, token: ScalarToken) {
    match plan
    case NonePlan => token.NullToken?
    case BoolPlan => token.BoolToken?
    case IntPlan => token.IntegerToken?
    case FloatPlan => token.FloatToken?
    case StrPlan => token.BareString? || token.QuotedString?
    case _ => false
  }

  /** The order in which a union falls back on its other members. */
  function FallbackRank(plan: Plan): (r: nat)
    ensures r <= 4
  {
    match plan
    case IntPlan => 0
    case FloatPlan => 1
    case BoolPlan => 2
    case StrPlan => 3
    case _ => 4
  }

  /** Which members a pass over a union tries: those that match exactly, or those of one fallback rank. */
  datatype Pass = Exactly | Ranked(rank: nat)

  predicate InPass(pass: Pass, plan: Plan, token: ScalarToken) {
    match pass
    case Exactly => ExactMatch(plan, token)
    case Ranked(rank) => !ExactMatch(plan, token) && FallbackRank(plan) == rank
  }

  /** Convert one scalar. A union takes null for itself; anything else goes to the members, first to those of
      exactly its category, then by rank, and the first that does not refuse the type decides. */
  function ConvertScalar(target: Target, id: nat, token: ScalarToken, at: Position, steps: nat): Result<Typed>
    requires InRange(target.graph) && id < |target.graph|
    decreases steps, 7, 0
  {
    var node := target.graph[id];
    if !node.plan.UnionPlan? then ConvertPlain(token, target, node, at)
    else if token.NullToken? then (if node.plan.nullable then Ok(Plainly(Null)) else TypeMismatchAt(at))
    else if steps == 0 then TypeMismatchAt(at)
    else
      assert forall k :: 0 <= k < |node.plan.members| ==> Edges(node.plan)[k] == node.plan.members[k];
      match TryPass(target, node.plan.members, Exactly, token, at, steps - 1)
      case Some(r) => r
      case None =>
        (match TryRanks(target, node.plan.members, 0, token, at, steps - 1)
         case Some(r) => r
         case None => TypeMismatchAt(at))
  }

  predicate Members(graph: Graph, members: seq<nat>) {
    forall k :: 0 <= k < |members| ==> members[k] < |graph|
  }

  predicate Refuses(r: Result<Typed>) {
    r.Err? && r.fault.code == TypeMismatch
  }

  /** The first member of the pass that does not refuse the type. */
  function TryPass(target: Target, members: seq<nat>, pass: Pass, token: ScalarToken, at: Position, steps: nat): Option<Result<Typed>>
    requires InRange(target.graph) && Members(target.graph, members)
    decreases steps, 8, |members|
  {
    if members == [] then None
    else
      var first := members[0];
      var r := ConvertScalar(target, first, token, at, steps);
      if InPass(pass, target.graph[first].plan, token) && !Refuses(r) then Some(r)
      else TryPass(target, members[1..], pass, token, at, steps)
  }

  function TryRanks(target: Target, members: seq<nat>, rank: nat, token: ScalarToken, at: Position, steps: nat): Option<Result<Typed>>
    requires InRange(target.graph) && Members(target.graph, members) && rank <= 5
    decreases steps, 9, 5 - rank
  {
    if rank == 5 then None
    else match TryPass(target, members, Ranked(rank), token, at, steps)
      case Some(r) => Some(r)
      case None => TryRanks(target, members, rank + 1, token, at, steps)
  }

  lemma {:induction false} PlainRefusal(token: ScalarToken, target: Target, node: Node, at: Position)
    ensures Refuses(ConvertPlain(token, target, node, at)) ==> ConvertPlain(token, target, node, at) == TypeMismatchAt(at)
  {
    hide IntegerOf, TokenText, LenientInteger, ScalarValid;
  }

  lemma {:induction false} OneMemberPass(target: Target, member: nat, pass: Pass, token: ScalarToken, at: Position, steps: nat)
    requires InRange(target.graph) && member < |target.graph|
    ensures TryPass(target, [member], pass, token, at, steps) ==
            var r := ConvertScalar(target, member, token, at, steps);
            if InPass(pass, target.graph[member].plan, token) && !Refuses(r) then Some(r) else None
  {
    hide ConvertScalar, InPass;
    assert [member][1..] == [];
  }

  lemma {:induction false} OneMemberRanks(target: Target, member: nat, rank: nat, token: ScalarToken, at: Position, steps: nat)
    requires InRange(target.graph) && member < |target.graph| && rank <= 5
    ensures TryRanks(target, [member], rank, token, at, steps) ==
            var r := ConvertScalar(target, member, token, at, steps);
            var plan := target.graph[member].plan;
            if rank <= FallbackRank(plan) && !ExactMatch(plan, token) && !Refuses(r) then Some(r) else None
    decreases 5 - rank
  {
    hide ConvertScalar, ExactMatch, FallbackRank;
    if rank < 5 {
      OneMemberPass(target, member, Ranked(rank), token, at, steps);
      OneMemberRanks(target, member, rank + 1, token, at, steps);
    }
  }

  /** A scalar other than null is converted by the node behind the wrappers. */
  lemma {:induction false} ScalarBehindWrappers(target: Target, id: nat, token: ScalarToken, at: Position, steps: nat)
    requires InRange(target.graph) && id < |target.graph| && !token.NullToken? && Resolve(target.graph, id, steps).Some?
    requires !target.graph[Resolve(target.graph, id, steps).value].plan.UnionPlan?
    ensures ConvertScalar(target, id, token, at, steps) ==
            ConvertPlain(token, target, target.graph[Resolve(target.graph, id, steps).value], at)
    decreases steps
  {
    hide ConvertPlain, ExactMatch, FallbackRank;
    var node := target.graph[id];
    if Wraps(node.plan) {
      var member := node.plan.members[0];
      assert Edges(node.plan)[0] == member;
      ScalarBehindWrappers(target, member, token, at, steps - 1);
      assert node.plan.members == [member];
      OneMemberPass(target, member, Exactly, token, at, steps - 1);
      OneMemberRanks(target, member, 0, token, at, steps - 1);
      PlainRefusal(token, target, target.graph[Resolve(target.graph, member, steps - 1).value], at);
    }
  }

  /** In a union the first member of exactly the token's category decides, wherever it stands, unless it
      refuses the value itself. */
  lemma {:induction false} ExactMemberDecides(target: Target, id: nat, k: nat, token: ScalarToken, at: Position, steps: nat)
    requires InRange(target.graph) && id < |target.graph| && steps > 0 && !token.NullToken?
    requires target.graph[id].plan.UnionPlan? && k < |target.graph[id].plan.members|
    requires var members := target.graph[id].plan.members;
             && Members(target.graph, members) && ExactMatch(target.graph[members[k]].plan, token)
             && !Refuses(ConvertScalar(target, members[k], token, at, steps - 1))
             && forall j :: 0 <= j < k ==> !ExactMatch(target.graph[members[j]].plan, token)
    ensures ConvertScalar(target, id, token, at, steps) ==
            ConvertPlain(token, target, target.graph[target.graph[id].plan.members[k]], at)
  {
    FirstExact(target, target.graph[id].plan.members, k, token, at, steps - 1);
    hide ConvertPlain, TryPass, TryRanks;
  }

  lemma {:induction false} FirstExact(target: Target, members: seq<nat>, k: nat, token: ScalarToken, at: Position, steps: nat)
    requires InRange(target.graph) && Members(target.graph, members) && k < |members|
    requires ExactMatch(target.graph[members[k]].plan, token) && !Refuses(ConvertScalar(target, members[k], token, at, steps))
    requires forall j :: 0 <= j < k ==> !ExactMatch(target.graph[members[j]].plan, token)
    ensures TryPass(target, members, Exactly, token, at, steps) == Some(ConvertScalar(target, members[k], token, at, steps))
    decreases |members|
  {
    hide ConvertScalar, ExactMatch;
    if k > 0 {
      assert members[1..][k - 1] == members[k];
      assert forall j :: 0 <= j < k - 1 ==> members[1..][j] == members[j + 1];
      FirstExact(target, members[1..], k - 1, token, at, steps);
    }
  }
}
