/** What converting a scalar under a plan gives, in terms of the token and literal bounds (src/typed.rs). */
module ScalarLaws {
  import opened Bytes
  import opened Faults
  import opened Tokens
  import opened Escapes
  import opened Values
  import opened Plans
  import opened Unicode
  import ExactIntegers
  import Scalar
  import Header
  import Utf8

  // ----- bounds -----------------------------------------------------------------------------------

  /** Each bound as an inequality: integers lie between the bounds and are multiples of the divisor, strings have
      as many code points as the lengths allow. */
  ghost predicate Bounded(limits: Limits, value: Value) {
    match value
    case Int(n) =>
      && (limits.ge.Some? ==> limits.ge.value <= n) && (limits.gt.Some? ==> limits.gt.value < n)
      && (limits.le.Some? ==> n <= limits.le.value) && (limits.lt.Some? ==> n < limits.lt.value)
      && (limits.multipleOf.Some? && limits.multipleOf.value != 0 ==> exists q: int :: n == q * limits.multipleOf.value)
    case Str(text) =>
      Utf8.ValidUtf8(text) ==>
        && (limits.minLength.Some? ==> limits.minLength.value <= |Points(text)|)
        && (limits.maxLength.Some? ==> |Points(text)| <= limits.maxLength.value)
    case _ => true
  }

  lemma {:induction false} Multiples(n: int, m: int)
    requires m != 0
    ensures n % m == 0 <==> exists q: int :: n == q * m
  {
    if n % m == 0 {
      assert n == (n / m) * m;
    }
    if exists q: int :: n == q * m {
      var q: int :| n == q * m;
      MultipleHasNoRest(q, m);
    }
  }

  lemma {:induction false} MultipleHasNoRest(q: int, m: int)
    requires m != 0
    ensures (q * m) % m == 0
  {
    var n := q * m;
    var (d, r) := (n / m, n % m);
    assert n == d * m + r && 0 <= r < (if m > 0 then m else -m);
    assert (q - d) * m == r;
    if q - d > 0 { Grows(q - d, m); } else if q - d < 0 { Grows(d - q, m); }
  }

  lemma {:induction false} Grows(k: int, m: int)
    requires k > 0 && m != 0
    ensures k * m >= m > 0 || k * m <= m < 0
  {
  }

  /** The length of a string is the number of its code points. */
  lemma {:induction false} LengthIsPoints(text: bytes)
    requires Utf8.ValidUtf8(text)
    ensures CodePoints(text) == |Points(text)|
  {
    if text != [] {
      var n := Utf8.SequenceLength(text);
      LengthIsPoints(text[n..]);
      OneCodePoint(text, n);
    }
  }

  lemma {:induction false} OneCodePoint(text: bytes, n: nat)
    requires text != [] && n == Utf8.SequenceLength(text) > 0
    ensures CodePoints(text) == 1 + CodePoints(text[n..])
  {
    assert n <= 4 && !Utf8.Continuation(text[0]) && forall i :: 1 <= i < n ==> Utf8.Continuation(text[i]);
    hide Utf8.SequenceLength;
    SkipContinuations(text[1..], n - 1);
    assert text[1..][n - 1..] == text[n..];
  }

  lemma {:induction false} SkipContinuations(s: bytes, n: nat)
    requires n <= |s| && forall i :: 0 <= i < n ==> Utf8.Continuation(s[i])
    ensures CodePoints(s) == CodePoints(s[n..])
  {
    if n > 0 {
      assert forall i :: 0 <= i < n - 1 ==> s[1..][i] == s[i + 1];
      SkipContinuations(s[1..], n - 1);
      assert s[1..][n - 1..] == s[n..];
    } else {
      assert s[0..] == s;
    }
  }

  lemma {:induction false} BoundsAreMet(limits: Limits, value: Value)
    requires value.Str? ==> Utf8.ValidUtf8(value.text)
    ensures ScalarValid(limits, value) <==> Bounded(limits, value)
  {
    match value
    case Int(n) => if limits.multipleOf.Some? && limits.multipleOf.value != 0 { Multiples(n, limits.multipleOf.value); }
    case Str(text) => LengthIsPoints(text);
    case _ =>
  }

  // ----- the exact category ---------------------------------------------------------------------------

  /** A value within the bounds of the node, or the fault that says it is not. */
  ghost predicate GivesBounded(r: Result<Typed>, limits: Limits, value: Value, at: Position) {
    r == if Bounded(limits, value) then Ok(Plainly(value)) else Err(Fault(Constraint, at.line, Some(at.column), true))
  }

  predicate Mismatches(r: Result<Typed>, at: Position) {
    r == Err(Fault(TypeMismatch, at.line, Some(at.column), true))
  }

  predicate TextToken(token: ScalarToken) {
    token.BareString? || token.QuotedString?
  }

  /** The token is of the very category the plan names. */
  predicate SameCategory(plan: Plan, token: ScalarToken) {
    || (plan.NonePlan? && token.NullToken?) || (plan.BoolPlan? && token.BoolToken?)
    || (plan.IntPlan? && token.IntegerToken?) || (plan.FloatPlan? && token.FloatToken?)
    || (plan.StrPlan? && TextToken(token))
  }

  lemma {:induction false} CategoriesAgree(plan: Plan, token: ScalarToken)
    ensures ExactMatch(plan, token) <==> SameCategory(plan, token)
  {
  }

  /** A token of the plan's own category becomes the value untyped decoding gives it, if that is within the
      node's bounds; null and truth values have none. */
  lemma {:induction false} ExactCategory(target: Target, node: Node, token: ScalarToken, at: Position)
    requires SameCategory(node.plan, token) && (TokenValue(token).Str? ==> Utf8.ValidUtf8(TokenValue(token).text))
    ensures GivesBounded(ConvertPlain(token, target, node, at), node.limits, TokenValue(token), at)
    ensures !token.IntegerToken? && !TextToken(token) ==> ConvertPlain(token, target, node, at) == Ok(Plainly(TokenValue(token)))
  {
    hide IntegerOf, Unescaped, ScalarValid, Bounded;
    BoundsAreMet(node.limits, TokenValue(token));
    BoundsOfOthers(node.limits, TokenValue(token));
  }

  lemma {:induction false} BoundsOfOthers(limits: Limits, value: Value)
    ensures !value.Int? && !value.Str? ==> Bounded(limits, value) && ScalarValid(limits, value)
  {
  }

  /** The plan that takes anything takes every scalar as untyped decoding does. */
  lemma {:induction false} AnythingIsUntyped(target: Target, node: Node, token: ScalarToken, at: Position)
    requires node.plan.AnyPlan?
    ensures ConvertPlain(token, target, node, at) == Ok(Plainly(TokenValue(token)))
  {
  }

  // ----- other categories --------------------------------------------------------------------------------

  /** The plans that take scalars only. */
  predicate ScalarPlan(plan: Plan) {
    plan.NonePlan? || plan.BoolPlan? || plan.IntPlan? || plan.FloatPlan? || plan.StrPlan?
  }

  /** In strict mode the only other scalar a plan takes is an integer where a float is expected. */
  lemma {:induction false} StrictTakesNoOther(target: Target, node: Node, token: ScalarToken, at: Position)
    requires target.strict && ScalarPlan(node.plan) && !SameCategory(node.plan, token)
    ensures if node.plan.FloatPlan? && token.IntegerToken?
            then ConvertPlain(token, target, node, at) == Ok(Plainly(Float(token.text)))
            else Mismatches(ConvertPlain(token, target, node, at), at)
  {
    hide Unescaped, LenientInteger;
  }

  /** A container takes no scalar. */
  lemma {:induction false} ContainersTakeNoScalar(target: Target, node: Node, token: ScalarToken, at: Position)
    requires node.plan.ListPlan? || node.plan.TuplePlan? || node.plan.FixedPlan? || node.plan.DictPlan? || node.plan.ObjectPlan?
    ensures Mismatches(ConvertPlain(token, target, node, at), at)
  {
  }

  /** The string a bare or quoted token stands for. */
  function Word(token: ScalarToken): bytes
    requires TextToken(token)
  {
    TokenValue(token).text
  }

  /** In lenient mode a truth value is also spelled `true`, `True`, `TRUE` or `1`, and `false`, `False`, `FALSE`, `0`
      or `-0` as a string, and `1` or `0` as an integer; nothing else is one. */
  lemma {:induction false} LenientTruth(target: Target, limits: Limits, token: ScalarToken, at: Position)
    requires !target.strict && !token.BoolToken?
    ensures var r := ConvertPlain(token, target, Node(BoolPlan, limits), at);
            if TextToken(token) && Word(token) in {[116, 114, 117, 101], [84, 114, 117, 101], [84, 82, 85, 69], [49]}
            then r == Ok(Plainly(Bool(true)))
            else if TextToken(token) && Word(token) in {[102, 97, 108, 115, 101], [70, 97, 108, 115, 101], [70, 65, 76, 83, 69], [48], [45, 48]}
            then r == Ok(Plainly(Bool(false)))
            else if token.IntegerToken? && token.text == [49] then r == Ok(Plainly(Bool(true)))
            else if token.IntegerToken? && token.text == [48] then r == Ok(Plainly(Bool(false)))
            else Mismatches(r, at)
  {
    hide Unescaped;
  }

  /** Only strings are read as integers, and only in lenient mode: through the host's floats when they hold a dot
      or an exponent mark, else as the integer they stand for. */
  lemma {:induction false} LenientIntegers(target: Target, limits: Limits, token: ScalarToken, at: Position)
    requires !target.strict && !token.IntegerToken?
    ensures var r := ConvertPlain(token, target, Node(IntPlan, limits), at);
            if !TextToken(token) then Mismatches(r, at)
            else
              var text := Word(token);
              if 46 in text || 101 in text || 69 in text
              then if text in target.host && target.host[text].whole.Some?
                   then GivesBounded(r, limits, Int(target.host[text].whole.value), at)
                   else Mismatches(r, at)
              else match ExactIntegers.ExactText(text)
                case None => Mismatches(r, at)
                case Some(digits) => GivesBounded(r, limits, Int(IntegerOf(digits)), at)
  {
    hide Unescaped, ExactIntegers.ExactText, IntegerOf, ScalarValid, Bounded;
    if TextToken(token) {
      MarksAre(Word(token));
      match LenientInteger(Word(token), target.host)
      case None =>
      case Some(n) => BoundsAreMet(limits, Int(n));
    }
  }

  lemma {:induction false} MarksAre(text: bytes)
    ensures HasFloatByte(text) <==> 46 in text || 101 in text || 69 in text
  {
  }

  /** A string without dot and mark that spells an integer stands for it. */
  lemma {:induction false} WholeStrings(target: Target, limits: Limits, token: ScalarToken, at: Position)
    requires !target.strict && TextToken(token) && Scalar.IsIntegerLiteral(Word(token))
    ensures GivesBounded(ConvertPlain(token, target, Node(IntPlan, limits), at), limits, Int(IntegerOf(Word(token))), at)
  {
    var text := Word(token);
    LiteralIsExact(text);
    assert !(46 in text || 101 in text || 69 in text) by { LiteralBytes(text); }
    hide Unescaped, ExactIntegers.ExactText, IntegerOf, Bounded;
    LenientIntegers(target, limits, token, at);
  }

  lemma {:induction false} LiteralBytes(text: bytes)
    requires Scalar.IsIntegerLiteral(text)
    ensures forall i :: 0 <= i < |text| ==> text[i] == 45 || IsDigit(text[i])
  {
    assert forall i :: 0 < i < |text| ==> text[i] == text[1..][i - 1];
  }

  lemma {:induction false} LiteralIsExact(text: bytes)
    requires Scalar.IsIntegerLiteral(text)
    ensures ExactIntegers.ExactText(text).Some? && IntegerOf(ExactIntegers.ExactText(text).value) == IntegerOf(text)
  {
    var body := Scalar.WithoutMinus(text);
    LiteralParts(body);
    assert ExactIntegers.IsNumberBody(body);
    assert body + ExactIntegers.Zeros(0) == body;
    assert ExactIntegers.Moved(body, |body|) == Some(body);
    assert ExactIntegers.Stripped(body) == body;
    assert ExactIntegers.ExactText(text) == Some(ExactIntegers.Signed(body, text[0] == MINUS));
    if text[0] == MINUS {
      assert [MINUS] + body == text;
      if ExactIntegers.AllZeros(body) { assert body == [ZERO]; assert Header.DecimalValue([ZERO]) == 0; }
    } else {
      assert body == text;
    }
  }

  lemma {:induction false} LiteralParts(body: bytes)
    requires Scalar.IsIntegerBody(body)
    ensures ExactIntegers.PartsOf(body) == ExactIntegers.Parts(body, [], [])
    ensures ExactIntegers.DigitsOf(ExactIntegers.PartsOf(body)) == body && ExactIntegers.PointOf(ExactIntegers.PartsOf(body)) == |body|
    ensures ExactIntegers.ExponentSize([]) == 0
  {
    assert Scalar.ExponentMark(body).None?;
    assert IndexOf(body, DOT).None?;
    assert body + [] == body;
    assert Header.DecimalValue([]) == 0;
  }

  /** An integer where a float is expected is that number as a float; strings go through the host's float parser. */
  lemma {:induction false} Floats(target: Target, limits: Limits, token: ScalarToken, at: Position)
    ensures var r := ConvertPlain(token, target, Node(FloatPlan, limits), at);
            if token.IntegerToken? || token.FloatToken? then r == Ok(Plainly(Float(token.text)))
            else if !target.strict && TextToken(token) && Word(token) in target.host
            then r == Ok(Plainly(Float(target.host[Word(token)].text)))
            else Mismatches(r, at)
  {
    hide Unescaped;
  }

  /** Nothing but a string becomes a string, and only null becomes null, in either mode. */
  lemma {:induction false} StringsAndNull(target: Target, limits: Limits, token: ScalarToken, at: Position)
    ensures !TextToken(token) ==> Mismatches(ConvertPlain(token, target, Node(StrPlan, limits), at), at)
    ensures !token.NullToken? ==> Mismatches(ConvertPlain(token, target, Node(NonePlan, limits), at), at)
  {
    hide Unescaped;
  }

  // ----- unions ------------------------------------------------------------------------------------------

  /** The order in which a union asks its members: those of the token's own category, then integers, floats,
      truth values, strings, and whatever else. */
  function Priority(plan: Plan, token: ScalarToken): nat {
    if SameCategory(plan, token) then 0
    else if plan.IntPlan? then 1
    else if plan.FloatPlan? then 2
    else if plan.BoolPlan? then 3
    else if plan.StrPlan? then 4
    else 5
  }

  /** Member `j` is asked before member `k`. */
  predicate Before(graph: Graph, members: seq<nat>, token: ScalarToken, j: nat, k: nat)
    requires Members(graph, members) && j < |members| && k < |members|
  {
    var (p, q) := (Priority(graph[members[j]].plan, token), Priority(graph[members[k]].plan, token));
    p < q || (p == q && j < k)
  }

  function Answer(target: Target, members: seq<nat>, k: nat, token: ScalarToken, at: Position, steps: nat): Result<Typed>
    requires InRange(target.graph) && Members(target.graph, members) && k < |members|
  {
    ConvertScalar(target, members[k], token, at, steps)
  }

  /** The member is asked in the pass. */
  predicate Asked(target: Target, members: seq<nat>, pass: Pass, token: ScalarToken, k: nat)
    requires Members(target.graph, members) && k < |members|
  {
    InPass(pass, target.graph[members[k]].plan, token)
  }

  predicate TypeRefused(r: Result<Typed>) {
    r.Err? && r.fault.code == TypeMismatch
  }

  lemma {:induction false} PassFindsFirst(target: Target, members: seq<nat>, pass: Pass, token: ScalarToken, at: Position, steps: nat, k: nat)
    requires InRange(target.graph) && Members(target.graph, members) && k < |members|
    requires Asked(target, members, pass, token, k) && !TypeRefused(Answer(target, members, k, token, at, steps))
    requires forall j :: 0 <= j < k && Asked(target, members, pass, token, j) ==> TypeRefused(Answer(target, members, j, token, at, steps))
    ensures TryPass(target, members, pass, token, at, steps) == Some(Answer(target, members, k, token, at, steps))
    decreases |members|
  {
    hide ConvertScalar, InPass;
    if k > 0 {
      var rest := members[1..];
      assert Asked(target, members, pass, token, 0) ==> TypeRefused(Answer(target, members, 0, token, at, steps));
      forall j | 0 <= j < |rest| ensures Asked(target, rest, pass, token, j) == Asked(target, members, pass, token, j + 1)
                                   && Answer(target, rest, j, token, at, steps) == Answer(target, members, j + 1, token, at, steps) {
        assert rest[j] == members[j + 1];
      }
      PassFindsFirst(target, rest, pass, token, at, steps, k - 1);
    }
  }

  lemma {:induction false} PassFindsNone(target: Target, members: seq<nat>, pass: Pass, token: ScalarToken, at: Position, steps: nat)
    requires InRange(target.graph) && Members(target.graph, members)
    requires forall j :: 0 <= j < |members| && Asked(target, members, pass, token, j) ==> TypeRefused(Answer(target, members, j, token, at, steps))
    ensures TryPass(target, members, pass, token, at, steps) == None
    decreases |members|
  {
    hide ConvertScalar, InPass;
    if members != [] {
      var rest := members[1..];
      assert Asked(target, members, pass, token, 0) ==> TypeRefused(Answer(target, members, 0, token, at, steps));
      forall j | 0 <= j < |rest| ensures Asked(target, rest, pass, token, j) == Asked(target, members, pass, token, j + 1)
                                   && Answer(target, rest, j, token, at, steps) == Answer(target, members, j + 1, token, at, steps) {
        assert rest[j] == members[j + 1];
      }
      PassFindsNone(target, rest, pass, token, at, steps);
    }
  }

  /** The pass a priority belongs to. */
  function PassOf(priority: nat): Pass {
    if priority == 0 then Exactly else Ranked(priority - 1)
  }

  lemma {:induction false} AskedByPriority(target: Target, members: seq<nat>, token: ScalarToken, priority: nat)
    requires Members(target.graph, members) && priority <= 5
    ensures forall k :: 0 <= k < |members| ==>
              (Asked(target, members, PassOf(priority), token, k) <==> Priority(target.graph[members[k]].plan, token) == priority)
  {
  }

  lemma {:induction false} RanksFind(target: Target, members: seq<nat>, token: ScalarToken, at: Position, steps: nat, rank: nat, k: nat)
    requires InRange(target.graph) && Members(target.graph, members) && k < |members|
    requires rank < 5 && rank + 1 <= Priority(target.graph[members[k]].plan, token) <= 5
    requires !TypeRefused(Answer(target, members, k, token, at, steps))
    requires forall j :: 0 <= j < |members| && Before(target.graph, members, token, j, k) ==> TypeRefused(Answer(target, members, j, token, at, steps))
    ensures TryRanks(target, members, rank, token, at, steps) == Some(Answer(target, members, k, token, at, steps))
    decreases 5 - rank
  {
    AskedByPriority(target, members, token, rank + 1);
    hide ConvertScalar, InPass, Priority;
    if Priority(target.graph[members[k]].plan, token) == rank + 1 {
      PassFindsFirst(target, members, Ranked(rank), token, at, steps, k);
    } else {
      PassFindsNone(target, members, Ranked(rank), token, at, steps);
      RanksFind(target, members, token, at, steps, rank + 1, k);
    }
  }

  lemma {:induction false} RanksFindNone(target: Target, members: seq<nat>, token: ScalarToken, at: Position, steps: nat, rank: nat)
    requires InRange(target.graph) && Members(target.graph, members) && rank <= 5
    requires forall j :: 0 <= j < |members| ==> TypeRefused(Answer(target, members, j, token, at, steps))
    ensures TryRanks(target, members, rank, token, at, steps) == None
    decreases 5 - rank
  {
    hide ConvertScalar, InPass;
    if rank < 5 {
      PassFindsNone(target, members, Ranked(rank), token, at, steps);
      RanksFindNone(target, members, token, at, steps, rank + 1);
    }
  }

  /** Null is a union's own affair. */
  lemma {:induction false} NullInUnion(target: Target, id: nat, at: Position, steps: nat)
    requires InRange(target.graph) && id < |target.graph| && target.graph[id].plan.UnionPlan?
    ensures if target.graph[id].plan.nullable then ConvertScalar(target, id, NullToken, at, steps) == Ok(Plainly(Null))
            else Mismatches(ConvertScalar(target, id, NullToken, at, steps), at)
  {
  }

  /** The first member in that order which does not refuse the type decides, whatever it answers, wherever it
      stands in the union. */
  lemma {:induction false} UnionDecides(target: Target, id: nat, k: nat, token: ScalarToken, at: Position, steps: nat)
    requires InRange(target.graph) && id < |target.graph| && steps > 0 && !token.NullToken?
    requires var plan := target.graph[id].plan;
             && plan.UnionPlan? && Members(target.graph, plan.members) && k < |plan.members|
             && !TypeRefused(ConvertScalar(target, plan.members[k], token, at, steps - 1))
             && forall j :: 0 <= j < |plan.members| && Before(target.graph, plan.members, token, j, k) ==>
                  TypeRefused(ConvertScalar(target, plan.members[j], token, at, steps - 1))
    ensures ConvertScalar(target, id, token, at, steps) == ConvertScalar(target, target.graph[id].plan.members[k], token, at, steps - 1)
  {
    var members := target.graph[id].plan.members;
    assert forall j :: 0 <= j < |members| ==> Answer(target, members, j, token, at, steps - 1) == ConvertScalar(target, members[j], token, at, steps - 1);
    AskedByPriority(target, members, token, 0);
    PriorityBound(target.graph[members[k]].plan, token);
    hide InPass, Priority, ConvertPlain, TryPass, TryRanks;
    if Priority(target.graph[members[k]].plan, token) == 0 {
      PassFindsFirst(target, members, Exactly, token, at, steps - 1, k);
    } else {
      PassFindsNone(target, members, Exactly, token, at, steps - 1);
      RanksFind(target, members, token, at, steps - 1, 0, k);
    }
  }

  lemma {:induction false} PriorityBound(plan: Plan, token: ScalarToken)
    ensures Priority(plan, token) <= 5
  {
  }

  /** A union whose members all refuse the type refuses it. */
  lemma {:induction false} UnionRefuses(target: Target, id: nat, token: ScalarToken, at: Position, steps: nat)
    requires InRange(target.graph) && id < |target.graph| && steps > 0 && !token.NullToken?
    requires var plan := target.graph[id].plan;
             && plan.UnionPlan? && Members(target.graph, plan.members)
             && forall j :: 0 <= j < |plan.members| ==> TypeRefused(ConvertScalar(target, plan.members[j], token, at, steps - 1))
    ensures Mismatches(ConvertScalar(target, id, token, at, steps), at)
  {
    var members := target.graph[id].plan.members;
    assert forall j :: 0 <= j < |members| ==> Answer(target, members, j, token, at, steps - 1) == ConvertScalar(target, members[j], token, at, steps - 1);
    hide InPass, ConvertPlain, TryPass, TryRanks;
    PassFindsNone(target, members, Exactly, token, at, steps - 1);
    RanksFindNone(target, members, token, at, steps - 1, 0);
  }
}
