/** The compiler from inspected types to the plan graph, and what the runtime may rely on
    (python/msgspec_toon/_plan.py, src/plan.rs). */
module PlanGraph {
  import opened Bytes
  import opened Plans

  // ----- inspected types -------------------------------------------------------------------------

  datatype InfoField = InfoField(wire: bytes, type_: nat, fallback: Option<Typed>)

  datatype Tag = TextTag(text: bytes) | NumberTag(n: int)

  /** A type as it is inspected; parts are named by identity, so types may refer to themselves. */
  datatype Info =
    | AnyInfo
    | NoneInfo
    | BoolInfo
    | IntInfo(limits: Limits)
    | FloatInfo(limits: Limits)
    | StrInfo(limits: Limits)
    | ListInfo(item: nat, limits: Limits)
    | VarTupleInfo(item: nat, limits: Limits)
    | TupleInfo(items: seq<nat>)
    | DictInfo(key: nat, value: nat, limits: Limits)
    | UnionInfo(types: seq<nat>)
    | StructInfo(class_: nat, fields: seq<InfoField>, forbidUnknown: bool, tagField: Option<bytes>, tag: Option<Tag>, arrayLike: bool)
    | OtherInfo

  /** All types reachable from an annotation, by identity. */
  type World = seq<Info>

  function FieldTypes(fields: seq<InfoField>): (r: seq<nat>)
    ensures |r| == |fields| && forall i :: 0 <= i < |fields| ==> r[i] == fields[i].type_
  {
    seq(|fields|, i requires 0 <= i < |fields| => fields[i].type_)
  }

  function Parts(info: Info): seq<nat> {
    match info
    case ListInfo(item, _) => [item]
    case VarTupleInfo(item, _) => [item]
    case TupleInfo(items) => items
    case DictInfo(key, value, _) => [key, value]
    case UnionInfo(types) => types
    case StructInfo(_, fields, _, _, _, _) => FieldTypes(fields)
    case _ => []
  }

  predicate Known(world: World, ids: seq<nat>) {
    forall k :: 0 <= k < |ids| ==> ids[k] < |world|
  }

  predicate ClosedWorld(world: World) {
    forall id :: 0 <= id < |world| ==> Known(world, Parts(world[id]))
  }

  // ----- compiled nodes ---------------------------------------------------------------------------

  datatype SpecField = SpecField(wire: bytes, plan: nat, fallback: Option<Typed>)

  datatype Spec =
    | PlainSpec(info: Info)
    | ListSpec(item: nat, limits: Limits)
    | VarTupleSpec(item: nat, limits: Limits)
    | TupleSpec(items: seq<nat>)
    | DictSpec(key: nat, value: nat, limits: Limits)
    | UnionSpec(items: seq<nat>)
    | StructSpec(class_: nat, fields: seq<SpecField>, forbidUnknown: bool)

  function SpecEdges(spec: Spec): seq<nat> {
    match spec
    case ListSpec(item, _) => [item]
    case VarTupleSpec(item, _) => [item]
    case TupleSpec(items) => items
    case DictSpec(key, value, _) => [key, value]
    case UnionSpec(items) => items
    case StructSpec(_, fields, _) => seq(|fields|, i requires 0 <= i < |fields| => fields[i].plan)
    case PlainSpec(_) => []
  }

  /** The fields of a struct with their types replaced by nodes. */
  function SpecFields(fields: seq<InfoField>, plans: seq<nat>): (r: seq<SpecField>)
    requires |plans| == |fields|
    ensures |r| == |fields|
  {
    seq(|fields|, i requires 0 <= i < |fields| => SpecField(fields[i].wire, plans[i], fields[i].fallback))
  }

  /** A type with its parts replaced by nodes. */
  function Rebuilt(info: Info, parts: seq<nat>): (r: Spec)
    requires |parts| == |Parts(info)|
    ensures SpecEdges(r) == parts && (r.StructSpec? <==> info.StructInfo?)
  {
    match info
    case ListInfo(_, limits) => ListSpec(parts[0], limits)
    case VarTupleInfo(_, limits) => VarTupleSpec(parts[0], limits)
    case TupleInfo(_) => TupleSpec(parts)
    case DictInfo(_, _, limits) => DictSpec(parts[0], parts[1], limits)
    case UnionInfo(_) => UnionSpec(parts)
    case StructInfo(class_, fields, forbid, _, _, _) => StructSpec(class_, SpecFields(fields, parts), forbid)
    case _ => PlainSpec(info)
  }

  datatype PlanFault = AnnotationDepth | AnnotationSize | UnsupportedCycle | UnsupportedKey | UnsupportedUnion | UnsupportedCustom | InvalidPlan

  datatype Compiled<+T> = Done(value: T) | Refused(fault: PlanFault) {
    predicate IsFailure() { Refused? }

    function PropagateFailure<U>(): Compiled<U>
      requires Refused?
    {
      Refused(fault)
    }

    function Extract(): T
      requires Done?
    {
      value
    }
  }

  datatype Phase = Visiting | Completed | Failed

  const MAX_NODES: nat := 4096
  const MAX_STATIC_DEPTH: nat := 128

  predicate ScalarMember(info: Info) {
    info.NoneInfo? || info.BoolInfo? || info.IntInfo? || info.FloatInfo? || info.StrInfo?
  }

  function NotNone(world: World, types: seq<nat>): (r: seq<nat>)
    requires Known(world, types)
    ensures Known(world, r)
  {
    if types == [] then [] else (if world[types[0]].NoneInfo? then [] else [types[0]]) + NotNone(world, types[1..])
  }

  /** Structs told apart by one tag field. */
  predicate Tagged(world: World, members: seq<nat>)
    requires Known(world, members) && members != []
  {
    && (forall k :: 0 <= k < |members| ==> world[members[k]].StructInfo? && world[members[k]].tagField.Some?)
    && (forall k :: 0 <= k < |members| ==>
          && world[members[k]].tagField == world[members[0]].tagField
          && world[members[k]].arrayLike == world[members[0]].arrayLike)
    && (forall j, k :: 0 <= j < k < |members| ==> world[members[j]].tag != world[members[k]].tag)
  }

  /** Several members are supported when all are scalars or null, or they are told apart by tags. */
  predicate SupportedUnion(world: World, types: seq<nat>)
    requires Known(world, types)
  {
    var others := NotNone(world, types);
    || |others| <= 1
    || (forall k :: 0 <= k < |types| ==> ScalarMember(world[types[k]]))
    || Tagged(world, others)
  }

  /** What a type needs, besides its parts, to be lowered. */
  function Support(world: World, info: Info): Compiled<()>
    requires Known(world, Parts(info))
  {
    match info
    case DictInfo(key, value, _) =>
      assert Parts(info)[0] == key;
      if world[key].StrInfo? then Done(()) else Refused(UnsupportedKey)
    case UnionInfo(types) => if SupportedUnion(world, types) then Done(()) else Refused(UnsupportedUnion)
    case OtherInfo => Refused(UnsupportedCustom)
    case _ => Done(())
  }

  /** Each type of the path is a part of the one before. */
  predicate Path(world: World, path: seq<nat>) {
    && Known(world, path)
    && forall i :: 0 <= i < |path| - 1 ==> path[i + 1] in Parts(world[path[i]])
  }

  predicate From(world: World, root: nat, path: seq<nat>) {
    path != [] && path[0] == root && Path(world, path)
  }

  /** A path that ends in a type it passed before, and that type is no struct. */
  predicate Returns(world: World, path: seq<nat>) {
    Known(world, path) && path != [] && !world[path[|path| - 1]].StructInfo? && path[|path| - 1] in path[..|path| - 1]
  }

  /** Lowering the root passes through the type. */
  ghost predicate Reached(world: World, root: nat, id: nat) {
    exists path :: From(world, root, path) && path[|path| - 1] == id
  }

  /** What each refusal of a root type says about the types it reaches. */
  ghost predicate Blamed(world: World, root: nat, fault: PlanFault) {
    match fault
    case AnnotationDepth => exists path :: From(world, root, path) && |path| > 129
    case AnnotationSize => exists ids: set<nat> :: |ids| > 4096 && AllReached(world, root, ids)
    case UnsupportedCycle => exists path :: From(world, root, path) && Returns(world, path)
    case InvalidPlan => false
    case _ => exists id :: Reached(world, root, id) && Unsupported(world, id, fault)
  }

  ghost predicate AllReached(world: World, root: nat, ids: set<nat>) {
    forall id :: id in ids ==> Reached(world, root, id)
  }

  predicate Unsupported(world: World, id: nat, fault: PlanFault) {
    id < |world| && Known(world, Parts(world[id])) && Support(world, world[id]) == Refused(fault)
  }

  /** The nodes that stand for types. */
  predicate Covers(known: map<nat, nat>, ids: seq<nat>) {
    forall k :: 0 <= k < |ids| ==> ids[k] in known
  }

  function Images(known: map<nat, nat>, ids: seq<nat>): (r: seq<nat>)
    requires Covers(known, ids)
    ensures |r| == |ids| && forall k :: 0 <= k < |ids| ==> r[k] == known[ids[k]]
  {
    seq(|ids|, k requires 0 <= k < |ids| => known[ids[k]])
  }

  /** A node is exactly its type, with every part replaced by the part's node. */
  predicate Mirrors(world: World, known: map<nat, nat>, id: nat, spec: Spec)
    requires id < |world|
  {
    && Covers(known, Parts(world[id]))
    && spec == Rebuilt(world[id], Images(known, Parts(world[id])))
    && Known(world, Parts(world[id])) && Support(world, world[id]).Done?
  }

  predicate Extends(before: map<nat, nat>, after: map<nat, nat>) {
    forall id :: id in before ==> id in after && after[id] == before[id]
  }

  lemma {:induction false} StillMirrors(world: World, before: map<nat, nat>, after: map<nat, nat>, id: nat, spec: Spec)
    requires id < |world| && Mirrors(world, before, id, spec) && Extends(before, after)
    ensures Mirrors(world, after, id, spec)
  {
    hide Rebuilt, Support;
    assert Images(after, Parts(world[id])) == Images(before, Parts(world[id]));
  }

  // ----- which types are supported ----------------------------------------------------------------------

  predicate Scalarly(info: Info) {
    info.NoneInfo? || info.BoolInfo? || info.IntInfo? || info.FloatInfo? || info.StrInfo?
  }

  /** A union is decodable when at most one of its types is not null, or all are scalars, or all but null are
      structs with one tag field, one form and different tags. */
  predicate Decodable(world: World, types: seq<nat>)
    requires Known(world, types)
  {
    || (forall j, k :: 0 <= j < k < |types| ==> world[types[j]].NoneInfo? || world[types[k]].NoneInfo?)
    || (forall k :: 0 <= k < |types| ==> Scalarly(world[types[k]]))
    || ToldApart(world, types)
  }

  /** The places of the types that are not null, in order. */
  function PlacesOfOthers(world: World, types: seq<nat>): (r: seq<nat>)
    requires Known(world, types)
  {
    if types == [] then []
    else (if world[types[0]].NoneInfo? then [] else [0]) + OneUp(PlacesOfOthers(world, types[1..]))
  }

  function OneUp(places: seq<nat>): (r: seq<nat>)
    ensures |r| == |places| && forall i :: 0 <= i < |r| ==> r[i] == places[i] + 1
  {
    seq(|places|, i requires 0 <= i < |places| => places[i] + 1)
  }

  predicate Ascending(s: seq<nat>) {
    forall i, j :: 0 <= i < j < |s| ==> s[i] < s[j]
  }

  lemma {:induction false} PlacesAreOrdered(world: World, types: seq<nat>)
    requires Known(world, types)
    ensures Ascending(PlacesOfOthers(world, types))
  {
    hide Ascending;
    if types != [] {
      PlacesAreOrdered(world, types[1..]);
      MovedAreOrdered(PlacesOfOthers(world, types[1..]));
      assert [] + OneUp(PlacesOfOthers(world, types[1..])) == OneUp(PlacesOfOthers(world, types[1..]));
    } else {
      NothingAscends();
    }
  }

  lemma {:induction false} NothingAscends()
    ensures Ascending([])
  {
  }

  lemma {:induction false} MovedAreOrdered(places: seq<nat>)
    requires Ascending(places)
    ensures Ascending(OneUp(places)) && Ascending([0] + OneUp(places))
  {
    var moved, r := OneUp(places), [0] + OneUp(places);
    forall i, j | 0 <= i < j < |r| ensures r[i] < r[j] {
      assert r[j] == moved[j - 1];
      if i > 0 { assert r[i] == moved[i - 1]; }
    }
  }

  lemma {:induction false} PlacesHoldOthers(world: World, types: seq<nat>)
    requires Known(world, types)
    ensures var r, others := PlacesOfOthers(world, types), NotNone(world, types);
            |r| == |others| && forall i :: 0 <= i < |r| ==> r[i] < |types| && others[i] == types[r[i]] && !world[types[r[i]]].NoneInfo?
  {
    if types != [] {
      PlacesHoldOthers(world, types[1..]);
      var rest, others := PlacesOfOthers(world, types[1..]), NotNone(world, types[1..]);
      assert forall i :: 0 <= i < |rest| ==> types[1..][rest[i]] == types[rest[i] + 1];
    }
  }

  lemma {:induction false} PlaceOfOther(world: World, types: seq<nat>, k: nat) returns (i: nat)
    requires Known(world, types) && k < |types| && !world[types[k]].NoneInfo?
    ensures i < |PlacesOfOthers(world, types)| && PlacesOfOthers(world, types)[i] == k
  {
    if k == 0 {
      i := 0;
    } else {
      assert types[1..][k - 1] == types[k];
      var j := PlaceOfOther(world, types[1..], k - 1);
      i := if world[types[0]].NoneInfo? then j else j + 1;
    }
  }

  /** All types but null are structs told apart by their tags. */
  predicate ToldApart(world: World, types: seq<nat>)
    requires Known(world, types)
  {
    && (forall k :: 0 <= k < |types| && !world[types[k]].NoneInfo? ==> world[types[k]].StructInfo? && world[types[k]].tagField.Some?)
    && forall j, k :: 0 <= j < k < |types| && !world[types[j]].NoneInfo? && !world[types[k]].NoneInfo? ==>
         && world[types[j]].tagField == world[types[k]].tagField && world[types[j]].arrayLike == world[types[k]].arrayLike
         && world[types[j]].tag != world[types[k]].tag
  }

  lemma {:induction false} TaggedAreToldApart(world: World, types: seq<nat>)
    requires Known(world, types) && NotNone(world, types) != [] && Tagged(world, NotNone(world, types))
    ensures ToldApart(world, types)
  {
    var places, others := PlacesOfOthers(world, types), NotNone(world, types);
    PlacesAreOrdered(world, types);
    PlacesHoldOthers(world, types);
    hide PlacesOfOthers, NotNone;
    forall k | 0 <= k < |types| && !world[types[k]].NoneInfo? ensures world[types[k]].StructInfo? && world[types[k]].tagField.Some? {
      var i := PlaceOfOther(world, types, k);
      assert others[i] == types[k];
    }
    forall j, k | 0 <= j < k < |types| && !world[types[j]].NoneInfo? && !world[types[k]].NoneInfo? ensures
      && world[types[j]].tagField == world[types[k]].tagField && world[types[j]].arrayLike == world[types[k]].arrayLike
      && world[types[j]].tag != world[types[k]].tag
    {
      var a := PlaceOfOther(world, types, j);
      var b := PlaceOfOther(world, types, k);
      assert others[a] == types[j] && others[b] == types[k] && a < b;
    }
  }

  lemma {:induction false} ToldApartAreTagged(world: World, types: seq<nat>)
    requires Known(world, types) && NotNone(world, types) != [] && ToldApart(world, types)
    ensures Tagged(world, NotNone(world, types))
  {
    var places, others := PlacesOfOthers(world, types), NotNone(world, types);
    PlacesAreOrdered(world, types);
    PlacesHoldOthers(world, types);
    hide PlacesOfOthers, NotNone;
    forall k | 0 <= k < |others| ensures world[others[k]].tagField == world[others[0]].tagField && world[others[k]].arrayLike == world[others[0]].arrayLike {
      if k > 0 { assert places[0] < places[k]; }
    }
    forall j, k | 0 <= j < k < |others| ensures world[others[j]].tag != world[others[k]].tag {
      assert places[j] < places[k];
    }
  }

  lemma {:induction false} FewOthers(world: World, types: seq<nat>)
    requires Known(world, types)
    ensures |NotNone(world, types)| <= 1 <==> forall j, k :: 0 <= j < k < |types| ==> world[types[j]].NoneInfo? || world[types[k]].NoneInfo?
  {
    var places := PlacesOfOthers(world, types);
    PlacesAreOrdered(world, types);
    PlacesHoldOthers(world, types);
    hide PlacesOfOthers, NotNone;
    if |places| > 1 { assert places[0] < places[1]; }
    if j, k :| 0 <= j < k < |types| && !(world[types[j]].NoneInfo? || world[types[k]].NoneInfo?) {
      var a := PlaceOfOther(world, types, j);
      var b := PlaceOfOther(world, types, k);
      assert a != b;
    }
  }

  lemma {:induction false} UnionSupport(world: World, types: seq<nat>)
    requires Known(world, types)
    ensures SupportedUnion(world, types) <==> Decodable(world, types)
  {
    var others := NotNone(world, types);
    FewOthers(world, types);
    hide NotNone, Tagged, ToldApart;
    if |others| > 1 {
      if Tagged(world, others) { TaggedAreToldApart(world, types); }
      if ToldApart(world, types) { ToldApartAreTagged(world, types); }
    }
  }

  /** What a refusal for want of support says about the type: a dictionary whose keys are no strings, a union that
      is not decodable, a type of the user's own. */
  lemma {:induction false} SupportIs(world: World, info: Info)
    requires Known(world, Parts(info))
    ensures Support(world, info) ==
            match info
            case DictInfo(key, _, _) =>
              assert Parts(info)[0] == key;
              if world[key].StrInfo? then Done(()) else Refused(UnsupportedKey)
            case UnionInfo(types) => if Decodable(world, types) then Done(()) else Refused(UnsupportedUnion)
            case OtherInfo => Refused(UnsupportedCustom)
            case _ => Done(())
  {
    if info.UnionInfo? { UnionSupport(world, info.types); }
  }

  // ----- the state of a compilation -----------------------------------------------------------------

  /** The compiler's tables, the type of each node, the order in which nodes were completed, how many were, and
      how many are being visited. */
  datatype Tables = Tables(nodes: seq<Option<Spec>>, phases: seq<Phase>, structs: seq<bool>, known: map<nat, nat>,
                           owners: seq<nat>, ranks: seq<nat>, clock: nat, visiting: nat)
  {
    ghost predicate Aligned() {
      |nodes| == |phases| == |structs| == |owners| == |ranks|
    }

    /** A finished node's edge leads to a node finished earlier, or to a struct. */
    ghost predicate EdgeDown(from: nat, to: nat)
      requires Aligned() && from < |nodes|
    {
      to < |nodes| && (structs[to] || (phases[to].Completed? && ranks[to] < ranks[from]))
    }

    /** What a node being visited may point to. */
    ghost predicate Settled(to: nat)
      requires Aligned()
    {
      to < |nodes| && (structs[to] || (phases[to].Completed? && ranks[to] < clock))
    }

    ghost predicate AllSettled(ids: seq<nat>)
      requires Aligned()
    {
      forall k :: 0 <= k < |ids| ==> Settled(ids[k])
    }

    ghost predicate NodeDone(i: nat)
      requires Aligned() && i < |nodes|
    {
      && !phases[i].Failed?
      && (phases[i].Completed? ==>
            && nodes[i].Some? && ranks[i] < clock && structs[i] == nodes[i].value.StructSpec?
            && forall k :: 0 <= k < |SpecEdges(nodes[i].value)| ==> EdgeDown(i, SpecEdges(nodes[i].value)[k]))
    }

    ghost predicate TypeDone(world: World, id: nat)
      requires Aligned() && id in known
    {
      && id < |world| && known[id] < |nodes| && owners[known[id]] == id && structs[known[id]] == world[id].StructInfo?
      && (phases[known[id]].Completed? ==> nodes[known[id]].Some? && Mirrors(world, known, id, nodes[known[id]].value))
    }

    ghost predicate Consistent(world: World) {
      && ClosedWorld(world) && Aligned() && clock + visiting == |nodes| <= MAX_NODES
      && (forall i :: 0 <= i < |nodes| ==> NodeDone(i))
      && (forall id :: id in known ==> TypeDone(world, id))
      && (forall i :: 0 <= i < |nodes| ==> owners[i] in known && known[owners[i]] == i)
    }

    /** Whatever is being visited lies on the way to the type being lowered. */
    ghost predicate OnTrail(trail: seq<nat>)
      requires Aligned()
    {
      forall i :: 0 <= i < |nodes| && phases[i].Visiting? ==> owners[i] in trail
    }

    ghost predicate SameNode(later: Tables, i: nat)
      requires Aligned() && later.Aligned() && i < |nodes| <= |later.nodes|
    {
      && later.nodes[i] == nodes[i] && later.phases[i] == phases[i] && later.owners[i] == owners[i]
      && later.structs[i] == structs[i] && later.ranks[i] == ranks[i]
    }

    /** What lowering more types keeps: nodes that were there stay as they were, and whatever is new is finished. */
    ghost predicate GrowsTo(later: Tables) {
      && Aligned() && later.Aligned() && |nodes| <= |later.nodes|
      && clock <= later.clock && visiting == later.visiting && Extends(known, later.known)
      && (forall i :: 0 <= i < |nodes| ==> SameNode(later, i))
      && (forall i :: |nodes| <= i < |later.nodes| ==> later.phases[i].Completed?)
    }

    ghost function Opened(world: World, id: nat): Tables
      requires id < |world|
    {
      Tables(nodes + [None], phases + [Visiting], structs + [world[id].StructInfo?], known[id := |nodes|],
             owners + [id], ranks + [0],
             clock, visiting + 1)
    }

    ghost function Closed(index: nat, node: Spec): Tables
      requires Aligned() && index < |nodes| && visiting > 0
    {
      Tables(nodes[index := Some(node)], phases[index := Completed], structs, known, owners, ranks[index := clock],
             clock + 1, visiting - 1)
    }
  }

  lemma {:induction false} GrowsFurther(a: Tables, b: Tables, c: Tables)
    requires a.GrowsTo(b) && b.GrowsTo(c)
    ensures a.GrowsTo(c)
  {
    forall i | 0 <= i < |a.nodes| ensures a.SameNode(c, i) {
      assert a.SameNode(b, i) && b.SameNode(c, i);
    }
    forall i | |a.nodes| <= i < |c.nodes| ensures c.phases[i].Completed? {
      if i < |b.nodes| { assert b.SameNode(c, i); }
    }
  }

  lemma {:induction false} ConsistentIsAligned(world: World, t: Tables)
    requires t.Consistent(world)
    ensures t.Aligned() && t.GrowsTo(t)
  {
  }

  lemma {:induction false} KnownIsSettled(world: World, t: Tables, id: nat)
    requires t.Consistent(world) && id in t.known
    ensures t.Aligned() && t.known[id] < |t.nodes|
    ensures t.phases[t.known[id]].Completed? || t.structs[t.known[id]] ==> t.Settled(t.known[id])
    ensures !t.phases[t.known[id]].Failed?
  {
    assert t.TypeDone(world, id) && t.NodeDone(t.known[id]);
  }

  lemma {:induction false} StayOnTrail(a: Tables, b: Tables, trail: seq<nat>)
    requires a.GrowsTo(b) && a.OnTrail(trail)
    ensures b.OnTrail(trail)
  {
    forall i | 0 <= i < |b.nodes| && b.phases[i].Visiting? ensures b.owners[i] in trail {
      assert a.SameNode(b, i);
    }
  }

  /** A type met again while it is visited closes a cycle. */
  lemma {:induction false} TrailReturns(world: World, t: Tables, trail: seq<nat>, id: nat)
    requires t.Consistent(world) && t.OnTrail(trail) && id in t.known && t.known[id] < |t.nodes|
    requires t.phases[t.known[id]].Visiting? && !t.structs[t.known[id]] && Path(world, trail + [id])
    ensures Blamed(world, (trail + [id])[0], UnsupportedCycle)
  {
    var path := trail + [id];
    assert t.TypeDone(world, id);
    assert path[..|trail|] == trail;
    assert From(world, path[0], path) && Returns(world, path);
  }

  lemma {:induction false} TrailReaches(world: World, trail: seq<nat>, id: nat)
    requires Path(world, trail + [id])
    ensures Reached(world, (trail + [id])[0], id)
  {
    var path := trail + [id];
    assert From(world, path[0], path) && path[|path| - 1] == id;
  }

  lemma {:induction false} ManyTypes(world: World, t: Tables, root: nat, id: nat)
    requires t.Consistent(world) && |t.nodes| >= MAX_NODES && id !in t.known
    requires AllReached(world, root, t.known.Keys) && Reached(world, root, id)
    ensures Blamed(world, root, AnnotationSize)
  {
    hide Reached, Tables.NodeDone, Tables.TypeDone, ClosedWorld;
    var types := set i | 0 <= i < |t.nodes| :: t.owners[i];
    DistinctCount(t.owners);
    assert AllReached(world, root, types + {id});
  }

  lemma {:induction false} DepthIsBlamed(world: World, path: seq<nat>)
    requires Path(world, path) && |path| > MAX_STATIC_DEPTH + 1
    ensures Blamed(world, path[0], AnnotationDepth)
  {
    assert From(world, path[0], path);
  }

  lemma {:induction false} TypeIsBlamed(world: World, root: nat, id: nat)
    requires id < |world| && Known(world, Parts(world[id])) && Support(world, world[id]).Refused? && Reached(world, root, id)
    ensures Blamed(world, root, Support(world, world[id]).fault)
  {
    hide Reached;
    assert Unsupported(world, id, Support(world, world[id]).fault);
  }

  lemma {:induction false} DistinctCount(s: seq<nat>)
    requires forall i, j :: 0 <= i < j < |s| ==> s[i] != s[j]
    ensures |set i | 0 <= i < |s| :: s[i]| == |s|
  {
    if s != [] {
      var front := s[..|s| - 1];
      DistinctCount(front);
      assert (set i | 0 <= i < |s| :: s[i]) == (set i | 0 <= i < |front| :: front[i]) + {s[|s| - 1]};
    }
  }

  lemma {:induction false} StaySettled(a: Tables, b: Tables, ids: seq<nat>)
    requires a.GrowsTo(b) && a.AllSettled(ids)
    ensures b.AllSettled(ids)
  {
    forall k | 0 <= k < |ids| ensures b.Settled(ids[k]) {
      assert a.Settled(ids[k]) && a.SameNode(b, ids[k]);
    }
  }

  lemma {:induction false} OpenedNodeDone(world: World, t: Tables, id: nat, i: nat)
    requires t.Aligned() && id < |world| && i < |t.nodes| && t.NodeDone(i)
    ensures t.Opened(world, id).NodeDone(i)
  {
    if t.phases[i].Completed? {
      assert forall k :: 0 <= k < |SpecEdges(t.nodes[i].value)| ==> t.EdgeDown(i, SpecEdges(t.nodes[i].value)[k]);
    }
  }

  lemma {:induction false} OpenedTypeDone(world: World, t: Tables, id: nat, other: nat)
    requires t.Aligned() && id < |world| && id !in t.known && other in t.known && t.TypeDone(world, other)
    ensures t.Opened(world, id).TypeDone(world, other)
  {
    if t.phases[t.known[other]].Completed? {
      StillMirrors(world, t.known, t.Opened(world, id).known, other, t.nodes[t.known[other]].value);
    }
    hide Mirrors;
  }

  lemma {:induction false} OpenedOnTrail(world: World, t: Tables, id: nat, trail: seq<nat>)
    requires t.Aligned() && id < |world| && t.OnTrail(trail)
    ensures t.Opened(world, id).OnTrail(trail + [id])
  {
  }

  lemma {:induction false} PathGoesOn(world: World, path: seq<nat>)
    requires ClosedWorld(world) && path != [] && Path(world, path)
    ensures forall part :: part in Parts(world[path[|path| - 1]]) ==> Path(world, path + [part])
  {
    var id := path[|path| - 1];
    forall part | part in Parts(world[id]) ensures Path(world, path + [part]) {
      assert Known(world, Parts(world[id]));
      var longer := path + [part];
      forall i | 0 <= i < |longer| - 1 ensures longer[i + 1] in Parts(world[longer[i]]) {
        if i + 1 < |path| { assert path[i + 1] in Parts(world[path[i]]); }
      }
    }
  }

  lemma {:induction false} OpenedIsConsistent(world: World, t: Tables, id: nat)
    requires t.Consistent(world) && id < |world| && id !in t.known && |t.nodes| < MAX_NODES
    ensures t.Opened(world, id).Consistent(world)
  {
    var after := t.Opened(world, id);
    assert after.NodeDone(|t.nodes|) && after.TypeDone(world, id);
    assert forall other :: other in t.known ==> t.TypeDone(world, other) && t.known[other] < |t.nodes|;
    forall i | 0 <= i < |t.nodes| ensures after.NodeDone(i) {
      OpenedNodeDone(world, t, id, i);
    }
    forall other | other in t.known ensures after.TypeDone(world, other) {
      OpenedTypeDone(world, t, id, other);
    }
    hide Tables.NodeDone, Tables.TypeDone, ClosedWorld;
  }

  lemma {:induction false} ClosedNodeDone(t: Tables, index: nat, node: Spec, i: nat)
    requires t.Aligned() && index < |t.nodes| && i < |t.nodes| && t.NodeDone(i) && t.visiting > 0
    requires t.phases[index].Visiting? && t.structs[index] == node.StructSpec? && t.AllSettled(SpecEdges(node))
    ensures t.Closed(index, node).NodeDone(i)
  {
    var after := t.Closed(index, node);
    if i == index {
      forall k | 0 <= k < |SpecEdges(node)| ensures after.EdgeDown(i, SpecEdges(node)[k]) {
        assert t.Settled(SpecEdges(node)[k]);
      }
    } else if t.phases[i].Completed? {
      forall k | 0 <= k < |SpecEdges(t.nodes[i].value)| ensures after.EdgeDown(i, SpecEdges(t.nodes[i].value)[k]) {
        assert t.EdgeDown(i, SpecEdges(t.nodes[i].value)[k]);
      }
    }
    hide SpecEdges;
  }

  lemma {:induction false} ClosedTypeDone(world: World, t: Tables, index: nat, node: Spec, id: nat, other: nat)
    requires t.Aligned() && index < |t.nodes| && t.visiting > 0 && id in t.known && t.known[id] == index && id < |world|
    requires Mirrors(world, t.known, id, node) && other in t.known && t.TypeDone(world, other)
    requires t.known[other] == index ==> other == id
    ensures t.Closed(index, node).TypeDone(world, other)
  {
    hide Parts, Support, Rebuilt;
  }

  lemma {:induction false} ClosedIsConsistent(world: World, t: Tables, id: nat, node: Spec)
    requires t.Consistent(world) && id in t.known && id < |world| && t.visiting > 0
    requires t.known[id] < |t.nodes| && t.phases[t.known[id]].Visiting?
    requires Mirrors(world, t.known, id, node) && t.AllSettled(SpecEdges(node))
    ensures t.Closed(t.known[id], node).Consistent(world)
  {
    var index := t.known[id];
    var after := t.Closed(index, node);
    assert t.structs[index] == node.StructSpec? by {
      assert t.TypeDone(world, id);
    }
    forall i | 0 <= i < |after.nodes| ensures after.NodeDone(i) {
      ClosedNodeDone(t, index, node, i);
    }
    forall other | other in after.known ensures after.TypeDone(world, other) {
      ClosedTypeDone(world, t, index, node, id, other);
    }
    hide Tables.NodeDone, Tables.TypeDone, ClosedWorld, Mirrors;
  }

  /** Opening, lowering the parts and closing is one step of growth. */
  lemma {:induction false} VisitGrows(world: World, t: Tables, id: nat, after: Tables, node: Spec)
    requires t.Consistent(world) && id < |world| && id !in t.known
    requires t.Opened(world, id).GrowsTo(after)
    ensures after.visiting > 0 && id in after.known && after.known[id] == |t.nodes| && after.SameNode(after, |t.nodes|)
    ensures after.phases[|t.nodes|].Visiting? && after.structs[|t.nodes|] == world[id].StructInfo?
    ensures t.GrowsTo(after.Closed(|t.nodes|, node)) && after.Closed(|t.nodes|, node).Settled(|t.nodes|)
  {
    var visited := t.Opened(world, id);
    assert visited.SameNode(after, |t.nodes|);
    forall i | 0 <= i < |t.nodes| ensures t.SameNode(after.Closed(|t.nodes|, node), i) {
      assert visited.SameNode(after, i);
    }
    assert forall other :: other in t.known ==> t.TypeDone(world, other);
  }

  // ----- the compiler ---------------------------------------------------------------------------------

  class GraphCompiler {
    const world: World
    var nodes: seq<Option<Spec>>
    var phases: seq<Phase>
    var structs: seq<bool>
    var known: map<nat, nat>
    ghost var owners: seq<nat>
    ghost var ranks: seq<nat>
    ghost var clock: nat
    ghost var visiting: nat

    constructor (world: World)
      ensures this.world == world && Now() == Tables([], [], [], map[], [], [], 0, 0)
    {
      this.world := world;
      nodes, phases, structs, known := [], [], [], map[];
      owners, ranks, clock, visiting := [], [], 0, 0;
    }

    ghost function Now(): Tables
      reads this
    {
      Tables(nodes, phases, structs, known, owners, ranks, clock, visiting)
    }

    /** Lower a type: a known one is shared, unless it is being visited and no struct breaks the cycle. */
    method Lower(id: nat, depth: nat, ghost trail: seq<nat>) returns (r: Compiled<nat>)
      requires Now().Consistent(world) && id < |world| && depth == |trail|
      requires Path(world, trail + [id]) && Now().OnTrail(trail) && AllReached(world, (trail + [id])[0], known.Keys)
      modifies this
      ensures Now().Aligned() && |nodes| >= |old(nodes)|
      ensures r.Refused? ==> Blamed(world, (trail + [id])[0], r.fault)
      ensures r.Done? ==> Now().Consistent(world) && old(Now()).GrowsTo(Now()) && Now().Settled(r.value)
      ensures r.Done? ==> id in known && known[id] == r.value && AllReached(world, (trail + [id])[0], known.Keys)
      decreases if depth > MAX_STATIC_DEPTH then 0 else MAX_STATIC_DEPTH + 1 - depth, 3
    {
      hide Tables.Consistent, Tables.NodeDone, Tables.TypeDone, Tables.GrowsTo, Tables.Settled, Tables.AllSettled, Tables.SameNode, Mirrors, Parts, Rebuilt, Support, SpecEdges, Blamed, Path, Tables.OnTrail, Reached;
      ConsistentIsAligned(world, Now());
      if depth > MAX_STATIC_DEPTH {
        DepthIsBlamed(world, trail + [id]);
        return Refused(AnnotationDepth);
      }
      if id in known {
        var there := known[id];
        KnownIsSettled(world, Now(), id);
        if phases[there].Visiting? && !structs[there] {
          TrailReturns(world, Now(), trail, id);
          return Refused(UnsupportedCycle);
        }
        return Done(there);
      }
      TrailReaches(world, trail, id);
      if |nodes| >= MAX_NODES {
        ManyTypes(world, Now(), (trail + [id])[0], id);
        return Refused(AnnotationSize);
      }
      ghost var before := Now();
      var index := |nodes|;
      Open(id);
      OpenedIsConsistent(world, before, id);
      OpenedOnTrail(world, before, id, trail);
      var node := LowerNew(id, depth, trail + [id]);
      if node.Refused? {
        phases := phases[index := Failed];
        return Refused(node.fault);
      }
      ghost var lowered := Now();
      VisitGrows(world, before, id, lowered, node.value);
      ClosedIsConsistent(world, lowered, id, node.value);
      Close(index, node.value);
      return Done(index);
    }

    method Open(id: nat)
      requires id < |world|
      modifies this
      ensures Now() == old(Now()).Opened(world, id)
    {
      known := known[id := |nodes|];
      nodes := nodes + [None];
      phases := phases + [Visiting];
      structs := structs + [world[id].StructInfo?];
      owners, ranks, visiting := owners + [id], ranks + [0], visiting + 1;
    }

    method Close(index: nat, node: Spec)
      requires Now().Aligned() && index < |nodes| && visiting > 0
      modifies this
      ensures Now() == old(Now()).Closed(index, node)
    {
      nodes := nodes[index := Some(node)];
      phases := phases[index := Completed];
      ranks, clock, visiting := ranks[index := clock], clock + 1, visiting - 1;
    }

    /** Lower the parts of a type one after the other. */
    method LowerEach(ids: seq<nat>, depth: nat, ghost trail: seq<nat>) returns (r: Compiled<seq<nat>>)
      requires Now().Consistent(world) && Known(world, ids) && depth <= MAX_STATIC_DEPTH && |trail| == depth + 1
      requires (forall k :: 0 <= k < |ids| ==> Path(world, trail + [ids[k]])) && Now().OnTrail(trail) && AllReached(world, trail[0], known.Keys)
      modifies this
      ensures Now().Aligned() && |nodes| >= |old(nodes)|
      ensures r.Refused? ==> Blamed(world, trail[0], r.fault)
      ensures r.Done? ==> Now().Consistent(world) && old(Now()).GrowsTo(Now()) && AllReached(world, trail[0], known.Keys)
      ensures r.Done? ==> Covers(known, ids) && r.value == Images(known, ids) && Now().AllSettled(r.value)
      decreases MAX_STATIC_DEPTH + 1 - depth, 1
    {
      hide Tables.NodeDone, Tables.TypeDone, ClosedWorld, Tables.Settled, Tables.SameNode;
      ConsistentIsAligned(world, Now());
      var indexes: seq<nat> := [];
      for i := 0 to |ids|
        invariant Now().Consistent(world) && old(Now()).GrowsTo(Now()) && |indexes| == i && Now().AllSettled(indexes)
        invariant Now().OnTrail(trail) && AllReached(world, trail[0], known.Keys)
        invariant Covers(known, ids[..i]) && indexes == Images(known, ids[..i])
      {
        ghost var before := Now();
        assert (trail + [ids[i]])[0] == trail[0];
        var index := Lower(ids[i], depth + 1, trail);
        if index.Refused? { return Refused(index.fault); }
        GrowsFurther(old(Now()), before, Now());
        StaySettled(before, Now(), indexes);
        StayOnTrail(before, Now(), trail);
        indexes := indexes + [index.value];
        assert ids[..i + 1] == ids[..i] + [ids[i]];
      }
      assert ids[..|ids|] == ids;
      return Done(indexes);
    }

    /** Lower a type that was not met before: its parts first, one level deeper. */
    method LowerNew(id: nat, depth: nat, ghost trail: seq<nat>) returns (r: Compiled<Spec>)
      requires Now().Consistent(world) && id < |world| && depth <= MAX_STATIC_DEPTH && |trail| == depth + 1
      requires Path(world, trail) && trail[depth] == id && Now().OnTrail(trail) && AllReached(world, trail[0], known.Keys)
      modifies this
      ensures Now().Aligned() && |nodes| >= |old(nodes)|
      ensures r.Refused? ==> Blamed(world, trail[0], r.fault)
      ensures r.Done? ==> Now().Consistent(world) && old(Now()).GrowsTo(Now()) && AllReached(world, trail[0], known.Keys)
      ensures r.Done? ==> Mirrors(world, known, id, r.value) && Now().AllSettled(SpecEdges(r.value))
      decreases MAX_STATIC_DEPTH + 1 - depth, 2
    {
      hide Tables.NodeDone, Tables.TypeDone, Tables.Settled, Tables.SameNode, Tables.OnTrail, Blamed, Path, SupportedUnion, Reached, AllReached;
      ConsistentIsAligned(world, Now());
      var info := world[id];
      assert Known(world, Parts(info));
      PathGoesOn(world, trail);
      assert trail[..depth] + [id] == trail;
      TrailReaches(world, trail[..depth], id);
      match info {
        case ListInfo(item, limits) =>
          var parts :- LowerEach([item], depth, trail);
          return Done(ListSpec(parts[0], limits));
        case VarTupleInfo(item, limits) =>
          var parts :- LowerEach([item], depth, trail);
          return Done(VarTupleSpec(parts[0], limits));
        case TupleInfo(items) =>
          var parts :- LowerEach(items, depth, trail);
          return Done(TupleSpec(parts));
        case DictInfo(key, value, limits) =>
          assert Parts(info) == [key, value] && Parts(info)[0] == key;
          if !world[key].StrInfo? {
            TypeIsBlamed(world, trail[0], id);
            return Refused(UnsupportedKey);
          }
          var parts :- LowerEach([key, value], depth, trail);
          return Done(DictSpec(parts[0], parts[1], limits));
        case UnionInfo(types) =>
          if !SupportedUnion(world, types) {
            TypeIsBlamed(world, trail[0], id);
            return Refused(UnsupportedUnion);
          }
          var parts :- LowerEach(types, depth, trail);
          return Done(UnionSpec(parts));
        case StructInfo(class_, fields, forbid, _, _, _) =>
          var parts :- LowerEach(FieldTypes(fields), depth, trail);
          return Done(StructSpec(class_, SpecFields(fields, parts), forbid));
        case OtherInfo =>
          TypeIsBlamed(world, trail[0], id);
          return Refused(UnsupportedCustom);
        case _ => return Done(PlainSpec(info));
      }
    }

    /** All nodes, once none is missing. */
    method Complete() returns (r: Compiled<seq<Spec>>)
      ensures r.Done? <==> forall i :: 0 <= i < |nodes| ==> nodes[i].Some?
      ensures r.Done? ==> |r.value| == |nodes| && forall i :: 0 <= i < |nodes| ==> nodes[i] == Some(r.value[i])
      ensures r.Refused? ==> r.fault == InvalidPlan
    {
      var specs: seq<Spec> := [];
      for i := 0 to |nodes|
        invariant |specs| == i && forall k :: 0 <= k < i ==> nodes[k] == Some(specs[k])
      {
        if nodes[i].None? { return Refused(InvalidPlan); }
        specs := specs + [nodes[i].value];
      }
      return Done(specs);
    }
  }

  // ----- what a compiled graph is -------------------------------------------------------------------

  /** Every edge leads to a struct or to a node of lower rank. */
  predicate Ranked(specs: seq<Spec>, ranks: seq<nat>) {
    && |ranks| == |specs|
    && (forall i :: 0 <= i < |specs| ==> ranks[i] < |specs|)
    && (forall i, k :: 0 <= i < |specs| && 0 <= k < |SpecEdges(specs[i])| ==>
          var to := SpecEdges(specs[i])[k]; to < |specs| && (specs[to].StructSpec? || ranks[to] < ranks[i]))
  }

  /** Every node is its type, with the parts replaced by their nodes; no two types share a node. */
  ghost predicate Pictures(world: World, known: map<nat, nat>, specs: seq<Spec>) {
    && (forall id :: id in known ==> id < |world| && known[id] < |specs| && Mirrors(world, known, id, specs[known[id]]))
    && (forall a, b :: a in known && b in known && known[a] == known[b] ==> a == b)
  }

  lemma {:induction false} FinishedTable(world: World, t: Tables, specs: seq<Spec>)
    requires t.Consistent(world) && forall i :: 0 <= i < |t.nodes| ==> t.phases[i].Completed?
    requires |specs| == |t.nodes| && forall i :: 0 <= i < |t.nodes| ==> t.nodes[i] == Some(specs[i])
    ensures Pictures(world, t.known, specs) && Ranked(specs, t.ranks)
  {
    hide Mirrors, SpecEdges;
    forall id | id in t.known
      ensures id < |world| && t.known[id] < |specs| && Mirrors(world, t.known, id, specs[t.known[id]])
    {
      assert t.TypeDone(world, id);
    }
    forall i, k | 0 <= i < |specs| && 0 <= k < |SpecEdges(specs[i])|
      ensures var to := SpecEdges(specs[i])[k]; to < |specs| && (specs[to].StructSpec? || t.ranks[to] < t.ranks[i])
    {
      assert t.NodeDone(i) && t.nodes[i] == Some(specs[i]) && t.EdgeDown(i, SpecEdges(specs[i])[k]);
      assert t.NodeDone(SpecEdges(specs[i])[k]);
    }
    forall i | 0 <= i < |specs| ensures t.ranks[i] < |specs| {
      assert t.NodeDone(i) && t.phases[i].Completed?;
    }
  }

  datatype PlanTable = PlanTable(specs: seq<Spec>, root: nat)

  /** Compile an annotation: the whole table pictures the types, and a cycle in it passes through a struct. */
  method CompilePlan(world: World, id: nat) returns (r: Compiled<PlanTable>, ghost known: map<nat, nat>, ghost ranks: seq<nat>)
    requires ClosedWorld(world) && id < |world|
    ensures r.Done? ==> Pictures(world, known, r.value.specs) && id in known && known[id] == r.value.root
    ensures r.Done? ==> Ranked(r.value.specs, ranks) && |r.value.specs| <= 4096
    ensures r.Refused? ==> Blamed(world, id, r.fault)
  {
    hide Pictures, Ranked, Blamed, Tables.NodeDone, Tables.TypeDone;
    var compiler := new GraphCompiler(world);
    assert compiler.Now().Consistent(world);
    assert [] + [id] == [id];
    var root := compiler.Lower(id, 0, []);
    known, ranks := compiler.known, compiler.ranks;
    if root.Refused? { return Refused(root.fault), known, ranks; }
    assert forall i :: 0 <= i < |compiler.nodes| ==> compiler.phases[i].Completed? && compiler.nodes[i].Some? by {
      AllDone(world, compiler.Now());
    }
    var specs := compiler.Complete();
    FinishedTable(world, compiler.Now(), specs.value);
    return Done(PlanTable(specs.value, root.value)), known, ranks;
  }

  lemma {:induction false} AllDone(world: World, t: Tables)
    requires t.Consistent(world) && Tables([], [], [], map[], [], [], 0, 0).GrowsTo(t)
    ensures forall i :: 0 <= i < |t.nodes| ==> t.phases[i].Completed? && t.nodes[i].Some?
  {
    forall i | 0 <= i < |t.nodes| ensures t.phases[i].Completed? && t.nodes[i].Some? {
      assert t.NodeDone(i);
    }
  }

  // ----- cycles -------------------------------------------------------------------------------------

  lemma {:induction false} PartsHaveNodes(world: World, known: map<nat, nat>, specs: seq<Spec>, ranks: seq<nat>, id: nat, part: nat)
    requires Pictures(world, known, specs) && Ranked(specs, ranks) && id in known && part in Parts(world[id])
    ensures known[id] < |ranks| && part in known && known[part] < |ranks|
    ensures world[part].StructInfo? || ranks[known[part]] < ranks[known[id]]
  {
    var k :| 0 <= k < |Parts(world[id])| && Parts(world[id])[k] == part;
    assert Mirrors(world, known, id, specs[known[id]]);
    assert SpecEdges(specs[known[id]])[k] == known[part];
    assert Mirrors(world, known, part, specs[known[part]]);
  }

  /** Along a path without structs, ranks fall. */
  lemma {:induction false} RanksFall(world: World, known: map<nat, nat>, specs: seq<Spec>, ranks: seq<nat>, path: seq<nat>, n: nat)
    requires Pictures(world, known, specs) && Ranked(specs, ranks) && Path(world, path) && n < |path| && path[0] in known
    requires forall i :: 0 < i < |path| ==> !world[path[i]].StructInfo?
    ensures path[n] in known && known[path[n]] < |ranks| && known[path[0]] < |ranks|
    ensures ranks[known[path[n]]] + n <= ranks[known[path[0]]]
    decreases n
  {
    hide Parts, Mirrors, SpecEdges;
    if n > 0 {
      RanksFall(world, known, specs, ranks, path, n - 1);
      assert path[n - 1 + 1] in Parts(world[path[n - 1]]);
      PartsHaveNodes(world, known, specs, ranks, path[n - 1], path[n]);
    }
  }

  /** If compilation succeeds, every cycle of types it reached passes through a struct. */
  lemma {:induction false} CyclePassesStruct(world: World, known: map<nat, nat>, specs: seq<Spec>, ranks: seq<nat>, path: seq<nat>)
    requires Pictures(world, known, specs) && Ranked(specs, ranks)
    requires Path(world, path) && |path| > 1 && path[0] in known && path[0] == path[|path| - 1]
    ensures exists i :: 0 < i < |path| && world[path[i]].StructInfo?
  {
    if forall i :: 0 < i < |path| ==> !world[path[i]].StructInfo? {
      RanksFall(world, known, specs, ranks, path, |path| - 1);
    }
  }

  // ----- the native graph ---------------------------------------------------------------------------

  function NativeFields(fields: seq<SpecField>): (r: seq<FieldPlan>)
    ensures |r| == |fields|
  {
    seq(|fields|, i requires 0 <= i < |fields| => FieldPlan(fields[i].wire, fields[i].plan, fields[i].fallback))
  }

  predicate IsNone(specs: seq<Spec>, i: nat) {
    i < |specs| && specs[i] == PlainSpec(NoneInfo)
  }

  predicate SomeNone(specs: seq<Spec>, items: seq<nat>) {
    exists k :: 0 <= k < |items| && IsNone(specs, items[k])
  }

  /** The members of a union other than null. */
  function OtherMembers(specs: seq<Spec>, items: seq<nat>): (r: seq<nat>)
    ensures forall k :: 0 <= k < |r| ==> r[k] in items
  {
    if items == [] then [] else (if IsNone(specs, items[0]) then [] else [items[0]]) + OtherMembers(specs, items[1..])
  }

  const NO_LIMITS := Limits(None, None, None, None, None, None, None)

  function NativePlan(specs: seq<Spec>, spec: Spec): Node {
    match spec
    case PlainSpec(AnyInfo) => Node(AnyPlan, NO_LIMITS)
    case PlainSpec(NoneInfo) => Node(NonePlan, NO_LIMITS)
    case PlainSpec(BoolInfo) => Node(BoolPlan, NO_LIMITS)
    case PlainSpec(IntInfo(limits)) => Node(IntPlan, limits)
    case PlainSpec(FloatInfo(limits)) => Node(FloatPlan, limits)
    case PlainSpec(StrInfo(limits)) => Node(StrPlan, limits)
    case PlainSpec(_) => Node(AnyPlan, NO_LIMITS)
    case ListSpec(item, limits) => Node(ListPlan(item), limits)
    case VarTupleSpec(item, limits) => Node(TuplePlan(item), limits)
    case TupleSpec(items) => Node(FixedPlan(items), NO_LIMITS)
    case DictSpec(key, value, limits) => Node(DictPlan(key, value), limits)
    case UnionSpec(items) =>
      Node(UnionPlan(SomeNone(specs, items), OtherMembers(specs, items)), NO_LIMITS)
    case StructSpec(class_, fields, forbid) => Node(ObjectPlan(StructPlan(class_, NativeFields(fields), forbid)), NO_LIMITS)
  }

  function NativeGraph(specs: seq<Spec>): (r: Graph)
    ensures |r| == |specs| && forall i :: 0 <= i < |specs| ==> r[i] == NativePlan(specs, specs[i])
  {
    seq(|specs|, i requires 0 <= i < |specs| => NativePlan(specs, specs[i]))
  }

  lemma {:induction false} NativeEdges(specs: seq<Spec>, spec: Spec, k: nat)
    requires k < |Edges(NativePlan(specs, spec).plan)|
    ensures Edges(NativePlan(specs, spec).plan)[k] in SpecEdges(spec)
  {
    match spec {
      case StructSpec(_, fields, _) =>
        assert Edges(NativePlan(specs, spec).plan)[k] == SpecEdges(spec)[k];
      case _ =>
    }
  }

  lemma {:induction false} NativeInRange(specs: seq<Spec>, ranks: seq<nat>)
    requires Ranked(specs, ranks)
    ensures InRange(NativeGraph(specs))
  {
    forall i, k | 0 <= i < |specs| && 0 <= k < |Edges(NativeGraph(specs)[i].plan)|
      ensures Edges(NativeGraph(specs)[i].plan)[k] < |specs|
    {
      NativeEdges(specs, specs[i], k);
      hide NativePlan, Edges, SpecEdges;
    }
  }

  /** Wrappers lead down in rank, so they end: at a struct, or before rank runs out. */
  lemma {:induction false} ChainEnds(specs: seq<Spec>, ranks: seq<nat>, id: nat, steps: nat)
    requires Ranked(specs, ranks) && InRange(NativeGraph(specs)) && id < |specs| && (ranks[id] < steps || specs[id].StructSpec?)
    ensures Resolve(NativeGraph(specs), id, steps).Some?
    decreases steps
  {
    var graph := NativeGraph(specs);
    if Wraps(graph[id].plan) {
      assert specs[id].UnionSpec?;
      NativeEdges(specs, specs[id], 0);
      var member := graph[id].plan.members[0];
      assert Edges(graph[id].plan)[0] == member;
      assert member < |specs| && (specs[member].StructSpec? || ranks[member] < ranks[id]);
      ChainEnds(specs, ranks, member, steps - 1);
    }
  }

  /** A compiled graph meets what the runtime relies on: edges in range, and wrappers that lead somewhere. */
  lemma {:induction false} CompiledIsValid(specs: seq<Spec>, ranks: seq<nat>)
    requires Ranked(specs, ranks)
    ensures ValidGraph(NativeGraph(specs))
  {
    NativeInRange(specs, ranks);
    forall id | 0 <= id < |specs| ensures Resolve(NativeGraph(specs), id, |specs|).Some? {
      ChainEnds(specs, ranks, id, |specs|);
    }
  }

  // ----- what stands for a type ------------------------------------------------------------------------

  const UNBOUNDED := Limits(None, None, None, None, None, None, None)

  /** The types of a union other than null, in order. */
  function Alternatives(world: World, types: seq<nat>): (r: seq<nat>)
    requires Known(world, types)
    ensures forall k :: 0 <= k < |r| ==> r[k] in types
  {
    if types == [] then []
    else if world[types[0]].NoneInfo? then Alternatives(world, types[1..])
    else [types[0]] + Alternatives(world, types[1..])
  }

  predicate HasNull(world: World, types: seq<nat>)
    requires Known(world, types)
  {
    exists k :: 0 <= k < |types| && world[types[k]].NoneInfo?
  }

  /** The plan names the nodes of the types. */
  predicate Names(known: map<nat, nat>, types: seq<nat>, nodes: seq<nat>) {
    |nodes| == |types| && forall k :: 0 <= k < |types| ==> types[k] in known && nodes[k] == known[types[k]]
  }

  predicate FieldStands(known: map<nat, nat>, info: InfoField, field: FieldPlan) {
    info.type_ in known && field == FieldPlan(info.wire, known[info.type_], info.fallback)
  }

  /** The node of a type, told from the type alone: a scalar keeps its bounds, a container leads to the nodes of its
      parts, a union is nullable exactly when null is one of its types and keeps the others in order, a struct keeps
      its class, its fields and what it does with unknown keys. */
  predicate NodeStands(world: World, known: map<nat, nat>, info: Info, node: Node)
    requires Known(world, Parts(info))
  {
    match info
    case AnyInfo => node == Node(AnyPlan, UNBOUNDED)
    case NoneInfo => node == Node(NonePlan, UNBOUNDED)
    case BoolInfo => node == Node(BoolPlan, UNBOUNDED)
    case IntInfo(limits) => node == Node(IntPlan, limits)
    case FloatInfo(limits) => node == Node(FloatPlan, limits)
    case StrInfo(limits) => node == Node(StrPlan, limits)
    case ListInfo(item, limits) => item in known && node == Node(ListPlan(known[item]), limits)
    case VarTupleInfo(item, limits) => item in known && node == Node(TuplePlan(known[item]), limits)
    case TupleInfo(items) => node.plan.FixedPlan? && node.limits == UNBOUNDED && Names(known, items, node.plan.positions)
    case DictInfo(key, value, limits) => key in known && value in known && node == Node(DictPlan(known[key], known[value]), limits)
    case UnionInfo(types) =>
      && node.plan.UnionPlan? && node.limits == UNBOUNDED
      && (node.plan.nullable <==> HasNull(world, types))
      && Names(known, Alternatives(world, types), node.plan.members)
    case StructInfo(class_, fields, forbid, _, _, _) =>
      && node.plan.ObjectPlan? && node.limits == UNBOUNDED
      && node.plan.object_.class_ == class_ && node.plan.object_.forbidUnknown == forbid
      && |node.plan.object_.fields| == |fields|
      && forall k :: 0 <= k < |fields| ==> FieldStands(known, fields[k], node.plan.object_.fields[k])
    case OtherInfo => false
  }

  ghost predicate Stands(world: World, known: map<nat, nat>, graph: Graph, id: nat) {
    && id in known && id < |world| && known[id] < |graph| && Known(world, Parts(world[id]))
    && NodeStands(world, known, world[id], graph[known[id]])
  }

  /** The node of a type is null's exactly when the type is. */
  lemma {:induction false} NoneStandsForNone(world: World, known: map<nat, nat>, specs: seq<Spec>, type_: nat)
    requires Pictures(world, known, specs) && type_ in known
    ensures type_ < |world| && known[type_] < |specs|
    ensures IsNone(specs, known[type_]) <==> world[type_].NoneInfo?
  {
    assert Mirrors(world, known, type_, specs[known[type_]]);
  }

  lemma {:induction false} MembersAre(world: World, known: map<nat, nat>, specs: seq<Spec>, types: seq<nat>)
    requires Known(world, types) && Covers(known, types)
    requires forall k :: 0 <= k < |types| ==> (IsNone(specs, known[types[k]]) <==> world[types[k]].NoneInfo?)
    ensures Names(known, Alternatives(world, types), OtherMembers(specs, Images(known, types)))
  {
    hide IsNone;
    if types != [] {
      var rest := types[1..];
      assert Images(known, types)[1..] == Images(known, rest);
      MembersAre(world, known, specs, rest);
    }
  }

  lemma {:induction false} NullsAgree(world: World, known: map<nat, nat>, specs: seq<Spec>, types: seq<nat>)
    requires Pictures(world, known, specs) && Known(world, types) && Covers(known, types)
    ensures forall k :: 0 <= k < |types| ==> (IsNone(specs, known[types[k]]) <==> world[types[k]].NoneInfo?)
  {
    forall k | 0 <= k < |types| ensures IsNone(specs, known[types[k]]) <==> world[types[k]].NoneInfo? {
      NoneStandsForNone(world, known, specs, types[k]);
    }
  }

  lemma {:induction false} UnionOfType(world: World, known: map<nat, nat>, specs: seq<Spec>, types: seq<nat>)
    requires Pictures(world, known, specs) && Known(world, types) && Covers(known, types)
    ensures NodeStands(world, known, UnionInfo(types), NativePlan(specs, UnionSpec(Images(known, types))))
  {
    hide Pictures, IsNone, Names, Alternatives, OtherMembers, SomeNone, HasNull;
    NullsAgree(world, known, specs, types);
    NullableIs(world, known, specs, types);
    MembersAre(world, known, specs, types);
    UnionNode(world, known, specs, types, Images(known, types));
  }

  lemma {:induction false} UnionNode(world: World, known: map<nat, nat>, specs: seq<Spec>, types: seq<nat>, items: seq<nat>)
    requires Known(world, types) && (SomeNone(specs, items) <==> HasNull(world, types))
    requires Names(known, Alternatives(world, types), OtherMembers(specs, items))
    ensures NodeStands(world, known, UnionInfo(types), NativePlan(specs, UnionSpec(items)))
  {
    hide Names, Alternatives, OtherMembers, SomeNone, HasNull, Known;
  }

  lemma {:induction false} NullableIs(world: World, known: map<nat, nat>, specs: seq<Spec>, types: seq<nat>)
    requires Known(world, types) && Covers(known, types)
    requires forall k :: 0 <= k < |types| ==> (IsNone(specs, known[types[k]]) <==> world[types[k]].NoneInfo?)
    ensures SomeNone(specs, Images(known, types)) <==> HasNull(world, types)
  {
    hide IsNone;
    var items := Images(known, types);
    if SomeNone(specs, items) {
      var k :| 0 <= k < |items| && IsNone(specs, items[k]);
      assert world[types[k]].NoneInfo?;
    }
    if HasNull(world, types) {
      var k :| 0 <= k < |types| && world[types[k]].NoneInfo?;
      assert IsNone(specs, items[k]);
    }
  }

  lemma {:induction false} NodeOfSpec(world: World, known: map<nat, nat>, specs: seq<Spec>, info: Info)
    requires Known(world, Parts(info)) && Covers(known, Parts(info)) && Support(world, info).Done? && !info.UnionInfo?
    ensures NodeStands(world, known, info, NativePlan(specs, Rebuilt(info, Images(known, Parts(info)))))
  {
    var parts := Images(known, Parts(info));
    match info
    case ListInfo(item, _) => assert Parts(info)[0] == item;
    case VarTupleInfo(item, _) => assert Parts(info)[0] == item;
    case DictInfo(key, value, _) => assert Parts(info)[0] == key && Parts(info)[1] == value;
    case StructInfo(_, fields, _, _, _, _) => assert forall k :: 0 <= k < |fields| ==> Parts(info)[k] == fields[k].type_;
    case _ =>
  }

  lemma {:induction false} NodeOfType(world: World, known: map<nat, nat>, specs: seq<Spec>, id: nat)
    requires Pictures(world, known, specs) && id in known
    ensures Stands(world, known, NativeGraph(specs), id)
  {
    var info, spec := world[id], specs[known[id]];
    assert Mirrors(world, known, id, spec);
    hide Pictures, NodeStands, NativePlan, Support;
    if info.UnionInfo? {
      UnionOfType(world, known, specs, info.types);
    } else {
      NodeOfSpec(world, known, specs, info);
    }
  }

  /** Compile an annotation down to the graph the decoder walks; the runtime's own check never objects. */
  method CompileNative(world: World, id: nat, target: Target)
    returns (r: Compiled<Target>, ghost known: map<nat, nat>, ghost specs: seq<Spec>)
    requires ClosedWorld(world) && id < |world|
    ensures r.Done? ==> ValidTarget(r.value) && |r.value.graph| <= 4096 && r.value.graph == NativeGraph(specs)
    ensures r.Done? ==> forall type_ :: type_ in known ==> Stands(world, known, r.value.graph, type_)
    ensures r.Done? ==> r.value.strict == target.strict && r.value.host == target.host
    ensures r.Done? ==> Pictures(world, known, specs) && id in known && known[id] == r.value.root
    ensures r.Refused? ==> Blamed(world, id, r.fault)
  {
    hide Blamed, Mirrors, Stands;
    var table: Compiled<PlanTable>;
    ghost var ranks;
    table, known, ranks := CompilePlan(world, id);
    specs := if table.Done? then table.value.specs else [];
    if table.Refused? { return Refused(table.fault), known, specs; }
    var graph := NativeGraph(table.value.specs);
    NativeInRange(table.value.specs, ranks);
    CompiledIsValid(table.value.specs, ranks);
    forall type_ | type_ in known ensures Stands(world, known, graph, type_) {
      NodeOfType(world, known, table.value.specs, type_);
    }
    var accepted := ValidateContainerChains(graph);
    if !accepted { return Refused(InvalidPlan), known, specs; }
    return Done(target.(graph := graph, root := table.value.root)), known, specs;
  }
}
