/**
 * The store of catalogue projections, as the steps between the awaits that fill it: requests
 * that find an answer, join a pass or start one; passes that copy what is stored when they
 * start and write when they finish; warms; graphs replaced underneath them
 * (`_rootsBeneath`, `_build`, `_project`, `_remember`, `_forgetOldest`, `_warm`).
 */
module Projections {
  import opened Options
  import opened OrderedMaps

  type Id = nat
  /** The filter a question is asked through. */
  type Scope = nat
  type Version = nat
  type Threshold = int
  type PassId = nat
  type RequestId = nat
  type SyncState = nat

  /** A group of states is filed under a name its order does not change. */
  type Signature = multiset<SyncState>

  const SCOPES_KEPT := 8
  const SCOPES_WARMED := 2

  datatype Graph = Graph(version: Version, threshold: Threshold)
  datatype Key = Key(scope: Scope, graph: Graph)

  type Sets = map<Signature, set<Id>>
  type Groups = seq<seq<SyncState>>

  /** What a projection of a scope answers, by the catalogue's version and the threshold. */
  type Catalogue = (Scope, Signature, Version, Threshold) -> set<Id>

  datatype Outcome = Running | Answered(sets: Sets) | Failed

  /**
   * A pass over the catalogue. `held` is the copy it took of what was stored, `missing` what
   * it is asking for, `read` the version its answer describes. Nothing is stored for a pass
   * without a graph. It can be seen to have ended once it is `settled`.
   */
  datatype Pass = Pass(
    scope: Scope, threshold: Threshold, graph: Option<Graph>, groups: Groups,
    held: Sets, missing: seq<seq<SyncState>>, read: Option<Version>, outcome: Outcome, settled: bool)

  datatype Progress =
    | Joined(pass: PassId)          // waiting for somebody else's pass
    | Building(pass: PassId)        // waiting for its own
    | Done(sets: seq<set<Id>>)
    | Refused

  datatype Request = Request(
    scope: Scope, threshold: Threshold, groups: Groups, graph: Option<Graph>, progress: Progress)

  datatype Store = Store(
    roots: seq<Entry<Key, Sets>>,
    warmable: seq<Entry<Scope, Groups>>,
    building: map<Key, PassId>,
    graph: Option<Graph>,
    passes: seq<Pass>,
    requests: map<RequestId, Request>)

  const EMPTY := Store([], [], map[], None, [], map[])

  function Signed(states: seq<SyncState>): Signature {
    multiset(states)
  }

  predicate HoldsAll(sets: Sets, groups: Groups) {
    forall g | g in groups :: Signed(g) in sets
  }

  /** The sets for a list of groups, in the order they were asked for. */
  function Read(sets: Sets, groups: Groups): (r: seq<set<Id>>)
    requires HoldsAll(sets, groups)
    ensures |r| == |groups| && forall i | 0 <= i < |r| :: r[i] == sets[Signed(groups[i])]
  {
    seq(|groups|, i requires 0 <= i < |groups| => sets[Signed(groups[i])])
  }

  function Missing(groups: Groups, sets: Sets): (r: Groups)
    ensures forall g :: g in r <==> g in groups && Signed(g) !in sets
  {
    if groups == [] then []
    else
      var last := groups[|groups| - 1];
      Missing(groups[..|groups| - 1], sets) + if Signed(last) in sets then [] else [last]
  }

  // --------------------------------------------------------------------------- the steps

  function Stored(s: Store, key: Key): Sets {
    var held := Find(s.roots, key);
    if held.Some? then held.value else map[]
  }

  /** A pass starts: it copies what is stored, and asks for the rest. Nothing missing is an answer already. */
  function Started(s: Store, scope: Scope, threshold: Threshold, groups: Groups, graph: Option<Graph>): Pass {
    var held := if graph.Some? then Stored(s, Key(scope, graph.value)) else map[];
    var missing := Missing(groups, held);
    Pass(scope, threshold, graph, groups, held, missing, None,
         if missing == [] then Answered(held) else Running, false)
  }

  /** Registered before it is awaited, so the next caller joins it. */
  function Built(s: Store, scope: Scope, graph: Graph, groups: Groups): Store {
    var pass := Started(s, scope, graph.threshold, groups, Some(graph));
    s.(passes := s.passes + [pass], building := s.building[Key(scope, graph) := |s.passes|])
  }

  function Asked(s: Store, id: RequestId, scope: Scope, groups: Groups, threshold: Threshold): Store {
    if s.graph.None? then
      var request := Request(scope, threshold, groups, None, Building(|s.passes|));
      s.(passes := s.passes + [Started(s, scope, threshold, groups, None)], requests := s.requests[id := request])
    else
      var graph := s.graph.value;
      var key := Key(scope, graph);
      var held := Find(s.roots, key);
      if held.Some? && HoldsAll(held.value, groups) then
        s.(requests :=
            s.requests[id := Request(scope, graph.threshold, groups, s.graph, Done(Read(held.value, groups)))])
      else if key in s.building then
        s.(requests := s.requests[id := Request(scope, graph.threshold, groups, s.graph, Joined(s.building[key]))])
      else
        Built(s, scope, graph, groups).(
          requests := s.requests[id := Request(scope, graph.threshold, groups, s.graph, Building(|s.passes|))])
  }

  /** The scope's question, with these groups added to what it was asked for before. */
  function Remembered(warmable: seq<Entry<Scope, Groups>>, scope: Scope, groups: Groups): seq<Entry<Scope, Groups>> {
    var known := Find(warmable, scope);
    Put(warmable, scope, Widened(if known.Some? then known.value else [], groups))
  }

  predicate Names(known: Groups, g: seq<SyncState>) {
    exists k | k in known :: Signed(k) == Signed(g)
  }

  /** Against the names it started with, as the loop does. */
  function WidenedBy(known: Groups, start: Groups, groups: Groups): Groups {
    if groups == [] then known
    else
      var last := groups[|groups| - 1];
      WidenedBy(known, start, groups[..|groups| - 1]) + if Names(start, last) then [] else [last]
  }

  function Widened(known: Groups, groups: Groups): Groups {
    WidenedBy(known, known, groups)
  }

  function Answers(catalogue: Catalogue, p: Pass, version: Version): Sets {
    p.held + map g | g in p.missing :: Signed(g) := catalogue(p.scope, Signed(g), version, p.threshold)
  }

  /** The answer comes: filed when it was read at the version of the pass's own graph, returned in any case. */
  function Finished(s: Store, id: PassId, catalogue: Catalogue, version: Version): Store {
    if id >= |s.passes| || !s.passes[id].outcome.Running? then s
    else
      var p := s.passes[id];
      var filled := Answers(catalogue, p, version);
      var t := s.(passes := s.passes[id := p.(read := Some(version), outcome := Answered(filled))]);
      if p.graph.Some? && p.graph.value.version == version then
        t.(roots := Trimmed(Put(s.roots, Key(p.scope, p.graph.value), filled), SCOPES_KEPT),
           warmable := Trimmed(Remembered(s.warmable, p.scope, p.groups), SCOPES_KEPT))
      else t
  }

  function Broken(s: Store, id: PassId): Store {
    if id >= |s.passes| || !s.passes[id].outcome.Running? then s
    else s.(passes := s.passes[id := s.passes[id].(outcome := Failed)])
  }

  /** The pass is over for whoever awaits it. Whatever is registered under its key is unregistered. */
  function Settled(s: Store, id: PassId): Store {
    if id >= |s.passes| || s.passes[id].outcome.Running? || s.passes[id].settled then s
    else
      var p := s.passes[id];
      s.(passes := s.passes[id := p.(settled := true)],
         building := if p.graph.Some? then s.building - {Key(p.scope, p.graph.value)} else s.building)
  }

  /** A request goes on once what it awaits is over. A joined pass is checked again rather than trusted. */
  function Resumed(s: Store, id: RequestId): Store {
    if id !in s.requests then s
    else
      var r := s.requests[id];
      match r.progress
      case Joined(pass) =>
        if pass >= |s.passes| || !s.passes[pass].settled then s
        else if s.passes[pass].outcome.Failed? then s.(requests := s.requests[id := r.(progress := Refused)])
        else if s.passes[pass].outcome.Answered? && HoldsAll(s.passes[pass].outcome.sets, r.groups) then
          s.(requests := s.requests[id := r.(progress := Done(Read(s.passes[pass].outcome.sets, r.groups)))])
        else if r.graph.Some? then
          Built(s, r.scope, r.graph.value, r.groups).(
            requests := s.requests[id := r.(progress := Building(|s.passes|))])
        else s
      case Building(pass) =>
        if pass >= |s.passes| || !s.passes[pass].settled then s
        else if s.passes[pass].outcome.Answered? && HoldsAll(s.passes[pass].outcome.sets, r.groups) then
          s.(requests := s.requests[id := r.(progress := Done(Read(s.passes[pass].outcome.sets, r.groups)))])
        else s.(requests := s.requests[id := r.(progress := Refused)])
      case _ => s
  }

  /** One scope's turn in a warm: nothing when its answer is already filed. */
  function Warmed(s: Store, scope: Scope, graph: Graph, groups: Groups): Store {
    if groups == [] || Find(s.roots, Key(scope, graph)).Some? then s else Built(s, scope, graph, groups)
  }

  datatype Step =
    | Ask(id: RequestId, scope: Scope, groups: Groups, threshold: Threshold)
    | Finish(pass: PassId, version: Version)
    | Break(pass: PassId)
    | Settle(pass: PassId)
    | Resume(id: RequestId)
    | Refresh(next: Graph)
    | Warm(scope: Scope, graph: Graph, groups: Groups)

  function Next(s: Store, catalogue: Catalogue, step: Step): Store {
    match step
    case Ask(id, scope, groups, threshold) => if id in s.requests then s else Asked(s, id, scope, groups, threshold)
    case Finish(pass, version) => Finished(s, pass, catalogue, version)
    case Break(pass) => Broken(s, pass)
    case Settle(pass) => Settled(s, pass)
    case Resume(id) => Resumed(s, id)
    case Refresh(graph) => s.(graph := Some(graph))
    case Warm(scope, graph, groups) => Warmed(s, scope, graph, groups)
  }

  function After(catalogue: Catalogue, steps: seq<Step>): Store {
    if steps == [] then EMPTY
    else Next(After(catalogue, steps[..|steps| - 1]), catalogue, steps[|steps| - 1])
  }
}
