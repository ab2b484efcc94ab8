/**
 * The manager that keeps the projections, one synchronous stretch a method: what it does
 * between two awaits. Its promises are the passes, and the callers awaiting them the requests
 * (`media-group.manager.ts`). Each stretch is a step of `Projections`.
 */
module MediaGroups {
  import opened Options
  import opened OrderedMaps
  import opened Projections

  class Manager {
    var roots: seq<Entry<Key, Sets>>
    var warmable: seq<Entry<Scope, Groups>>
    var building: map<Key, PassId>
    var graph: Option<Graph>
    var passes: seq<Pass>
    var requests: map<RequestId, Request>

    function State(): Store
      reads this
    {
      Store(roots, warmable, building, graph, passes, requests)
    }

    constructor ()
      ensures State() == EMPTY
    {
      roots, warmable, building, graph, passes, requests := [], [], map[], None, [], map[];
    }

    /** A pass is added that copied what is stored under its key and asks for nothing stored. */
    method Project(scope: Scope, groups: Groups, threshold: Threshold, graph: Option<Graph>) returns (pass: PassId)
      modifies this`passes
      ensures pass == |old(passes)|
      ensures passes == old(passes) + [Started(old(State()), scope, threshold, groups, graph)]
    {
      var filled: Sets := map[];
      if graph.Some? {
        var stored := Find(roots, Key(scope, graph.value));
        if stored.Some? {
          filled := stored.value;
        }
      }
      var missing: Groups := [];
      for i := 0 to |groups|
        invariant missing == Missing(groups[..i], filled)
      {
        assert groups[..i + 1][..i] == groups[..i];
        if Signed(groups[i]) !in filled {
          missing := missing + [groups[i]];
        }
      }
      assert groups[..|groups|] == groups;
      pass := |passes|;
      passes := passes + [
        Pass(scope, threshold, graph, groups, filled, missing, None,
             if |missing| == 0 then Answered(filled) else Running, false)];
    }

    /** One stretch starts the pass and registers it, so no other request can run in between. */
    method Build(scope: Scope, groups: Groups, graph: Graph) returns (pass: PassId)
      modifies this`passes, this`building
      ensures pass == |old(passes)| && State() == Built(old(State()), scope, graph, groups)
    {
      pass := Project(scope, groups, graph.threshold, Some(graph));
      building := building[Key(scope, graph) := pass];
    }

    /** Everything a request does before it first waits: it is answered, or it awaits a pass. */
    method RootsBeneath(id: RequestId, scope: Scope, groups: Groups, threshold: Threshold)
      requires id !in requests
      modifies this
      ensures State() == Asked(old(State()), id, scope, groups, threshold)
    {
      if graph.None? {
        var own := Project(scope, groups, threshold, None);
        requests := requests[id := Request(scope, threshold, groups, None, Building(own))];
        return;
      }
      var g := graph.value;
      var key := Key(scope, g);
      var held := Find(roots, key);
      if held.Some? && HoldsAll(held.value, groups) {
        requests := requests[id := Request(scope, g.threshold, groups, graph, Done(Read(held.value, groups)))];
        return;
      }
      if key in building {
        requests := requests[id := Request(scope, g.threshold, groups, graph, Joined(building[key]))];
        return;
      }
      var built := Build(scope, groups, g);
      requests := requests[id := Request(scope, g.threshold, groups, graph, Building(built))];
    }

    /** The scope goes to the back of the line, under every group it named and every one named now. */
    method Remember(scope: Scope, groups: Groups)
      modifies this`warmable
      ensures warmable == Remembered(old(warmable), scope, groups)
    {
      var found := Find(warmable, scope);
      var known := if found.Some? then found.value else [];
      var start := known;
      for i := 0 to |groups|
        invariant known == WidenedBy(start, start, groups[..i])
      {
        assert groups[..i + 1][..i] == groups[..i];
        if !Names(start, groups[i]) {
          known := known + [groups[i]];
        }
      }
      assert groups[..|groups|] == groups;
      warmable := Put(warmable, scope, known);
    }

    /** Only the last eight entries of either map stay, in their order. */
    method ForgetOldest()
      modifies this`roots, this`warmable
      ensures roots == Trimmed(old(roots), SCOPES_KEPT) && warmable == Trimmed(old(warmable), SCOPES_KEPT)
    {
      while |roots| > SCOPES_KEPT
        invariant |roots| <= |old(roots)| && roots == old(roots)[|old(roots)| - |roots|..]
        invariant |roots| >= SCOPES_KEPT || roots == old(roots)
        invariant warmable == old(warmable)
        decreases |roots|
      {
        roots := roots[1..];
      }
      while |warmable| > SCOPES_KEPT
        invariant |warmable| <= |old(warmable)| && warmable == old(warmable)[|old(warmable)| - |warmable|..]
        invariant |warmable| >= SCOPES_KEPT || warmable == old(warmable)
        invariant roots == Trimmed(old(roots), SCOPES_KEPT)
        decreases |warmable|
      {
        warmable := warmable[1..];
      }
    }

    /** File an answer under its key, at the back, and the question it answers with it. */
    method Keep(key: Key, groups: Groups, filled: Sets)
      modifies this`roots, this`warmable
      ensures roots == Trimmed(Put(old(roots), key, filled), SCOPES_KEPT)
      ensures warmable == Trimmed(Remembered(old(warmable), key.scope, groups), SCOPES_KEPT)
    {
      roots := Put(roots, key, filled);
      Remember(key.scope, groups);
      ForgetOldest();
    }

    /** The projection answered: the stretch after the await, to the end of the pass. */
    method Projected(pass: PassId, catalogue: Catalogue, version: Version)
      requires pass < |passes| && passes[pass].outcome.Running?
      modifies this`roots, this`warmable, this`passes
      ensures State() == Finished(old(State()), pass, catalogue, version)
    {
      var p := passes[pass];
      var filled := p.held + map g | g in p.missing :: Signed(g) := catalogue(p.scope, Signed(g), version, p.threshold);
      assert filled == Answers(catalogue, p, version);
      if p.graph.Some? && version == p.graph.value.version {
        Keep(Key(p.scope, p.graph.value), p.groups, filled);
      }
      passes := passes[pass := p.(read := Some(version), outcome := Answered(filled))];
    }

    /** What was put after every pass: unregister its key. */
    method Finally(pass: PassId)
      requires pass < |passes| && !passes[pass].outcome.Running? && !passes[pass].settled
      modifies this`building, this`passes
      ensures State() == Settled(old(State()), pass)
    {
      if passes[pass].graph.Some? {
        building := building - {Key(passes[pass].scope, passes[pass].graph.value)};
      }
      passes := passes[pass := passes[pass].(settled := true)];
    }

    /** A joined pass is over: its sets when they are all there, and otherwise a pass of one's own. */
    method AfterJoining(id: RequestId)
      requires id in requests && requests[id].progress.Joined? && requests[id].graph.Some?
      requires requests[id].progress.pass < |passes| && passes[requests[id].progress.pass].settled
      modifies this
      ensures State() == Resumed(old(State()), id)
    {
      var r := requests[id];
      var shared := passes[r.progress.pass].outcome;
      if shared.Failed? {
        requests := requests[id := r.(progress := Refused)];
        return;
      }
      if shared.Answered? && HoldsAll(shared.sets, r.groups) {
        requests := requests[id := r.(progress := Done(Read(shared.sets, r.groups)))];
        return;
      }
      var built := Build(r.scope, r.groups, r.graph.value);
      requests := requests[id := r.(progress := Building(built))];
    }

    /** One's own pass is over: its sets, or its failure. */
    method AfterBuilding(id: RequestId)
      requires id in requests && requests[id].progress.Building?
      requires requests[id].progress.pass < |passes| && passes[requests[id].progress.pass].settled
      requires passes[requests[id].progress.pass].outcome.Answered? ==>
                 HoldsAll(passes[requests[id].progress.pass].outcome.sets, requests[id].groups)
      modifies this`requests
      ensures State() == Resumed(old(State()), id)
      ensures requests[id].progress.Done? <==> passes[old(requests)[id].progress.pass].outcome.Answered?
    {
      var r := requests[id];
      var built := passes[r.progress.pass].outcome;
      requests := requests[id := r.(progress := if built.Answered? then Done(Read(built.sets, r.groups)) else Refused)];
    }

    /** The scopes a refresh warms, in turn: the two last stored, the very last first. */
    method Recent() returns (recent: seq<Entry<Scope, Groups>>)
      ensures |recent| == if |warmable| < SCOPES_WARMED then |warmable| else SCOPES_WARMED
      ensures forall i | 0 <= i < |recent| :: recent[i] == warmable[|warmable| - 1 - i]
    {
      recent := [];
      var i := |warmable|;
      while i > 0 && |recent| < SCOPES_WARMED
        invariant 0 <= i <= |warmable| && i + |recent| == |warmable| && |recent| <= SCOPES_WARMED
        invariant forall j | 0 <= j < |recent| :: recent[j] == warmable[|warmable| - 1 - j]
        decreases i
      {
        i := i - 1;
        recent := recent + [warmable[i]];
      }
    }

    /** One scope's turn. Answers the pass to await before the next one's, when there is one. */
    method WarmOne(scope: Scope, groups: Groups, graph: Graph) returns (pass: Option<PassId>)
      modifies this`passes, this`building
      ensures State() == Warmed(old(State()), scope, graph, groups)
      ensures pass == if State() == old(State()) then None else Some(|old(passes)|)
    {
      var filed := Find(roots, Key(scope, graph));
      if filed.Some? || |groups| == 0 {
        return None;
      }
      var built := Build(scope, groups, graph);
      assert |passes| == |old(passes)| + 1;
      return Some(built);
    }

    /** The graph is replaced, by a refresh or by a request that had to build its own. */
    method Swap(next: Graph)
      modifies this`graph
      ensures State() == Next(old(State()), (scope, g, version, threshold) => {}, Refresh(next))
    {
      graph := Some(next);
    }
  }
}
