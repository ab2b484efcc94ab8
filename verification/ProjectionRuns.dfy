/**
 * What holds of the projection store in every interleaving: what is filed is what one
 * projection of that scope over that catalogue answers, every request gets a true set for
 * every group of states it asked about, and what is kept is what was stored last.
 */
module ProjectionRuns {
  import opened Options
  import opened OrderedMaps
  import opened Projections

  /** Each set is the projection of the scope at one version. */
  ghost predicate TrueAt(catalogue: Catalogue, scope: Scope, graph: Graph, sets: Sets) {
    forall g | g in sets :: sets[g] == catalogue(scope, g, graph.version, graph.threshold)
  }

  /** Filed under a version is projected at that version. */
  ghost predicate RootsAreTrue(s: Store, catalogue: Catalogue) {
    forall e | e in s.roots :: TrueAt(catalogue, e.key.scope, e.key.graph, e.value)
  }

  /** The set is a projection at the version of the graph, or at the one the pass read. */
  ghost predicate Projected(
    catalogue: Catalogue, scope: Scope, threshold: Threshold, graph: Option<Graph>, read: Option<Version>,
    g: Signature, ids: set<Id>)
  {
    || (graph.Some? && ids == catalogue(scope, g, graph.value.version, threshold))
    || (read.Some? && ids == catalogue(scope, g, read.value, threshold))
  }

  ghost predicate PassIsTrue(catalogue: Catalogue, p: Pass) {
    && (if p.graph.Some? then
          p.threshold == p.graph.value.threshold && TrueAt(catalogue, p.scope, p.graph.value, p.held)
        else p.held == map[])
    && (p.outcome.Running? ==> p.read.None?)
    && (forall g | g in p.groups :: Signed(g) in p.held || g in p.missing)
    && (p.outcome.Answered? ==>
          && HoldsAll(p.outcome.sets, p.groups)
          && forall g | g in p.outcome.sets ::
               Projected(catalogue, p.scope, p.threshold, p.graph, p.read, g, p.outcome.sets[g]))
  }

  ghost predicate PassesAreTrue(s: Store, catalogue: Catalogue) {
    forall p | p in s.passes :: PassIsTrue(catalogue, p)
  }

  /** The pass is about what the request asked. */
  predicate Concerns(p: Pass, r: Request) {
    p.scope == r.scope && p.threshold == r.threshold && p.graph == r.graph
  }

  /** The set comes from the request's own catalogue, or from a pass over another that concerned it. */
  ghost predicate Comes(s: Store, catalogue: Catalogue, r: Request, g: Signature, ids: set<Id>) {
    || (r.graph.Some? && ids == catalogue(r.scope, g, r.graph.value.version, r.threshold))
    || exists p | p in s.passes ::
         Concerns(p, r) && p.read.Some? && ids == catalogue(r.scope, g, p.read.value, r.threshold)
  }

  ghost predicate RequestIsTrue(s: Store, catalogue: Catalogue, r: Request) {
    && (r.graph.Some? ==> r.threshold == r.graph.value.threshold)
    && match r.progress
       case Joined(pass) => r.graph.Some? && pass < |s.passes| && Concerns(s.passes[pass], r)
       case Building(pass) => pass < |s.passes| && Concerns(s.passes[pass], r) && s.passes[pass].groups == r.groups
       case Done(sets) =>
         |sets| == |r.groups| && forall i | 0 <= i < |sets| :: Comes(s, catalogue, r, Signed(r.groups[i]), sets[i])
       case Refused => true
  }

  ghost predicate RequestsAreTrue(s: Store, catalogue: Catalogue) {
    forall id | id in s.requests :: RequestIsTrue(s, catalogue, s.requests[id])
  }

  /** What is registered under a key is a pass for that key that nobody has been told is over. */
  ghost predicate BuildingIsLive(s: Store) {
    forall key | key in s.building ::
      var id := s.building[key];
      && id < |s.passes| && !s.passes[id].settled
      && s.passes[id].scope == key.scope && s.passes[id].graph == Some(key.graph)
      && s.passes[id].threshold == key.graph.threshold
  }

  ghost predicate Sound(s: Store, catalogue: Catalogue) {
    RootsAreTrue(s, catalogue) && PassesAreTrue(s, catalogue) && RequestsAreTrue(s, catalogue) && BuildingIsLive(s)
  }

  // -------------------------------------------------------------------------- the passes

  lemma StoredIsTrue(s: Store, catalogue: Catalogue, key: Key)
    requires RootsAreTrue(s, catalogue)
    ensures TrueAt(catalogue, key.scope, key.graph, Stored(s, key))
  {
  }

  lemma StartedIsTrue(
    s: Store, catalogue: Catalogue, scope: Scope, threshold: Threshold, groups: Groups, graph: Option<Graph>)
    requires RootsAreTrue(s, catalogue) && (graph.Some? ==> threshold == graph.value.threshold)
    ensures PassIsTrue(catalogue, Started(s, scope, threshold, groups, graph))
  {
    if graph.Some? {
      StoredIsTrue(s, catalogue, Key(scope, graph.value));
    }
  }

  lemma AnsweredIsTrue(catalogue: Catalogue, p: Pass, version: Version)
    requires PassIsTrue(catalogue, p) && p.outcome.Running?
    ensures PassIsTrue(catalogue, p.(read := Some(version), outcome := Answered(Answers(catalogue, p, version))))
    ensures p.graph.Some? && p.graph.value.version == version ==>
              TrueAt(catalogue, p.scope, p.graph.value, Answers(catalogue, p, version))
  {
    var filled := Answers(catalogue, p, version);
    forall g | g in p.groups
      ensures Signed(g) in filled
    {
      if g in p.missing {
        assert Signed(g) in (map h | h in p.missing ::
            Signed(h) := catalogue(p.scope, Signed(h), version, p.threshold));
      }
    }
  }

  /** Passes are only added, and keep what they are about and what they read. */
  ghost predicate Grows(s: Store, t: Store) {
    && |s.passes| <= |t.passes|
    && forall i | 0 <= i < |s.passes| ::
         && t.passes[i].scope == s.passes[i].scope && t.passes[i].threshold == s.passes[i].threshold
         && t.passes[i].graph == s.passes[i].graph && t.passes[i].groups == s.passes[i].groups
         && (s.passes[i].read.Some? ==> t.passes[i].read == s.passes[i].read)
  }

  lemma RequestStaysTrue(s: Store, t: Store, catalogue: Catalogue, r: Request)
    requires RequestIsTrue(s, catalogue, r) && Grows(s, t)
    ensures RequestIsTrue(t, catalogue, r)
  {
    if r.progress.Done? {
      forall i | 0 <= i < |r.progress.sets|
        ensures Comes(t, catalogue, r, Signed(r.groups[i]), r.progress.sets[i])
      {
        ComesStill(s, t, catalogue, r, Signed(r.groups[i]), r.progress.sets[i]);
      }
    }
  }

  lemma ComesStill(s: Store, t: Store, catalogue: Catalogue, r: Request, g: Signature, ids: set<Id>)
    requires Comes(s, catalogue, r, g, ids) && Grows(s, t)
    ensures Comes(t, catalogue, r, g, ids)
  {
    if !(r.graph.Some? && ids == catalogue(r.scope, g, r.graph.value.version, r.threshold)) {
      var p :| p in s.passes && Concerns(p, r) && p.read.Some?
          && ids == catalogue(r.scope, g, p.read.value, r.threshold);
      var i :| 0 <= i < |s.passes| && s.passes[i] == p;
      assert t.passes[i] in t.passes;
    }
  }

  lemma RequestsStayTrue(s: Store, t: Store, catalogue: Catalogue)
    requires RequestsAreTrue(s, catalogue) && Grows(s, t) && t.requests == s.requests
    ensures RequestsAreTrue(t, catalogue)
  {
    forall id | id in t.requests
      ensures RequestIsTrue(t, catalogue, t.requests[id])
    {
      RequestStaysTrue(s, t, catalogue, s.requests[id]);
    }
  }

  lemma BuiltIsSound(s: Store, catalogue: Catalogue, scope: Scope, graph: Graph, groups: Groups)
    requires Sound(s, catalogue)
    ensures Sound(Built(s, scope, graph, groups), catalogue) && Grows(s, Built(s, scope, graph, groups))
  {
    var t := Built(s, scope, graph, groups);
    StartedIsTrue(s, catalogue, scope, graph.threshold, groups, Some(graph));
    RequestsStayTrue(s, t, catalogue);
  }

  /** The pass has an answer for every group it was asked, each from the catalogue of its graph or the one it read. */
  ghost predicate AnswersEveryGroup(s: Store, catalogue: Catalogue, id: PassId, version: Version)
    requires id < |s.passes|
  {
    var p := s.passes[id];
    && p.outcome.Answered? && HoldsAll(p.outcome.sets, p.groups)
    && forall g | g in p.outcome.sets ::
        Projected(catalogue, p.scope, p.threshold, p.graph, Some(version), g, p.outcome.sets[g])
  }

  lemma FinishedRootsAreTrue(s: Store, catalogue: Catalogue, id: PassId, version: Version)
    requires RootsAreTrue(s, catalogue) && id < |s.passes| && s.passes[id].outcome.Running?
    requires PassIsTrue(catalogue, s.passes[id])
    ensures RootsAreTrue(Finished(s, id, catalogue, version), catalogue)
  {
    var p, t := s.passes[id], Finished(s, id, catalogue, version);
    AnsweredIsTrue(catalogue, p, version);
    if p.graph.Some? && p.graph.value.version == version {
      var key := Key(p.scope, p.graph.value);
      InWithout(s.roots, key);
      forall e | e in t.roots
        ensures TrueAt(catalogue, e.key.scope, e.key.graph, e.value)
      {
        assert e in Put(s.roots, key, Answers(catalogue, p, version));
      }
    }
  }

  lemma FinishedAnswers(s: Store, catalogue: Catalogue, id: PassId, version: Version)
    requires id < |s.passes| && s.passes[id].outcome.Running? && PassIsTrue(catalogue, s.passes[id])
    ensures
      var t := Finished(s, id, catalogue, version);
      && |t.passes| == |s.passes| && AnswersEveryGroup(t, catalogue, id, version)
      && PassIsTrue(catalogue, t.passes[id]) && Grows(s, t)
  {
    AnsweredIsTrue(catalogue, s.passes[id], version);
  }

  /** The answer is filed under the pass's key, at its graph's version, and nothing is at any other. */
  lemma FinishedIsFiledIff(s: Store, catalogue: Catalogue, id: PassId, version: Version)
    requires id < |s.passes| && s.passes[id].outcome.Running?
    ensures
      var p, t := s.passes[id], Finished(s, id, catalogue, version);
      && |t.passes| == |s.passes| && t.passes[id].outcome.Answered?
      && if p.graph.Some? && p.graph.value.version == version then
           Find(t.roots, Key(p.scope, p.graph.value)) == Some(t.passes[id].outcome.sets)
         else t.roots == s.roots && t.warmable == s.warmable
  {
    var p := s.passes[id];
    if p.graph.Some? && p.graph.value.version == version {
      PutIsFound(s.roots, Key(p.scope, p.graph.value), Answers(catalogue, p, version), SCOPES_KEPT);
    }
  }

  /** Returned whatever version the answer describes, filed only when it is the one its key names. */
  lemma FinishedIsSound(s: Store, catalogue: Catalogue, id: PassId, version: Version)
    requires Sound(s, catalogue)
    ensures Sound(Finished(s, id, catalogue, version), catalogue)
    ensures
      var t := Finished(s, id, catalogue, version);
      id < |s.passes| && s.passes[id].outcome.Running? ==>
        && |t.passes| == |s.passes| && AnswersEveryGroup(t, catalogue, id, version)
        && var p := s.passes[id];
           if p.graph.Some? && p.graph.value.version == version then
             Find(t.roots, Key(p.scope, p.graph.value)) == Some(t.passes[id].outcome.sets)
           else t.roots == s.roots && t.warmable == s.warmable
  {
    if id < |s.passes| && s.passes[id].outcome.Running? {
      assert s.passes[id] in s.passes;
      FinishedRootsAreTrue(s, catalogue, id, version);
      FinishedAnswers(s, catalogue, id, version);
      FinishedIsFiledIff(s, catalogue, id, version);
      RequestsStayTrue(s, Finished(s, id, catalogue, version), catalogue);
    }
  }

  lemma BrokenIsSound(s: Store, catalogue: Catalogue, id: PassId)
    requires Sound(s, catalogue)
    ensures Sound(Broken(s, id), catalogue)
  {
    if id < |s.passes| && s.passes[id].outcome.Running? {
      assert s.passes[id] in s.passes;
      RequestsStayTrue(s, Broken(s, id), catalogue);
    }
  }

  lemma SettledIsSound(s: Store, catalogue: Catalogue, id: PassId)
    requires Sound(s, catalogue)
    ensures Sound(Settled(s, id), catalogue)
  {
    var t := Settled(s, id);
    if t != s {
      assert s.passes[id] in s.passes;
      RequestsStayTrue(s, t, catalogue);
    }
  }

  // ------------------------------------------------------------------------ the requests

  /** A request is added or goes on, once what it says is true of the store it says it in. */
  lemma WithRequest(s: Store, catalogue: Catalogue, id: RequestId, r: Request)
    requires Sound(s, catalogue) && RequestIsTrue(s, catalogue, r)
    ensures Sound(s.(requests := s.requests[id := r]), catalogue)
  {
    var t := s.(requests := s.requests[id := r]);
    forall other | other in t.requests
      ensures RequestIsTrue(t, catalogue, t.requests[other])
    {
      if other == id {
        RequestStaysTrue(s, t, catalogue, r);
      } else {
        RequestStaysTrue(s, t, catalogue, s.requests[other]);
      }
    }
  }

  lemma HeldComes(s: Store, catalogue: Catalogue, r: Request, held: Sets)
    requires Sound(s, catalogue) && r.graph.Some? && r.threshold == r.graph.value.threshold
    requires TrueAt(catalogue, r.scope, r.graph.value, held) && HoldsAll(held, r.groups)
    ensures RequestIsTrue(s, catalogue, r.(progress := Done(Read(held, r.groups))))
  {
  }

  /** What a pass answers, a request that concerned it may be told. */
  lemma SharedComes(s: Store, catalogue: Catalogue, r: Request, id: PassId)
    requires Sound(s, catalogue) && (r.graph.Some? ==> r.threshold == r.graph.value.threshold)
    requires id < |s.passes| && Concerns(s.passes[id], r)
    requires s.passes[id].outcome.Answered? && HoldsAll(s.passes[id].outcome.sets, r.groups)
    ensures RequestIsTrue(s, catalogue, r.(progress := Done(Read(s.passes[id].outcome.sets, r.groups))))
  {
    var p := s.passes[id];
    assert p in s.passes && PassIsTrue(catalogue, p);
    forall g | g in p.outcome.sets
      ensures Comes(s, catalogue, r, g, p.outcome.sets[g])
    {
      assert Projected(catalogue, p.scope, p.threshold, p.graph, p.read, g, p.outcome.sets[g]);
    }
    var u := r.(progress := Done(Read(p.outcome.sets, r.groups)));
    forall i | 0 <= i < |r.groups|
      ensures Comes(s, catalogue, u, Signed(r.groups[i]), p.outcome.sets[Signed(r.groups[i])])
    {
      assert r.groups[i] in r.groups;
      assert Comes(s, catalogue, r, Signed(r.groups[i]), p.outcome.sets[Signed(r.groups[i])]);
      AnyProgress(s, catalogue, r, u, Signed(r.groups[i]), p.outcome.sets[Signed(r.groups[i])]);
    }
  }

  lemma AnyProgress(s: Store, catalogue: Catalogue, r: Request, u: Request, g: Signature, ids: set<Id>)
    requires Comes(s, catalogue, r, g, ids) && u == r.(progress := u.progress)
    ensures Comes(s, catalogue, u, g, ids)
  {
  }

  lemma AskedIsSound(s: Store, catalogue: Catalogue, id: RequestId, scope: Scope, groups: Groups, threshold: Threshold)
    requires Sound(s, catalogue)
    ensures Sound(Asked(s, id, scope, groups, threshold), catalogue)
  {
    if s.graph.None? {
      StartedIsTrue(s, catalogue, scope, threshold, groups, None);
      var t := s.(passes := s.passes + [Started(s, scope, threshold, groups, None)]);
      RequestsStayTrue(s, t, catalogue);
      WithRequest(t, catalogue, id, Request(scope, threshold, groups, None, Building(|s.passes|)));
    } else {
      var graph := s.graph.value;
      var key := Key(scope, graph);
      var held := Find(s.roots, key);
      if held.Some? && HoldsAll(held.value, groups) {
        StoredIsTrue(s, catalogue, key);
        HeldComes(s, catalogue, Request(scope, graph.threshold, groups, s.graph, Refused), held.value);
        WithRequest(s, catalogue, id, Request(scope, graph.threshold, groups, s.graph, Done(Read(held.value, groups))));
      } else if key in s.building {
        WithRequest(s, catalogue, id, Request(scope, graph.threshold, groups, s.graph, Joined(s.building[key])));
      } else {
        BuiltIsSound(s, catalogue, scope, graph, groups);
        WithRequest(
          Built(s, scope, graph, groups), catalogue, id,
          Request(scope, graph.threshold, groups, s.graph, Building(|s.passes|)));
      }
    }
  }

  /** The request awaits a pass of its own, which asks for every group of it the store does not hold. */
  ghost predicate AsksForItself(s: Store, t: Store, id: RequestId)
    requires id in s.requests && s.requests[id].graph.Some?
  {
    var r, own := s.requests[id], |s.passes|;
    && id in t.requests && t.requests[id] == r.(progress := Building(own)) && |t.passes| == own + 1
    && t.passes[own].groups == r.groups && !t.passes[own].settled
    && forall g | g in r.groups :: g in t.passes[own].missing <==> Signed(g) !in Stored(s, Key(r.scope, r.graph.value))
  }

  /** A request that joined a pass takes its answer only if it has every group, and asks again otherwise. */
  lemma ResumedIsSound(s: Store, catalogue: Catalogue, id: RequestId)
    requires Sound(s, catalogue)
    ensures Sound(Resumed(s, id), catalogue)
    ensures
      id in s.requests && s.requests[id].progress.Joined? ==>
        var r, t := s.requests[id], Resumed(s, id);
        && r.progress.pass < |s.passes| && r.graph.Some?
        && var p := s.passes[r.progress.pass];
           p.settled && p.outcome.Answered? ==>
             if HoldsAll(p.outcome.sets, r.groups) then
               id in t.requests && t.requests[id].progress == Done(Read(p.outcome.sets, r.groups))
             else AsksForItself(s, t, id)
  {
    if id in s.requests {
      var r := s.requests[id];
      assert RequestIsTrue(s, catalogue, r);
      if (r.progress.Joined? || r.progress.Building?) && s.passes[r.progress.pass].settled {
        var p := s.passes[r.progress.pass];
        if p.outcome.Answered? && HoldsAll(p.outcome.sets, r.groups) {
          SharedComes(s, catalogue, r, r.progress.pass);
          WithRequest(s, catalogue, id, r.(progress := Done(Read(p.outcome.sets, r.groups))));
        } else if r.progress.Building? || p.outcome.Failed? {
          WithRequest(s, catalogue, id, r.(progress := Refused));
        } else {
          BuiltIsSound(s, catalogue, r.scope, r.graph.value, r.groups);
          WithRequest(
            Built(s, r.scope, r.graph.value, r.groups), catalogue, id, r.(progress := Building(|s.passes|)));
        }
      }
    }
  }

  // ------------------------------------------------------------------------------- runs

  lemma StepsAreSound(s: Store, catalogue: Catalogue, step: Step)
    requires Sound(s, catalogue)
    ensures Sound(Next(s, catalogue, step), catalogue)
  {
    match step
    case Ask(id, scope, groups, threshold) =>
      if id !in s.requests {
        AskedIsSound(s, catalogue, id, scope, groups, threshold);
      }
    case Finish(pass, version) => FinishedIsSound(s, catalogue, pass, version);
    case Break(pass) => BrokenIsSound(s, catalogue, pass);
    case Settle(pass) => SettledIsSound(s, catalogue, pass);
    case Resume(id) => ResumedIsSound(s, catalogue, id);
    case Refresh(graph) => RequestsStayTrue(s, s.(graph := Some(graph)), catalogue);
    case Warm(scope, graph, groups) =>
      if groups != [] && Find(s.roots, Key(scope, graph)).None? {
        BuiltIsSound(s, catalogue, scope, graph, groups);
      }
  }

  /**
   * In every interleaving of requests, passes, warms and graphs replaced underneath them:
   * what is filed under a scope, a version and a threshold is what one projection of that
   * scope over that catalogue answers, and so is all that anybody is told.
   */
  lemma {:induction false} RunsAreSound(catalogue: Catalogue, steps: seq<Step>)
    ensures Sound(After(catalogue, steps), catalogue)
  {
    if steps != [] {
      RunsAreSound(catalogue, steps[..|steps| - 1]);
      StepsAreSound(After(catalogue, steps[..|steps| - 1]), catalogue, steps[|steps| - 1]);
    }
  }

  /**
   * Nobody is left waiting, or told nothing is beneath when nobody looked: a request whose
   * own pass is over is told a set for every group it asked about, unless the pass broke; one
   * that joined a pass is, or starts its own.
   */
  lemma AnsweredForEveryGroup(catalogue: Catalogue, steps: seq<Step>, id: RequestId)
    requires
      var s := After(catalogue, steps);
      && id in s.requests && (s.requests[id].progress.Joined? || s.requests[id].progress.Building?)
      && (s.requests[id].progress.pass < |s.passes| ==> s.passes[s.requests[id].progress.pass].settled)
    ensures
      var s, t := After(catalogue, steps), Next(After(catalogue, steps), catalogue, Resume(id));
      var r := s.requests[id];
      && r.progress.pass < |s.passes|
      && match t.requests[id].progress
         case Done(sets) => |sets| == |r.groups|
         case Building(pass) => r.progress.Joined? && pass == |s.passes| < |t.passes|
             && t.passes[pass].groups == r.groups
         case Refused => !s.passes[r.progress.pass].outcome.Answered?
         case Joined(_) => false
  {
    var s := After(catalogue, steps);
    RunsAreSound(catalogue, steps);
    var r := s.requests[id];
    assert RequestIsTrue(s, catalogue, r);
    assert s.passes[r.progress.pass] in s.passes && PassIsTrue(catalogue, s.passes[r.progress.pass]);
  }

  /** What a request is told at once is of the very catalogue it read. */
  lemma ToldAtOnceIsCurrent(
    catalogue: Catalogue, steps: seq<Step>, id: RequestId, scope: Scope, groups: Groups, threshold: Threshold)
    requires id !in After(catalogue, steps).requests
    ensures
      var s, t := After(catalogue, steps), Next(After(catalogue, steps), catalogue, Ask(id, scope, groups, threshold));
      id in t.requests && (t.requests[id].progress.Done? ==>
        s.graph.Some? && |t.requests[id].progress.sets| == |groups|
        && forall i | 0 <= i < |groups| ::
             t.requests[id].progress.sets[i] ==
               catalogue(scope, Signed(groups[i]), s.graph.value.version, s.graph.value.threshold))
  {
    var s := After(catalogue, steps);
    RunsAreSound(catalogue, steps);
    if s.graph.Some? {
      StoredIsTrue(s, catalogue, Key(scope, s.graph.value));
    }
  }

  /** Tabs that open at once on one scope share one walk: the second starts nothing. */
  lemma TabsShareOnePass(
    s: Store, first: RequestId, second: RequestId, scope: Scope, groups: Groups, others: Groups, threshold: Threshold)
    requires s.graph.Some? && first !in s.requests && second !in s.requests && first != second
    ensures
      var t := Asked(s, first, scope, groups, threshold);
      var u := Asked(t, second, scope, others, threshold);
      && |t.passes| <= |s.passes| + 1
      && (Key(scope, s.graph.value) in t.building ==> u.passes == t.passes)
      && (!t.requests[first].progress.Done? ==> Key(scope, s.graph.value) in t.building)
  {
  }

  // ------------------------------------------------------------------------- what is kept

  /** The key a step stores under, if it stores. */
  function StoresUnder(s: Store, step: Step): Option<Key> {
    if step.Finish? && step.pass < |s.passes| && s.passes[step.pass].outcome.Running?
       && s.passes[step.pass].graph.Some? && s.passes[step.pass].graph.value.version == step.version then
      Some(Key(s.passes[step.pass].scope, s.passes[step.pass].graph.value))
    else None
  }

  /** Every key stored under, in order. */
  function Log(catalogue: Catalogue, steps: seq<Step>): seq<Key> {
    if steps == [] then []
    else
      var before := steps[..|steps| - 1];
      var stored := StoresUnder(After(catalogue, before), steps[|steps| - 1]);
      Log(catalogue, before) + if stored.Some? then [stored.value] else []
  }

  function Scopes(keys: seq<Key>): seq<Scope> {
    if keys == [] then [] else Scopes(keys[..|keys| - 1]) + [keys[|keys| - 1].scope]
  }

  /** Both stores hold exactly the eight most recently stored distinct keys of the log, in that order. */
  ghost predicate KeepsTheMostRecent(s: Store, log: seq<Key>) {
    && Keys(s.roots) == MostRecent(log, SCOPES_KEPT)
    && Keys(s.warmable) == MostRecent(Scopes(log), SCOPES_KEPT)
  }

  lemma StoringKeepsRecency(s: Store, catalogue: Catalogue, log: seq<Key>, step: Step)
    requires StoresUnder(s, step).Some? && KeepsTheMostRecent(s, log)
    ensures KeepsTheMostRecent(Next(s, catalogue, step), log + [StoresUnder(s, step).value])
  {
    var p, key := s.passes[step.pass], StoresUnder(s, step).value;
    PutKeepsRecency(s.roots, log, key, Answers(catalogue, p, step.version), SCOPES_KEPT);
    var known := Find(s.warmable, p.scope);
    PutKeepsRecency(
      s.warmable, Scopes(log), p.scope, Widened(if known.Some? then known.value else [], p.groups), SCOPES_KEPT);
    assert (log + [key])[..|log|] == log;
  }

  /** In every run, what is kept is what was stored last. */
  lemma {:induction false} RunsKeepTheMostRecent(catalogue: Catalogue, steps: seq<Step>)
    ensures KeepsTheMostRecent(After(catalogue, steps), Log(catalogue, steps))
  {
    if steps == [] {
      NothingKept();
    } else {
      var before, last := steps[..|steps| - 1], steps[|steps| - 1];
      RunsKeepTheMostRecent(catalogue, before);
      OneMoreStored(After(catalogue, before), catalogue, Log(catalogue, before), last);
    }
  }

  lemma NothingKept()
    ensures KeepsTheMostRecent(EMPTY, [])
  {
  }

  lemma OneMoreStored(s: Store, catalogue: Catalogue, log: seq<Key>, step: Step)
    requires KeepsTheMostRecent(s, log)
    ensures KeepsTheMostRecent(
              Next(s, catalogue, step),
              log + if StoresUnder(s, step).Some? then [StoresUnder(s, step).value] else [])
  {
    if StoresUnder(s, step).Some? {
      StoringKeepsRecency(s, catalogue, log, step);
    } else {
      OnlyStoringStepsStore(s, catalogue, step);
      assert log + [] == log;
    }
  }

  lemma OnlyStoringStepsStore(s: Store, catalogue: Catalogue, step: Step)
    requires StoresUnder(s, step).None?
    ensures Next(s, catalogue, step).roots == s.roots && Next(s, catalogue, step).warmable == s.warmable
  {
  }

  lemma {:induction false} WidenedNames(known: Groups, start: Groups, groups: Groups)
    requires forall k | k in start :: k in known
    ensures forall k | k in known :: k in WidenedBy(known, start, groups)
    ensures forall g | g in groups :: Names(WidenedBy(known, start, groups), g)
  {
    if groups != [] {
      var before, last := groups[..|groups| - 1], groups[|groups| - 1];
      WidenedNames(known, start, before);
      var was, now := WidenedBy(known, start, before), WidenedBy(known, start, groups);
      forall g | g in groups
        ensures Names(now, g)
      {
        if g == last {
          if Names(start, last) {
            var k :| k in start && Signed(k) == Signed(last);
            assert k in now;
          } else {
            assert last in now;
          }
        } else {
          assert g in before;
          var k :| k in was && Signed(k) == Signed(g);
          assert k in now;
        }
      }
    }
  }

  /** What a scope is warmed for next is all it was asked for, last time and before. */
  lemma RememberedNamesAll(warmable: seq<Entry<Scope, Groups>>, scope: Scope, groups: Groups)
    ensures
      var t := Remembered(warmable, scope, groups);
      var known := Find(warmable, scope);
      && t != [] && t[|t| - 1].key == scope
      && (forall g | g in groups :: Names(t[|t| - 1].value, g))
      && (known.Some? ==> forall k | k in known.value :: k in t[|t| - 1].value)
  {
    var known := Find(warmable, scope);
    var start := if known.Some? then known.value else [];
    WidenedNames(start, start, groups);
  }

  // ------------------------------------------------------------------- what can be lost

  /** Passes over one scope and one graph. */
  predicate Overlap(s: Store, a: PassId, b: PassId) {
    && a < |s.passes| && b < |s.passes| && a != b
    && s.passes[a].outcome.Running? && s.passes[b].outcome.Running?
    && s.passes[a].scope == s.passes[b].scope && s.passes[a].graph == s.passes[b].graph
  }

  predicate Answering(p: Pass, g: Signature) {
    g in p.held || exists h | h in p.missing :: Signed(h) == g
  }

  lemma StoredByFinish(s: Store, catalogue: Catalogue, id: PassId, version: Version)
    requires StoresUnder(s, Finish(id, version)).Some?
    ensures
      var p := s.passes[id];
      Stored(Finished(s, id, catalogue, version), Key(p.scope, p.graph.value)) == Answers(catalogue, p, version)
  {
    var p := s.passes[id];
    PutIsFound(s.roots, Key(p.scope, p.graph.value), Answers(catalogue, p, version), SCOPES_KEPT);
  }

  lemma AnswersAre(catalogue: Catalogue, p: Pass, version: Version, g: Signature)
    ensures g in Answers(catalogue, p, version) <==> Answering(p, g)
  {
    var asked := map h | h in p.missing :: Signed(h) := catalogue(p.scope, Signed(h), version, p.threshold);
    if h :| h in p.missing && Signed(h) == g {
      assert Signed(h) in asked;
    }
  }

  /**
   * What one of two overlapping passes files is still filed once the other has filed its own
   * exactly when that one had copied it when it started, or asks for it itself.
   */
  lemma OverlappingPassKeepsIff(
    s: Store, catalogue: Catalogue, first: PassId, second: PassId, version: Version, g: Signature)
    requires Overlap(s, first, second)
    requires s.passes[first].graph.Some? && s.passes[first].graph.value.version == version
    requires Answering(s.passes[first], g)
    ensures
      var key := Key(s.passes[first].scope, s.passes[first].graph.value);
      var t := Finished(s, first, catalogue, version);
      && g in Stored(t, key)
      && (g in Stored(Finished(t, second, catalogue, version), key) <==> Answering(s.passes[second], g))
  {
    var t := Finished(s, first, catalogue, version);
    StoredByFinish(s, catalogue, first, version);
    AnswersAre(catalogue, s.passes[first], version, g);
    assert t.passes[second] == s.passes[second];
    StoredByFinish(t, catalogue, second, version);
    AnswersAre(catalogue, s.passes[second], version, g);
  }

  /** The first to end unregisters whatever is registered under its key, the other one running included. */
  lemma TheFirstToEndUnregisters(s: Store, catalogue: Catalogue, first: PassId, second: PassId, version: Version)
    requires Overlap(s, first, second) && s.passes[first].graph.Some? && !s.passes[first].settled
    ensures
      var t := Settled(Finished(s, first, catalogue, version), first);
      t.passes[second].outcome.Running? && Key(s.passes[first].scope, s.passes[first].graph.value) !in t.building
  {
  }

  // Two passes over one scope at once, one asked and one warming it.

  const SHELF: Scope := 5
  const NOW := Graph(1, 80)
  const STARTED := [Refresh(NOW), Ask(1, SHELF, [[3]], 80), Warm(SHELF, NOW, [[4]])]

  lemma OneStepMore(catalogue: Catalogue, steps: seq<Step>, step: Step)
    ensures After(catalogue, steps + [step]) == Next(After(catalogue, steps), catalogue, step)
  {
    assert (steps + [step])[..|steps|] == steps;
  }

  /** They do overlap, in a run of three steps, and the second answers nothing of what the first was asked. */
  lemma PassesDoOverlap(catalogue: Catalogue)
    ensures
      var s := After(catalogue, STARTED);
      && Overlap(s, 0, 1) && s.passes[0].graph == Some(NOW)
      && Answering(s.passes[0], multiset{3}) && !Answering(s.passes[1], multiset{3})
  {
    assert STARTED == [] + [STARTED[0]] + [STARTED[1]] + [STARTED[2]];
    OneStepMore(catalogue, [], STARTED[0]);
    OneStepMore(catalogue, [] + [STARTED[0]], STARTED[1]);
    OneStepMore(catalogue, [] + [STARTED[0]] + [STARTED[1]], STARTED[2]);
    assert After(catalogue, []) == EMPTY;
    var g: Groups := [[3]];
    assert g[..0] == [] && Missing(g, map[]) == [[3]];
    var h: Groups := [[4]];
    assert h[..0] == [] && Missing(h, map[]) == [[4]];
    assert Signed([3]) == multiset{3} && Signed([4]) == multiset{4} && multiset{3}[3] != multiset{4}[3];
    assert After(catalogue, STARTED).passes[0].missing == g && After(catalogue, STARTED).passes[1].missing == h;
  }
}
