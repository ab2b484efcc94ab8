/**
 * The gaps of every group of a result, counted in one loop over their children as the query
 * answered them (`_gapCounts`), and what that loop counts: for each parent, the distinct
 * children whose first row there is held by nobody.
 */
module Gaps {
  import opened Options
  import opened EpisodeCoverage

  type Id = nat

  /** What is read of a row; `landed` says a file for it is in place and waits to be indexed. */
  datatype Digest = Digest(
    id: Id, parent: Option<Id>, service: Id, carriesFile: bool, hasFile: bool, landed: bool, ignored: bool,
    episode: Option<nat>, end: Option<nat>)

  /** The items applied matches put together. An item in no match is its own. */
  datatype Graph = Graph(roots: map<Id, Id>, otherCut: set<Id>)

  function Root(g: Graph, id: Id): Id {
    if id in g.roots then g.roots[id] else id
  }

  function Members(g: Graph, id: Id): set<Id> {
    if id in g.roots then set m | m in g.roots && g.roots[m] == g.roots[id] else {id}
  }

  /** A root is its own, and is in the graph when what it stands for is. */
  ghost predicate IsPartition(g: Graph) {
    forall id | id in g.roots :: g.roots[id] in g.roots && g.roots[g.roots[id]] == g.roots[id]
  }

  lemma MembersShareARoot(g: Graph, a: Id, b: Id)
    requires IsPartition(g)
    ensures b in Members(g, a) <==> Root(g, a) == Root(g, b)
    ensures Root(g, a) == Root(g, b) ==> Members(g, a) == Members(g, b)
  {
  }

  datatype Context = Context(graph: Graph, local: set<Id>)

  predicate Holds(d: Digest, c: Context) {
    d.landed || ((d.carriesFile ==> d.hasFile) && d.service in c.local && d.id !in c.graph.otherCut)
  }

  predicate InsideARange(d: Digest, covered: set<nat>) {
    d.end.None? && d.episode.Some? && d.episode.value in covered
  }

  /** The files of ours that hold several episodes. */
  predicate Spans(d: Digest, c: Context) {
    d.end.Some? && Holds(d, c)
  }

  predicate AnyIgnored(byId: map<Id, Digest>, copies: set<Id>) {
    exists id | id in copies :: id in byId && byId[id].ignored
  }

  predicate AnyHeld(byId: map<Id, Digest>, copies: set<Id>, c: Context) {
    exists id | id in copies :: id in byId && Holds(byId[id], c)
  }

  function ParentRoot(d: Digest, g: Graph): Option<Id> {
    if d.parent.Some? then Some(Root(g, d.parent.value)) else None
  }

  // ------------------------------------------------------------- over a whole result

  function ById(children: seq<Digest>): map<Id, Digest> {
    if children == [] then map[]
    else
      var last := children[|children| - 1];
      ById(children[..|children| - 1])[last.id := last]
  }

  /** Under this parent, the numbers inside the range of some held file of several episodes. */
  function CoveredUnder(children: seq<Digest>, c: Context, parent: Id): (r: set<nat>)
    ensures forall n :: n in r <==> exists d | d in children ::
              ParentRoot(d, c.graph) == Some(parent) && Spans(d, c) && n in Span(d.episode, d.end)
  {
    if children == [] then {}
    else
      var last := children[|children| - 1];
      var before := CoveredUnder(children[..|children| - 1], c, parent);
      assert forall d :: d in children <==> d in children[..|children| - 1] || d == last;
      if ParentRoot(last, c.graph) == Some(parent) && Spans(last, c) then before + Span(last.episode, last.end)
      else before
  }

  /** The first row of its child under its parent, in the order the query answered. */
  predicate IsFirst(children: seq<Digest>, j: nat, g: Graph)
    requires j < |children|
  {
    forall k | 0 <= k < j ::
      !(ParentRoot(children[k], g) == ParentRoot(children[j], g) && Root(g, children[k].id) == Root(g, children[j].id))
  }

  predicate IsGap(d: Digest, byId: map<Id, Digest>, covered: set<nat>, c: Context) {
    var copies := Members(c.graph, d.id);
    !AnyIgnored(byId, copies) && !AnyHeld(byId, copies, c) && !InsideARange(d, covered)
  }

  /** The children a parent is short of, among the first `n` rows. */
  function GapsAmong(children: seq<Digest>, n: nat, c: Context, parent: Id): set<Id>
    requires n <= |children|
  {
    set j | 0 <= j < n && IsFirst(children, j, c.graph) && ParentRoot(children[j], c.graph) == Some(parent)
            && IsGap(children[j], ById(children), CoveredUnder(children, c, parent), c) :: Root(c.graph, children[j].id)
  }

  function CountedAmong(children: seq<Digest>, n: nat, g: Graph, parent: Id): set<Id>
    requires n <= |children|
  {
    set j | 0 <= j < n && ParentRoot(children[j], g) == Some(parent) :: Root(g, children[j].id)
  }

  function Get<T>(m: map<Id, set<T>>, key: Id): set<T> {
    if key in m then m[key] else {}
  }

  method RangesUnder(children: seq<Digest>, c: Context) returns (covered: map<Id, set<nat>>)
    ensures forall parent :: Get(covered, parent) == CoveredUnder(children, c, parent)
  {
    covered := map[];
    for i := 0 to |children|
      invariant forall parent :: Get(covered, parent) == CoveredUnder(children[..i], c, parent)
    {
      assert children[..i + 1][..i] == children[..i];
      var child := children[i];
      if child.parent.None? || child.end.None? || !Holds(child, c) {
        continue;
      }
      var parent := Root(c.graph, child.parent.value);
      covered := covered[parent := Get(covered, parent) + Span(child.episode, child.end)];
    }
    assert children[..|children|] == children;
  }

  function GapsAt(gaps: map<Id, nat>, parent: Id): nat {
    if parent in gaps then gaps[parent] else 0
  }

  method IndexById(children: seq<Digest>) returns (byId: map<Id, Digest>)
    ensures byId == ById(children)
  {
    byId := map[];
    for i := 0 to |children|
      invariant byId == ById(children[..i])
    {
      assert children[..i + 1][..i] == children[..i];
      byId := byId[children[i].id := children[i]];
    }
    assert children[..|children|] == children;
  }

  /** One more row: what it adds to what was counted under its parent, and under no other. */
  lemma OneMoreRow(children: seq<Digest>, i: nat, c: Context, parent: Id)
    requires i < |children|
    ensures
      var d := children[i];
      var root, under := Root(c.graph, d.id), ParentRoot(d, c.graph) == Some(parent);
      && CountedAmong(children, i + 1, c.graph, parent) ==
           CountedAmong(children, i, c.graph, parent) + (if under then {root} else {})
      && (under ==> (IsFirst(children, i, c.graph) <==> root !in CountedAmong(children, i, c.graph, parent)))
      && GapsAmong(children, i, c, parent) <= CountedAmong(children, i, c.graph, parent)
      && GapsAmong(children, i + 1, c, parent) ==
           GapsAmong(children, i, c, parent) +
           (if under && IsFirst(children, i, c.graph) && IsGap(d, ById(children), CoveredUnder(children, c, parent), c)
            then {root} else {})
  {
  }

  lemma RowAddsNothing(children: seq<Digest>, i: nat, c: Context, parent: Id)
    requires i < |children|
    requires ParentRoot(children[i], c.graph) == Some(parent) ==>
               Root(c.graph, children[i].id) in CountedAmong(children, i, c.graph, parent)
    ensures CountedAmong(children, i + 1, c.graph, parent) == CountedAmong(children, i, c.graph, parent)
    ensures GapsAmong(children, i + 1, c, parent) == GapsAmong(children, i, c, parent)
  {
    OneMoreRow(children, i, c, parent);
  }

  lemma RowAddsOne(children: seq<Digest>, i: nat, c: Context, parent: Id)
    requires i < |children| && ParentRoot(children[i], c.graph) == Some(parent)
    requires Root(c.graph, children[i].id) !in CountedAmong(children, i, c.graph, parent)
    ensures
      var root := Root(c.graph, children[i].id);
      var gap := IsGap(children[i], ById(children), CoveredUnder(children, c, parent), c);
      && CountedAmong(children, i + 1, c.graph, parent) == CountedAmong(children, i, c.graph, parent) + {root}
      && |GapsAmong(children, i + 1, c, parent)| == |GapsAmong(children, i, c, parent)| + if gap then 1 else 0
  {
    OneMoreRow(children, i, c, parent);
  }

  /** Where the counts of one parent stand after `n` rows. */
  ghost predicate Tallied(
    children: seq<Digest>, n: nat, c: Context, counted: map<Id, set<Id>>, gaps: map<Id, nat>, parent: Id)
    requires n <= |children|
  {
    && Get(counted, parent) == CountedAmong(children, n, c.graph, parent)
    && GapsAt(gaps, parent) == |GapsAmong(children, n, c, parent)|
  }

  /** Where all of them do. */
  ghost predicate AllTallied(children: seq<Digest>, n: nat, c: Context, counted: map<Id, set<Id>>, gaps: map<Id, nat>)
    requires n <= |children|
  {
    forall parent: Id :: Tallied(children, n, c, counted, gaps, parent)
  }

  /** A row counts under its parent, when it is the first of its child there, and under no other. */
  lemma TallyOneMore(
    children: seq<Digest>, i: nat, c: Context, counted: map<Id, set<Id>>, gaps: map<Id, nat>,
    countedNext: map<Id, set<Id>>, gapsNext: map<Id, nat>, parent: Id)
    requires i < |children| && Tallied(children, i, c, counted, gaps, parent)
    requires
      var root := Root(c.graph, children[i].id);
      if ParentRoot(children[i], c.graph) == Some(parent) && root !in Get(counted, parent) then
        && Get(countedNext, parent) == Get(counted, parent) + {root}
        && GapsAt(gapsNext, parent) == GapsAt(gaps, parent) +
             if IsGap(children[i], ById(children), CoveredUnder(children, c, parent), c) then 1 else 0
      else
        Get(countedNext, parent) == Get(counted, parent) && GapsAt(gapsNext, parent) == GapsAt(gaps, parent)
    ensures Tallied(children, i + 1, c, countedNext, gapsNext, parent)
  {
    if ParentRoot(children[i], c.graph) == Some(parent) && Root(c.graph, children[i].id) !in Get(counted, parent) {
      RowAddsOne(children, i, c, parent);
    } else {
      RowAddsNothing(children, i, c, parent);
    }
  }

  /** What one row changes: the counts of its parent, when it is the first of its child there. */
  ghost predicate CountsRow(
    d: Digest, c: Context, byId: map<Id, Digest>, covered: map<Id, set<nat>>,
    counted: map<Id, set<Id>>, gaps: map<Id, nat>, countedNext: map<Id, set<Id>>, gapsNext: map<Id, nat>)
  {
    var root, under := Root(c.graph, d.id), ParentRoot(d, c.graph);
    if under.Some? && root !in Get(counted, under.value) then
      && countedNext == counted[under.value := Get(counted, under.value) + {root}]
      && gapsNext ==
           if IsGap(d, byId, Get(covered, under.value), c) then gaps[under.value := GapsAt(gaps, under.value) + 1]
           else gaps
    else countedNext == counted && gapsNext == gaps
  }

  lemma AllTallyOneMore(
    children: seq<Digest>, i: nat, n: nat, c: Context, covered: map<Id, set<nat>>,
    counted: map<Id, set<Id>>, gaps: map<Id, nat>, countedNext: map<Id, set<Id>>, gapsNext: map<Id, nat>)
    requires i < |children| && n == i + 1 && AllTallied(children, i, c, counted, gaps)
    requires forall parent: Id :: Get(covered, parent) == CoveredUnder(children, c, parent)
    requires CountsRow(children[i], c, ById(children), covered, counted, gaps, countedNext, gapsNext)
    ensures AllTallied(children, n, c, countedNext, gapsNext)
  {
    forall parent: Id
      ensures Tallied(children, n, c, countedNext, gapsNext, parent)
    {
      assert Tallied(children, i, c, counted, gaps, parent);
      assert Get(covered, parent) == CoveredUnder(children, c, parent);
      TallyOneMore(children, i, c, counted, gaps, countedNext, gapsNext, parent);
    }
  }

  /** The row of one child, counted once under its parent whatever its copies. */
  method CountRow(
    children: seq<Digest>, i: nat, c: Context, byId: map<Id, Digest>, covered: map<Id, set<nat>>,
    counted: map<Id, set<Id>>, gaps: map<Id, nat>) returns (countedNext: map<Id, set<Id>>, gapsNext: map<Id, nat>)
    requires i < |children|
    ensures CountsRow(children[i], c, byId, covered, counted, gaps, countedNext, gapsNext)
  {
    countedNext, gapsNext := counted, gaps;
    var child := children[i];
    if child.parent.None? {
      return;
    }
    var parentRoot, childRoot := Root(c.graph, child.parent.value), Root(c.graph, child.id);
    var seen := Get(counted, parentRoot);
    if childRoot in seen {
      return;
    }
    countedNext := counted[parentRoot := seen + {childRoot}];
    var copies := Members(c.graph, child.id);
    if exists id | id in copies :: id in byId && byId[id].ignored {
      return;
    }
    var held := exists id | id in copies :: id in byId && Holds(byId[id], c);
    if !held && !InsideARange(child, Get(covered, parentRoot)) {
      gapsNext := gaps[parentRoot := GapsAt(gaps, parentRoot) + 1];
    }
  }

  /** For each root, how many distinct children under it are gaps at the first row read of them. */
  method GapCounts(children: seq<Digest>, c: Context) returns (gaps: map<Id, nat>)
    ensures forall parent: Id :: GapsAt(gaps, parent) == |GapsAmong(children, |children|, c, parent)|
  {
    var byId := IndexById(children);
    var covered := RangesUnder(children, c);
    var counted: map<Id, set<Id>> := map[];
    gaps := map[];
    NothingCounted(children, c);
    for i := 0 to |children|
      invariant AllTallied(children, i, c, counted, gaps)
    {
      var countedNext, gapsNext := CountRow(children, i, c, byId, covered, counted, gaps);
      AllTallyOneMore(children, i, i + 1, c, covered, counted, gaps, countedNext, gapsNext);
      counted, gaps := countedNext, gapsNext;
    }
    forall parent: Id
      ensures GapsAt(gaps, parent) == |GapsAmong(children, |children|, c, parent)|
    {
      assert Tallied(children, |children|, c, counted, gaps, parent);
    }
  }

  lemma NothingCounted(children: seq<Digest>, c: Context)
    ensures AllTallied(children, 0, c, map[], map[])
  {
    forall parent: Id
      ensures Tallied(children, 0, c, map[], map[], parent)
    {
      assert GapsAmong(children, 0, c, parent) == {} && CountedAmong(children, 0, c.graph, parent) == {};
    }
  }
}
