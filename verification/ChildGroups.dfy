/**
 * The children of a page, with every copy of each (`_children`), and those of one group of it
 * folded by ranked copy into child groups (`_childGroups`), each held or missing.
 */
module ChildGroups {
  import opened Options
  import opened EpisodeCoverage
  import opened Gaps

  datatype ChildIndex = ChildIndex(byParent: map<Id, seq<Digest>>, byId: map<Id, Digest>)

  function Filed(children: seq<Digest>, parent: Id): seq<Digest> {
    if children == [] then []
    else
      var last := children[|children| - 1];
      Filed(children[..|children| - 1], parent) + if last.parent == Some(parent) then [last] else []
  }

  function FiledAt(byParent: map<Id, seq<Digest>>, parent: Id): seq<Digest> {
    if parent in byParent then byParent[parent] else []
  }

  /** The copies of these children that are not among them. */
  function Outsiders(children: seq<Digest>, g: Graph, byId: map<Id, Digest>): set<Id> {
    set d, id | d in children && id in Members(g, d.id) && id !in byId :: id
  }

  function WithOutsiders(byId: map<Id, Digest>, outsiders: set<Id>, rows: map<Id, Digest>): map<Id, Digest> {
    byId + map id | id in outsiders && id in rows :: rows[id]
  }

  /** The children found under a group, filed by parent, with every copy of each. */
  method Children(children: seq<Digest>, rows: map<Id, Digest>, g: Graph) returns (index: ChildIndex)
    requires forall d | d in children :: d.parent.Some?
    ensures forall parent :: FiledAt(index.byParent, parent) == Filed(children, parent)
    ensures index.byId == WithOutsiders(ById(children), Outsiders(children, g, ById(children)), rows)
  {
    var byParent: map<Id, seq<Digest>> := map[];
    var byId: map<Id, Digest> := map[];
    for i := 0 to |children|
      invariant forall parent :: FiledAt(byParent, parent) == Filed(children[..i], parent)
      invariant byId == ById(children[..i])
    {
      assert children[..i + 1][..i] == children[..i];
      var child := children[i];
      byParent := byParent[child.parent.value := FiledAt(byParent, child.parent.value) + [child]];
      byId := byId[child.id := child];
    }
    assert children[..|children|] == children;
    var outsiders := set d, id | d in children && id in Members(g, d.id) && id !in byId :: id;
    return ChildIndex(byParent, byId + map id | id in outsiders && id in rows :: rows[id]);
  }

  // ------------------------------------------------------------------------- the drawing

  /** The children in the order a group's copies rank. */
  function Listed(ranked: seq<Id>, byParent: map<Id, seq<Digest>>): seq<Digest> {
    if ranked == [] then []
    else Listed(ranked[..|ranked| - 1], byParent) + FiledAt(byParent, ranked[|ranked| - 1])
  }

  /** The numbers held by any of these rows that holds several, flat. */
  function CoveredAmong(byId: map<Id, Digest>, ids: set<Id>, c: Context): set<nat> {
    set id, n | id in ids && id in byId && Spans(byId[id], c) && n in Span(byId[id].episode, byId[id].end) :: n
  }

  function CoveredIn(byId: map<Id, Digest>, c: Context): set<nat> {
    CoveredAmong(byId, byId.Keys, c)
  }

  lemma CoveredOneMore(byId: map<Id, Digest>, ids: set<Id>, id: Id, c: Context)
    requires id in byId
    ensures CoveredAmong(byId, ids + {id}, c) ==
            CoveredAmong(byId, ids, c) + if Spans(byId[id], c) then Span(byId[id].episode, byId[id].end) else {}
  {
  }

  function IsHeldThrough(d: Digest, byId: map<Id, Digest>, covered: set<nat>, c: Context): bool {
    AnyHeld(byId, Members(c.graph, d.id), c) || InsideARange(d, covered)
  }

  /** What one more row of the list makes of the child groups. */
  function Drawn(
    groups: map<Id, bool>, d: Digest, byId: map<Id, Digest>, covered: set<nat>, c: Context): map<Id, bool> {
    var root := Root(c.graph, d.id);
    if root in groups || AnyIgnored(byId, Members(c.graph, d.id)) then groups
    else groups[root := IsHeldThrough(d, byId, covered, c)]
  }

  function DrawnAll(listed: seq<Digest>, byId: map<Id, Digest>, covered: set<nat>, c: Context): map<Id, bool> {
    if listed == [] then map[]
    else Drawn(DrawnAll(listed[..|listed| - 1], byId, covered, c), listed[|listed| - 1], byId, covered, c)
  }

  method EpisodesCovered(byId: map<Id, Digest>, c: Context) returns (covered: set<nat>)
    ensures covered == CoveredIn(byId, c)
  {
    covered := {};
    var ids := byId.Keys;
    while ids != {}
      invariant ids <= byId.Keys
      invariant covered == CoveredAmong(byId, byId.Keys - ids, c)
      decreases |ids|
    {
      var id :| id in ids;
      CoveredOneMore(byId, byId.Keys - ids, id, c);
      assert byId.Keys - (ids - {id}) == byId.Keys - ids + {id};
      if Spans(byId[id], c) {
        covered := covered + Span(byId[id].episode, byId[id].end);
      }
      ids := ids - {id};
    }
    assert byId.Keys - {} == byId.Keys;
  }

  lemma DrawnOneMore(listed: seq<Digest>, d: Digest, byId: map<Id, Digest>, covered: set<nat>, c: Context)
    ensures DrawnAll(listed + [d], byId, covered, c) == Drawn(DrawnAll(listed, byId, covered, c), d, byId, covered, c)
  {
    assert (listed + [d])[..|listed|] == listed;
  }

  /** The child groups of one group, and whether each is held. */
  method ChildGroups(ranked: seq<Id>, index: ChildIndex, c: Context) returns (groups: map<Id, bool>)
    ensures groups == DrawnAll(Listed(ranked, index.byParent), index.byId, CoveredIn(index.byId, c), c)
  {
    var covered := EpisodesCovered(index.byId, c);
    groups := map[];
    for i := 0 to |ranked|
      invariant groups == DrawnAll(Listed(ranked[..i], index.byParent), index.byId, covered, c)
    {
      assert ranked[..i + 1][..i] == ranked[..i];
      groups := Draw(
        Listed(ranked[..i], index.byParent), FiledAt(index.byParent, ranked[i]), index.byId, covered, c, groups);
    }
    assert ranked[..|ranked|] == ranked;
  }

  /** The children filed under one copy, after those of the copies before it. */
  method Draw(
    ghost before: seq<Digest>, children: seq<Digest>, byId: map<Id, Digest>, covered: set<nat>, c: Context,
    drawn: map<Id, bool>) returns (groups: map<Id, bool>)
    requires drawn == DrawnAll(before, byId, covered, c)
    ensures groups == DrawnAll(before + children, byId, covered, c)
  {
    groups := drawn;
    assert before + children[..0] == before;
    for j := 0 to |children|
      invariant groups == DrawnAll(before + children[..j], byId, covered, c)
    {
      var child := children[j];
      assert before + children[..j + 1] == before + children[..j] + [child];
      DrawnOneMore(before + children[..j], child, byId, covered, c);
      var root := Root(c.graph, child.id);
      if root in groups {
        continue;
      }
      var copies := Members(c.graph, child.id);
      if exists id | id in copies :: id in byId && byId[id].ignored {
        continue;
      }
      var held := exists id | id in copies :: id in byId && Holds(byId[id], c);
      groups := groups[root := held || InsideARange(child, covered)];
    }
    assert children[..|children|] == children;
  }

  function MissingIn(groups: map<Id, bool>): set<Id> {
    set root | root in groups && !groups[root]
  }

  // ------------------------------------------------------------- what a child is drawn as

  /** A child is drawn unless it is ignored, and as one of its rows says. */
  lemma {:induction false} DrawnAsARowSays(
    listed: seq<Digest>, byId: map<Id, Digest>, covered: set<nat>, c: Context, root: Id)
    ensures
      var groups := DrawnAll(listed, byId, covered, c);
      && (root in groups ==> exists d | d in listed :: DrawsAs(d, byId, covered, c, root, groups[root]))
      && (forall d | d in listed && Root(c.graph, d.id) == root && !AnyIgnored(byId, Members(c.graph, d.id)) ::
            root in groups)
  {
    if listed != [] {
      var before, last := listed[..|listed| - 1], listed[|listed| - 1];
      DrawnAsARowSays(before, byId, covered, c, root);
      assert forall d :: d in listed <==> d in before || d == last;
      var was, groups := DrawnAll(before, byId, covered, c), DrawnAll(listed, byId, covered, c);
      if root in was {
        var d :| d in before && DrawsAs(d, byId, covered, c, root, was[root]);
        assert d in listed && groups[root] == was[root];
      } else if root in groups {
        assert DrawsAs(last, byId, covered, c, root, groups[root]);
      }
    }
  }

  predicate DrawsAs(d: Digest, byId: map<Id, Digest>, covered: set<nat>, c: Context, root: Id, held: bool) {
    && Root(c.graph, d.id) == root && !AnyIgnored(byId, Members(c.graph, d.id))
    && held == IsHeldThrough(d, byId, covered, c)
  }
}
