/**
 * Which items the applied matches make one of: union-find over their edges, told a page at a
 * time (`services/grouping.ts`). Two items have one root exactly when a chain of the edges told
 * so far joins them, in whatever order and pages they were told.
 */
module MatchGraphs {
  import opened Options
  import opened Paths
  import opened Gaps

  datatype Pair = Pair(localItem: Id, remoteItem: Id, conflict: bool)

  function Edges(pairs: seq<Pair>): set<(Id, Id)> {
    set p | p in pairs :: (p.localItem, p.remoteItem)
  }

  function Cuts(pairs: seq<Pair>): set<Id> {
    (set p | p in pairs && p.conflict :: p.localItem) + (set p | p in pairs && p.conflict :: p.remoteItem)
  }

  /** The two ends of an edge have one label. */
  ghost predicate Labels(rootOf: map<Id, Id>, edges: set<(Id, Id)>) {
    forall a, b | (a, b) in edges :: a in rootOf && b in rootOf && rootOf[a] == rootOf[b]
  }

  /** The item's label stands for it: its own label, and joined to it. */
  ghost predicate StandsFor(rootOf: map<Id, Id>, edges: set<(Id, Id)>, x: Id)
    requires x in rootOf
  {
    rootOf[x] in rootOf && rootOf[rootOf[x]] == rootOf[x] && Connected(edges, x, rootOf[x])
  }

  /** `rootOf` labels every item of `edges` with the one of its component that stands for it. */
  ghost predicate Partitions(rootOf: map<Id, Id>, edges: set<(Id, Id)>) {
    && Labels(rootOf, edges)
    && (forall x {:trigger StandsFor(rootOf, edges, x)} | x in rootOf :: StandsFor(rootOf, edges, x))
  }

  function RootIn(rootOf: map<Id, Id>, x: Id): Id {
    if x in rootOf then rootOf[x] else x
  }

  lemma {:induction false} OneRootAlong(rootOf: map<Id, Id>, edges: set<(Id, Id)>, a: Id, b: Id, hops: int)
    requires Labels(rootOf, edges) && Within(edges, a, b, hops)
    ensures RootIn(rootOf, a) == RootIn(rootOf, b)
    decreases hops
  {
    if a != b {
      var c :| Adjacent(edges, a, c) && Within(edges, c, b, hops - 1);
      OneRootAlong(rootOf, edges, c, b, hops - 1);
    }
  }

  /** One root exactly when joined; an item in no edge is its own. */
  lemma RootsAreComponents(rootOf: map<Id, Id>, edges: set<(Id, Id)>, a: Id, b: Id)
    requires Partitions(rootOf, edges)
    ensures RootIn(rootOf, a) == RootIn(rootOf, b) <==> Connected(edges, a, b)
  {
    if hops :| Within(edges, a, b, hops) {
      OneRootAlong(rootOf, edges, a, b, hops);
    }
    if RootIn(rootOf, a) == RootIn(rootOf, b) {
      ToItsRoot(rootOf, edges, a);
      ToItsRoot(rootOf, edges, b);
      Back(edges, b, RootIn(rootOf, b));
      Chain(edges, a, RootIn(rootOf, a), b);
    }
  }

  lemma ToItsRoot(rootOf: map<Id, Id>, edges: set<(Id, Id)>, a: Id)
    requires Partitions(rootOf, edges)
    ensures Connected(edges, a, RootIn(rootOf, a))
  {
    if a in rootOf {
      assert StandsFor(rootOf, edges, a);
    } else {
      assert Within(edges, a, a, 0);
    }
  }

  lemma Chain(edges: set<(Id, Id)>, a: Id, b: Id, c: Id)
    requires Connected(edges, a, b) && Connected(edges, b, c)
    ensures Connected(edges, a, c)
  {
    var m :| Within(edges, a, b, m);
    var n :| Within(edges, b, c, n);
    WithinChain(edges, a, b, c, m, n);
  }

  lemma Back(edges: set<(Id, Id)>, a: Id, b: Id)
    requires Connected(edges, a, b)
    ensures Connected(edges, b, a)
  {
    var n :| Within(edges, a, b, n);
    WithinBack(edges, a, b, n);
  }

  lemma More(edges: set<(Id, Id)>, more: set<(Id, Id)>, a: Id, b: Id)
    requires Connected(edges, a, b) && edges <= more
    ensures Connected(more, a, b)
  {
    var n :| Within(edges, a, b, n);
    WithinMore(edges, more, a, b, n, n);
  }

  // ------------------------------------------------------------------------ joining two

  function Ensured(rootOf: map<Id, Id>, id: Id): map<Id, Id> {
    if id in rootOf then rootOf else rootOf[id := id]
  }

  /** Everything that stood for `left` stands for `right`. */
  function Joined(rootOf: map<Id, Id>, left: Id, right: Id): map<Id, Id> {
    map x | x in rootOf :: if rootOf[x] == left then right else rootOf[x]
  }

  function United(rootOf: map<Id, Id>, left: Id, right: Id): map<Id, Id> {
    var both := Ensured(Ensured(rootOf, left), right);
    Joined(both, both[left], both[right])
  }

  lemma EnsuredPartitions(rootOf: map<Id, Id>, edges: set<(Id, Id)>, id: Id)
    requires Partitions(rootOf, edges)
    ensures Partitions(Ensured(rootOf, id), edges)
  {
    assert Within(edges, id, id, 0);
    forall x | x in Ensured(rootOf, id)
      ensures StandsFor(Ensured(rootOf, id), edges, x)
    {
      if x in rootOf {
        assert StandsFor(rootOf, edges, x);
      }
    }
  }

  lemma UnitedPartitions(rootOf: map<Id, Id>, edges: set<(Id, Id)>, left: Id, right: Id)
    requires Partitions(rootOf, edges)
    ensures Partitions(United(rootOf, left, right), edges + {(left, right)})
  {
    EnsuredPartitions(rootOf, edges, left);
    EnsuredPartitions(Ensured(rootOf, left), edges, right);
    JoinedPartitions(Ensured(Ensured(rootOf, left), right), edges, left, right);
  }

  lemma JoinedPartitions(both: map<Id, Id>, edges: set<(Id, Id)>, left: Id, right: Id)
    requires Partitions(both, edges) && left in both && right in both
    ensures Partitions(Joined(both, both[left], both[right]), edges + {(left, right)})
  {
    var more, joined := edges + {(left, right)}, Joined(both, both[left], both[right]);
    forall x | x in joined
      ensures StandsFor(joined, more, x)
    {
      assert StandsFor(both, edges, x) && StandsFor(both, edges, left) && StandsFor(both, edges, right);
      More(edges, more, x, both[x]);
      if both[x] == both[left] {
        More(edges, more, left, both[left]);
        More(edges, more, right, both[right]);
        Back(more, left, both[left]);
        Chain(more, x, both[x], left);
        assert Adjacent(more, left, right) && Within(more, right, right, 0);
        assert Within(more, left, right, 1);
        Chain(more, x, left, right);
        Chain(more, x, right, both[right]);
      }
    }
  }

  // ------------------------------------------------------------------- the structure itself

  /** The item's parent is a step up towards the root its label names. */
  ghost predicate ClimbsAt(parent: map<Id, Id>, rootOf: map<Id, Id>, rank: map<Id, nat>, top: nat, x: Id)
    requires x in parent && parent.Keys == rootOf.Keys == rank.Keys
  {
    && parent[x] in parent && rootOf[parent[x]] == rootOf[x]
    && (parent[x] == x <==> rootOf[x] == x)
    && (parent[x] != x ==> rank[x] < rank[parent[x]])
    && rank[x] <= top
  }

  /** The parent links climb to the roots, and cannot go round. */
  ghost predicate Climbs(parent: map<Id, Id>, rootOf: map<Id, Id>, rank: map<Id, nat>, top: nat) {
    && parent.Keys == rootOf.Keys == rank.Keys
    && forall x {:trigger ClimbsAt(parent, rootOf, rank, top, x)} | x in parent ::
        ClimbsAt(parent, rootOf, rank, top, x)
  }

  lemma EnsuredClimbs(parent: map<Id, Id>, rootOf: map<Id, Id>, rank: map<Id, nat>, top: nat, id: Id)
    requires Climbs(parent, rootOf, rank, top) && id !in parent
    ensures Climbs(parent[id := id], Ensured(rootOf, id), rank[id := 0], top)
  {
    var p, r, k := parent[id := id], Ensured(rootOf, id), rank[id := 0];
    forall x | x in p
      ensures ClimbsAt(p, r, k, top, x)
    {
      if x != id {
        assert ClimbsAt(parent, rootOf, rank, top, x);
      }
    }
  }

  function Raised(rank: map<Id, nat>, left: Id, right: Id): map<Id, nat>
    requires left in rank && right in rank
  {
    rank[right := if rank[left] < rank[right] then rank[right] else rank[left] + 1]
  }

  lemma JoinedClimbs(parent: map<Id, Id>, rootOf: map<Id, Id>, rank: map<Id, nat>, top: nat, left: Id, right: Id)
    requires Climbs(parent, rootOf, rank, top) && left in parent && right in parent
    requires rootOf[left] == left && rootOf[right] == right && left != right
    ensures Climbs(parent[left := right], Joined(rootOf, left, right), Raised(rank, left, right), top + 1)
  {
    var p, r, k := parent[left := right], Joined(rootOf, left, right), Raised(rank, left, right);
    assert ClimbsAt(parent, rootOf, rank, top, left) && ClimbsAt(parent, rootOf, rank, top, right);
    forall x | x in p
      ensures ClimbsAt(p, r, k, top + 1, x)
    {
      assert ClimbsAt(parent, rootOf, rank, top, x);
    }
  }

  ghost predicate Ascending(ids: seq<Id>) {
    forall i, j | 0 <= i < j < |ids| :: ids[i] < ids[j]
  }

  /** Every component under its root, its items in order. */
  ghost predicate IsIndex(index: map<Id, seq<Id>>, rootOf: map<Id, Id>) {
    && (forall root | root in index :: index[root] != [])
    && (forall root :: Ascending(Listed(index, root)))
    && (forall root, x :: x in Listed(index, root) <==> x in rootOf && rootOf[x] == root)
  }

  lemma NothingToJoin(rootOf: map<Id, Id>, root: Id)
    ensures Joined(rootOf, root, root) == rootOf
  {
  }

  method Smallest(ids: set<Id>) returns (least: Id)
    requires ids != {}
    ensures least in ids && forall y | y in ids :: least <= y
  {
    least :| least in ids;
    var rest := ids - {least};
    while rest != {}
      invariant rest <= ids && least in ids
      invariant forall y | y in ids :: y in rest || least <= y
      decreases |rest|
    {
      var y :| y in rest;
      if y < least {
        least := y;
      }
      rest := rest - {y};
    }
  }

  lemma AppendedAscends(ids: seq<Id>, last: Id)
    requires Ascending(ids) && forall id | id in ids :: id < last
    ensures Ascending(ids + [last])
  {
    forall k | 0 <= k < |ids|
      ensures ids[k] < last
    {
      assert ids[k] in ids;
    }
  }

  method SortedKeys(ids: set<Id>) returns (sorted: seq<Id>)
    ensures Ascending(sorted) && forall id :: id in sorted <==> id in ids
  {
    sorted := [];
    var left := ids;
    while left != {}
      invariant left <= ids && Ascending(sorted)
      invariant forall id :: id in sorted <==> id in ids - left
      invariant forall a, b | a in sorted && b in left :: a < b
      decreases |left|
    {
      var id := Smallest(left);
      AppendedAscends(sorted, id);
      sorted := sorted + [id];
      left := left - {id};
    }
  }

  function Listed(index: map<Id, seq<Id>>, root: Id): seq<Id> {
    if root in index then index[root] else []
  }

  /** The index of the items read so far. */
  ghost predicate Indexes(index: map<Id, seq<Id>>, rootOf: map<Id, Id>, read: seq<Id>) {
    && (forall root | root in index :: index[root] != [])
    && (forall root :: Ascending(Listed(index, root)))
    && (forall root, x :: x in Listed(index, root) <==> x in read && x in rootOf && rootOf[x] == root)
  }

  lemma IndexedOneMore(index: map<Id, seq<Id>>, rootOf: map<Id, Id>, read: seq<Id>, id: Id)
    requires Indexes(index, rootOf, read) && id in rootOf && forall x | x in read :: x < id
    ensures Indexes(index[rootOf[id] := Listed(index, rootOf[id]) + [id]], rootOf, read + [id])
  {
    var root := rootOf[id];
    var listed, more := Listed(index, root), index[root := Listed(index, root) + [id]];
    assert forall other :: Listed(more, other) == if other == root then listed + [id] else Listed(index, other);
    assert forall x | x in listed :: x in read;
    AppendedAscends(listed, id);
    forall other, x
      ensures x in Listed(more, other) <==> x in read + [id] && x in rootOf && rootOf[x] == other
    {
      assert x in Listed(index, other) <==> x in read && x in rootOf && rootOf[x] == other;
    }
  }

  class MatchGraph {
    var parent: map<Id, Id>
    var otherCut: set<Id>
    var components: Option<map<Id, seq<Id>>>
    ghost var edges: set<(Id, Id)>
    ghost var rootOf: map<Id, Id>
    ghost var rank: map<Id, nat>
    ghost var top: nat

    ghost predicate Valid()
      reads this
    {
      && Partitions(rootOf, edges)
      && Climbs(parent, rootOf, rank, top)
      && (components.Some? ==> IsIndex(components.value, rootOf))
    }

    constructor ()
      ensures Valid() && edges == {} && otherCut == {}
    {
      parent, otherCut, components := map[], {}, None;
      edges, rootOf, rank, top := {}, map[], map[], 0;
    }

    /** The component's representative: a climb up the parent links. */
    method Root(id: Id) returns (current: Id)
      requires Climbs(parent, rootOf, rank, top)
      ensures current == RootIn(rootOf, id)
      ensures id in parent ==> current in parent && rootOf[current] == current
    {
      current := id;
      while current in parent && parent[current] != current
        invariant RootIn(rootOf, current) == RootIn(rootOf, id)
        invariant id in parent ==> current in parent
        decreases if current in parent then top - rank[current] else 0
      {
        assert ClimbsAt(parent, rootOf, rank, top, current) && ClimbsAt(parent, rootOf, rank, top, parent[current]);
        current := parent[current];
      }
      assert current in parent ==> ClimbsAt(parent, rootOf, rank, top, current);
    }

    method Ensure(id: Id)
      requires Climbs(parent, rootOf, rank, top)
      modifies this`parent, this`rootOf, this`rank
      ensures Climbs(parent, rootOf, rank, top) && rootOf == Ensured(old(rootOf), id)
    {
      if id !in parent {
        EnsuredClimbs(parent, rootOf, rank, top, id);
        parent := parent[id := id];
        rootOf := rootOf[id := id];
        rank := rank[id := 0];
      }
    }

    /** Fold one more edge in. */
    method Union(left: Id, right: Id)
      requires Climbs(parent, rootOf, rank, top)
      modifies this`parent, this`components, this`rootOf, this`rank, this`top
      ensures Climbs(parent, rootOf, rank, top)
      ensures rootOf == United(old(rootOf), left, right) && components == None
    {
      Ensure(left);
      Ensure(right);
      ghost var both := rootOf;
      var leftRoot := Root(left);
      var rightRoot := Root(right);
      if leftRoot != rightRoot {
        Link(leftRoot, rightRoot);
      } else {
        NothingToJoin(both, leftRoot);
      }
      components := None;
    }

    method Link(leftRoot: Id, rightRoot: Id)
      requires Climbs(parent, rootOf, rank, top) && leftRoot in parent && rightRoot in parent
      requires rootOf[leftRoot] == leftRoot && rootOf[rightRoot] == rightRoot && leftRoot != rightRoot
      modifies this`parent, this`rootOf, this`rank, this`top
      ensures Climbs(parent, rootOf, rank, top) && rootOf == Joined(old(rootOf), leftRoot, rightRoot)
    {
      JoinedClimbs(parent, rootOf, rank, top, leftRoot, rightRoot);
      rank := Raised(rank, leftRoot, rightRoot);
      top := top + 1;
      rootOf := Joined(rootOf, leftRoot, rightRoot);
      parent := parent[leftRoot := rightRoot];
    }

    /** Fold a page of edges in; the graph is the same however the pages were cut. */
    method Absorb(pairs: seq<Pair>)
      requires Valid()
      modifies this
      ensures Valid() && edges == old(edges) + Edges(pairs) && otherCut == old(otherCut) + Cuts(pairs)
    {
      components := None;
      for i := 0 to |pairs|
        invariant Valid() && components == None
        invariant edges == old(edges) + Edges(pairs[..i]) && otherCut == old(otherCut) + Cuts(pairs[..i])
      {
        OnePairMore(pairs, i);
        AbsorbOne(pairs[i]);
      }
      assert pairs[..|pairs|] == pairs;
    }

    method AbsorbOne(pair: Pair)
      requires Valid()
      modifies this
      ensures Valid() && components == None && edges == old(edges) + {(pair.localItem, pair.remoteItem)}
      ensures otherCut == old(otherCut) + if pair.conflict then {pair.localItem, pair.remoteItem} else {}
    {
      UnitedPartitions(rootOf, edges, pair.localItem, pair.remoteItem);
      Union(pair.localItem, pair.remoteItem);
      edges := edges + {(pair.localItem, pair.remoteItem)};
      if pair.conflict {
        otherCut := otherCut + {pair.localItem, pair.remoteItem};
      }
    }

    /** The components, read once and kept until an edge comes. */
    method Index() returns (index: map<Id, seq<Id>>)
      requires Valid()
      modifies this`components
      ensures Valid() && IsIndex(index, rootOf)
    {
      if components.Some? {
        return components.value;
      }
      var sorted := SortedKeys(parent.Keys);
      index := map[];
      for i := 0 to |sorted|
        invariant Indexes(index, rootOf, sorted[..i])
      {
        var id := sorted[i];
        assert id in parent;
        var root := Root(id);
        assert sorted[..i + 1] == sorted[..i] + [id];
        IndexedOneMore(index, rootOf, sorted[..i], id);
        index := index[root := Listed(index, root) + [id]];
      }
      assert sorted[..|sorted|] == sorted;
      components := Some(index);
    }

    /** The items some chain of edges joins to this one, ascending; this one alone when there is no edge. */
    method Members(id: Id) returns (members: seq<Id>)
      requires Valid()
      modifies this`components
      ensures Valid() && Ascending(members)
      ensures forall m :: m in members <==> Connected(edges, id, m)
    {
      var index := Index();
      var root := Root(id);
      members := if root in index then index[root] else [id];
      assert Ascending(Listed(index, root));
      forall m
        ensures m in members <==> Connected(edges, id, m)
      {
        MemberIff(rootOf, edges, index, id, m);
      }
    }

    /** What the rest of the catalogue reads of the graph. */
    ghost function Value(): Graph
      reads this
    {
      Graph(rootOf, otherCut)
    }
  }

  lemma NobodyStandsFor(rootOf: map<Id, Id>, edges: set<(Id, Id)>, index: map<Id, seq<Id>>, id: Id)
    requires Partitions(rootOf, edges) && IsIndex(index, rootOf) && id !in rootOf
    ensures id !in index
  {
    var listed := Listed(index, id);
    assert listed == [] || listed[0] in listed;
    forall x | x in rootOf
      ensures rootOf[x] != id
    {
      assert StandsFor(rootOf, edges, x);
    }
    assert forall x :: x in listed <==> x in rootOf && rootOf[x] == id;
  }

  lemma MemberIff(rootOf: map<Id, Id>, edges: set<(Id, Id)>, index: map<Id, seq<Id>>, id: Id, m: Id)
    requires Partitions(rootOf, edges) && IsIndex(index, rootOf)
    ensures
      var root := RootIn(rootOf, id);
      m in (if root in index then index[root] else [id]) <==> Connected(edges, id, m)
  {
    var root := RootIn(rootOf, id);
    RootsAreComponents(rootOf, edges, id, m);
    if id in rootOf {
      assert id in Listed(index, root);
      assert StandsFor(rootOf, edges, id);
    } else {
      NobodyStandsFor(rootOf, edges, index, id);
      if m in rootOf {
        assert StandsFor(rootOf, edges, m);
      }
    }
  }

  /** It is a partition, the one the edges make: the one thing the gap counters need of it. */
  lemma ValueIsTheComponents(rootOf: map<Id, Id>, edges: set<(Id, Id)>, otherCut: set<Id>, a: Id, b: Id)
    requires Partitions(rootOf, edges)
    ensures IsPartition(Graph(rootOf, otherCut))
    ensures b in Gaps.Members(Graph(rootOf, otherCut), a) <==> Connected(edges, a, b)
  {
    forall x | x in rootOf
      ensures rootOf[x] in rootOf && rootOf[rootOf[x]] == rootOf[x]
    {
      assert StandsFor(rootOf, edges, x);
    }
    MembersShareARoot(Graph(rootOf, otherCut), a, b);
    RootsAreComponents(rootOf, edges, a, b);
  }

  lemma OnePairMore(pairs: seq<Pair>, i: nat)
    requires i < |pairs|
    ensures Edges(pairs[..i + 1]) == Edges(pairs[..i]) + {(pairs[i].localItem, pairs[i].remoteItem)}
    ensures Cuts(pairs[..i + 1]) ==
            Cuts(pairs[..i]) + if pairs[i].conflict then {pairs[i].localItem, pairs[i].remoteItem} else {}
  {
    assert pairs[..i + 1] == pairs[..i] + [pairs[i]];
    assert forall p :: p in pairs[..i + 1] <==> p in pairs[..i] || p == pairs[i];
  }
}
