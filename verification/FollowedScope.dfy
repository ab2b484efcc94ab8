/**
 * What the sync plans follow: a bounded climb up parent chains (`_followedScope`).
 *
 * The index is a map from the rows it holds to the parents they name. Nothing says a named
 * parent is in the index or that a chain ends.
 */
module FollowedScope {
  import opened Options

  type Id = nat

  const FOLLOWED_HOPS := 4

  type Index = map<Id, Option<Id>>

  /** The row `steps` parent links above this one, if the chain goes that far. */
  function Above(index: Index, id: Id, steps: nat): Option<Id> {
    if steps == 0 then Some(id)
    else
      var below := Above(index, id, steps - 1);
      if below.Some? && below.value in index then index[below.value] else None
  }

  /** Some root has this row above it, at most `hops` links away. */
  ghost predicate Reached(index: Index, roots: set<Id>, hops: nat, x: Id) {
    exists r, k: nat :: r in roots && k <= hops && Above(index, r, k) == Some(x)
  }

  ghost predicate AreReached(index: Index, roots: set<Id>, hops: nat, ids: set<Id>) {
    forall x :: x in ids <==> Reached(index, roots, hops, x)
  }

  function ParentsOf(index: Index, rows: set<Id>): set<Id> {
    set x | x in rows && x in index && index[x].Some? :: index[x].value
  }

  /** Reaching one link further is reaching a parent of something reached. */
  lemma OneHopMore(index: Index, roots: set<Id>, hops: nat, reached: set<Id>)
    requires AreReached(index, roots, hops, reached)
    ensures AreReached(index, roots, hops + 1, reached + ParentsOf(index, reached))
  {
    forall x
      ensures x in reached + ParentsOf(index, reached) <==> Reached(index, roots, hops + 1, x)
    {
      if x in reached {
        var r, k: nat :| r in roots && k <= hops && Above(index, r, k) == Some(x);
        assert k <= hops + 1;
      }
      if x in ParentsOf(index, reached) {
        var y :| y in reached && y in index && index[y] == Some(x);
        var r, k: nat :| r in roots && k <= hops && Above(index, r, k) == Some(y);
        assert Above(index, r, k + 1) == Some(x) && k + 1 <= hops + 1;
      }
      if Reached(index, roots, hops + 1, x) {
        var r, k: nat :| r in roots && k <= hops + 1 && Above(index, r, k) == Some(x);
        if k == hops + 1 {
          var y := Above(index, r, hops).value;
          assert Reached(index, roots, hops, y) && y in index && index[y] == Some(x);
        } else {
          assert Reached(index, roots, hops, x);
        }
      }
    }
  }

  /** Once a hop adds nothing, no number of hops does. */
  lemma {:induction false} Closed(index: Index, roots: set<Id>, hops: nat, more: nat, reached: set<Id>)
    requires AreReached(index, roots, hops, reached)
    requires ParentsOf(index, reached) <= reached && hops <= more
    ensures AreReached(index, roots, more, reached)
    decreases more - hops
  {
    if hops < more {
      OneHopMore(index, roots, hops, reached);
      assert reached + ParentsOf(index, reached) == reached;
      Closed(index, roots, hops + 1, more, reached);
    }
  }

  lemma RootsAreReached(index: Index, roots: set<Id>)
    ensures AreReached(index, roots, 0, roots)
  {
    forall x
      ensures x in roots <==> Reached(index, roots, 0, x)
    {
      if x in roots { assert Above(index, x, 0) == Some(x); }
    }
  }

  /** Only the rows met last can have a parent not met yet. */
  ghost predicate FrontierIsEnough(index: Index, ids: set<Id>, frontier: set<Id>) {
    ParentsOf(index, ids) <= ids + ParentsOf(index, frontier)
  }

  lemma NextFrontierIsEnough(index: Index, ids: set<Id>, frontier: set<Id>)
    requires FrontierIsEnough(index, ids, frontier) && frontier <= ids
    ensures
      var parents := ParentsOf(index, frontier) - ids;
      && ids + ParentsOf(index, ids) == ids + parents
      && FrontierIsEnough(index, ids + parents, set x | x in parents && x in index)
  {
    var parents := ParentsOf(index, frontier) - ids;
    var next := set x | x in parents && x in index;
    assert ParentsOf(index, ids + parents) == ParentsOf(index, ids) + ParentsOf(index, next);
  }

  /** The climb. A parent already met is not climbed from again, and that loses nothing. */
  method Climb(index: Index, roots: set<Id>) returns (ids: set<Id>)
    ensures AreReached(index, roots, FOLLOWED_HOPS, ids)
  {
    ids := roots;
    var frontier := set x | x in roots && x in index;
    var hop := 0;
    RootsAreReached(index, roots);
    while hop < FOLLOWED_HOPS && |frontier| > 0
      invariant hop <= FOLLOWED_HOPS && frontier <= ids && frontier <= index.Keys
      invariant AreReached(index, roots, hop, ids)
      invariant FrontierIsEnough(index, ids, frontier)
      decreases FOLLOWED_HOPS - hop
    {
      var parents := set x | x in frontier && index[x].Some? && index[x].value !in ids :: index[x].value;
      assert parents == ParentsOf(index, frontier) - ids;
      NextFrontierIsEnough(index, ids, frontier);
      if |parents| == 0 {
        break;
      }
      OneHopMore(index, roots, hop, ids);
      ids := ids + parents;
      frontier := set x | x in parents && x in index;
      hop := hop + 1;
    }
    if hop < FOLLOWED_HOPS {
      Closed(index, roots, hop, FOLLOWED_HOPS, ids);
    }
  }

  /**
   * The rows kept outright, which are the roots and every row within four parent links
   * above one, and the rows whose children are kept with them.
   */
  method Follow(index: Index, roots: set<Id>) returns (ids: set<Id>, underIds: set<Id>)
    ensures forall x :: x in ids <==> Reached(index, roots, FOLLOWED_HOPS, x)
    ensures forall x :: x in underIds <==> (x in roots || (x in index && index[x].Some? && index[x].value in roots))
  {
    if |roots| == 0 {
      return {}, {};
    }
    ids := Climb(index, roots);
    var children := set x | x in index && index[x].Some? && index[x].value in roots;
    underIds := roots + children;
  }
}
