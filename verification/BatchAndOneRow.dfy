/**
 * The batch form and the one-row form of refiling, compared: on a service with nothing
 * invented and nothing to invent, one pass over the rows and one call per numbered
 * episode, in any order, end in the same table exactly when both read the same season as
 * first wherever a series carries a number twice.
 */
module BatchAndOneRow {
  import opened Options
  import opened MediaRows
  import opened Refiling
  import opened Corrections
  import opened ServiceRefiling

  predicate Numbered(t: Tree, e: Id) {
    e in t && t[e].kind.Episode? && t[e].numbers.season.Some?
  }

  /** Nothing is invented, and every number an episode carries names a season of its series. */
  ghost predicate NothingToInvent(t: Tree) {
    && (forall p | p in t && !t[p].kind.Episode? :: !t[p].synthetic)
    && (forall e | Numbered(t, e) && SeriesOf(t, e).Some? ::
         SeasonsOf(t, SeriesOf(t, e).value, t[e].numbers.season.value) != {})
  }

  /** The pass and the one-row form read the same season as first. */
  ghost predicate SameFirsts(t: Tree, order: seq<Id>) {
    forall e | Numbered(t, e) && SeriesOf(t, e).Some? ::
      Target(t, order, e) == HomeOf(t, SeriesOf(t, e).value, t[e].numbers.season)
  }

  /** One call of the one-row form per row of `rows`, in their order. */
  function OneByOne(t: Tree, rows: seq<Id>, minted: Id, title: int): Tree {
    if rows == [] then t
    else
      var earlier := OneByOne(t, rows[..|rows| - 1], minted, title);
      var e := rows[|rows| - 1];
      if e in earlier && Unused(earlier, minted) then Refiled(earlier, e, minted, title) else earlier
  }

  ghost function EndsAmong(t: Tree, order: seq<Id>, rows: set<Id>): set<Id> {
    set p | p in t && IsEnd(t, order, rows, p)
  }

  function Recounted(u: Tree, p: Id, children: set<Id>): Tree
    requires p in u
  {
    u[p := u[p].(childCount := |children|)]
  }

  /** A table with these rows' counts made exact. */
  function Counted(u: Tree, ends: set<Id>): Tree {
    map p | p in u :: if p in ends then u[p].(childCount := |Children(u, p)|) else u[p]
  }

  lemma CountedAfterMove(u: Tree, ends: set<Id>, e: Id, to: Id)
    requires e in u && to in u && u[e].parent.Some? && u[e].parent.value in u
    requires to != u[e].parent.value && e != to && e != u[e].parent.value
    ensures
      var left := u[e].parent.value;
      Counted(Moved(u, e, to), ends + {left, to}) ==
      Recounted(Recounted(Moved(Counted(u, ends), e, to), left, Children(u, left) - {e}), to, Children(u, to) + {e})
  {
    var left := u[e].parent.value;
    var a := Counted(Moved(u, e, to), ends + {left, to});
    var b :=
      Recounted(Recounted(Moved(Counted(u, ends), e, to), left, Children(u, left) - {e}), to, Children(u, to) + {e});
    assert a.Keys == b.Keys;
    forall p | p in u
      ensures a[p] == b[p]
    {
      ChildrenAfterMove(u, e, to, p);
    }
  }

  /** One call of the one-row form that finds its season and leaves nothing invented behind. */
  lemma OneCall(f: Tree, e: Id, to: Id, minted: Id, title: int)
    requires e in f && f[e].kind.Episode? && EpisodesAreLeaves(f) && Unused(f, minted)
    requires SeriesOf(f, e).Some? && HomeOf(f, SeriesOf(f, e).value, f[e].numbers.season) == Some(to)
    requires f[e].parent != Some(to)
    requires f[e].parent.Some? && f[e].parent.value in f && !f[f[e].parent.value].synthetic
    ensures to in f && to != e
    ensures
      var left := f[e].parent.value;
      Refiled(f, e, minted, title) ==
      Recounted(Recounted(Moved(f, e, to), left, Children(f, left) - {e}), to, Children(f, to) + {e})
  {
    assert Destination(f, e, minted) == Some(to);
    DestinationIsGood(f, e, minted, title);
    MoveShape(f, e, to);
  }

  /** The closed form both reach: these rows hung from their targets, the ends of those moves counted. */
  ghost function Filing(t: Tree, order: seq<Id>, rows: set<Id>): Tree {
    Counted(Hung(t, order, rows), EndsAmong(t, order, rows))
  }

  lemma FilingPlaces(t: Tree, order: seq<Id>, rows: set<Id>)
    ensures
      var f, u := Filing(t, order, rows), Hung(t, order, rows);
      && f.Keys == u.Keys
      && (forall x | x in f :: f[x] == u[x].(childCount := f[x].childCount))
      && (forall p: Id :: Children(f, p) == Children(u, p))
      && (forall x | x in f :: SeriesOf(f, x) == SeriesOf(u, x))
      && (forall s: Id, n: nat :: SeasonsOf(f, s, n) == SeasonsOf(u, s, n))
  {
  }

  lemma EndsOfOneMore(t: Tree, order: seq<Id>, rows: set<Id>, e: Id)
    requires e in t
    ensures EndsAmong(t, order, rows + {e}) == EndsAmong(t, order, rows) + set p | p in t && EndOf(t, order, e, p)
  {
    forall p | p in t
      ensures IsEnd(t, order, rows + {e}, p) <==> IsEnd(t, order, rows, p) || EndOf(t, order, e, p)
    {
      if EndOf(t, order, e, p) { assert e in rows + {e}; }
      if w :| w in rows && EndOf(t, order, w, p) { assert w in rows + {e}; }
    }
  }

  /** The home the one-row form reads off the half-filed table is the target. */
  lemma HomeIsTarget(t: Tree, order: seq<Id>, rows: set<Id>, e: Id)
    requires IsService(t, order) && NothingToInvent(t) && SameFirsts(t, order) && Numbered(t, e) && SeriesOf(t, e).Some?
    ensures SeriesOf(Filing(t, order, rows), e) == SeriesOf(t, e)
    ensures HomeOf(Filing(t, order, rows), SeriesOf(t, e).value, t[e].numbers.season) == Target(t, order, e)
  {
    FilingPlaces(t, order, rows);
    HungKeepsSeries(t, order, rows, e);
    var series, n := SeriesOf(t, e).value, t[e].numbers.season.value;
    HungKeepsSeasons(t, order, rows, series, n);
    FirstListedDependsOnTheOrderOnly(t, Filing(t, order, rows), SeasonsOf(t, series, n));
  }

  /** Filing a row that is already in place, or was already filed, changes nothing. */
  lemma FilingNothingMore(t: Tree, order: seq<Id>, rows: set<Id>, e: Id)
    requires e in t && (!Misplaced(t, order, e) || e in rows)
    ensures Filing(t, order, rows + {e}) == Filing(t, order, rows)
  {
    assert Hung(t, order, rows + {e}) == Hung(t, order, rows);
    EndsOfOneMore(t, order, rows, e);
    if Misplaced(t, order, e) {
      forall p | p in t && EndOf(t, order, e, p)
        ensures IsEnd(t, order, rows, p)
      {
      }
    }
  }

  /** What the one-row form reads in the half-filed table. */
  lemma FilingReads(t: Tree, order: seq<Id>, rows: set<Id>, e: Id, minted: Id)
    requires IsService(t, order) && Numbered(t, e) && Unused(t, minted)
    ensures
      var f := Filing(t, order, rows);
      && e in f && f[e].kind.Episode? && f[e].numbers == t[e].numbers
      && f[e].parent == (if e in rows && Misplaced(t, order, e) then Target(t, order, e) else t[e].parent)
      && SeriesOf(f, e) == SeriesOf(t, e)
  {
    HungKeepsSeries(t, order, rows, e);
    FilingPlaces(t, order, rows);
  }

  lemma FilingIsSound(t: Tree, order: seq<Id>, rows: set<Id>, minted: Id)
    requires IsService(t, order) && NothingToInvent(t) && Unused(t, minted)
    ensures
      var f := Filing(t, order, rows);
      && EpisodesAreLeaves(f) && Unused(f, minted)
      && forall p | p in f && !f[p].kind.Episode? :: !f[p].synthetic
  {
    var u := Hung(t, order, rows);
    assert forall x | x in t && !t[x].kind.Episode? :: u[x] == t[x];
    assert forall x | x in t && Misplaced(t, order, x) ::
        Target(t, order, x).value in SeasonsOf(t, SeriesOf(t, x).value, t[x].numbers.season.value);
    assert EpisodesAreLeaves(u) && Unused(u, minted);
    FilingPlaces(t, order, rows);
  }

  /** The closed form after one more move, from the closed form before it. */
  lemma FilingShape(t: Tree, order: seq<Id>, rows: set<Id>, e: Id)
    requires IsService(t, order) && Numbered(t, e) && Misplaced(t, order, e) && e !in rows
    ensures
      var f := Filing(t, order, rows);
      var left, to := t[e].parent.value, Target(t, order, e).value;
      && e in f && left in f && to in f
      && Filing(t, order, rows + {e}) ==
         Recounted(Recounted(Moved(f, e, to), left, Children(f, left) - {e}), to, Children(f, to) + {e})
  {
    var f, u := Filing(t, order, rows), Hung(t, order, rows);
    var left, to := t[e].parent.value, Target(t, order, e).value;
    assert left in t && to in t && left != e && to != e by {
      assert to in SeasonsOf(t, SeriesOf(t, e).value, t[e].numbers.season.value);
    }
    OneMoreHung(t, order, rows, e);
    EndsOfOneMore(t, order, rows, e);
    assert (set p | p in t && EndOf(t, order, e, p)) == {left, to};
    CountedAfterMove(u, EndsAmong(t, order, rows), e, to);
    assert Children(f, left) == Children(u, left) && Children(f, to) == Children(u, to) by {
      FilingPlaces(t, order, rows);
    }
  }

  lemma FilingMove(t: Tree, order: seq<Id>, rows: set<Id>, e: Id, minted: Id, title: int)
    requires IsService(t, order) && NothingToInvent(t) && SameFirsts(t, order)
    requires Numbered(t, e) && Unused(t, minted) && Misplaced(t, order, e) && e !in rows
    ensures Unused(Filing(t, order, rows), minted) && e in Filing(t, order, rows)
    ensures Refiled(Filing(t, order, rows), e, minted, title) == Filing(t, order, rows + {e})
  {
    FilingReads(t, order, rows, e, minted);
    FilingIsSound(t, order, rows, minted);
    HomeIsTarget(t, order, rows, e);
    FilingShape(t, order, rows, e);
    OneCall(Filing(t, order, rows), e, Target(t, order, e).value, minted, title);
  }

  /** One more call of the one-row form files one more row. */
  lemma FilingOneMore(t: Tree, order: seq<Id>, rows: set<Id>, e: Id, minted: Id, title: int)
    requires IsService(t, order) && NothingToInvent(t) && SameFirsts(t, order)
    requires Numbered(t, e) && Unused(t, minted)
    ensures Unused(Filing(t, order, rows), minted) && e in Filing(t, order, rows)
    ensures Refiled(Filing(t, order, rows), e, minted, title) == Filing(t, order, rows + {e})
  {
    if Misplaced(t, order, e) && e !in rows {
      FilingMove(t, order, rows, e, minted, title);
    } else {
      FilingNothingMore(t, order, rows, e);
      FilingReads(t, order, rows, e, minted);
      FilingIsSound(t, order, rows, minted);
      if SeriesOf(t, e).Some? {
        HomeIsTarget(t, order, rows, e);
        assert Destination(Filing(t, order, rows), e, minted) == Target(t, order, e);
      }
    }
  }

  lemma {:induction false} OneByOneIsFiling(t: Tree, order: seq<Id>, rows: seq<Id>, minted: Id, title: int)
    requires IsService(t, order) && NothingToInvent(t) && SameFirsts(t, order) && Unused(t, minted)
    requires forall e | e in rows :: Numbered(t, e)
    ensures OneByOne(t, rows, minted, title) == Filing(t, order, Listed(rows))
  {
    if rows == [] {
      assert Filing(t, order, {}) == t;
    } else {
      var earlier, e := rows[..|rows| - 1], rows[|rows| - 1];
      OneByOneIsFiling(t, order, earlier, minted, title);
      assert Listed(rows) == Listed(earlier) + {e};
      FilingOneMore(t, order, Listed(earlier), e, minted, title);
    }
  }

  lemma PassIsFiling(t: Tree, order: seq<Id>)
    requires IsService(t, order) && NothingToInvent(t)
    ensures ServiceRefiled(t, order) == Filing(t, order, Listed(order))
  {
    PassOutcome(t, order);
    TouchedAreTheEnds(t, order, order);
    var u, ends := Hung(t, order, Listed(order)), Ends(t, order, order);
    forall p | p in ends
      ensures !Removable(u, p)
    {
      var e :| e in Listed(order) && EndOf(t, order, e, p);
      if p in t && !t[p].kind.Episode? {
        assert u[p] == t[p];
      }
    }
    assert RemovableOf(u, ends) == {};
    assert forall p | p in t :: p in ends <==> p in EndsAmong(t, order, Listed(order));
  }

  lemma FilingTheSame(t: Tree, order: seq<Id>, a: set<Id>, b: set<Id>)
    requires forall e | e in t && Misplaced(t, order, e) :: e in a <==> e in b
    ensures Filing(t, order, a) == Filing(t, order, b)
  {
    assert Hung(t, order, a) == Hung(t, order, b);
    forall p | p in t
      ensures IsEnd(t, order, a, p) <==> IsEnd(t, order, b, p)
    {
      if w :| w in a && EndOf(t, order, w, p) { assert w in b; }
      if w :| w in b && EndOf(t, order, w, p) { assert w in a; }
    }
  }

  /** When the same season is read as first, the two forms agree whatever the order of the calls. */
  lemma FormsAgree(t: Tree, order: seq<Id>, rows: seq<Id>, minted: Id, title: int)
    requires IsService(t, order) && NothingToInvent(t) && SameFirsts(t, order) && Unused(t, minted)
    requires forall e :: e in rows <==> Numbered(t, e)
    ensures OneByOne(t, rows, minted, title) == ServiceRefiled(t, order)
  {
    OneByOneIsFiling(t, order, rows, minted, title);
    PassIsFiling(t, order);
    FilingTheSame(t, order, Listed(rows), Listed(order));
  }

  // ------------------------------------------------------ when they do not read the same

  /** A listing of some rows in the order `findChildren` answers in. */
  ghost predicate Sorted(t: Tree, order: seq<Id>) {
    && (forall x | x in order :: x in t)
    && forall i, j | 0 <= i < j < |order| :: ListedBefore(t, order[i], order[j])
  }

  lemma {:induction false} SortedListing(t: Tree, ids: set<Id>) returns (order: seq<Id>)
    requires ids <= t.Keys
    ensures Sorted(t, order) && Distinct(order) && forall x :: x in order <==> x in ids
    decreases ids
  {
    if ids == {} {
      order := [];
    } else {
      var first := FirstListed(t, ids);
      var rest := SortedListing(t, ids - {first});
      order := [first] + rest;
    }
  }

  lemma {:induction false} FirstInSorted(t: Tree, order: seq<Id>, wanted: set<Id>)
    requires Sorted(t, order) && wanted != {} && wanted <= t.Keys && forall x | x in wanted :: x in order
    ensures FirstIn(order, wanted) == Some(FirstListed(t, wanted))
  {
    var first := FirstListed(t, wanted);
    if order[0] in wanted {
      var i :| 0 <= i < |order| && order[i] == first;
      assert ListedBefore(t, first, order[0]);
      assert i > 0 ==> ListedBefore(t, order[0], order[i]);
    } else {
      assert forall x | x in wanted :: x in order[1..];
      FirstInSorted(t, order[1..], wanted);
    }
  }

  /** Read in the order `findChildren` uses, the pass reads the same firsts as the one-row form. */
  lemma SortedReadsTheSame(t: Tree, sorted: seq<Id>)
    requires Enumerates(t, sorted) && Sorted(t, sorted) && NothingToInvent(t)
    ensures SameFirsts(t, sorted)
  {
    forall e | Numbered(t, e) && SeriesOf(t, e).Some?
      ensures Target(t, sorted, e) == HomeOf(t, SeriesOf(t, e).value, t[e].numbers.season)
    {
      FirstInSorted(t, sorted, SeasonsOf(t, SeriesOf(t, e).value, t[e].numbers.season.value));
    }
  }

  /**
   * On a service with nothing invented and nothing to invent, the batch pass and the
   * one-row form applied to the numbered episodes in any order reach the same table, child
   * counts included, if and only if they read the same season as first.
   */
  lemma BatchAgreesWithOneRow(t: Tree, order: seq<Id>, rows: seq<Id>, minted: Id, title: int)
    requires IsService(t, order) && NothingToInvent(t) && Unused(t, minted)
    requires forall e :: e in rows <==> Numbered(t, e)
    ensures OneByOne(t, rows, minted, title) == ServiceRefiled(t, order) <==> SameFirsts(t, order)
  {
    if SameFirsts(t, order) {
      FormsAgree(t, order, rows, minted, title);
    } else {
      var sorted := SortedListing(t, t.Keys);
      SortedReadsTheSame(t, sorted);
      FormsAgree(t, sorted, rows, minted, title);
      var e :| Numbered(t, e) && SeriesOf(t, e).Some?
        && Target(t, order, e) != HomeOf(t, SeriesOf(t, e).value, t[e].numbers.season);
      PassKeepsSeries(t, order);
      PassFiles(t, order, e);
      PassKeepsSeries(t, sorted);
      PassFiles(t, sorted, e);
      TargetExists(t, order, e);
      TargetExists(t, sorted, e);
    }
  }

  /** Where no series carries a number twice, every listing reads the same firsts. */
  lemma UniqueNumbersReadTheSame(t: Tree, order: seq<Id>)
    requires Enumerates(t, order) && NothingToInvent(t)
    requires forall s, n, a, b | a in SeasonsOf(t, s, n) && b in SeasonsOf(t, s, n) :: a == b
    ensures SameFirsts(t, order)
  {
  }

  /** A series with two seasons of one number, read the other way round, keeps the two forms apart. */
  lemma TwoCutsOfOneSeason()
    ensures
      var t: Tree := map[
        0 := Row(Series, None, Numbers(None, None), None, 0, false, 2, None),
        1 := Row(Season, Some(0), Numbers(Some(1), None), None, 0, false, 0, None),
        2 := Row(Season, Some(0), Numbers(Some(1), None), None, 1, false, 1, None),
        3 := Row(Episode, Some(2), Numbers(Some(1), Some(1)), None, 0, false, 0, None)];
      IsService(t, [2, 1, 0, 3]) && NothingToInvent(t) && !SameFirsts(t, [2, 1, 0, 3])
  {
    var t: Tree := map[
      0 := Row(Series, None, Numbers(None, None), None, 0, false, 2, None),
      1 := Row(Season, Some(0), Numbers(Some(1), None), None, 0, false, 0, None),
      2 := Row(Season, Some(0), Numbers(Some(1), None), None, 1, false, 1, None),
      3 := Row(Episode, Some(2), Numbers(Some(1), Some(1)), None, 0, false, 0, None)];
    assert SeasonsOf(t, 0, 1) == {1, 2};
    assert ListedBefore(t, 1, 2) && !ListedBefore(t, 2, 1);
    assert SeriesOf(t, 3) == Some(0) && Numbered(t, 3);
    assert Target(t, [2, 1, 0, 3], 3) == Some(2);
    assert HomeOf(t, 0, Some(1)) == Some(1);
  }
}
