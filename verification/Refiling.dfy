/**
 * Giving one episode the parent its own season number calls for.
 *
 * `Refiled` is the one-row form: find or invent the season, move the row, then settle the
 * two parents it had.
 */
module Refiling {
  import opened Options
  import opened MediaRows

  /** A row recounted, or removed when it is an invented one with nothing under it. */
  function Settled(t: Tree, at: Option<Id>): Tree {
    if at.None? || at.value !in t then t
    else if Children(t, at.value) == {} && t[at.value].synthetic then t - {at.value}
    else t[at.value := t[at.value].(childCount := |Children(t, at.value)|)]
  }

  /** The season row the gateway invents when no server reports one. */
  function InventedSeason(series: Id, number: nat, title: int): Row {
    Row(Season, Some(series), Numbers(Some(number), None), None, title, true, 0, None)
  }

  /** Where an episode belongs today, before anything is invented for it. */
  function HomeOf(t: Tree, series: Id, number: Option<nat>): Option<Id> {
    if number.None? then Some(series)
    else if SeasonsOf(t, series, number.value) == {} then None
    else Some(FirstListed(t, SeasonsOf(t, series, number.value)))
  }

  function Moved(t: Tree, id: Id, to: Id): Tree
    requires id in t
  {
    t[id := t[id].(parent := Some(to))]
  }

  /** The two ends of a move, the one left first. */
  function MovedAndSettled(t: Tree, id: Id, to: Id): Tree
    requires id in t
  {
    Settled(Settled(Moved(t, id, to), t[id].parent), Some(to))
  }

  /** Whether the season the numbers name has to be invented first. */
  predicate Invents(t: Tree, id: Id)
    requires id in t
  {
    SeriesOf(t, id).Some? && HomeOf(t, SeriesOf(t, id).value, t[id].numbers.season).None?
  }

  /**
   * The table once the destination exists. `minted` is the identifier an invented season
   * is given and `title` the name it gets; neither matters when one is found.
   */
  function Prepared(t: Tree, id: Id, minted: Id, title: int): Tree
    requires id in t
  {
    if Invents(t, id) then
      t[minted := InventedSeason(SeriesOf(t, id).value, t[id].numbers.season.value, title)]
    else t
  }

  /** The row an episode is to hang from, or nothing when no series is above it. */
  function Destination(t: Tree, id: Id, minted: Id): Option<Id>
    requires id in t
  {
    if SeriesOf(t, id).None? then None
    else if Invents(t, id) then Some(minted)
    else HomeOf(t, SeriesOf(t, id).value, t[id].numbers.season)
  }

  /** Whether the one-row form moves this row. */
  predicate Moves(t: Tree, id: Id, minted: Id)
    requires id in t
  {
    t[id].kind.Episode? && Destination(t, id, minted).Some? && Destination(t, id, minted) != t[id].parent
  }

  function Refiled(t: Tree, id: Id, minted: Id, title: int): Tree
    requires id in t && Unused(t, minted)
  {
    if Moves(t, id, minted) then
      MovedAndSettled(Prepared(t, id, minted, title), id, Destination(t, id, minted).value)
    else t
  }

  // ---------------------------------------------------------------- what one move does

  /** A move between two live rows of one series: what every caller of `MovedAndSettled` knows. */
  ghost predicate GoodMove(t: Tree, id: Id, to: Id) {
    && id in t && to in t && id != to
    && t[id].kind.Episode? && !t[to].kind.Episode?
    && EpisodesAreLeaves(t)
    && t[id].parent.Some? && t[id].parent != Some(to)
    && SeriesOf(t, id).Some?
    && SeriesAbove(t, Some(to)) == SeriesOf(t, id)
  }

  /** Only the end that was left can be removed, and only when it was invented and is empty. */
  predicate LeavesLitter(t: Tree, id: Id)
    requires id in t && t[id].parent.Some?
  {
    var left := t[id].parent.value;
    left in t && t[left].synthetic && Children(t, left) == {id}
  }

  lemma ChildrenAfterMove(t: Tree, id: Id, to: Id, p: Id)
    requires id in t && t[id].parent.Some? && t[id].parent != Some(to)
    ensures Children(Moved(t, id, to), p) ==
            if p == to then Children(t, p) + {id}
            else if Some(p) == t[id].parent then Children(t, p) - {id}
            else Children(t, p)
  {
  }

  /** Recounting or removing a childless row changes nobody's children but the removed row's parent's. */
  lemma ChildrenAfterSettling(t: Tree, at: Option<Id>, p: Id)
    ensures at.Some? && at.value !in Settled(t, at) ==>
              Children(Settled(t, at), p) == Children(t, p) - {at.value}
    ensures at.Some? && at.value in Settled(t, at) ==> Children(Settled(t, at), p) == Children(t, p)
    ensures at.None? ==> Settled(t, at) == t
  {
  }

  /** The rows a move removes: the invented season it emptied, if that is what it left. */
  function Litter(t: Tree, id: Id): set<Id>
    requires id in t && t[id].parent.Some?
  {
    if LeavesLitter(t, id) then {t[id].parent.value} else {}
  }

  /** Who is under each row once a good move has settled. */
  lemma ChildrenAfterGoodMove(t: Tree, id: Id, to: Id, p: Id)
    requires GoodMove(t, id, to)
    ensures
      Children(MovedAndSettled(t, id, to), p) ==
      (if p == to then Children(t, p) + {id} else if Some(p) == t[id].parent then Children(t, p) - {id}
       else Children(t, p))
      - Litter(t, id)
  {
    var left := t[id].parent.value;
    var m := Moved(t, id, to);
    var s := Settled(m, Some(left));
    ChildrenAfterMove(t, id, to, left);
    assert id in Children(t, left);
    assert left !in s <==> left in Litter(t, id);
    ChildrenAfterMove(t, id, to, p);
    ChildrenAfterSettling(m, Some(left), p);
    ChildrenAfterMove(t, id, to, to);
    ChildrenAfterSettling(m, Some(left), to);
    assert id in Children(s, to);
    ChildrenAfterSettling(s, Some(to), p);
  }

  /** What hangs from the two ends once the row has moved. */
  lemma EndsOfAMove(t: Tree, id: Id, to: Id)
    requires GoodMove(t, id, to)
    ensures
      var left, m := t[id].parent.value, Moved(t, id, to);
      && Children(m, left) == Children(t, left) - {id} && id in Children(t, left)
      && Children(Settled(m, Some(left)), to) == Children(t, to) + {id} - Litter(t, id)
      && id in Children(Settled(m, Some(left)), to)
  {
    var left, m := t[id].parent.value, Moved(t, id, to);
    ChildrenAfterMove(t, id, to, left);
    ChildrenAfterMove(t, id, to, to);
    ChildrenAfterSettling(m, Some(left), to);
  }

  /** A good move in one expression: the row moved, the end it left recounted or removed, the other recounted. */
  lemma MoveShape(t: Tree, id: Id, to: Id)
    requires GoodMove(t, id, to)
    ensures
      var left, m := t[id].parent.value, Moved(t, id, to);
      var s := if LeavesLitter(t, id) then m - {left}
          else m[left := m[left].(childCount := |Children(t, left) - {id}|)];
      && to in s
      && MovedAndSettled(t, id, to) == s[to := s[to].(childCount := |Children(t, to) + {id} - Litter(t, id)|)]
  {
    EndsOfAMove(t, id, to);
  }

  /** The rows a good move leaves: nothing but one parent and the two ends' counts is rewritten. */
  lemma MoveRows(t: Tree, id: Id, to: Id)
    requires GoodMove(t, id, to)
    ensures
      var u := MovedAndSettled(t, id, to);
      && u.Keys == t.Keys - Litter(t, id)
      && u[id] == t[id].(parent := Some(to))
      && forall x | x in u && x != id ::
          u[x] == if x == to || Some(x) == t[id].parent then t[x].(childCount := u[x].childCount) else t[x]
  {
    MoveShape(t, id, to);
  }

  /** Both ends of a good move hold exact counts, whatever they said before. */
  lemma MoveCounts(t: Tree, id: Id, to: Id)
    requires GoodMove(t, id, to)
    ensures CountExact(MovedAndSettled(t, id, to), to)
    ensures CountExact(MovedAndSettled(t, id, to), t[id].parent.value)
  {
    MoveShape(t, id, to);
    ChildrenAfterGoodMove(t, id, to, to);
    ChildrenAfterGoodMove(t, id, to, t[id].parent.value);
    assert t[id].parent.value in Litter(t, id) ==> t[t[id].parent.value].parent != t[id].parent;
  }

  // ------------------------------------------------------------ what a good move keeps

  /** No episode is lost and none changes series, the moved one included. */
  lemma MoveKeepsSeries(t: Tree, id: Id, to: Id, e: Id)
    requires GoodMove(t, id, to)
    requires e in t && t[e].kind.Episode?
    ensures e in MovedAndSettled(t, id, to)
    ensures SeriesOf(MovedAndSettled(t, id, to), e) == SeriesOf(t, e)
  {
    MoveRows(t, id, to);
    var u := MovedAndSettled(t, id, to);
    assert e !in Litter(t, id) by {
      assert id in t && t[id].parent.Some?;
    }
    if e != id && t[e].parent.Some? && t[e].parent.value in t {
      var up := t[e].parent.value;
      assert e in Children(t, up);
      assert up in u;
      if t[up].parent.Some? && t[up].parent.value in t {
        assert up in Children(t, t[up].parent.value);
        assert t[up].parent.value in u;
      }
    }
  }

  lemma MoveKeepsLeaves(t: Tree, id: Id, to: Id)
    requires GoodMove(t, id, to)
    ensures EpisodesAreLeaves(MovedAndSettled(t, id, to))
  {
    MoveRows(t, id, to);
  }

  /** The seasons of every series are the same rows, but for the one removed. */
  lemma MoveKeepsSeasons(t: Tree, id: Id, to: Id, series: Id, number: nat)
    requires GoodMove(t, id, to)
    ensures SeasonsOf(MovedAndSettled(t, id, to), series, number) == SeasonsOf(t, series, number) - Litter(t, id)
  {
    MoveRows(t, id, to);
  }

  /** The end that was left cannot strand another invented season: what it hung from is a series. */
  lemma MoveLeavesNoEmptyInvented(t: Tree, id: Id, to: Id)
    requires GoodMove(t, id, to)
    requires forall p | p in t && p != to && t[p].kind.Season? && t[p].synthetic :: Children(t, p) != {}
    ensures NoEmptyInvented(MovedAndSettled(t, id, to))
  {
    MoveRows(t, id, to);
    var u := MovedAndSettled(t, id, to);
    forall p | p in u && u[p].kind.Season? && u[p].synthetic
      ensures Children(u, p) != {}
    {
      ChildrenAfterGoodMove(t, id, to, p);
      if p == to {
        assert id in Children(u, p);
      } else if Some(p) == t[id].parent {
        assert Children(u, p) == Children(t, p) - {id} - Litter(t, id);
        assert id in Children(t, p);
        LitterHangsFromASeries(t, id, to, p);
      } else {
        LitterHangsFromASeries(t, id, to, p);
      }
    }
  }

  lemma LitterHangsFromASeries(t: Tree, id: Id, to: Id, p: Id)
    requires GoodMove(t, id, to) && p in t && t[p].kind.Season?
    ensures Litter(t, id) !! Children(t, p)
  {
    var left := t[id].parent.value;
    if t[left].kind.Series? {
      assert to in Children(t, left);
    } else {
      assert t[left].parent != Some(p);
    }
  }

  /** A season's true count stays true, and the ends' counts become so. */
  lemma MoveKeepsCount(t: Tree, id: Id, to: Id, p: Id)
    requires GoodMove(t, id, to) && p in t && t[p].kind.Season? && (p == to || CountExact(t, p))
    ensures CountExact(MovedAndSettled(t, id, to), p)
  {
    MoveRows(t, id, to);
    MoveCounts(t, id, to);
    if p != to && Some(p) != t[id].parent {
      ChildrenAfterGoodMove(t, id, to, p);
      LitterHangsFromASeries(t, id, to, p);
    }
  }

  // ------------------------------------------------- the season found or invented for it

  /** Preparing the destination adds at most one empty season, under the episode's own series. */
  lemma PreparedRows(t: Tree, id: Id, minted: Id, title: int)
    requires id in t && Unused(t, minted)
    ensures
      var g := Prepared(t, id, minted, title);
      && g.Keys == t.Keys + (if Invents(t, id) then {minted} else {})
      && (forall x | x in t :: g[x] == t[x])
      && (forall p: Id :: Children(g, p) ==
           Children(t, p) + if Invents(t, id) && SeriesOf(t, id) == Some(p) then {minted} else {})
      && (forall e | e in t :: SeriesOf(g, e) == SeriesOf(t, e))
  {
  }

  lemma PreparedSeasons(t: Tree, id: Id, minted: Id, title: int, series: Id, number: nat)
    requires id in t && Unused(t, minted)
    ensures
      SeasonsOf(Prepared(t, id, minted, title), series, number) ==
      if Invents(t, id) && SeriesOf(t, id) == Some(series) && t[id].numbers.season == Some(number) then {minted}
      else SeasonsOf(t, series, number)
  {
    if Invents(t, id) && SeriesOf(t, id) == Some(series) && t[id].numbers.season == Some(number) {
      assert SeasonsOf(t, series, number) == {};
    }
  }

  /** Whatever the season, moving the episode under it is a good move. */
  lemma DestinationIsGood(t: Tree, id: Id, minted: Id, title: int)
    requires id in t && Unused(t, minted) && EpisodesAreLeaves(t) && Moves(t, id, minted)
    ensures GoodMove(Prepared(t, id, minted, title), id, Destination(t, id, minted).value)
  {
    PreparedRows(t, id, minted, title);
    var g := Prepared(t, id, minted, title);
    var series, to := SeriesOf(t, id).value, Destination(t, id, minted).value;
    assert series in t && t[series].kind.Series?;
    assert EpisodesAreLeaves(g);
    assert !g[to].kind.Episode? && SeriesAbove(g, Some(to)) == Some(series);
  }
}
