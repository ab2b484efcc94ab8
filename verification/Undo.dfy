/**
 * Correcting an episode's season and withdrawing the correction: exactly when the table
 * comes back as it was.
 */
module Undo {
  import opened Options
  import opened MediaRows
  import opened Refiling
  import opened Corrections

  /** An uncorrected episode, a season number that is a real correction of its own, two new identifiers. */
  ghost predicate Undoable(t: Tree, id: Id, number: Option<nat>, minted: Id, again: Id) {
    && id in t && t[id].kind.Episode? && t[id].reported.None?
    && number != t[id].numbers.season
    && Unused(t, minted) && Unused(t, again) && minted != again
    && EpisodesAreLeaves(t)
  }

  /** The table with the correction written on the row and nothing moved yet. */
  function Marked(t: Tree, id: Id, number: Option<nat>): Tree
    requires id in t
  {
    t[id := t[id].(numbers := t[id].numbers.(season := number), reported := Some(t[id].numbers))]
  }

  /** The table once the correction has been refiled and then written off again, before the second refiling. */
  function Unmarked(t: Tree, id: Id, number: Option<nat>, minted: Id, title: int): Tree
    requires id in t && Unused(t, minted)
  {
    var u := Refiled(Marked(t, id, number), id, minted, title);
    if id in u then u[id := u[id].(numbers := t[id].numbers, reported := None)] else u
  }

  lemma MarkingMovesNothing(t: Tree, id: Id, number: Option<nat>)
    requires id in t
    ensures
      var c := Marked(t, id, number);
      && (forall p: Id :: Children(c, p) == Children(t, p))
      && (forall s: Id, n: nat :: t[id].kind.Episode? ==> SeasonsOf(c, s, n) == SeasonsOf(t, s, n))
      && (forall e | e in t :: SeriesOf(c, e) == SeriesOf(t, e))
      && (EpisodesAreLeaves(t) ==> EpisodesAreLeaves(c))
      && (forall m: Id :: Unused(t, m) ==> Unused(c, m))
  {
    RenumberingMovesNothing(t, id, Marked(t, id, number)[id]);
  }

  /** Where a marked episode belongs is read off the unmarked table. */
  lemma HomeOnceMarked(t: Tree, id: Id, number: Option<nat>, series: Id, n: Option<nat>)
    requires id in t && t[id].kind.Episode?
    ensures HomeOf(Marked(t, id, number), series, n) == HomeOf(t, series, n)
  {
    MarkingMovesNothing(t, id, number);
    if n.Some? && SeasonsOf(t, series, n.value) != {} {
      FirstListedDependsOnTheOrderOnly(t, Marked(t, id, number), SeasonsOf(t, series, n.value));
    }
  }

  /** The invented season the correction empties, if it leaves one. */
  function Emptied(t: Tree, id: Id): set<Id>
    requires id in t && t[id].parent.Some?
  {
    var left := t[id].parent.value;
    if left in t && t[left].kind.Season? && LeavesLitter(t, id) then {left} else {}
  }

  /** Whether the correction of `number` has a move to make at all, and where it goes. */
  predicate Displaces(t: Tree, id: Id, number: Option<nat>)
    requires id in t
  {
    t[id].kind.Episode? && SeriesOf(t, id).Some? && HomeOf(t, SeriesOf(t, id).value, number) != t[id].parent
  }

  function Away(t: Tree, id: Id, number: Option<nat>, minted: Id): Id
    requires id in t && SeriesOf(t, id).Some?
  {
    var home := HomeOf(t, SeriesOf(t, id).value, number);
    if home.Some? then home.value else minted
  }

  /** The first half in one place: the move it makes, over the table it makes it in. */
  lemma FirstMove(t: Tree, id: Id, number: Option<nat>, minted: Id, title: int)
    requires id in t && Unused(t, minted) && EpisodesAreLeaves(t) && Displaces(t, id, number)
    ensures
      var c, to := Marked(t, id, number), Away(t, id, number, minted);
      && Unused(c, minted)
      && Moves(c, id, minted) && Destination(c, id, minted) == Some(to)
      && GoodMove(Prepared(c, id, minted, title), id, to)
      && Litter(Prepared(c, id, minted, title), id) == Emptied(t, id)
  {
    var c := Marked(t, id, number);
    MarkingMovesNothing(t, id, number);
    HomeOnceMarked(t, id, number, SeriesOf(t, id).value, number);
    DestinationIsGood(c, id, minted, title);
    PreparedRows(c, id, minted, title);
    var g := Prepared(c, id, minted, title);
    var left := t[id].parent.value;
    if t[left].kind.Series? {
      assert Destination(c, id, minted).value in Children(g, left);
    } else {
      assert Children(g, left) == Children(t, left);
    }
  }

  /** Half way, the table with the destination in it, moved, settled and written off. */
  lemma HalfWayTable(t: Tree, id: Id, number: Option<nat>, minted: Id, title: int)
    requires id in t && Unused(t, minted) && EpisodesAreLeaves(t) && Displaces(t, id, number)
    ensures
      var g, to := Prepared(Marked(t, id, number), id, minted, title), Away(t, id, number, minted);
      && GoodMove(g, id, to) && Litter(g, id) == Emptied(t, id) && g.Keys == t.Keys + {to}
      && var v := MovedAndSettled(g, id, to);
         id in v && Unmarked(t, id, number, minted, title) ==
             v[id := v[id].(numbers := t[id].numbers, reported := None)]
  {
    FirstMove(t, id, number, minted, title);
    var c := Marked(t, id, number);
    PreparedRows(c, id, minted, title);
    MoveRows(Prepared(c, id, minted, title), id, Away(t, id, number, minted));
  }

  lemma HalfWayOldRows(t: Tree, id: Id, number: Option<nat>, minted: Id, title: int)
    requires id in t && Unused(t, minted) && EpisodesAreLeaves(t) && Displaces(t, id, number)
    ensures
      var w, to := Unmarked(t, id, number, minted, title), Away(t, id, number, minted);
      && w.Keys == t.Keys + {to} - Emptied(t, id)
      && id in w && w[id] == t[id].(parent := Some(to), reported := None)
      && forall x | x in t && x in w && x != id ::
           w[x] == if x == to || Some(x) == t[id].parent then t[x].(childCount := w[x].childCount) else t[x]
  {
    HalfWayTable(t, id, number, minted, title);
    PreparedRows(Marked(t, id, number), id, minted, title);
    MoveRows(Prepared(Marked(t, id, number), id, minted, title), id, Away(t, id, number, minted));
  }

  lemma HalfWayNewRow(t: Tree, id: Id, number: Option<nat>, minted: Id, title: int)
    requires id in t && Unused(t, minted) && EpisodesAreLeaves(t) && Displaces(t, id, number)
    requires Away(t, id, number, minted) !in t
    ensures
      var w, to := Unmarked(t, id, number, minted, title), Away(t, id, number, minted);
      && number.Some? && to in w
      && w[to] == InventedSeason(SeriesOf(t, id).value, number.value, title).(childCount := w[to].childCount)
  {
    FirstMove(t, id, number, minted, title);
    HalfWayTable(t, id, number, minted, title);
    MoveRows(Prepared(Marked(t, id, number), id, minted, title), id, Away(t, id, number, minted));
    MarkingMovesNothing(t, id, number);
  }

  /** The rows half way: every row but the moved one and the two ends is as it was. */
  lemma HalfWayRows(t: Tree, id: Id, number: Option<nat>, minted: Id, title: int)
    requires id in t && Unused(t, minted) && EpisodesAreLeaves(t) && Displaces(t, id, number)
    ensures
      var w, to := Unmarked(t, id, number, minted, title), Away(t, id, number, minted);
      && w.Keys == t.Keys + {to} - Emptied(t, id)
      && id in w && w[id] == t[id].(parent := Some(to), reported := None)
      && forall x | x in t && x in w && x != id ::
           w[x] == if x == to || Some(x) == t[id].parent then t[x].(childCount := w[x].childCount) else t[x]
    ensures
      var w, to := Unmarked(t, id, number, minted, title), Away(t, id, number, minted);
      to !in t ==>
        number.Some? &&
        w[to] == InventedSeason(SeriesOf(t, id).value, number.value, title).(childCount := w[to].childCount)
  {
    HalfWayOldRows(t, id, number, minted, title);
    if Away(t, id, number, minted) !in t {
      HalfWayNewRow(t, id, number, minted, title);
    }
  }

  lemma HalfWayPlaces(t: Tree, id: Id, number: Option<nat>, minted: Id, title: int)
    requires id in t && Unused(t, minted) && EpisodesAreLeaves(t) && Displaces(t, id, number)
    ensures
      var w := Unmarked(t, id, number, minted, title);
      && id in w && SeriesOf(w, id) == SeriesOf(t, id) && EpisodesAreLeaves(w)
  {
    FirstMove(t, id, number, minted, title);
    var c := Marked(t, id, number);
    var g, to := Prepared(c, id, minted, title), Away(t, id, number, minted);
    MoveKeepsLeaves(g, id, to);
    assert SeriesOf(g, id) == SeriesOf(t, id) by {
      PreparedRows(c, id, minted, title);
      MarkingMovesNothing(t, id, number);
    }
    MoveKeepsSeries(g, id, to, id);
    var u := MovedAndSettled(g, id, to);
    RenumberingMovesNothing(u, id, u[id].(numbers := t[id].numbers, reported := None));
  }

  /** Half way, the seasons of the number the service reports are still the ones that were there. */
  lemma HalfWaySeasons(t: Tree, id: Id, number: Option<nat>, minted: Id, title: int, series: Id, n: nat)
    requires id in t && Unused(t, minted) && EpisodesAreLeaves(t) && Displaces(t, id, number)
    requires number != Some(n)
    ensures SeasonsOf(Unmarked(t, id, number, minted, title), series, n) == SeasonsOf(t, series, n) - Emptied(t, id)
  {
    HalfWayRows(t, id, number, minted, title);
  }

  /** Half way, the seasons still standing are listed as they were. */
  lemma StandingAsTheyWere(t: Tree, id: Id, number: Option<nat>, minted: Id, title: int, series: Id, n: nat)
    requires id in t && Unused(t, minted) && EpisodesAreLeaves(t) && Displaces(t, id, number)
    requires number != Some(n) && SeasonsOf(t, series, n) - Emptied(t, id) != {}
    ensures
      var w, standing := Unmarked(t, id, number, minted, title), SeasonsOf(t, series, n) - Emptied(t, id);
      standing <= w.Keys && FirstListed(w, standing) == FirstListed(t, standing)
  {
    HalfWayRows(t, id, number, minted, title);
    FirstListedDependsOnTheOrderOnly(
      t, Unmarked(t, id, number, minted, title), SeasonsOf(t, series, n) - Emptied(t, id));
  }

  // --------------------------------------------------------------------- the way back

  lemma TwoNumbersTwoHomes(t: Tree, series: Id, m: Option<nat>, n: Option<nat>)
    requires m != n && series in t && t[series].kind.Series?
    ensures HomeOf(t, series, m).Some? ==> HomeOf(t, series, m) != HomeOf(t, series, n)
  {
  }

  /** The reported number's home, asked half way: the same, unless it was the season just emptied. */
  lemma HomeHalfWay(t: Tree, id: Id, number: Option<nat>, minted: Id, title: int)
    requires id in t && Unused(t, minted) && EpisodesAreLeaves(t) && Displaces(t, id, number)
    requires number != t[id].numbers.season
    ensures
      var home := HomeOf(t, SeriesOf(t, id).value, t[id].numbers.season);
      (home.None? || home.value !in Emptied(t, id)) ==>
        HomeOf(Unmarked(t, id, number, minted, title), SeriesOf(t, id).value, t[id].numbers.season) == home
  {
    var n := t[id].numbers.season;
    if n.Some? {
      var series := SeriesOf(t, id).value;
      HalfWaySeasons(t, id, number, minted, title, series, n.value);
      var all := SeasonsOf(t, series, n.value);
      var part := all - Emptied(t, id);
      if all != {} && FirstListed(t, all) in part {
        FirstOfAPart(t, all, part);
        StandingAsTheyWere(t, id, number, minted, title, series, n.value);
      }
    }
  }

  /** A refiling uses up one new identifier and leaves every other new. */
  lemma RefilingKeepsUnused(c: Tree, id: Id, minted: Id, title: int, again: Id)
    requires id in c && Unused(c, minted) && Unused(c, again) && again != minted && EpisodesAreLeaves(c)
    ensures Unused(Refiled(c, id, minted, title), again)
  {
    if Moves(c, id, minted) {
      var g, to := Prepared(c, id, minted, title), Destination(c, id, minted).value;
      assert GoodMove(g, id, to) by { DestinationIsGood(c, id, minted, title); }
      assert Unused(g, again);
      MoveRows(g, id, to);
    }
  }

  /** The first request marks the row, moves it if it has somewhere to go, and keeps it. */
  lemma AfterTheFirst(t: Tree, id: Id, number: Option<nat>, minted: Id, again: Id, title: int)
    requires Undoable(t, id, number, minted, again)
    ensures
      var c := Marked(t, id, number);
      && Unused(c, minted)
      && var u := Refiled(c, id, minted, title);
      && id in u && u[id].reported == Some(t[id].numbers) && u[id].kind.Episode? && Unused(u, again)
      && (!Displaces(t, id, number) ==> u == c)
  {
    var c := Marked(t, id, number);
    MarkingMovesNothing(t, id, number);
    RefilingKeepsUnused(c, id, minted, title, again);
    if SeriesOf(t, id).Some? {
      HomeOnceMarked(t, id, number, SeriesOf(t, id).value, number);
    }
    if Moves(c, id, minted) {
      DestinationIsGood(c, id, minted, title);
      PreparedRows(c, id, minted, title);
      MoveRows(Prepared(c, id, minted, title), id, Destination(c, id, minted).value);
    }
  }

  /** The pair of requests is one refiling of the half-way table. */
  lemma PairAsOneRefiling(t: Tree, id: Id, number: Option<nat>, minted: Id, again: Id, title: int)
    requires Undoable(t, id, number, minted, again)
    ensures
      var w := Unmarked(t, id, number, minted, title);
      && id in w && Unused(w, again)
      && Runs(t, CorrectThenWithdraw(id, number, minted, again, title))
      && After(t, CorrectThenWithdraw(id, number, minted, again, title)) == Refiled(w, id, again, title)
  {
    var pair := CorrectThenWithdraw(id, number, minted, again, title);
    AfterTheFirst(t, id, number, minted, again, title);
    var c := Marked(t, id, number);
    assert c == t[id := Corrected(t[id], pair[0].instruction)];
    var u := Overridden(t, pair[0]);
    assert u == Refiled(c, id, minted, title);
    var w := Unmarked(t, id, number, minted, title);
    assert w == u[id := Corrected(u[id], None)];
    assert Unused(w, again) by { RenumberingMovesNothing(u, id, w[id]); }
    assert pair[1..] == [pair[1]] && pair[1] == Request(id, None, again, title);
    assert Applicable(u, pair[1]);
    assert Overridden(u, pair[1]) == Refiled(w, id, again, title);
    assert Runs(u, [pair[1]]) by { assert Runs(Overridden(u, pair[1]), []); }
    assert After(u, [pair[1]]) == Overridden(u, pair[1]) by {
      assert [pair[1]][1..] == [];
    }
  }

  /**
   * What a half-way table is, said without the steps that led to it: the episode under
   * `to`, which is new or was there before, every other row but the two ends untouched,
   * and the way back open.
   */
  ghost predicate HalfWay(t: Tree, w: Tree, id: Id, to: Id) {
    && id in t && t[id].parent.Some? && to != t[id].parent.value && to != id && t[id].parent.value in t
    && w.Keys == t.Keys + {to}
    && w[id] == t[id].(parent := Some(to))
    && (forall x | x in t && x != id :: w[x] == t[x].(childCount := w[x].childCount))
    && (forall x | x in t && x != to && Some(x) != t[id].parent :: w[x].childCount == t[x].childCount)
    && (to !in t ==> w[to].synthetic && Children(t, to) == {})
    && GoodMove(w, id, t[id].parent.value)
  }

  lemma HalfWayReached(t: Tree, id: Id, number: Option<nat>, minted: Id, again: Id, title: int)
    requires Undoable(t, id, number, minted, again) && Displaces(t, id, number)
    requires HomeOf(t, SeriesOf(t, id).value, t[id].numbers.season) == t[id].parent && Emptied(t, id) == {}
    ensures
      var w := Unmarked(t, id, number, minted, title);
      && HalfWay(t, w, id, Away(t, id, number, minted))
      && Unused(w, again)
      && Refiled(w, id, again, title) == MovedAndSettled(w, id, t[id].parent.value)
  {
    var w := Unmarked(t, id, number, minted, title);
    PairAsOneRefiling(t, id, number, minted, again, title);
    HalfWayRows(t, id, number, minted, title);
    HalfWayPlaces(t, id, number, minted, title);
    HomeHalfWay(t, id, number, minted, title);
    assert Destination(w, id, again) == t[id].parent;
    DestinationIsGood(w, id, again, title);
  }

  /** What the way back empties: a season invented for the trip, or an invented one that was empty before it. */
  lemma LitterOnTheWayBack(t: Tree, w: Tree, id: Id, to: Id)
    requires HalfWay(t, w, id, to)
    ensures Litter(w, id) == if to !in t || (t[to].synthetic && Children(t, to) == {}) then {to} else {}
  {
    var lone := if to !in t && w[to].parent == Some(to) then {to} else {};
    assert Children(w, to) == Children(t, to) + {id} + lone;
    assert id !in Children(t, to);
  }

  lemma ChildrenOnTheWayBack(t: Tree, w: Tree, id: Id, to: Id, p: Id)
    requires HalfWay(t, w, id, to) && p in t && (p == to || Some(p) == t[id].parent)
    requires to in t && t[to].synthetic ==> Children(t, to) != {}
    ensures Children(MovedAndSettled(w, id, t[id].parent.value), p) == Children(t, p)
  {
    LitterOnTheWayBack(t, w, id, to);
    ChildrenAfterGoodMove(w, id, t[id].parent.value, p);
  }

  /** What the way back leaves, when it empties nothing that was there: the old rows, both ends recounted. */
  lemma WayBackRows(t: Tree, w: Tree, id: Id, to: Id)
    requires HalfWay(t, w, id, to) && (to in t && t[to].synthetic ==> Children(t, to) != {})
    ensures
      var left := t[id].parent.value;
      var v := MovedAndSettled(w, id, left);
      && v.Keys == t.Keys
      && (forall x | x in t && x != left && x != to :: v[x] == t[x])
      && v[left] == t[left].(childCount := |Children(t, left)|)
      && (to in t ==> v[to] == t[to].(childCount := |Children(t, to)|))
  {
    var left := t[id].parent.value;
    LitterOnTheWayBack(t, w, id, to);
    MoveRows(w, id, left);
    MoveCounts(w, id, left);
    ChildrenOnTheWayBack(t, w, id, to, left);
    if to in t {
      ChildrenOnTheWayBack(t, w, id, to, to);
    }
  }

  /** The way back ends in the table it started from exactly when both ends held true counts and more than nothing. */
  lemma WayBack(t: Tree, w: Tree, id: Id, to: Id)
    requires HalfWay(t, w, id, to)
    ensures
      MovedAndSettled(w, id, t[id].parent.value) == t <==>
      && CountExact(t, t[id].parent.value)
      && CountExact(t, to)
      && (to in t && t[to].synthetic ==> Children(t, to) != {})
  {
    if to in t && t[to].synthetic && Children(t, to) == {} {
      LitterOnTheWayBack(t, w, id, to);
      MoveRows(w, id, t[id].parent.value);
    } else {
      WayBackRows(t, w, id, to);
    }
  }

  /** A correction that goes nowhere is undone exactly when nothing was out of place. */
  lemma UndoWithoutAMove(t: Tree, id: Id, number: Option<nat>, minted: Id, again: Id, title: int)
    requires Undoable(t, id, number, minted, again) && !Displaces(t, id, number)
    ensures Runs(t, CorrectThenWithdraw(id, number, minted, again, title))
    ensures After(t, CorrectThenWithdraw(id, number, minted, again, title)) == t <==> Restorable(t, id, number)
  {
    PairAsOneRefiling(t, id, number, minted, again, title);
    AfterTheFirst(t, id, number, minted, again, title);
    assert Unmarked(t, id, number, minted, title) == t;
    if SeriesOf(t, id).Some? {
      TwoNumbersTwoHomes(t, SeriesOf(t, id).value, number, t[id].numbers.season);
      assert Moves(t, id, again);
      DestinationIsGood(t, id, again, title);
      PreparedRows(t, id, again, title);
      MoveRows(Prepared(t, id, again, title), id, Destination(t, id, again).value);
    }
  }

  /**
   * Where a corrected episode that moved is put once the correction is withdrawn: the first
   * season of the number reported that its move left standing, or a new one.
   */
  function PutBackIn(t: Tree, id: Id, again: Id): Id
    requires id in t && SeriesOf(t, id).Some?
  {
    var series, n := SeriesOf(t, id).value, t[id].numbers.season;
    if n.None? then series
    else
      var standing := SeasonsOf(t, series, n.value) - Emptied(t, id);
      if standing == {} then again else FirstListed(t, standing)
  }

  lemma PutBack(t: Tree, id: Id, number: Option<nat>, minted: Id, again: Id, title: int)
    requires Undoable(t, id, number, minted, again) && Displaces(t, id, number)
    ensures
      var w := Unmarked(t, id, number, minted, title);
      && id in w && w[id].kind == t[id].kind && EpisodesAreLeaves(w)
      && Destination(w, id, again) == Some(PutBackIn(t, id, again))
  {
    var w := Unmarked(t, id, number, minted, title);
    HalfWayPlaces(t, id, number, minted, title);
    assert w[id].numbers == t[id].numbers && w[id].kind == t[id].kind by {
      HalfWayRows(t, id, number, minted, title);
    }
    var n := t[id].numbers.season;
    if n.Some? {
      var series := SeriesOf(t, id).value;
      HalfWaySeasons(t, id, number, minted, title, series, n.value);
      if SeasonsOf(t, series, n.value) - Emptied(t, id) != {} {
        StandingAsTheyWere(t, id, number, minted, title, series, n.value);
      }
    }
  }

  /** It is never the place an episode out of place was in, nor the season its leaving emptied. */
  lemma PutBackElsewhere(t: Tree, id: Id, again: Id)
    requires id in t && SeriesOf(t, id).Some? && Unused(t, again)
    requires HomeOf(t, SeriesOf(t, id).value, t[id].numbers.season) != t[id].parent || Emptied(t, id) != {}
    ensures Some(PutBackIn(t, id, again)) != t[id].parent
  {
    var series, n := SeriesOf(t, id).value, t[id].numbers.season;
    if n.Some? && Emptied(t, id) == {} {
      assert SeasonsOf(t, series, n.value) - Emptied(t, id) == SeasonsOf(t, series, n.value);
    }
  }

  /**
   * An episode that was not where its number says, or that alone kept an invented season
   * standing, is not put back where it was: it ends where its number says.
   */
  lemma MisfiledIsNotPutBack(t: Tree, id: Id, number: Option<nat>, minted: Id, again: Id, title: int)
    requires Undoable(t, id, number, minted, again) && Displaces(t, id, number)
    requires HomeOf(t, SeriesOf(t, id).value, t[id].numbers.season) != t[id].parent || Emptied(t, id) != {}
    ensures Runs(t, CorrectThenWithdraw(id, number, minted, again, title))
    ensures
      var v := After(t, CorrectThenWithdraw(id, number, minted, again, title));
      v != t && id in v && v[id].parent == Some(PutBackIn(t, id, again))
  {
    PairAsOneRefiling(t, id, number, minted, again, title);
    PutBack(t, id, number, minted, again, title);
    RefilingReaches(Unmarked(t, id, number, minted, title), id, again, title);
    PutBackElsewhere(t, id, again);
  }

  /** What one refiling cannot undo: it takes the row to its destination and brings no old row back. */
  lemma RefilingReaches(w: Tree, id: Id, again: Id, title: int)
    requires id in w && Unused(w, again) && EpisodesAreLeaves(w) && w[id].kind.Episode?
    ensures
      var v := Refiled(w, id, again, title);
      && id in v && v.Keys <= w.Keys + {again}
      && (Destination(w, id, again).Some? ==> v[id].parent == Destination(w, id, again))
  {
    if Moves(w, id, again) {
      DestinationIsGood(w, id, again, title);
      PreparedRows(w, id, again, title);
      MoveRows(Prepared(w, id, again, title), id, Destination(w, id, again).value);
    }
  }

  /**
   * Correcting the season of an untouched episode and then withdrawing the correction
   * restores the whole table if and only if it was restorable before the correction.
   */
  lemma UndoRestores(t: Tree, id: Id, number: Option<nat>, minted: Id, again: Id, title: int)
    requires Undoable(t, id, number, minted, again)
    ensures Runs(t, CorrectThenWithdraw(id, number, minted, again, title))
    ensures After(t, CorrectThenWithdraw(id, number, minted, again, title)) == t <==> Restorable(t, id, number)
  {
    PairAsOneRefiling(t, id, number, minted, again, title);
    if !Displaces(t, id, number) {
      UndoWithoutAMove(t, id, number, minted, again, title);
    } else if HomeOf(t, SeriesOf(t, id).value, t[id].numbers.season) != t[id].parent || Emptied(t, id) != {} {
      MisfiledIsNotPutBack(t, id, number, minted, again, title);
    } else {
      HalfWayReached(t, id, number, minted, again, title);
      WayBack(t, Unmarked(t, id, number, minted, title), id, Away(t, id, number, minted));
    }
  }
}
