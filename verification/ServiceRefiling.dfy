/**
 * Filing every episode of a service in one pass over a projection of its rows.
 *
 * The projection is read once, in an order the query leaves to the engine, so the order is
 * a parameter here: any sequence that lists every row once.
 */
module ServiceRefiling {
  import opened Options
  import opened MediaRows
  import opened Refiling
  import opened Corrections

  datatype Move = Move(id: Id, from: Id, to: Id)

  ghost predicate Distinct<T>(s: seq<T>) {
    forall i, j | 0 <= i < j < |s| :: s[i] != s[j]
  }

  ghost predicate Enumerates(t: Tree, order: seq<Id>) {
    (forall x :: x in order <==> x in t) && Distinct(order)
  }

  /** The first of `wanted` that `order` lists. */
  function FirstIn(order: seq<Id>, wanted: set<Id>): (r: Option<Id>)
    ensures r.Some? ==> r.value in wanted && r.value in order
    ensures r.None? <==> forall x | x in order :: x !in wanted
  {
    if order == [] then None
    else if order[0] in wanted then Some(order[0])
    else FirstIn(order[1..], wanted)
  }

  /** The season a row is to be filed under: the first listed of its series with its number. */
  function Target(t: Tree, order: seq<Id>, e: Id): Option<Id>
    requires e in t
  {
    if !t[e].kind.Episode? || t[e].numbers.season.None? || SeriesOf(t, e).None? then None
    else FirstIn(order, SeasonsOf(t, SeriesOf(t, e).value, t[e].numbers.season.value))
  }

  predicate Misplaced(t: Tree, order: seq<Id>, e: Id)
    requires e in t
  {
    Target(t, order, e).Some? && Target(t, order, e) != t[e].parent
  }

  /** The moves the pass decides on, in the order it reads the rows. */
  function MovesOf(t: Tree, order: seq<Id>, rows: seq<Id>): seq<Move>
    requires forall x | x in rows :: x in t
  {
    if rows == [] then []
    else
      var earlier := MovesOf(t, order, rows[..|rows| - 1]);
      var e := rows[|rows| - 1];
      if Misplaced(t, order, e) then earlier + [Move(e, t[e].parent.value, Target(t, order, e).value)]
      else earlier
  }

  function MovedAll(t: Tree, moves: seq<Move>): Tree
    requires forall m | m in moves :: m.id in t
  {
    if moves == [] then t
    else
      var earlier := MovedAll(t, moves[..|moves| - 1]);
      var m := moves[|moves| - 1];
      if m.id in earlier then Moved(earlier, m.id, m.to) else earlier
  }

  /** Both ends of every move, each once, in the order they were first met. */
  function Touched(moves: seq<Move>): seq<Id> {
    if moves == [] then []
    else
      var earlier := Touched(moves[..|moves| - 1]);
      var m := moves[|moves| - 1];
      var withFrom := if m.from in earlier then earlier else earlier + [m.from];
      if m.to in withFrom then withFrom else withFrom + [m.to]
  }

  function SettledAll(t: Tree, ids: seq<Id>): Tree {
    if ids == [] then t
    else Settled(SettledAll(t, ids[..|ids| - 1]), Some(ids[|ids| - 1]))
  }

  function ServiceRefiled(t: Tree, order: seq<Id>): Tree
    requires forall x | x in order :: x in t
  {
    var moves := MovesOf(t, order, order);
    assert forall m | m in moves :: m.id in t by { MovesAreOfRows(t, order, order); }
    SettledAll(MovedAll(t, moves), Touched(moves))
  }

  lemma {:induction false} MovesAreOfRows(t: Tree, order: seq<Id>, rows: seq<Id>)
    requires forall x | x in rows :: x in t
    ensures forall m | m in MovesOf(t, order, rows) ::
              m.id in rows && Misplaced(t, order, m.id)
              && t[m.id].parent == Some(m.from) && Target(t, order, m.id) == Some(m.to)
    ensures forall e | e in rows && Misplaced(t, order, e) ::
              Move(e, t[e].parent.value, Target(t, order, e).value) in MovesOf(t, order, rows)
  {
    if rows != [] {
      MovesAreOfRows(t, order, rows[..|rows| - 1]);
    }
  }

  // -------------------------------------------------- the index the pass builds as it reads

  function Known(index: map<Id, map<nat, Id>>, series: Id, number: nat): Option<Id> {
    if series in index && number in index[series] then Some(index[series][number]) else None
  }

  /** The index holds, for every series and number, the first of the rows read so far. */
  ghost predicate ReadSoFar(t: Tree, rows: seq<Id>, index: map<Id, map<nat, Id>>) {
    forall s: Id, n: nat :: Known(index, s, n) == FirstIn(rows, SeasonsOf(t, s, n))
  }

  lemma {:induction false} FirstInOneMore(rows: seq<Id>, e: Id, wanted: set<Id>)
    ensures FirstIn(rows + [e], wanted) ==
            if FirstIn(rows, wanted).Some? then FirstIn(rows, wanted) else if e in wanted then Some(e) else None
  {
    if rows == [] {
      assert FirstIn([e], wanted) == if e in wanted then Some(e) else None;
    } else {
      assert (rows + [e])[1..] == rows[1..] + [e];
      FirstInOneMore(rows[1..], e, wanted);
    }
  }

  /** The index with one more row read into it: only a numbered season can add to it, and only where none is known. */
  function IndexedWith(t: Tree, index: map<Id, map<nat, Id>>, e: Id): map<Id, map<nat, Id>>
    requires e in t
  {
    var row := t[e];
    if !row.kind.Season? || row.parent.None? || row.numbers.season.None? then index
    else
      var series, number := row.parent.value, row.numbers.season.value;
      var seasons := if series in index then index[series] else map[];
      index[series := if number in seasons then seasons else seasons[number := e]]
  }

  lemma ReadingOneMore(t: Tree, rows: seq<Id>, e: Id, index: map<Id, map<nat, Id>>)
    requires e in t && ReadSoFar(t, rows, index)
    ensures ReadSoFar(t, rows + [e], IndexedWith(t, index, e))
  {
    forall s: Id, n: nat
      ensures Known(IndexedWith(t, index, e), s, n) == FirstIn(rows + [e], SeasonsOf(t, s, n))
    {
      FirstInOneMore(rows, e, SeasonsOf(t, s, n));
      assert Known(index, s, n) == FirstIn(rows, SeasonsOf(t, s, n));
    }
  }

  // ------------------------------------------------------------ the pass in closed form

  /** The table with exactly the misplaced rows among `rows` hung from their targets. */
  function Hung(t: Tree, order: seq<Id>, rows: set<Id>): Tree {
    map x | x in t :: if x in rows && Misplaced(t, order, x) then t[x].(parent := Target(t, order, x)) else t[x]
  }

  function Listed(rows: seq<Id>): set<Id> {
    set x | x in rows
  }

  predicate EndOf(t: Tree, order: seq<Id>, e: Id, p: Id) {
    e in t && Misplaced(t, order, e) && (t[e].parent == Some(p) || Target(t, order, e) == Some(p))
  }

  /** Some misplaced row among `rows` leaves this one or comes to it. */
  ghost predicate IsEnd(t: Tree, order: seq<Id>, rows: set<Id>, p: Id) {
    exists e :: e in rows && EndOf(t, order, e, p)
  }

  lemma OneMoreHung(t: Tree, order: seq<Id>, rows: set<Id>, e: Id)
    requires e in t
    ensures Hung(t, order, rows + {e}) ==
            if Misplaced(t, order, e) then Moved(Hung(t, order, rows), e, Target(t, order, e).value)
            else Hung(t, order, rows)
  {
  }

  lemma {:induction false} MovedAllIsHung(t: Tree, order: seq<Id>, rows: seq<Id>)
    requires forall x | x in rows :: x in t
    ensures forall m | m in MovesOf(t, order, rows) :: m.id in t
    ensures MovedAll(t, MovesOf(t, order, rows)) == Hung(t, order, Listed(rows))
  {
    MovesAreOfRows(t, order, rows);
    if rows == [] {
      assert Hung(t, order, {}) == t;
    } else {
      var earlier, e := rows[..|rows| - 1], rows[|rows| - 1];
      MovedAllIsHung(t, order, earlier);
      OneMoreHung(t, order, Listed(earlier), e);
      assert Listed(rows) == Listed(earlier) + {e};
      var moves := MovesOf(t, order, earlier);
      if Misplaced(t, order, e) {
        var m := Move(e, t[e].parent.value, Target(t, order, e).value);
        assert (moves + [m])[..|moves|] == moves;
      }
    }
  }

  lemma {:induction false} TouchedAreTheEnds(t: Tree, order: seq<Id>, rows: seq<Id>)
    requires forall x | x in rows :: x in t
    ensures
      var ids := Touched(MovesOf(t, order, rows));
      (forall p: Id :: p in ids <==> IsEnd(t, order, Listed(rows), p)) && Distinct(ids)
  {
    if rows != [] {
      var earlier, e := rows[..|rows| - 1], rows[|rows| - 1];
      TouchedAreTheEnds(t, order, earlier);
      var moves := MovesOf(t, order, earlier);
      assert forall x :: x in rows <==> x in earlier || x == e;
      if Misplaced(t, order, e) {
        var m := Move(e, t[e].parent.value, Target(t, order, e).value);
        assert (moves + [m])[..|moves|] == moves;
      }
      assert Listed(rows) == Listed(earlier) + {e};
      forall p: Id
        ensures IsEnd(t, order, Listed(rows), p) <==> IsEnd(t, order, Listed(earlier), p) || EndOf(t, order, e, p)
      {
        if EndOf(t, order, e, p) {
          assert e in Listed(rows);
        }
        if IsEnd(t, order, Listed(earlier), p) {
          var w :| w in Listed(earlier) && EndOf(t, order, w, p);
          assert w in Listed(rows);
        }
      }
    }
  }

  // ------------------------------------------------------- settling every end, in order

  predicate Removable(u: Tree, p: Id) {
    p in u && u[p].synthetic && Children(u, p) == {}
  }

  function RemovableOf(u: Tree, ids: set<Id>): set<Id> {
    set p | p in ids && Removable(u, p)
  }

  /** Removing what is empty empties nothing more. */
  ghost predicate NoCascade(u: Tree, ids: set<Id>) {
    forall p | p in ids && Children(u, p) != {} :: Children(u, p) - RemovableOf(u, ids) != {}
  }

  /**
   * What settling these rows of `u` gives: exactly the removable ones go and only counts
   * are rewritten (`SettledFrom`), and a settled row none of whose children goes holds its
   * exact count (`CountedFrom`).
   */
  ghost predicate SettledFrom(u: Tree, ids: set<Id>, v: Tree) {
    && v.Keys == u.Keys - RemovableOf(u, ids)
    && (forall x | x in v :: v[x] == u[x].(childCount := v[x].childCount))
    && (forall x | x in v && x !in ids :: v[x] == u[x])
  }

  ghost predicate CountedFrom(u: Tree, ids: set<Id>, v: Tree) {
    forall p | p in v && p in u && p in ids && Children(u, p) !! RemovableOf(u, ids) ::
      v[p].childCount == |Children(u, p)|
  }

  lemma ChildrenOnceSettled(u: Tree, ids: set<Id>, v: Tree, p: Id)
    requires SettledFrom(u, ids, v)
    ensures Children(v, p) == Children(u, p) - RemovableOf(u, ids)
  {
  }

  lemma OneSettling(u: Tree, ids: set<Id>, w: Tree, p: Id)
    requires SettledFrom(u, ids, w) && p !in ids
    requires Children(u, p) != {} ==> Children(u, p) - RemovableOf(u, ids) != {}
    ensures
      var left := Children(u, p) - RemovableOf(u, ids);
      Settled(w, Some(p)) ==
      if p !in u then w else if Removable(u, p) then w - {p} else w[p := w[p].(childCount := |left|)]
  {
    ChildrenOnceSettled(u, ids, w, p);
    var left := Children(u, p) - RemovableOf(u, ids);
    assert left == {} <==> Children(u, p) == {};
    if p in u {
      assert w[p].synthetic == u[p].synthetic;
    }
  }

  lemma SettlingOneMore(u: Tree, ids: set<Id>, w: Tree, p: Id)
    requires SettledFrom(u, ids, w) && p !in ids
    requires Children(u, p) != {} ==> Children(u, p) - RemovableOf(u, ids) != {}
    ensures SettledFrom(u, ids + {p}, Settled(w, Some(p)))
  {
    OneSettling(u, ids, w, p);
    assert RemovableOf(u, ids + {p}) == RemovableOf(u, ids) + if Removable(u, p) then {p} else {};
  }

  lemma CountingOneMore(u: Tree, ids: set<Id>, w: Tree, p: Id)
    requires SettledFrom(u, ids, w) && CountedFrom(u, ids, w) && p !in ids
    requires Children(u, p) != {} ==> Children(u, p) - RemovableOf(u, ids) != {}
    ensures CountedFrom(u, ids + {p}, Settled(w, Some(p)))
  {
    var gone, more := RemovableOf(u, ids), RemovableOf(u, ids + {p});
    var v := Settled(w, Some(p));
    assert gone <= more;
    OneSettling(u, ids, w, p);
    forall q | q in v && q in u && q in ids + {p} && Children(u, q) !! more
      ensures v[q].childCount == |Children(u, q)|
    {
      assert Children(u, q) !! gone;
      if q == p {
        assert Children(u, p) - gone == Children(u, p);
      }
    }
  }

  lemma FewerCascades(u: Tree, ids: set<Id>, more: set<Id>)
    requires ids <= more && NoCascade(u, more)
    ensures forall p | p in more && Children(u, p) != {} :: Children(u, p) - RemovableOf(u, ids) != {}
  {
    forall p | p in more && Children(u, p) != {}
      ensures Children(u, p) - RemovableOf(u, ids) != {}
    {
      assert Children(u, p) - RemovableOf(u, more) <= Children(u, p) - RemovableOf(u, ids);
    }
  }

  lemma {:induction false} SettledAllOutcome(u: Tree, ids: seq<Id>)
    requires Distinct(ids)
    requires NoCascade(u, Listed(ids))
    ensures SettledFrom(u, Listed(ids), SettledAll(u, ids)) && CountedFrom(u, Listed(ids), SettledAll(u, ids))
  {
    if ids != [] {
      var earlier, p := ids[..|ids| - 1], ids[|ids| - 1];
      assert Listed(ids) == Listed(earlier) + {p} && p !in earlier;
      FewerCascades(u, Listed(earlier), Listed(ids));
      SettledAllOutcome(u, earlier);
      SettlingOneMore(u, Listed(earlier), SettledAll(u, earlier), p);
      CountingOneMore(u, Listed(earlier), SettledAll(u, earlier), p);
    }
  }

  // -------------------------------------------------------------- what the pass promises

  ghost predicate IsService(t: Tree, order: seq<Id>) {
    EpisodesAreLeaves(t) && Enumerates(t, order)
  }

  /** Before settling, every row moved or not still has the series it had. */
  lemma HungKeepsSeries(t: Tree, order: seq<Id>, rows: set<Id>, e: Id)
    requires EpisodesAreLeaves(t) && e in t && t[e].kind.Episode?
    ensures SeriesOf(Hung(t, order, rows), e) == SeriesOf(t, e)
  {
    var u := Hung(t, order, rows);
    assert forall x | x in t && !t[x].kind.Episode? :: u[x] == t[x];
    if e in rows && Misplaced(t, order, e) {
      var q := Target(t, order, e).value;
      assert q in SeasonsOf(t, SeriesOf(t, e).value, t[e].numbers.season.value);
    }
  }

  lemma HungKeepsSeasons(t: Tree, order: seq<Id>, rows: set<Id>, series: Id, number: nat)
    ensures SeasonsOf(Hung(t, order, rows), series, number) == SeasonsOf(t, series, number)
  {
  }

  /** A target is a live season holding the row that was moved to it. */
  lemma TargetIsHeld(t: Tree, order: seq<Id>, rows: set<Id>, e: Id)
    requires e in t && e in rows && Misplaced(t, order, e)
    ensures
      var q := Target(t, order, e).value;
      && q in SeasonsOf(t, SeriesOf(t, e).value, t[e].numbers.season.value)
      && q in Children(Hung(t, order, rows), SeriesOf(t, e).value)
      && e in Children(Hung(t, order, rows), q)
  {
  }

  function Ends(t: Tree, order: seq<Id>, rows: seq<Id>): set<Id>
    requires forall x | x in rows :: x in t
  {
    Listed(Touched(MovesOf(t, order, rows)))
  }

  /** What settling removes hung from a series that keeps a season all the same. */
  lemma GoneHungFromASeries(t: Tree, order: seq<Id>, c: Id) returns (e: Id)
    requires IsService(t, order)
    requires c in RemovableOf(Hung(t, order, Listed(order)), Ends(t, order, order))
    ensures e in t && Misplaced(t, order, e) && t[e].parent == Some(c)
    ensures c in t && t[c].kind.Season? && t[c].parent == SeriesOf(t, e) && t[c].parent.value in t
        && t[t[c].parent.value].kind.Series?
    ensures Target(t, order, e).value in Children(Hung(t, order, Listed(order)), SeriesOf(t, e).value)
    ensures !Removable(Hung(t, order, Listed(order)), Target(t, order, e).value)
  {
    var u := Hung(t, order, Listed(order));
    TouchedAreTheEnds(t, order, order);
    assert IsEnd(t, order, Listed(order), c);
    e :| e in Listed(order) && EndOf(t, order, e, c);
    TargetIsHeld(t, order, Listed(order), e);
    assert Children(u, c) == {};
    assert Target(t, order, e) != Some(c);
    assert !t[c].kind.Series?;
  }

  lemma PassDoesNotCascade(t: Tree, order: seq<Id>)
    requires IsService(t, order)
    ensures NoCascade(Hung(t, order, Listed(order)), Ends(t, order, order))
  {
    var u, ends := Hung(t, order, Listed(order)), Ends(t, order, order);
    var gone := RemovableOf(u, ends);
    forall p | p in ends && Children(u, p) != {}
      ensures Children(u, p) - gone != {}
    {
      if c :| c in Children(u, p) && c in gone {
        var e := GoneHungFromASeries(t, order, c);
        assert t[c].kind.Season? && u[c] == t[c];
        assert Target(t, order, e).value in Children(u, p) - gone;
      }
    }
  }

  /** The pass in one place: the table with every misplaced row hung, then settled. */
  lemma PassOutcome(t: Tree, order: seq<Id>)
    requires IsService(t, order)
    ensures
      var u, ends := Hung(t, order, Listed(order)), Ends(t, order, order);
      SettledFrom(u, ends, ServiceRefiled(t, order)) && CountedFrom(u, ends, ServiceRefiled(t, order))
  {
    MovedAllIsHung(t, order, order);
    TouchedAreTheEnds(t, order, order);
    PassDoesNotCascade(t, order);
    SettledAllOutcome(Hung(t, order, Listed(order)), Touched(MovesOf(t, order, order)));
  }

  /** The first listed season is some season of that number, and there is one exactly when the series has any. */
  lemma TargetExists(t: Tree, order: seq<Id>, e: Id)
    requires Enumerates(t, order) && e in t
    ensures Target(t, order, e).Some? <==>
            && t[e].kind.Episode? && t[e].numbers.season.Some? && SeriesOf(t, e).Some?
            && SeasonsOf(t, SeriesOf(t, e).value, t[e].numbers.season.value) != {}
  {
  }

  /**
   * Every numbered episode whose series has a season of its number ends under the first
   * such season; no other row changes parent.
   */
  lemma PassFiles(t: Tree, order: seq<Id>, x: Id)
    requires IsService(t, order) && x in ServiceRefiled(t, order)
    ensures
      var v := ServiceRefiled(t, order);
      && x in t
      && v[x].parent == (if Target(t, order, x).Some? then Target(t, order, x) else t[x].parent)
      && v[x] == t[x].(parent := v[x].parent, childCount := v[x].childCount)
  {
    PassOutcome(t, order);
  }

  /** No episode is lost and none changes series. */
  lemma PassKeepsSeries(t: Tree, order: seq<Id>)
    requires IsService(t, order)
    ensures EpisodesStayInTheirSeries(t, ServiceRefiled(t, order))
  {
    PassOutcome(t, order);
    var u, v := Hung(t, order, Listed(order)), ServiceRefiled(t, order);
    var gone := RemovableOf(u, Ends(t, order, order));
    forall e | e in t && t[e].kind.Episode?
      ensures e in v && SeriesOf(v, e) == SeriesOf(t, e)
    {
      if e in gone {
        var w := GoneHungFromASeries(t, order, e);
      }
      HungKeepsSeries(t, order, Listed(order), e);
      if u[e].parent.Some? && u[e].parent.value in u {
        var up := u[e].parent.value;
        assert e in Children(u, up) && up !in gone;
        if u[up].parent.Some? && u[up].parent.value in u {
          assert up in Children(u, u[up].parent.value) && u[up].parent.value !in gone;
        }
      }
    }
  }

  /** Only invented rows the pass emptied are deleted. */
  lemma PassDeletesOnlyWhatItEmptied(t: Tree, order: seq<Id>, x: Id)
    requires IsService(t, order) && x in t && x !in ServiceRefiled(t, order)
    ensures t[x].synthetic && t[x].kind.Season?
    ensures Children(ServiceRefiled(t, order), x) == {}
    ensures Children(t, x) != {} && forall e | e in Children(t, x) :: Misplaced(t, order, e)
  {
    PassOutcome(t, order);
    var u, v := Hung(t, order, Listed(order)), ServiceRefiled(t, order);
    ChildrenOnceSettled(u, Ends(t, order, order), v, x);
    var e := GoneHungFromASeries(t, order, x);
    assert e in Children(t, x);
    forall c | c in Children(t, x)
      ensures Misplaced(t, order, c)
    {
      assert c in Listed(order) && c !in Children(u, x);
    }
  }

  /** A row nothing left and nothing came to has the children it had. */
  lemma ChildrenOffTheEnds(t: Tree, order: seq<Id>, p: Id)
    requires IsService(t, order) && p !in Ends(t, order, order)
    ensures Children(Hung(t, order, Listed(order)), p) == Children(t, p)
  {
    TouchedAreTheEnds(t, order, order);
    forall c | c in t && Misplaced(t, order, c)
      ensures t[c].parent != Some(p) && Target(t, order, c) != Some(p)
    {
      assert c in Listed(order);
      assert EndOf(t, order, c, p) ==> IsEnd(t, order, Listed(order), p);
    }
  }

  lemma SeasonsLoseOnlyEpisodes(t: Tree, order: seq<Id>, p: Id)
    requires IsService(t, order) && p in t && t[p].kind.Season?
    ensures p in ServiceRefiled(t, order) ==>
              Children(ServiceRefiled(t, order), p) == Children(Hung(t, order, Listed(order)), p)
    ensures Children(Hung(t, order, Listed(order)), p) !!
            RemovableOf(Hung(t, order, Listed(order)), Ends(t, order, order))
  {
    PassOutcome(t, order);
    var u, v := Hung(t, order, Listed(order)), ServiceRefiled(t, order);
    var gone := RemovableOf(u, Ends(t, order, order));
    forall c | c in gone
      ensures c !in Children(u, p)
    {
      var e := GoneHungFromASeries(t, order, c);
      assert u[c] == t[c];
    }
    ChildrenOnceSettled(u, Ends(t, order, order), v, p);
  }

  /** Seasons at either end of a move hold exact counts, and so does every other that did. */
  lemma PassKeepsCounts(t: Tree, order: seq<Id>)
    requires IsService(t, order)
    ensures
      var v := ServiceRefiled(t, order);
      && (forall p | p in v && v[p].kind.Season? && (p in Ends(t, order, order) || CountExact(t, p)) ::
            CountExact(v, p))
      && (SeasonCountsExact(t) ==> SeasonCountsExact(v))
  {
    PassOutcome(t, order);
    var v := ServiceRefiled(t, order);
    forall p | p in v && v[p].kind.Season?
      ensures p in Ends(t, order, order) || CountExact(t, p) ==> CountExact(v, p)
      ensures SeasonCountsExact(t) ==> CountExact(t, p)
    {
      SeasonsLoseOnlyEpisodes(t, order, p);
      if p !in Ends(t, order, order) {
        ChildrenOffTheEnds(t, order, p);
      }
    }
  }

  /** The invented seasons that stand with nothing under them. */
  ghost function EmptyInvented(t: Tree): set<Id> {
    set p | p in t && t[p].kind.Season? && t[p].synthetic && Children(t, p) == {}
  }

  /** The pass leaves no invented season empty but those that were, and that nothing came to. */
  lemma PassKeepsInventedHeld(t: Tree, order: seq<Id>)
    requires IsService(t, order)
    ensures EmptyInvented(ServiceRefiled(t, order)) == EmptyInvented(t) - Ends(t, order, order)
    ensures NoEmptyInvented(t) ==> NoEmptyInvented(ServiceRefiled(t, order))
  {
    PassOutcome(t, order);
    var v := ServiceRefiled(t, order);
    forall p
      ensures p in EmptyInvented(v) <==> p in EmptyInvented(t) && p !in Ends(t, order, order)
    {
      if p in t && t[p].kind.Season? {
        SeasonsLoseOnlyEpisodes(t, order, p);
        if p !in Ends(t, order, order) {
          ChildrenOffTheEnds(t, order, p);
        }
      }
    }
    if NoEmptyInvented(t) {
      assert EmptyInvented(t) == {};
      assert forall p | p in v && v[p].kind.Season? && v[p].synthetic && Children(v, p) == {} :: p in EmptyInvented(v);
    }
  }

  // ------------------------------------------------------------------------ a second pass

  /** The listing with the deleted rows left out. */
  function Surviving(order: seq<Id>, v: Tree): seq<Id> {
    if order == [] then []
    else if order[0] in v then [order[0]] + Surviving(order[1..], v)
    else Surviving(order[1..], v)
  }

  lemma {:induction false} SurvivingLists(order: seq<Id>, v: Tree)
    requires Distinct(order)
    ensures forall x :: x in Surviving(order, v) <==> x in order && x in v
    ensures Distinct(Surviving(order, v))
  {
    if order != [] {
      SurvivingLists(order[1..], v);
    }
  }

  lemma {:induction false} FirstAmongSurvivors(order: seq<Id>, v: Tree, wanted: set<Id>, left: set<Id>)
    requires left <= wanted && forall x | x in order && x in left :: x in v
    requires FirstIn(order, wanted).Some? ==> FirstIn(order, wanted).value in left
    ensures FirstIn(Surviving(order, v), left) == FirstIn(order, wanted)
  {
    if order != [] && order[0] !in wanted {
      assert FirstIn(order, wanted) == FirstIn(order[1..], wanted);
      FirstAmongSurvivors(order[1..], v, wanted, left);
      var rest := Surviving(order[1..], v);
      if order[0] in v {
        assert ([order[0]] + rest)[1..] == rest;
      }
    }
  }

  /** After a pass nothing is misplaced, even though the pass deleted rows. */
  lemma NothingLeftToMove(t: Tree, order: seq<Id>, e: Id)
    requires IsService(t, order) && e in ServiceRefiled(t, order)
    ensures !Misplaced(ServiceRefiled(t, order), Surviving(order, ServiceRefiled(t, order)), e)
  {
    var u, v := Hung(t, order, Listed(order)), ServiceRefiled(t, order);
    var gone := RemovableOf(u, Ends(t, order, order));
    PassOutcome(t, order);
    PassFiles(t, order, e);
    PassKeepsSeries(t, order);
    if Misplaced(v, Surviving(order, v), e) {
      var series, n := SeriesOf(t, e).value, t[e].numbers.season.value;
      HungKeepsSeasons(t, order, Listed(order), series, n);
      var left := SeasonsOf(v, series, n);
      assert left == SeasonsOf(t, series, n) - gone;
      var q := Target(t, order, e);
      assert q.Some? ==> e in Children(u, q.value);
      FirstAmongSurvivors(order, v, SeasonsOf(t, series, n), left);
    }
  }

  lemma {:induction false} NothingMisplacedNothingMoves(v: Tree, order: seq<Id>, rows: seq<Id>)
    requires forall x | x in rows :: x in v && !Misplaced(v, order, x)
    ensures MovesOf(v, order, rows) == []
  {
    if rows != [] {
      NothingMisplacedNothingMoves(v, order, rows[..|rows| - 1]);
    }
  }

  /** A second pass over what the first one left moves nothing and changes nothing. */
  lemma PassIsIdempotent(t: Tree, order: seq<Id>)
    requires IsService(t, order)
    ensures
      var v := ServiceRefiled(t, order);
      var again := Surviving(order, v);
      && Enumerates(v, again)
      && MovesOf(v, again, again) == []
      && ServiceRefiled(v, again) == v
  {
    var v := ServiceRefiled(t, order);
    var again := Surviving(order, v);
    SurvivingLists(order, v);
    PassOutcome(t, order);
    forall e | e in again
      ensures !Misplaced(v, again, e)
    {
      NothingLeftToMove(t, order, e);
    }
    NothingMisplacedNothingMoves(v, again, again);
  }
}
