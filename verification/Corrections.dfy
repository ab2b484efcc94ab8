/**
 * Corrections of episodes and their withdrawal, over any run, and the exact condition
 * under which withdrawing one puts the whole table back.
 */
module Corrections {
  import opened Options
  import opened Sizes
  import opened MediaRows
  import opened Refiling

  /** A field of a correction: not mentioned, or set, possibly to nothing. */
  datatype Given = Absent | Given(value: Option<nat>)

  datatype Override = Override(season: Given, episode: Given)

  /** What is left of a field once it is dropped for saying what the service already says. */
  function Kept(field: Given, reported: Option<nat>): Given {
    if field == Given(reported) then Absent else field
  }

  function Effective(field: Given, reported: Option<nat>): Option<nat> {
    if field.Absent? then reported else field.value
  }

  /** The row with a correction written into it; no instruction withdraws the one in force. */
  function Corrected(row: Row, instruction: Option<Override>): Row {
    var reported := if row.reported.Some? then row.reported.value else row.numbers;
    var given := if instruction.Some? then instruction.value else Override(Absent, Absent);
    var season, episode := Kept(given.season, reported.season), Kept(given.episode, reported.episode);
    if season.Absent? && episode.Absent? then row.(numbers := reported, reported := None)
    else
      row.(
        numbers := Numbers(Effective(season, reported.season), Effective(episode, reported.episode)),
        reported := Some(reported))
  }

  /** One request: which row, the instruction, and what an invented season would be called. */
  datatype Request = Request(id: Id, instruction: Option<Override>, minted: Id, title: int)

  /** What one request leaves, whatever kind of row it names. */
  function Overridden(t: Tree, r: Request): Tree
    requires r.id in t && Unused(t, r.minted)
  {
    var corrected := t[r.id := Corrected(t[r.id], r.instruction)];
    assert Unused(corrected, r.minted) by { assert forall c | c in corrected :: corrected[c].parent == t[c].parent; }
    Refiled(corrected, r.id, r.minted, r.title)
  }

  /** Corrections are made on episodes. */
  predicate Applicable(t: Tree, r: Request) {
    r.id in t && t[r.id].kind.Episode? && Unused(t, r.minted)
  }

  /** A run of requests, each applicable when its turn comes. */
  predicate Runs(t: Tree, requests: seq<Request>)
    decreases |requests|
  {
    requests == [] || (Applicable(t, requests[0]) && Runs(Overridden(t, requests[0]), requests[1..]))
  }

  function After(t: Tree, requests: seq<Request>): Tree
    requires Runs(t, requests)
    decreases |requests|
  {
    if requests == [] then t else After(Overridden(t, requests[0]), requests[1..])
  }

  // -------------------------------------------------------------------- what is promised

  /** An episode hangs where its effective number says, within its own series. */
  ghost predicate Filed(t: Tree, e: Id)
    requires e in t
  {
    SeriesOf(t, e).Some? ==>
      match t[e].numbers.season
      case None => t[e].parent == SeriesOf(t, e)
      case Some(n) => t[e].parent.Some? && t[e].parent.value in SeasonsOf(t, SeriesOf(t, e).value, n)
  }

  ghost predicate EpisodesStayInTheirSeries(t: Tree, u: Tree) {
    forall e | e in t && t[e].kind.Episode? :: e in u && u[e].kind.Episode? && SeriesOf(u, e) == SeriesOf(t, e)
  }

  /** No series ends with more seasons of one number than it had, or than one. */
  ghost predicate NoSecondSeason(t: Tree, u: Tree) {
    forall s, n :: |SeasonsOf(u, s, n)| <= if SeasonsOf(t, s, n) == {} then 1 else |SeasonsOf(t, s, n)|
  }

  ghost predicate Sound(t: Tree) {
    EpisodesAreLeaves(t) && NoEmptyInvented(t) && SeasonCountsExact(t)
  }

  // --------------------------------------------------------------- one refiling keeps it

  lemma RefilingKeepsSeriesOf(t: Tree, id: Id, minted: Id, title: int, e: Id)
    requires id in t && Unused(t, minted) && EpisodesAreLeaves(t) && Moves(t, id, minted)
    requires e in t && t[e].kind.Episode?
    ensures e in Refiled(t, id, minted, title) && Refiled(t, id, minted, title)[e].kind.Episode?
    ensures SeriesOf(Refiled(t, id, minted, title), e) == SeriesOf(t, e)
  {
    var g, to := Prepared(t, id, minted, title), Destination(t, id, minted).value;
    PreparedRows(t, id, minted, title);
    DestinationIsGood(t, id, minted, title);
    MoveRows(g, id, to);
    MoveKeepsSeries(g, id, to, e);
  }

  lemma RefilingKeepsSeries(t: Tree, id: Id, minted: Id, title: int)
    requires id in t && Unused(t, minted) && EpisodesAreLeaves(t)
    ensures EpisodesStayInTheirSeries(t, Refiled(t, id, minted, title))
  {
    if Moves(t, id, minted) {
      var u := Refiled(t, id, minted, title);
      forall e | e in t && t[e].kind.Episode?
        ensures e in u && u[e].kind.Episode? && SeriesOf(u, e) == SeriesOf(t, e)
      {
        RefilingKeepsSeriesOf(t, id, minted, title, e);
      }
    }
  }

  lemma RefilingFiles(t: Tree, id: Id, minted: Id, title: int)
    requires id in t && Unused(t, minted) && EpisodesAreLeaves(t) && t[id].kind.Episode?
    ensures id in Refiled(t, id, minted, title) && Filed(Refiled(t, id, minted, title), id)
  {
    RefilingKeepsSeries(t, id, minted, title);
    if Moves(t, id, minted) {
      var g, to := Prepared(t, id, minted, title), Destination(t, id, minted).value;
      PreparedRows(t, id, minted, title);
      DestinationIsGood(t, id, minted, title);
      MoveRows(g, id, to);
      var number := t[id].numbers.season;
      if number.Some? {
        PreparedSeasons(t, id, minted, title, SeriesOf(t, id).value, number.value);
      }
    }
  }

  /** An episode another correction filed is not disturbed. */
  lemma RefilingLeavesFiled(t: Tree, id: Id, minted: Id, title: int, e: Id)
    requires id in t && Unused(t, minted) && EpisodesAreLeaves(t)
    requires e in t && t[e].kind.Episode? && e != id && Filed(t, e)
    ensures e in Refiled(t, id, minted, title) && Filed(Refiled(t, id, minted, title), e)
  {
    RefilingKeepsSeries(t, id, minted, title);
    if Moves(t, id, minted) {
      var g, to := Prepared(t, id, minted, title), Destination(t, id, minted).value;
      PreparedRows(t, id, minted, title);
      DestinationIsGood(t, id, minted, title);
      MoveRows(g, id, to);
      var u := Refiled(t, id, minted, title);
      assert u[e] == t[e];
      if SeriesOf(t, e).Some? && t[e].numbers.season.Some? {
        var season := t[e].parent.value;
        assert e in Children(g, season) && season !in Litter(g, id);
        assert u[season] == g[season].(childCount := u[season].childCount);
      }
    }
  }

  lemma RefilingKeepsStanding(t: Tree, id: Id, minted: Id, title: int)
    requires id in t && Unused(t, minted) && EpisodesAreLeaves(t) && NoEmptyInvented(t)
    ensures EpisodesAreLeaves(Refiled(t, id, minted, title)) && NoEmptyInvented(Refiled(t, id, minted, title))
  {
    if Moves(t, id, minted) {
      var g, to := Prepared(t, id, minted, title), Destination(t, id, minted).value;
      PreparedRows(t, id, minted, title);
      DestinationIsGood(t, id, minted, title);
      MoveKeepsLeaves(g, id, to);
      forall p | p in g && p != to && g[p].kind.Season? && g[p].synthetic
        ensures Children(g, p) != {}
      {
        assert Children(g, p) == Children(t, p);
      }
      MoveLeavesNoEmptyInvented(g, id, to);
    }
  }

  /** If the row is a season, its count is true. */
  ghost predicate SeasonExact(t: Tree, p: Id) {
    p in t && t[p].kind.Season? ==> CountExact(t, p)
  }

  /** Preparing a destination makes no count untrue but the one of the season it invents. */
  lemma PreparingKeepsCount(t: Tree, id: Id, minted: Id, title: int, p: Id)
    requires id in t && Unused(t, minted) && SeasonExact(t, p)
    ensures p == minted || SeasonExact(Prepared(t, id, minted, title), p)
  {
    PreparedRows(t, id, minted, title);
    if p in t && t[p].kind.Season? {
      assert SeriesOf(t, id) != Some(p);
    }
  }

  lemma MovingKeepsCount(g: Tree, id: Id, to: Id, p: Id)
    requires GoodMove(g, id, to) && (p == to || SeasonExact(g, p))
    ensures SeasonExact(MovedAndSettled(g, id, to), p)
  {
    var u := MovedAndSettled(g, id, to);
    if p in u && u[p].kind.Season? {
      assert p in g && g[p].kind == u[p].kind by { MoveRows(g, id, to); }
      MoveKeepsCount(g, id, to, p);
    }
  }

  lemma RefilingKeepsCount(t: Tree, id: Id, minted: Id, title: int, p: Id)
    requires id in t && Unused(t, minted) && EpisodesAreLeaves(t) && SeasonExact(t, p)
    ensures SeasonExact(Refiled(t, id, minted, title), p)
  {
    if Moves(t, id, minted) {
      DestinationIsGood(t, id, minted, title);
      PreparingKeepsCount(t, id, minted, title, p);
      var g, to := Prepared(t, id, minted, title), Destination(t, id, minted).value;
      assert p == minted && p != to ==> p !in g;
      MovingKeepsCount(g, id, to, p);
    }
  }

  lemma RefilingKeepsSound(t: Tree, id: Id, minted: Id, title: int)
    requires id in t && Unused(t, minted) && Sound(t)
    ensures Sound(Refiled(t, id, minted, title))
  {
    RefilingKeepsStanding(t, id, minted, title);
    forall p | p in Refiled(t, id, minted, title) && Refiled(t, id, minted, title)[p].kind.Season?
      ensures CountExact(Refiled(t, id, minted, title), p)
    {
      assert SeasonExact(t, p);
      RefilingKeepsCount(t, id, minted, title, p);
    }
  }

  lemma RefilingAddsNoSecondSeason(t: Tree, id: Id, minted: Id, title: int)
    requires id in t && Unused(t, minted) && EpisodesAreLeaves(t)
    ensures NoSecondSeason(t, Refiled(t, id, minted, title))
  {
    if Moves(t, id, minted) {
      var g, to := Prepared(t, id, minted, title), Destination(t, id, minted).value;
      DestinationIsGood(t, id, minted, title);
      forall s, n
        ensures |SeasonsOf(Refiled(t, id, minted, title), s, n)| <=
                if SeasonsOf(t, s, n) == {} then 1 else |SeasonsOf(t, s, n)|
      {
        PreparedSeasons(t, id, minted, title, s, n);
        MoveKeepsSeasons(g, id, to, s, n);
        Fewer(SeasonsOf(g, s, n) - Litter(g, id), SeasonsOf(g, s, n));
      }
    }
  }

  // ------------------------------------------------------------------- runs of requests

  /** Rewriting a row's numbers changes no place and nobody's series. */
  lemma RenumberingMovesNothing(t: Tree, id: Id, row: Row)
    requires id in t && row.parent == t[id].parent && row.kind == t[id].kind
    ensures
      var u := t[id := row];
      && (forall m: Id :: Unused(t, m) ==> Unused(u, m))
      && (forall p: Id :: Children(u, p) == Children(t, p))
      && (forall s: Id, n: nat :: row.kind.Episode? ==> SeasonsOf(u, s, n) == SeasonsOf(t, s, n))
      && (forall e | e in t :: SeriesOf(u, e) == SeriesOf(t, e))
      && (EpisodesAreLeaves(t) ==> EpisodesAreLeaves(u))
  {
    var u := t[id := row];
    assert forall x | x in t :: u[x].parent == t[x].parent && u[x].kind == t[x].kind;
  }

  /** One request: everything it keeps, and the episode it names filed. */
  lemma RequestKeeps(t: Tree, r: Request)
    requires Applicable(t, r) && Sound(t)
    ensures Sound(Overridden(t, r))
    ensures EpisodesStayInTheirSeries(t, Overridden(t, r))
    ensures NoSecondSeason(t, Overridden(t, r))
    ensures r.id in Overridden(t, r) && Filed(Overridden(t, r), r.id)
    ensures forall e | e in t && t[e].kind.Episode? && Filed(t, e) ::
              e in Overridden(t, r) && Filed(Overridden(t, r), e)
  {
    RenumberingMovesNothing(t, r.id, Corrected(t[r.id], r.instruction));
    var u := t[r.id := Corrected(t[r.id], r.instruction)];
    forall p | p in u && u[p].kind.Season?
      ensures CountExact(u, p) && (u[p].synthetic ==> Children(u, p) != {})
    {
      assert CountExact(t, p) && Children(u, p) == Children(t, p);
    }
    RefilingKeepsSound(u, r.id, r.minted, r.title);
    RefilingKeepsSeries(u, r.id, r.minted, r.title);
    RefilingAddsNoSecondSeason(u, r.id, r.minted, r.title);
    RefilingFiles(u, r.id, r.minted, r.title);
    forall e | e in t && t[e].kind.Episode? && Filed(t, e) && e != r.id
      ensures e in Overridden(t, r) && Filed(Overridden(t, r), e)
    {
      assert Filed(u, e);
      RefilingLeavesFiled(u, r.id, r.minted, r.title, e);
    }
  }

  /** When a request moves its row, both ends end with exact counts whatever they held before. */
  lemma EndsOfAMoveAreExact(t: Tree, r: Request)
    requires Applicable(t, r) && EpisodesAreLeaves(t)
    requires Moves(t[r.id := Corrected(t[r.id], r.instruction)], r.id, r.minted)
    ensures
      var u := Overridden(t, r);
      && r.id in u && u[r.id].parent.Some? && u[r.id].parent != t[r.id].parent
      && CountExact(u, u[r.id].parent.value)
      && CountExact(u, t[r.id].parent.value)
  {
    RenumberingMovesNothing(t, r.id, Corrected(t[r.id], r.instruction));
    var c := t[r.id := Corrected(t[r.id], r.instruction)];
    var g, to := Prepared(c, r.id, r.minted, r.title), Destination(c, r.id, r.minted).value;
    DestinationIsGood(c, r.id, r.minted, r.title);
    PreparedRows(c, r.id, r.minted, r.title);
    MoveRows(g, r.id, to);
    MoveCounts(g, r.id, to);
  }

  /**
   * Over any run of corrections and withdrawals: no episode changes series, every episode
   * the run touched hangs where its effective number says, no series gains a second season
   * of one number, no invented season stands empty, and season counts stay exact.
   */
  lemma {:induction false} RunsKeepTheTree(t: Tree, requests: seq<Request>)
    requires Runs(t, requests) && Sound(t)
    ensures Sound(After(t, requests))
    ensures EpisodesStayInTheirSeries(t, After(t, requests))
    ensures NoSecondSeason(t, After(t, requests))
    ensures forall k | 0 <= k < |requests| ::
              requests[k].id in After(t, requests) && Filed(After(t, requests), requests[k].id)
    ensures forall e | e in t && t[e].kind.Episode? && Filed(t, e) ::
              e in After(t, requests) && Filed(After(t, requests), e)
    decreases |requests|
  {
    if requests != [] {
      var u := Overridden(t, requests[0]);
      RequestKeeps(t, requests[0]);
      RunsKeepTheTree(u, requests[1..]);
      assert u[requests[0].id].kind.Episode?;
      forall s: Id, n: nat
        ensures |SeasonsOf(After(t, requests), s, n)| <=
                if SeasonsOf(t, s, n) == {} then 1 else |SeasonsOf(t, s, n)|
      {
        assert |SeasonsOf(u, s, n)| <= if SeasonsOf(t, s, n) == {} then 1 else |SeasonsOf(t, s, n)|;
        assert |SeasonsOf(After(u, requests[1..]), s, n)| <=
          if SeasonsOf(u, s, n) == {} then 1 else |SeasonsOf(u, s, n)|;
      }
      forall k | 0 <= k < |requests|
        ensures requests[k].id in After(t, requests) && Filed(After(t, requests), requests[k].id)
      {
        if k > 0 { assert requests[k] == requests[1..][k - 1]; }
      }
    }
  }

  // ------------------------------------------------------------------------ undoing one

  /** Correcting the season of an untouched episode, then withdrawing the correction. */
  function CorrectThenWithdraw(id: Id, number: Option<nat>, minted: Id, again: Id, title: int): seq<Request> {
    [Request(id, Some(Override(Given(number), Absent)), minted, title), Request(id, None, again, title)]
  }

  /**
   * What decides whether the pair is a no-op, read before the correction is made: the
   * episode already hangs where its number says, the season it leaves is not an invented
   * one it alone keeps standing, and both ends hold exact counts and more than nothing.
   */
  ghost predicate Restorable(t: Tree, id: Id, number: Option<nat>)
    requires id in t
  {
    SeriesOf(t, id).Some? ==>
      var series, left := SeriesOf(t, id).value, t[id].parent.value;
      var away := HomeOf(t, series, number);
      && HomeOf(t, series, t[id].numbers.season) == Some(left)
      && !(t[left].kind.Season? && LeavesLitter(t, id))
      && CountExact(t, left)
      && (away.Some? ==> CountExact(t, away.value) && (t[away.value].synthetic ==> Children(t, away.value) != {}))
  }

  /** The first of a set is the first of any part of it that holds it. */
  lemma FirstOfAPart(t: Tree, all: set<Id>, part: set<Id>)
    requires part <= all <= t.Keys && all != {} && FirstListed(t, all) in part
    ensures FirstListed(t, part) == FirstListed(t, all)
  {
    var a, b := FirstListed(t, all), FirstListed(t, part);
    assert ListedBefore(t, a, b) && ListedBefore(t, b, a);
  }
}
