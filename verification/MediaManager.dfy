/**
 * The manager itself: one mutable table and the operations that rewrite it step by step.
 * Each is proved to leave exactly the table its specification names.
 */
module MediaManager {
  import opened Options
  import opened EpisodeCoverage
  import opened MediaRows
  import opened Refiling
  import opened Corrections
  import opened ServiceRefiling
  import opened Discovery

  datatype Error = MediaNotFound | MediaNotIdentified | RequestSourceNotConfigured
  datatype Result<+T> = Ok(value: T) | Err(error: Error)

  class Manager {
    var items: Tree

    constructor (rows: Tree)
      ensures items == rows
    {
      items := rows;
    }

    method Settle(id: Option<Id>)
      modifies this
      ensures items == Settled(old(items), id)
    {
      if id.None? {
        return;
      }
      if id.value !in items {
        return;
      }
      var row := items[id.value];
      var children := Children(items, id.value);
      if |children| == 0 && row.synthetic {
        items := items - {id.value};
        return;
      }
      if row.childCount != |children| {
        items := items[id.value := row.(childCount := |children|)];
      }
      assert items[id.value] == row.(childCount := |children|);
    }

    /** The season an episode's numbers name, created when its series has none. */
    method SeasonFor(id: Id, minted: Id, title: int) returns (season: Option<Id>)
      requires id in items && Unused(items, minted)
      modifies this
      ensures items == Prepared(old(items), id, minted, title)
      ensures season == Destination(old(items), id, minted)
    {
      var series := SeriesOf(items, id);
      if series.None? {
        return None;
      }
      var number := items[id].numbers.season;
      if number.None? {
        return series;
      }
      var siblings := Children(items, series.value);
      var named := set one | one in siblings && items[one].kind.Season? && items[one].numbers.season == number;
      assert named == SeasonsOf(items, series.value, number.value);
      if named != {} {
        return Some(FirstListed(items, named));
      }
      items := items[minted := InventedSeason(series.value, number.value, title)];
      return Some(minted);
    }

    /** The stepwise form of `Refiled`: it answers whether the row changed place. */
    method Refile(id: Id, minted: Id, title: int) returns (moved: bool)
      requires id in items && Unused(items, minted)
      modifies this
      ensures items == Refiled(old(items), id, minted, title)
      ensures moved == Moves(old(items), id, minted)
    {
      if !items[id].kind.Episode? {
        return false;
      }
      var parent := SeasonFor(id, minted, title);
      if parent.None? || parent == items[id].parent {
        return false;
      }
      var left := items[id].parent;
      items := items[id := items[id].(parent := parent)];
      Settle(left);
      Settle(parent);
      return true;
    }

    /** Write or withdraw a correction against the snapshot of the row, then refile the row. */
    method SetOverride(id: Id, instruction: Option<Override>, minted: Id, title: int) returns (r: Result<bool>)
      requires Unused(items, minted)
      modifies this
      ensures r.Err? <==> id !in old(items)
      ensures r.Err? ==> r.error == MediaNotFound && items == old(items)
      ensures r.Ok? ==> items == Overridden(old(items), Request(id, instruction, minted, title))
    {
      if id !in items {
        return Err(MediaNotFound);
      }
      items := items[id := Corrected(items[id], instruction)];
      var moved := Refile(id, minted, title);
      return Ok(moved);
    }

    /** The first season listed for every series and number. */
    method SeasonsBySeries(order: seq<Id>) returns (index: map<Id, map<nat, Id>>)
      requires forall x | x in order :: x in items
      ensures ReadSoFar(items, order, index)
    {
      index := map[];
      for i := 0 to |order|
        invariant ReadSoFar(items, order[..i], index)
      {
        var row := items[order[i]];
        ReadingOneMore(items, order[..i], order[i], index);
        assert order[..i + 1] == order[..i] + [order[i]];
        if row.kind.Season? && row.parent.Some? && row.numbers.season.Some? {
          var series, number := row.parent.value, row.numbers.season.value;
          var seasons := if series in index then index[series] else map[];
          if number !in seasons {
            seasons := seasons[number := order[i]];
          }
          index := index[series := seasons];
        }
      }
      assert order[..|order|] == order;
    }

    /** The rows that are not where their numbers say, and where they go. */
    method DecideMoves(order: seq<Id>, index: map<Id, map<nat, Id>>) returns (moved: seq<Move>)
      requires forall x | x in order :: x in items
      requires ReadSoFar(items, order, index)
      ensures moved == MovesOf(items, order, order)
    {
      moved := [];
      for i := 0 to |order|
        invariant moved == MovesOf(items, order, order[..i])
      {
        var e := order[i];
        assert order[..i + 1][..i] == order[..i];
        if items[e].kind.Episode? && items[e].numbers.season.Some? {
          var series := SeriesOf(items, e);
          if series.Some? {
            var number := items[e].numbers.season.value;
            assert Target(items, order, e) == Known(index, series.value, number);
            if series.value in index && number in index[series.value] {
              var target := index[series.value][number];
              if Some(target) != items[e].parent {
                moved := moved + [Move(e, items[e].parent.value, target)];
              }
            }
          }
        }
      }
      assert order[..|order|] == order;
    }

    /** Both ends of every move, in the order a set keeps them. */
    method EndsOf(moved: seq<Move>) returns (touched: seq<Id>)
      ensures touched == Touched(moved)
    {
      touched := [];
      for i := 0 to |moved|
        invariant touched == Touched(moved[..i])
      {
        assert moved[..i + 1][..i] == moved[..i];
        if moved[i].from !in touched {
          touched := touched + [moved[i].from];
        }
        if moved[i].to !in touched {
          touched := touched + [moved[i].to];
        }
      }
      assert moved[..|moved|] == moved;
    }

    method WriteMoves(moved: seq<Move>)
      requires forall m | m in moved :: m.id in items
      modifies this
      ensures items == MovedAll(old(items), moved)
    {
      ghost var t := items;
      for i := 0 to |moved|
        invariant items.Keys == t.Keys
        invariant items == MovedAll(t, moved[..i])
      {
        assert moved[i] in moved && moved[..i + 1][..i] == moved[..i];
        items := items[moved[i].id := items[moved[i].id].(parent := Some(moved[i].to))];
      }
      assert moved[..|moved|] == moved;
    }

    method SettleAll(touched: seq<Id>)
      modifies this
      ensures items == SettledAll(old(items), touched)
    {
      ghost var t := items;
      for i := 0 to |touched|
        invariant items == SettledAll(t, touched[..i])
      {
        assert touched[..i + 1][..i] == touched[..i];
        Settle(Some(touched[i]));
      }
      assert touched[..|touched|] == touched;
    }

    /**
     * Every move decided over one reading of the service, written, and each end settled once; answers
     * how many rows moved.
     */
    method RefileService(order: seq<Id>) returns (count: nat)
      requires Enumerates(items, order)
      modifies this
      ensures items == ServiceRefiled(old(items), order)
      ensures count == |MovesOf(old(items), order, order)|
    {
      var index := SeasonsBySeries(order);
      var moved := DecideMoves(order, index);
      MovesAreOfRows(items, order, order);
      WriteMoves(moved);
      var touched := EndsOf(moved);
      SettleAll(touched);
      return |moved|;
    }

    /** Take back the invented episodes of a season that a reported file covers. */
    method WithdrawCovered(season: Id) returns (count: nat)
      modifies this
      ensures items == old(items) - Ghosts(old(items), season)
      ensures count == |Ghosts(old(items), season)|
    {
      var children := Children(items, season);
      var reported := set child | child in children && !items[child].synthetic;
      var covered := Covered(items, reported);
      assert reported == Reported(items, season);
      var ghosts := set child | child in children && items[child].synthetic && items[child].numbers.episode.Some?
        && items[child].numbers.episode.value in covered && items[child].end.None?;
      assert ghosts == Ghosts(items, season);
      if |ghosts| == 0 {
        assert ghosts == {};
        return 0;
      }
      items := items - ghosts;
      return |ghosts|;
    }

    /** One season: its covered ghosts withdrawn, then a row for every aired number nothing covers. */
    method DiscoverSeason(season: Id, listed: seq<Listing>, mint: Mint) returns (created: nat, withdrawn: nat)
      requires season in items && items[season].parent != Some(season) && Supplies(items, mint, season)
      modifies this
      ensures items == SeasonDiscovered(old(items), season, listed, mint)
      ensures created == |items.Keys - old(items).Keys| && withdrawn == |old(items).Keys - items.Keys|
    {
      ghost var t := items;
      withdrawn := WithdrawCovered(season);
      assert t.Keys - items.Keys == Ghosts(t, season);
      assert items.Keys - t.Keys == {};
      ghost var kept := items;
      var held := Coverage(items, season);
      created := 0;
      for i := 0 to |listed|
        invariant items == Filled(kept, season, held, listed[..i], mint)
        invariant created == |items.Keys - t.Keys| && withdrawn == |t.Keys - items.Keys|
      {
        PlaceTurn(t, season, listed, i, mint);
        if Wanted(held, listed[i]) {
          items := items[mint(season, i) := InventedEpisode(items, season, listed[i])];
          created := created + 1;
        }
      }
      assert listed[..|listed|] == listed;
    }

    method DiscoverSeasons(seasons: seq<Id>, listings: Id -> seq<Listing>, mint: Mint)
      returns (created: nat, withdrawn: nat)
      requires Apart(items, seasons) && forall s | s in seasons :: Supplies(items, mint, s)
      modifies this
      ensures items == Discovered(old(items), seasons, listings, mint)
      ensures created == |items.Keys - old(items).Keys| && withdrawn == |old(items).Keys - items.Keys|
    {
      ghost var t := items;
      created, withdrawn := 0, 0;
      for i := 0 to |seasons|
        invariant items == Discovered(t, seasons[..i], listings, mint)
        invariant created == |items.Keys - t.Keys| && withdrawn == |t.Keys - items.Keys|
      {
        var season := seasons[i];
        SeasonTurn(t, seasons, i, listings, mint);
        TurnAdds(t, seasons, i, listings, mint);
        var came, went := DiscoverSeason(season, listings(season), mint);
        created, withdrawn := created + came, withdrawn + went;
      }
      assert seasons[..|seasons|] == seasons;
    }

    /**
     * Discovery for a series or one season of it, unless it is refused. `identified`
     * says the series carries the provider's identifier, `configured` that a request source
     * is set up; `seasons` is the repository's answer to which rows to look under.
     */
    method DiscoverEpisodes(
        id: Id, identified: bool, configured: bool, seasons: seq<Id>, listings: Id -> seq<Listing>, mint: Mint)
      returns (r: Result<nat>)
      requires NoRowIsItsOwnParent(items) && (id in items ==> LooksUnder(items, id, seasons))
      requires forall s | s in seasons :: Supplies(items, mint, s)
      modifies this
      ensures r == Err(MediaNotFound) <==> id !in old(items)
      ensures r == Err(MediaNotIdentified) <==> id in old(items) && (SeriesAsked(old(items), id).None? || !identified)
      ensures r == Err(RequestSourceNotConfigured) <==>
                id in old(items) && SeriesAsked(old(items), id).Some? && identified && !configured
      ensures r.Err? ==> items == old(items)
      ensures r.Ok? ==>
        var v := Discovered(old(items), seasons, listings, mint);
        items == SeriesRecounted(old(items), v, SeriesAsked(old(items), id)) && r.value == |v.Keys - old(items).Keys|
    {
      if id !in items {
        return Err(MediaNotFound);
      }
      var series := SeriesAsked(items, id);
      if series.None? || !identified {
        return Err(MediaNotIdentified);
      }
      if !configured {
        return Err(RequestSourceNotConfigured);
      }
      SeasonsAreApart(items, id, seasons);
      ghost var t := items;
      var created, withdrawn := DiscoverSeasons(seasons, listings, mint);
      assert items.Keys == t.Keys <==> items.Keys - t.Keys == {} && t.Keys - items.Keys == {};
      if created > 0 || withdrawn > 0 {
        Settle(series);
      }
      return Ok(created);
    }
  }
}
