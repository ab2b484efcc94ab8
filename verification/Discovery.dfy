/**
 * Inventing rows for the episodes a season lacks, as told by a metadata source.
 *
 * For each season in turn: take back the invented rows a reported file turns out to cover,
 * then invent a row for every aired number nothing covers.
 */
module Discovery {
  import opened Options
  import opened EpisodeCoverage
  import opened MediaRows
  import opened Refiling
  import opened Sizes

  /** One episode the source lists. Whether its date has passed is read off the clock by the caller. */
  datatype Listing = Listing(number: nat, aired: bool, title: int)

  function SpanOf(row: Row): set<nat> {
    Span(row.numbers.episode, row.end)
  }

  function Covered(t: Tree, ids: set<Id>): set<nat> {
    set c, n | c in ids && c in t && n in SpanOf(t[c]) :: n
  }

  /** The numbers covered under one season. */
  function Coverage(t: Tree, season: Id): set<nat> {
    Covered(t, Children(t, season))
  }

  function Reported(t: Tree, season: Id): set<Id> {
    set c | c in Children(t, season) && !t[c].synthetic
  }

  /** The invented single-episode rows of a season that a reported row covers. */
  function Ghosts(t: Tree, season: Id): set<Id> {
    set c | c in Children(t, season) && t[c].synthetic && t[c].numbers.episode.Some?
      && t[c].numbers.episode.value in Covered(t, Reported(t, season)) && t[c].end.None?
  }

  /** New identifiers, one for each season and place in its listing. */
  type Mint = (Id, nat) -> Id

  ghost predicate NeverTwice(mint: Mint) {
    forall s: Id, i: nat, r: Id, j: nat :: mint(s, i) == mint(r, j) ==> s == r && i == j
  }

  ghost predicate Supplies(t: Tree, mint: Mint, season: Id) {
    NeverTwice(mint) && forall i: nat :: Unused(t, mint(season, i))
  }

  function InventedEpisode(t: Tree, season: Id, listing: Listing): Row
    requires season in t
  {
    var numbers := Numbers(t[season].numbers.season, Some(listing.number));
    Row(Episode, Some(season), numbers, None, listing.title, true, 0, None)
  }

  /** Whether a listing is to be invented, given what was held before the season's loop began. */
  predicate Wanted(held: set<nat>, listing: Listing) {
    listing.number !in held && listing.aired
  }

  /** The rows the loop over a listing adds; `held` is read once, before the first. */
  function Filled(t: Tree, season: Id, held: set<nat>, listed: seq<Listing>, mint: Mint): Tree
    requires season in t
    ensures season in Filled(t, season, held, listed, mint)
  {
    if listed == [] then t
    else
      var n := |listed| - 1;
      var earlier := Filled(t, season, held, listed[..n], mint);
      if Wanted(held, listed[n]) then earlier[mint(season, n) := InventedEpisode(earlier, season, listed[n])]
      else earlier
  }

  /** One season: the covered ghosts withdrawn, then the holes filled. */
  function SeasonDiscovered(t: Tree, season: Id, listed: seq<Listing>, mint: Mint): Tree {
    var kept := t - Ghosts(t, season);
    if season in kept then Filled(kept, season, Coverage(kept, season), listed, mint) else kept
  }

  function Discovered(t: Tree, seasons: seq<Id>, listings: Id -> seq<Listing>, mint: Mint): Tree {
    if seasons == [] then t
    else
      var earlier := Discovered(t, seasons[..|seasons| - 1], listings, mint);
      var season := seasons[|seasons| - 1];
      SeasonDiscovered(earlier, season, listings(season), mint)
  }

  function Aired(listed: seq<Listing>): set<nat> {
    set l | l in listed && l.aired :: l.number
  }

  // ------------------------------------------------------------------------- one season

  /** Withdrawing the ghosts uncovers nothing. */
  lemma WithdrawingUncoversNothing(t: Tree, season: Id)
    ensures Coverage(t - Ghosts(t, season), season) == Coverage(t, season)
    ensures Ghosts(t - Ghosts(t, season), season) == {}
  {
    var kept := t - Ghosts(t, season);
    assert Children(kept, season) == Children(t, season) - Ghosts(t, season);
    assert Reported(kept, season) == Reported(t, season);
    assert Covered(kept, Reported(kept, season)) == Covered(t, Reported(t, season));
    forall n | n in Coverage(t, season)
      ensures n in Coverage(kept, season)
    {
      var c :| c in Children(t, season) && n in SpanOf(t[c]);
      if c in Ghosts(t, season) {
        var r :| r in Reported(t, season) && n in SpanOf(t[r]);
        assert r in Children(kept, season) && n in SpanOf(kept[r]);
      } else {
        assert c in Children(kept, season) && n in SpanOf(kept[c]);
      }
    }
  }

  /** What the loop over a listing does to the table. */
  lemma {:induction false} FilledRows(t: Tree, season: Id, held: set<nat>, listed: seq<Listing>, mint: Mint)
    requires season in t && Supplies(t, mint, season)
    ensures
      var v := Filled(t, season, held, listed, mint);
      && (forall x :: x in v <==>
          x in t || exists i: nat :: i < |listed| && Wanted(held, listed[i]) && x == mint(season, i))
      && (forall x | x in t :: v[x] == t[x])
      && (forall i: nat | i < |listed| && Wanted(held, listed[i]) ::
            v[mint(season, i)] == InventedEpisode(t, season, listed[i]))
  {
    if listed != [] {
      var n := |listed| - 1;
      FilledRows(t, season, held, listed[..n], mint);
      assert Unused(t, mint(season, n));
    }
  }

  lemma FilledCoverage(t: Tree, season: Id, held: set<nat>, listed: seq<Listing>, mint: Mint)
    requires season in t && Supplies(t, mint, season) && held == Coverage(t, season)
    ensures Coverage(Filled(t, season, held, listed, mint), season) == Coverage(t, season) + Aired(listed)
  {
    var v := Filled(t, season, held, listed, mint);
    FilledRows(t, season, held, listed, mint);
    forall n
      ensures n in Coverage(v, season) <==> n in Coverage(t, season) + Aired(listed)
    {
      if n in Coverage(v, season) {
        var c :| c in Children(v, season) && n in SpanOf(v[c]);
        if c in t { assert c in Children(t, season) && n in SpanOf(t[c]); }
      }
      if n in Coverage(t, season) {
        var c :| c in Children(t, season) && n in SpanOf(t[c]);
        assert c in Children(v, season) && n in SpanOf(v[c]);
      } else if n in Aired(listed) {
        var l :| l in listed && l.aired && l.number == n;
        var i: nat :| i < |listed| && listed[i] == l;
        assert Wanted(held, listed[i]);
        assert mint(season, i) in Children(v, season) && n in SpanOf(v[mint(season, i)]);
      }
    }
  }

  /** A season's pass touches only what is under it: what goes is a ghost, what comes is an aired hole. */
  lemma SeasonRows(t: Tree, season: Id, listed: seq<Listing>, mint: Mint)
    requires season in t && t[season].parent != Some(season) && Supplies(t, mint, season)
    ensures
      var v, kept := SeasonDiscovered(t, season, listed, mint), t - Ghosts(t, season);
      && season in v
      && (forall x :: x in v <==>
           (x in kept
               || exists i: nat :: i < |listed| && Wanted(Coverage(kept, season), listed[i]) && x == mint(season, i)))
      && (forall x | x in kept :: v[x] == t[x])
      && (forall i: nat | i < |listed| && Wanted(Coverage(kept, season), listed[i]) ::
           v[mint(season, i)] == InventedEpisode(t, season, listed[i]))
  {
    FilledRows(t - Ghosts(t, season), season, Coverage(t - Ghosts(t, season), season), listed, mint);
  }

  lemma SeasonCoverage(t: Tree, season: Id, listed: seq<Listing>, mint: Mint)
    requires season in t && t[season].parent != Some(season) && Supplies(t, mint, season)
    ensures season in SeasonDiscovered(t, season, listed, mint)
    ensures Coverage(SeasonDiscovered(t, season, listed, mint), season) == Coverage(t, season) + Aired(listed)
  {
    WithdrawingUncoversNothing(t, season);
    FilledCoverage(t - Ghosts(t, season), season, Coverage(t - Ghosts(t, season), season), listed, mint);
  }

  /** Afterwards a season has nothing to withdraw and nothing to fill. */
  ghost predicate Settledness(t: Tree, season: Id, listed: seq<Listing>) {
    Ghosts(t, season) == {} && Aired(listed) <= Coverage(t, season)
  }

  lemma SeasonHasNothingLeft(t: Tree, season: Id, listed: seq<Listing>, mint: Mint)
    requires season in t && t[season].parent != Some(season) && Supplies(t, mint, season)
    ensures Settledness(SeasonDiscovered(t, season, listed, mint), season, listed)
  {
    var kept, v := t - Ghosts(t, season), SeasonDiscovered(t, season, listed, mint);
    SeasonRows(t, season, listed, mint);
    SeasonCoverage(t, season, listed, mint);
    WithdrawingUncoversNothing(t, season);
    assert Reported(v, season) == Reported(kept, season);
    assert Covered(v, Reported(v, season)) == Covered(kept, Reported(kept, season));
    assert Covered(kept, Reported(kept, season)) <= Coverage(kept, season);
    assert forall c | c in Ghosts(v, season) && c in kept :: c in Ghosts(kept, season);
  }

  lemma {:induction false} NothingWantedNothingFilled(
    t: Tree, season: Id, held: set<nat>, listed: seq<Listing>, mint: Mint)
    requires season in t && Aired(listed) <= held
    ensures Filled(t, season, held, listed, mint) == t
  {
    if listed != [] {
      var n := |listed| - 1;
      assert Aired(listed[..n]) <= Aired(listed);
      assert listed[n].aired ==> listed[n].number in Aired(listed);
      NothingWantedNothingFilled(t, season, held, listed[..n], mint);
    }
  }

  lemma SecondPassOfASeason(t: Tree, season: Id, listed: seq<Listing>, mint: Mint)
    requires season in t && Settledness(t, season, listed)
    ensures SeasonDiscovered(t, season, listed, mint) == t
  {
    assert t - Ghosts(t, season) == t;
    NothingWantedNothingFilled(t, season, Coverage(t, season), listed, mint);
  }

  // ------------------------------------------------------------------- every season asked

  /** The rows asked about are in the table, each once, and none hangs from another. */
  ghost predicate Apart(t: Tree, seasons: seq<Id>) {
    && (forall s | s in seasons :: s in t && (t[s].parent.Some? ==> t[s].parent.value !in seasons))
    && forall i, j | 0 <= i < j < |seasons| :: seasons[i] != seasons[j]
  }

  /** Two tables agree on everything a season's pass reads. */
  ghost predicate SameUnder(t: Tree, u: Tree, season: Id) {
    && season in t && season in u && t[season] == u[season]
    && Children(t, season) == Children(u, season)
    && forall c | c in Children(t, season) :: u[c] == t[c]
  }

  lemma SameUnderReadsTheSame(t: Tree, u: Tree, season: Id)
    requires SameUnder(t, u, season)
    ensures Coverage(u, season) == Coverage(t, season) && Ghosts(u, season) == Ghosts(t, season)
  {
    assert Reported(u, season) == Reported(t, season);
    assert Covered(u, Reported(u, season)) == Covered(t, Reported(t, season));
  }

  /** A season's pass leaves what is under every other row as it was. */
  lemma SeasonLeavesTheRest(t: Tree, season: Id, listed: seq<Listing>, mint: Mint, other: Id)
    requires season in t && t[season].parent != Some(season) && Supplies(t, mint, season)
    requires other in t && other != season && t[other].parent != Some(season)
    ensures SameUnder(t, SeasonDiscovered(t, season, listed, mint), other)
  {
    SeasonRows(t, season, listed, mint);
  }

  lemma SeasonKeepsSupplies(t: Tree, season: Id, listed: seq<Listing>, mint: Mint, other: Id)
    requires season in t && t[season].parent != Some(season) && Supplies(t, mint, season)
    requires other != season && Supplies(t, mint, other)
    ensures Supplies(SeasonDiscovered(t, season, listed, mint), mint, other)
  {
    SeasonRows(t, season, listed, mint);
  }

  /** Each season asked about ends covering what it covered plus every aired number listed for it. */
  ghost predicate CoversListed(t: Tree, seasons: set<Id>, listings: Id -> seq<Listing>, v: Tree) {
    forall s | s in seasons ::
      && s in t && s in v && v[s] == t[s]
      && Coverage(v, s) == Coverage(t, s) + Aired(listings(s)) && Settledness(v, s, listings(s))
  }

  ghost predicate LeavesTheRest(t: Tree, seasons: set<Id>, v: Tree) {
    forall p | p in t && p !in seasons && (t[p].parent.Some? ==> t[p].parent.value !in seasons) :: SameUnder(t, v, p)
  }

  /** What is gone was a ghost of a season asked about. */
  ghost predicate WithdrawsGhosts(t: Tree, seasons: set<Id>, v: Tree) {
    forall x | x in t && x !in v ::
      t[x].parent.Some? && t[x].parent.value in seasons && x in Ghosts(t, t[x].parent.value)
  }

  ghost predicate FillsAHole(t: Tree, s: Id, listing: Listing, row: Row) {
    s in t && listing.aired && listing.number !in Coverage(t, s) && row == InventedEpisode(t, s, listing)
  }

  /** What is new is an invented row for an aired number nothing under its season covered. */
  ghost predicate InventsHoles(t: Tree, seasons: set<Id>, listings: Id -> seq<Listing>, v: Tree) {
    forall x | x in v && x !in t ::
      && v[x].parent.Some? && v[x].parent.value in seasons
      && exists l :: l in listings(v[x].parent.value) && FillsAHole(t, v[x].parent.value, l, v[x])
  }

  /** Every row that stays reads exactly as it did. */
  ghost predicate KeepsRows(t: Tree, v: Tree) {
    forall x | x in t && x in v :: v[x] == t[x]
  }

  /** What is new was called nothing before, and nothing pointed at it. */
  ghost predicate NewRowsWereUnused(t: Tree, v: Tree) {
    forall x | x in v && x !in t :: Unused(t, x)
  }

  /** The identifiers kept for other seasons are still new. */
  ghost predicate StillNew(t: Tree, seasons: set<Id>, mint: Mint, v: Tree) {
    forall r | r !in seasons && Supplies(t, mint, r) :: Supplies(v, mint, r)
  }

  lemma StepCovers(t: Tree, before: set<Id>, season: Id, listings: Id -> seq<Listing>, mint: Mint, w: Tree)
    requires CoversListed(t, before, listings, w) && season !in before && SameUnder(t, w, season)
    requires t[season].parent != Some(season) && Supplies(w, mint, season)
    requires forall s | s in before :: t[s].parent != Some(season)
    ensures CoversListed(t, before + {season}, listings, SeasonDiscovered(w, season, listings(season), mint))
  {
    var v, listed := SeasonDiscovered(w, season, listings(season), mint), listings(season);
    SameUnderReadsTheSame(t, w, season);
    assert v[season] == w[season] by { SeasonRows(w, season, listed, mint); }
    SeasonCoverage(w, season, listed, mint);
    SeasonHasNothingLeft(w, season, listed, mint);
    forall s | s in before
      ensures s in v && v[s] == t[s] && Coverage(v, s) == Coverage(t, s) + Aired(listings(s))
          && Settledness(v, s, listings(s))
    {
      SeasonLeavesTheRest(w, season, listed, mint, s);
      SameUnderReadsTheSame(w, v, s);
    }
  }

  lemma StepLeavesTheRest(t: Tree, before: set<Id>, season: Id, listed: seq<Listing>, mint: Mint, w: Tree)
    requires LeavesTheRest(t, before, w) && season in w && w[season].parent != Some(season) && Supplies(w, mint, season)
    ensures LeavesTheRest(t, before + {season}, SeasonDiscovered(w, season, listed, mint))
  {
    forall p | p in t && p !in before + {season} && (t[p].parent.Some? ==> t[p].parent.value !in before + {season})
      ensures SameUnder(t, SeasonDiscovered(w, season, listed, mint), p)
    {
      assert SameUnder(t, w, p);
      SeasonLeavesTheRest(w, season, listed, mint, p);
    }
  }

  lemma StepWithdraws(t: Tree, before: set<Id>, season: Id, listed: seq<Listing>, mint: Mint, w: Tree)
    requires WithdrawsGhosts(t, before, w) && SameUnder(t, w, season)
    requires w[season].parent != Some(season) && Supplies(w, mint, season)
    ensures WithdrawsGhosts(t, before + {season}, SeasonDiscovered(w, season, listed, mint))
  {
    SeasonRows(w, season, listed, mint);
    SameUnderReadsTheSame(t, w, season);
  }

  lemma StepInvents(t: Tree, before: set<Id>, season: Id, listings: Id -> seq<Listing>, mint: Mint, w: Tree)
    requires InventsHoles(t, before, listings, w) && SameUnder(t, w, season)
    requires w[season].parent != Some(season) && Supplies(w, mint, season)
    ensures InventsHoles(t, before + {season}, listings, SeasonDiscovered(w, season, listings(season), mint))
  {
    var v, listed := SeasonDiscovered(w, season, listings(season), mint), listings(season);
    SeasonRows(w, season, listed, mint);
    SameUnderReadsTheSame(t, w, season);
    WithdrawingUncoversNothing(w, season);
    forall x | x in v && x !in t && x !in w
      ensures v[x].parent == Some(season)
      ensures exists l :: l in listings(season) && FillsAHole(t, season, l, v[x])
    {
      var i: nat :| i < |listed| && Wanted(Coverage(w - Ghosts(w, season), season), listed[i]) && x == mint(season, i);
      assert listed[i] in listings(season) && FillsAHole(t, season, listed[i], v[x]);
    }
  }

  lemma StepKeepsRows(t: Tree, season: Id, listed: seq<Listing>, mint: Mint, w: Tree)
    requires KeepsRows(t, w) && NewRowsWereUnused(t, w) && Supplies(t, mint, season)
    requires season in w && w[season].parent != Some(season) && Supplies(w, mint, season)
    ensures KeepsRows(t, SeasonDiscovered(w, season, listed, mint))
    ensures NewRowsWereUnused(t, SeasonDiscovered(w, season, listed, mint))
  {
    SeasonRows(w, season, listed, mint);
  }

  /** Everything a pass over these seasons promises. */
  ghost predicate Outcome(t: Tree, seasons: set<Id>, listings: Id -> seq<Listing>, v: Tree) {
    && CoversListed(t, seasons, listings, v) && LeavesTheRest(t, seasons, v)
    && WithdrawsGhosts(t, seasons, v) && InventsHoles(t, seasons, listings, v)
    && KeepsRows(t, v) && NewRowsWereUnused(t, v)
  }

  /**
   * Discovering over any list of seasons: each ends covering exactly what it covered
   * before plus every aired number listed for it; what was withdrawn are ghosts, what was
   * invented are aired numbers nothing covered under identifiers nothing used, and every
   * other row stays, column by column.
   */
  lemma {:induction false} DiscoveryOutcome(t: Tree, seasons: seq<Id>, listings: Id -> seq<Listing>, mint: Mint)
    requires Apart(t, seasons) && forall s | s in seasons :: Supplies(t, mint, s)
    ensures Outcome(t, (set s | s in seasons), listings, Discovered(t, seasons, listings, mint))
    ensures StillNew(t, (set s | s in seasons), mint, Discovered(t, seasons, listings, mint))
  {
    if seasons != [] {
      var before, season := seasons[..|seasons| - 1], seasons[|seasons| - 1];
      DiscoveryOutcome(t, before, listings, mint);
      var done, w := (set s | s in before), Discovered(t, before, listings, mint);
      assert (set s | s in seasons) == done + {season};
      assert season in t && season !in done && t[season].parent != Some(season);
      assert SameUnder(t, w, season) && Supplies(w, mint, season);
      StepCovers(t, done, season, listings, mint, w);
      StepLeavesTheRest(t, done, season, listings(season), mint, w);
      StepWithdraws(t, done, season, listings(season), mint, w);
      StepInvents(t, done, season, listings, mint, w);
      StepKeepsRows(t, season, listings(season), mint, w);
      forall r | r !in done + {season} && Supplies(t, mint, r)
        ensures Supplies(SeasonDiscovered(w, season, listings(season), mint), mint, r)
      {
        SeasonKeepsSupplies(w, season, listings(season), mint, r);
      }
    }
  }

  /** With the same listings a second run withdraws nothing and creates nothing. */
  lemma {:induction false} NothingLeftToDiscover(v: Tree, seasons: seq<Id>, listings: Id -> seq<Listing>, mint: Mint)
    requires forall s | s in seasons :: s in v && Settledness(v, s, listings(s))
    ensures Discovered(v, seasons, listings, mint) == v
  {
    if seasons != [] {
      NothingLeftToDiscover(v, seasons[..|seasons| - 1], listings, mint);
      var season := seasons[|seasons| - 1];
      SecondPassOfASeason(v, season, listings(season), mint);
    }
  }

  lemma DiscoveryIsIdempotent(t: Tree, seasons: seq<Id>, listings: Id -> seq<Listing>, mint: Mint, again: Mint)
    requires Apart(t, seasons) && forall s | s in seasons :: Supplies(t, mint, s)
    ensures
      var v := Discovered(t, seasons, listings, mint);
      Discovered(v, seasons, listings, again) == v
  {
    DiscoveryOutcome(t, seasons, listings, mint);
    NothingLeftToDiscover(Discovered(t, seasons, listings, mint), seasons, listings, again);
  }

  // ------------------------------------------------------ what the pass leaves untrue

  /** The places of a listing whose number has aired and is covered by nothing yet. */
  function Holes(t: Tree, season: Id, listed: seq<Listing>): set<nat> {
    set i: nat | i < |listed| && Wanted(Coverage(t, season), listed[i])
  }

  lemma {:induction false} AsManyIdentifiersAsPlaces(mint: Mint, season: Id, places: set<nat>)
    requires NeverTwice(mint)
    ensures |set i | i in places :: mint(season, i)| == |places|
  {
    if places != {} {
      var i :| i in places;
      AsManyIdentifiersAsPlaces(mint, season, places - {i});
      assert (set j | j in places :: mint(season, j)) ==
          (set j | j in places - {i} :: mint(season, j)) + {mint(season, i)};
    }
  }

  /** What hangs from a season afterwards: what was no ghost, and one row for each hole listed. */
  lemma ChildrenAfterDiscovery(t: Tree, season: Id, listed: seq<Listing>, mint: Mint)
    requires season in t && t[season].parent != Some(season) && Supplies(t, mint, season)
    ensures Children(SeasonDiscovered(t, season, listed, mint), season)
         == (Children(t, season) - Ghosts(t, season)) + (set i | i in Holes(t, season, listed) :: mint(season, i))
  {
    SeasonRows(t, season, listed, mint);
    WithdrawingUncoversNothing(t, season);
    var v, kept := SeasonDiscovered(t, season, listed, mint), t - Ghosts(t, season);
    forall x
      ensures x in Children(v, season) <==>
              x in Children(t, season) - Ghosts(t, season)
                  || x in set i | i in Holes(t, season, listed) :: mint(season, i)
    {
      assert x in kept ==> v[x] == t[x];
    }
  }

  lemma HowManyAfterDiscovery(t: Tree, season: Id, listed: seq<Listing>, mint: Mint)
    requires season in t && t[season].parent != Some(season) && Supplies(t, mint, season)
    ensures |Children(SeasonDiscovered(t, season, listed, mint), season)|
         == |Children(t, season)| - |Ghosts(t, season)| + |Holes(t, season, listed)|
  {
    var holes := Holes(t, season, listed);
    ChildrenAfterDiscovery(t, season, listed, mint);
    AsManyIdentifiersAsPlaces(mint, season, holes);
    var come := set i | i in holes :: mint(season, i);
    assert forall x | x in come :: Unused(t, x);
    SomeWentSomeCame(Children(t, season), Ghosts(t, season), come);
  }

  /**
   * The pass recounts the series and never the season it filled, so a season's true count
   * stays true exactly when its listing has as many uncovered aired entries as the season
   * has covered ghosts.
   */
  lemma SeasonCountGoesStale(t: Tree, season: Id, listed: seq<Listing>, mint: Mint)
    requires season in t && t[season].parent != Some(season) && Supplies(t, mint, season) && CountExact(t, season)
    ensures CountExact(SeasonDiscovered(t, season, listed, mint), season) <==>
            |Holes(t, season, listed)| == |Ghosts(t, season)|
  {
    SeasonRows(t, season, listed, mint);
    HowManyAfterDiscovery(t, season, listed, mint);
  }

  const EMPTY_SEASON: Tree := map[
    0 := Row(Series, None, Numbers(None, None), None, 0, false, 1, None),
    1 := Row(Season, Some(0), Numbers(Some(1), None), None, 0, false, 0, None)]

  /** Discovering one episode of an empty season leaves the season counting none. */
  lemma AStaleCount() returns (mint: Mint)
    ensures Supplies(EMPTY_SEASON, mint, 1)
    ensures
      var v := SeasonDiscovered(EMPTY_SEASON, 1, [Listing(1, true, 0)], mint);
      && CountExact(EMPTY_SEASON, 1) && 1 in v && v[1].childCount == 0 && Children(v, 1) == {mint(1, 0)}
  {
    mint := IdentifiersCanBeSupplied(EMPTY_SEASON);
    var t, listed := EMPTY_SEASON, [Listing(1, true, 0)];
    assert Children(t, 1) == {} && Coverage(t, 1) == {} && Ghosts(t, 1) == {};
    assert Holes(t, 1, listed) == {0} by { assert Wanted(Coverage(t, 1), listed[0]); }
    assert (set i | i in {0} :: mint(1, i)) == {mint(1, 0)};
    SeasonRows(t, 1, listed, mint);
    ChildrenAfterDiscovery(t, 1, listed, mint);
  }

  // ------------------------------------------------------------------- the whole request

  /** The series whose identifier the source is asked by, if the row asked about has one. */
  function SeriesAsked(t: Tree, id: Id): Option<Id>
    requires id in t
  {
    match t[id].kind
    case Series => Some(id)
    case Season => if t[id].parent.Some? && t[id].parent.value in t then t[id].parent else None
    case Episode => None
  }

  /**
   * The rows looked under: the season asked about, or whatever hangs from the series asked
   * about, if it carries a season number above zero. The kind of the row is not read.
   */
  ghost predicate LooksUnder(t: Tree, id: Id, seasons: seq<Id>)
    requires id in t
  {
    && (forall s :: s in seasons <==>
         (s in t && (if t[id].kind.Season? then s == id else t[s].parent == Some(id))
         && t[s].numbers.season.Some? && t[s].numbers.season.value > 0))
    && forall i, j | 0 <= i < j < |seasons| :: seasons[i] != seasons[j]
  }

  ghost predicate NoRowIsItsOwnParent(t: Tree) {
    forall x | x in t :: t[x].parent != Some(x)
  }

  lemma SeasonsAreApart(t: Tree, id: Id, seasons: seq<Id>)
    requires id in t && LooksUnder(t, id, seasons) && NoRowIsItsOwnParent(t)
    ensures Apart(t, seasons)
  {
  }

  /** When a season's turn comes, what is under it is what was there and its identifiers are still new. */
  lemma SeasonIsReady(t: Tree, seasons: seq<Id>, i: nat, listings: Id -> seq<Listing>, mint: Mint)
    requires Apart(t, seasons) && i < |seasons| && forall s | s in seasons :: Supplies(t, mint, s)
    ensures
      var w := Discovered(t, seasons[..i], listings, mint);
      SameUnder(t, w, seasons[i]) && w[seasons[i]].parent != Some(seasons[i]) && Supplies(w, mint, seasons[i])
  {
    DiscoveryOutcome(t, seasons[..i], listings, mint);
  }

  /** What came and went for one season was not counted for an earlier one. */
  lemma RowsComeAndGo(t: Tree, w: Tree, season: Id, listed: seq<Listing>, mint: Mint)
    requires SameUnder(t, w, season) && w[season].parent != Some(season)
    requires Supplies(t, mint, season) && Supplies(w, mint, season)
    ensures
      var v := SeasonDiscovered(w, season, listed, mint);
      && |v.Keys - t.Keys| == |w.Keys - t.Keys| + |v.Keys - w.Keys|
      && |t.Keys - v.Keys| == |t.Keys - w.Keys| + |w.Keys - v.Keys|
  {
    var v := SeasonDiscovered(w, season, listed, mint);
    SameUnderReadsTheSame(t, w, season);
    SeasonRows(w, season, listed, mint);
    assert v.Keys - t.Keys == (w.Keys - t.Keys) + (v.Keys - w.Keys);
    assert t.Keys - v.Keys == (t.Keys - w.Keys) + (w.Keys - v.Keys);
  }

  /** One place of a season's listing, as the loop over the listing takes it. */
  lemma PlaceTurn(t: Tree, season: Id, listed: seq<Listing>, i: nat, mint: Mint)
    requires season in t && t[season].parent != Some(season) && Supplies(t, mint, season) && i < |listed|
    ensures
      var kept := t - Ghosts(t, season);
      var held := Coverage(kept, season);
      var now, later :=
          Filled(kept, season, held, listed[..i], mint), Filled(kept, season, held, listed[..i + 1], mint);
      if Wanted(held, listed[i]) then
        && later == now[mint(season, i) := InventedEpisode(now, season, listed[i])]
        && |later.Keys - t.Keys| == |now.Keys - t.Keys| + 1 && t.Keys - later.Keys == t.Keys - now.Keys
      else later == now
  {
    var kept := t - Ghosts(t, season);
    var held := Coverage(kept, season);
    var now := Filled(kept, season, held, listed[..i], mint);
    assert listed[..i + 1][..i] == listed[..i];
    FilledRows(kept, season, held, listed[..i], mint);
    assert Unused(t, mint(season, i)) && mint(season, i) !in now;
    OneCame(t.Keys, now.Keys, mint(season, i));
    assert now[mint(season, i) := InventedEpisode(now, season, listed[i])].Keys == now.Keys + {mint(season, i)};
  }

  /** One season's turn, as the loop over the seasons takes it. */
  lemma SeasonTurn(t: Tree, seasons: seq<Id>, i: nat, listings: Id -> seq<Listing>, mint: Mint)
    requires Apart(t, seasons) && i < |seasons| && forall s | s in seasons :: Supplies(t, mint, s)
    ensures
      var w, season := Discovered(t, seasons[..i], listings, mint), seasons[i];
      && season in w && w[season].parent != Some(season) && Supplies(w, mint, season)
      && Discovered(t, seasons[..i + 1], listings, mint) == SeasonDiscovered(w, season, listings(season), mint)
  {
    SeasonIsReady(t, seasons, i, listings, mint);
    assert seasons[..i + 1][..i] == seasons[..i];
  }

  /** What came and went in a turn adds to what came and went before it. */
  lemma TurnAdds(t: Tree, seasons: seq<Id>, i: nat, listings: Id -> seq<Listing>, mint: Mint)
    requires Apart(t, seasons) && i < |seasons| && forall s | s in seasons :: Supplies(t, mint, s)
    ensures
      var w, season := Discovered(t, seasons[..i], listings, mint), seasons[i];
      var v := SeasonDiscovered(w, season, listings(season), mint);
      && |v.Keys - t.Keys| == |w.Keys - t.Keys| + |v.Keys - w.Keys|
      && |t.Keys - v.Keys| == |t.Keys - w.Keys| + |w.Keys - v.Keys|
  {
    SeasonIsReady(t, seasons, i, listings, mint);
    var season := seasons[i];
    assert season in seasons;
    RowsComeAndGo(t, Discovered(t, seasons[..i], listings, mint), season, listings(season), mint);
  }

  /** The series is recounted only when a row came or went. */
  function SeriesRecounted(t: Tree, v: Tree, series: Option<Id>): Tree {
    if v.Keys != t.Keys then Settled(v, series) else v
  }

  /**
   * Nothing tells a season from an episode that hangs straight from its series, so an
   * episode may be asked about. Discovery keeps episodes leaves exactly when no number of
   * a listing asked for an episode has aired.
   */
  lemma EpisodesStayLeavesIff(t: Tree, seasons: seq<Id>, listings: Id -> seq<Listing>, mint: Mint)
    requires EpisodesAreLeaves(t) && Apart(t, seasons) && forall s | s in seasons :: Supplies(t, mint, s)
    ensures EpisodesAreLeaves(Discovered(t, seasons, listings, mint)) <==>
            forall s | s in seasons && t[s].kind.Episode? :: Aired(listings(s)) == {}
  {
    DiscoveryOutcome(t, seasons, listings, mint);
    var v, asked := Discovered(t, seasons, listings, mint), set s | s in seasons;
    assert CoversListed(t, asked, listings, v);
    forall s | s in seasons && t[s].kind.Episode?
      ensures EpisodesAreLeaves(v) ==> Aired(listings(s)) == {}
    {
      NothingCoveredUnderALeaf(v, s);
      assert s in asked && Coverage(v, s) == Coverage(t, s) + Aired(listings(s));
    }
    if forall s | s in seasons && t[s].kind.Episode? :: Aired(listings(s)) == {} {
      NoEpisodeGainsAChild(t, seasons, listings, v);
    }
  }

  lemma NothingCoveredUnderALeaf(v: Tree, s: Id)
    requires s in v && v[s].kind.Episode?
    ensures EpisodesAreLeaves(v) ==> Coverage(v, s) == {}
  {
    if EpisodesAreLeaves(v) { assert Children(v, s) == {}; }
  }

  lemma NoEpisodeGainsAChild(t: Tree, seasons: seq<Id>, listings: Id -> seq<Listing>, v: Tree)
    requires EpisodesAreLeaves(t) && Outcome(t, (set s | s in seasons), listings, v)
    requires forall s | s in seasons && s in t && t[s].kind.Episode? :: Aired(listings(s)) == {}
    ensures EpisodesAreLeaves(v)
  {
    forall c | c in v && v[c].parent.Some? && v[c].parent.value in v
      ensures !v[v[c].parent.value].kind.Episode?
    {
      var p := v[c].parent.value;
      if c in t {
        assert v[c] == t[c];
        assert p !in t ==> Unused(t, p);
        assert p in t && v[p] == t[p];
      } else {
        assert p in seasons;
        var l :| l in listings(p) && FillsAHole(t, p, l, v[c]);
        assert l.number in Aired(listings(p));
        assert v[p] == t[p];
      }
    }
  }

  const SEASONLESS: Tree := map[
    0 := Row(Series, None, Numbers(None, None), None, 0, false, 1, None),
    1 := Row(Episode, Some(0), Numbers(Some(1), Some(1)), None, 0, false, 0, None)]

  /** A service with no season level: an episode straight under its series is looked under like a season. */
  lemma AnEpisodeTakenForASeason() returns (mint: Mint)
    ensures Supplies(SEASONLESS, mint, 1)
    ensures EpisodesAreLeaves(SEASONLESS) && LooksUnder(SEASONLESS, 0, [1])
    ensures !EpisodesAreLeaves(Discovered(SEASONLESS, [1], _ => [Listing(2, true, 0)], mint))
  {
    mint := IdentifiersCanBeSupplied(SEASONLESS);
    var listed := [Listing(2, true, 0)];
    assert 2 in Aired(listed) by { assert listed[0].aired; }
    EpisodesStayLeavesIff(SEASONLESS, [1], _ => listed, mint);
  }

  /** Identifiers can always be supplied: pairs numbered along their diagonals, past every one in use. */
  lemma IdentifiersCanBeSupplied(t: Tree) returns (mint: Mint)
    ensures forall season: Id :: Supplies(t, mint, season)
  {
    var inUse := t.Keys + set c | c in t && t[c].parent.Some? :: t[c].parent.value;
    var bound := SomethingAbove(inUse);
    mint := (s: Id, i: nat) => bound + UpTo(s + i) + s;
    forall s: Id, i: nat, r: Id, j: nat | mint(s, i) == mint(r, j)
      ensures s == r && i == j
    {
      if s + i < r + j { DiagonalsAreApart(s + i, r + j); }
      if r + j < s + i { DiagonalsAreApart(r + j, s + i); }
    }
    assert forall c | c in t && t[c].parent.Some? :: t[c].parent.value in inUse;
  }

  lemma SomethingAbove(ids: set<Id>) returns (bound: Id)
    ensures forall x | x in ids :: x < bound
  {
    if ids == {} {
      bound := 0;
    } else {
      var x :| x in ids;
      var rest := SomethingAbove(ids - {x});
      bound := if x < rest then rest else x + 1;
      forall y | y in ids
        ensures y < bound
      {
        assert y == x || y in ids - {x};
      }
    }
  }

  function UpTo(n: nat): nat {
    if n == 0 then 0 else UpTo(n - 1) + n
  }

  lemma {:induction false} DiagonalsAreApart(m: nat, n: nat)
    requires m < n
    ensures UpTo(m) + m < UpTo(n)
  {
    if m + 1 < n { DiagonalsAreApart(m, n - 1); }
  }
}
