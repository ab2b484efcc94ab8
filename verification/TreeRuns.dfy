/**
 * Everything that rewrites the rows of a service, in any order: corrections and their
 * withdrawal, passes over the whole service, and discoveries.
 */
module TreeRuns {
  import opened Options
  import opened Sizes
  import opened MediaRows
  import opened Refiling
  import opened Corrections
  import opened ServiceRefiling
  import opened Discovery

  datatype Change =
    | Correct(request: Request)
    | RefileAll(order: seq<Id>)
    | Discover(id: Id, seasons: seq<Id>, listings: Id -> seq<Listing>, mint: Mint)

  /** The change can be asked for: what it names is there, and what it was told is so. */
  ghost predicate Allowed(t: Tree, c: Change) {
    match c
    case Correct(request) => Applicable(t, request)
    case RefileAll(order) => Enumerates(t, order)
    case Discover(id, seasons, listings, mint) =>
      && id in t && SeriesAsked(t, id).Some? && LooksUnder(t, id, seasons) && NoRowIsItsOwnParent(t)
      && forall s | s in seasons :: Supplies(t, mint, s)
  }

  ghost function Changed(t: Tree, c: Change): Tree
    requires Allowed(t, c)
  {
    match c
    case Correct(request) => Overridden(t, request)
    case RefileAll(order) => ServiceRefiled(t, order)
    case Discover(id, seasons, listings, mint) =>
      SeriesRecounted(t, Discovered(t, seasons, listings, mint), SeriesAsked(t, id))
  }

  /** A run of changes, each allowed when its turn comes. */
  ghost predicate Happens(t: Tree, changes: seq<Change>)
    decreases |changes|
  {
    changes == [] || (Allowed(t, changes[0]) && Happens(Changed(t, changes[0]), changes[1..]))
  }

  ghost function TableAfter(t: Tree, changes: seq<Change>): Tree
    requires Happens(t, changes)
    decreases |changes|
  {
    if changes == [] then t else TableAfter(Changed(t, changes[0]), changes[1..])
  }

  // -------------------------------------------------------------------- what is promised

  ghost predicate OnlyEpisodesAreNumbered(t: Tree) {
    forall x | x in t && t[x].numbers.episode.Some? :: t[x].kind.Episode?
  }

  ghost predicate Standing(t: Tree) {
    EpisodesAreLeaves(t) && NoEmptyInvented(t) && OnlyEpisodesAreNumbered(t)
  }

  /** The episode is still one, of the same series, as invented as it was, and still filed if it was. */
  ghost predicate KeepsEpisode(t: Tree, u: Tree, e: Id)
    requires e in t
  {
    && e in u && u[e].kind.Episode? && u[e].synthetic == t[e].synthetic
    && SeriesOf(u, e) == SeriesOf(t, e)
    && (Filed(t, e) ==> Filed(u, e))
  }

  /** No episode is lost but an invented one, and none of the others changes series. */
  ghost predicate KeepsEpisodes(t: Tree, u: Tree) {
    forall e | e in t && t[e].kind.Episode? :: if e in u then KeepsEpisode(t, u, e) else t[e].synthetic
  }

  /** Every season's count that was true is, but for those a discovery looked under. */
  ghost predicate KeepsCounts(t: Tree, u: Tree, but: set<Id>) {
    forall p | p !in but && SeasonExact(t, p) :: SeasonExact(u, p)
  }

  function LooksAt(c: Change): set<Id> {
    if c.Discover? then set s | s in c.seasons else {}
  }

  /** No row the change looks under is an episode with an aired listing. */
  ghost predicate AsksNoEpisode(t: Tree, c: Change) {
    c.Discover? ==> forall s | s in c.seasons && s in t && t[s].kind.Episode? :: Aired(c.listings(s)) == {}
  }

  // ------------------------------------------------------------------------ a correction

  lemma CorrectionKeeps(t: Tree, r: Request)
    requires Applicable(t, r) && EpisodesAreLeaves(t)
    ensures EpisodesAreLeaves(Overridden(t, r)) && (Standing(t) ==> Standing(Overridden(t, r)))
    ensures KeepsEpisodes(t, Overridden(t, r)) && r.id in Overridden(t, r) && Filed(Overridden(t, r), r.id)
    ensures NoSecondSeason(t, Overridden(t, r)) && KeepsCounts(t, Overridden(t, r), {})
  {
    var c := t[r.id := Corrected(t[r.id], r.instruction)];
    RenumberingMovesNothing(t, r.id, c[r.id]);
    RefilingFiles(c, r.id, r.minted, r.title);
    RefilingAddsNoSecondSeason(c, r.id, r.minted, r.title);
    assert NoSecondSeason(t, Overridden(t, r));
    CorrectionRows(t, r);
    CorrectionKeepsLeaves(t, r);
    if Standing(t) {
      CorrectionKeepsStanding(t, r);
    }
    forall e | e in t && t[e].kind.Episode?
      ensures KeepsEpisode(t, Overridden(t, r), e)
    {
      CorrectionKeepsEpisode(t, r, e);
    }
    forall p | SeasonExact(t, p)
      ensures SeasonExact(Overridden(t, r), p)
    {
      CorrectionKeepsCount(t, r, p);
    }
  }

  /** What a correction can change of a row that was there: its numbers, its place, its count. */
  lemma CorrectionRows(t: Tree, r: Request)
    requires Applicable(t, r) && EpisodesAreLeaves(t)
    ensures
      var u := Overridden(t, r);
      forall x | x in u ::
        if x in t then
          && u[x].kind == t[x].kind && u[x].synthetic == t[x].synthetic
          && (x != r.id ==> u[x].numbers == t[x].numbers)
        else u[x].kind.Season? && u[x].numbers.episode.None?
  {
    var c := t[r.id := Corrected(t[r.id], r.instruction)];
    RenumberingMovesNothing(t, r.id, c[r.id]);
    if Moves(c, r.id, r.minted) {
      PreparedRows(c, r.id, r.minted, r.title);
      DestinationIsGood(c, r.id, r.minted, r.title);
      MoveRows(Prepared(c, r.id, r.minted, r.title), r.id, Destination(c, r.id, r.minted).value);
    }
  }

  lemma CorrectionKeepsLeaves(t: Tree, r: Request)
    requires Applicable(t, r) && EpisodesAreLeaves(t)
    ensures EpisodesAreLeaves(Overridden(t, r))
  {
    var c := t[r.id := Corrected(t[r.id], r.instruction)];
    RenumberingMovesNothing(t, r.id, c[r.id]);
    if Moves(c, r.id, r.minted) {
      DestinationIsGood(c, r.id, r.minted, r.title);
      MoveKeepsLeaves(Prepared(c, r.id, r.minted, r.title), r.id, Destination(c, r.id, r.minted).value);
    }
  }

  lemma CorrectionKeepsStanding(t: Tree, r: Request)
    requires Applicable(t, r) && Standing(t)
    ensures Standing(Overridden(t, r))
  {
    var c := t[r.id := Corrected(t[r.id], r.instruction)];
    RenumberingMovesNothing(t, r.id, c[r.id]);
    RefilingKeepsStanding(c, r.id, r.minted, r.title);
    CorrectionRows(t, r);
  }

  lemma CorrectionKeepsEpisode(t: Tree, r: Request, e: Id)
    requires Applicable(t, r) && EpisodesAreLeaves(t) && e in t && t[e].kind.Episode?
    ensures KeepsEpisode(t, Overridden(t, r), e)
  {
    var c := t[r.id := Corrected(t[r.id], r.instruction)];
    RenumberingMovesNothing(t, r.id, c[r.id]);
    CorrectionRows(t, r);
    RefilingKeepsSeries(c, r.id, r.minted, r.title);
    if e == r.id {
      RefilingFiles(c, r.id, r.minted, r.title);
    } else if Filed(t, e) {
      assert Filed(c, e);
      RefilingLeavesFiled(c, r.id, r.minted, r.title, e);
    }
  }

  lemma CorrectionKeepsCount(t: Tree, r: Request, p: Id)
    requires Applicable(t, r) && EpisodesAreLeaves(t) && SeasonExact(t, p)
    ensures SeasonExact(Overridden(t, r), p)
  {
    var c := t[r.id := Corrected(t[r.id], r.instruction)];
    RenumberingMovesNothing(t, r.id, c[r.id]);
    RefilingKeepsCount(c, r.id, r.minted, r.title, p);
  }

  // ------------------------------------------------------------------------------ a pass

  /** What stays through a pass, stays with its kind, its numbers, and its parent unless it is an episode. */
  lemma PassRows(t: Tree, order: seq<Id>, x: Id)
    requires IsService(t, order) && x in ServiceRefiled(t, order)
    ensures
      var v := ServiceRefiled(t, order);
      && x in t && v[x].kind == t[x].kind && v[x].numbers == t[x].numbers && v[x].synthetic == t[x].synthetic
      && (v[x].parent == t[x].parent || (t[x].kind.Episode? && v[x].parent == Target(t, order, x)))
  {
    PassFiles(t, order, x);
  }

  lemma PassKeepsLeaves(t: Tree, order: seq<Id>)
    requires IsService(t, order)
    ensures EpisodesAreLeaves(ServiceRefiled(t, order))
  {
    var v := ServiceRefiled(t, order);
    forall c | c in v && v[c].parent.Some? && v[c].parent.value in v
      ensures !v[v[c].parent.value].kind.Episode?
    {
      PassRows(t, order, c);
      PassRows(t, order, v[c].parent.value);
    }
  }

  lemma PassKeepsStanding(t: Tree, order: seq<Id>)
    requires Enumerates(t, order) && Standing(t)
    ensures Standing(ServiceRefiled(t, order))
  {
    var v := ServiceRefiled(t, order);
    PassKeepsLeaves(t, order);
    PassKeepsInventedHeld(t, order);
    forall x | x in v && v[x].numbers.episode.Some?
      ensures v[x].kind.Episode?
    {
      PassRows(t, order, x);
    }
  }

  lemma PassKeepsEpisode(t: Tree, order: seq<Id>, e: Id)
    requires IsService(t, order) && e in t && t[e].kind.Episode?
    ensures KeepsEpisode(t, ServiceRefiled(t, order), e)
  {
    var v := ServiceRefiled(t, order);
    PassKeepsSeries(t, order);
    PassRows(t, order, e);
    PassFiles(t, order, e);
    if Filed(t, e) && SeriesOf(t, e).Some? && t[e].numbers.season.Some? {
      TargetExists(t, order, e);
      var q := Target(t, order, e).value;
      assert e in Children(v, q);
      if q !in v {
        PassDeletesOnlyWhatItEmptied(t, order, q);
        assert false;
      }
      PassRows(t, order, q);
    }
  }

  lemma PassAddsNoSecondSeason(t: Tree, order: seq<Id>)
    requires IsService(t, order)
    ensures NoSecondSeason(t, ServiceRefiled(t, order))
  {
    var v := ServiceRefiled(t, order);
    forall s: Id, n: nat
      ensures |SeasonsOf(v, s, n)| <= if SeasonsOf(t, s, n) == {} then 1 else |SeasonsOf(t, s, n)|
    {
      forall x | x in SeasonsOf(v, s, n)
        ensures x in SeasonsOf(t, s, n)
      {
        PassRows(t, order, x);
      }
      Fewer(SeasonsOf(v, s, n), SeasonsOf(t, s, n));
    }
  }

  lemma PassKeeps(t: Tree, order: seq<Id>)
    requires IsService(t, order)
    ensures
      var v := ServiceRefiled(t, order);
      && EpisodesAreLeaves(v) && (Standing(t) ==> Standing(v))
      && KeepsEpisodes(t, v) && NoSecondSeason(t, v) && KeepsCounts(t, v, {})
  {
    var v := ServiceRefiled(t, order);
    PassKeepsLeaves(t, order);
    if Standing(t) {
      PassKeepsStanding(t, order);
    }
    forall e | e in t && t[e].kind.Episode?
      ensures KeepsEpisode(t, v, e)
    {
      PassKeepsEpisode(t, order, e);
    }
    PassAddsNoSecondSeason(t, order);
    PassKeepsCounts(t, order);
    forall p | SeasonExact(t, p) && p in v && v[p].kind.Season?
      ensures CountExact(v, p)
    {
      PassRows(t, order, p);
    }
  }

  // ------------------------------------------------------------------------- a discovery

  lemma SeriesKeepsASeason(t: Tree, id: Id, seasons: seq<Id>, listings: Id -> seq<Listing>, mint: Mint)
    requires Allowed(t, Discover(id, seasons, listings, mint)) && seasons != []
    ensures Children(Discovered(t, seasons, listings, mint), SeriesAsked(t, id).value) != {}
  {
    DiscoveryFound(t, id, seasons, listings, mint);
    var v, s := Discovered(t, seasons, listings, mint), seasons[0];
    assert s in (set x | x in seasons);
    assert s in v && v[s] == t[s];
    assert s in Children(v, SeriesAsked(t, id).value);
  }

  /** What the recount after a discovery changes: one count, made true. */
  lemma RecountedOnly(t: Tree, id: Id, seasons: seq<Id>, listings: Id -> seq<Listing>, mint: Mint)
    requires Allowed(t, Discover(id, seasons, listings, mint))
    ensures
      var v, series := Discovered(t, seasons, listings, mint), SeriesAsked(t, id).value;
      var u := SeriesRecounted(t, v, Some(series));
      u == v || (series in v && u == v[series := v[series].(childCount := |Children(v, series)|)])
  {
    if seasons != [] {
      SeriesKeepsASeason(t, id, seasons, listings, mint);
    }
  }

  lemma DiscoveryFound(t: Tree, id: Id, seasons: seq<Id>, listings: Id -> seq<Listing>, mint: Mint)
    requires Allowed(t, Discover(id, seasons, listings, mint))
    ensures Apart(t, seasons) && Outcome(t, (set s | s in seasons), listings, Discovered(t, seasons, listings, mint))
  {
    SeasonsAreApart(t, id, seasons);
    DiscoveryOutcome(t, seasons, listings, mint);
  }

  /** What a discovery may do, whatever it found: add unused invented episodes, withdraw covered ghosts. */
  ghost predicate Fills(t: Tree, v: Tree, asked: set<Id>) {
    && KeepsRows(t, v) && NewRowsWereUnused(t, v) && WithdrawsGhosts(t, asked, v)
    && forall x | x in v && x !in t :: v[x].kind.Episode? && v[x].parent.Some? && v[x].parent.value in asked
  }

  lemma DiscoveryFills(t: Tree, id: Id, seasons: seq<Id>, listings: Id -> seq<Listing>, mint: Mint)
    requires Allowed(t, Discover(id, seasons, listings, mint))
    ensures Fills(t, Discovered(t, seasons, listings, mint), set s | s in seasons)
  {
    DiscoveryFound(t, id, seasons, listings, mint);
  }

  /** A season whose rows are withdrawn keeps the reported row that covers them. */
  lemma FillingLeavesNoneEmpty(t: Tree, v: Tree, asked: set<Id>)
    requires Fills(t, v, asked) && NoEmptyInvented(t)
    ensures NoEmptyInvented(v)
  {
    forall p | p in v && v[p].kind.Season? && v[p].synthetic
      ensures Children(v, p) != {}
    {
      assert p in t;
      var c :| c in Children(t, p);
      if c in v {
        assert c in Children(v, p);
      } else {
        assert c in Ghosts(t, p);
        var r :| r in Reported(t, p) && t[c].numbers.episode.value in SpanOf(t[r]);
        assert r !in Ghosts(t, p);
        assert r in Children(v, p);
      }
    }
  }

  /** A parent is there afterwards exactly if it was, and reads the same. */
  lemma FillingKeepsParents(t: Tree, v: Tree, asked: set<Id>, x: Id)
    requires Fills(t, v, asked) && EpisodesAreLeaves(t) && OnlyEpisodesAreNumbered(t)
    requires x in t && x in v && t[x].parent.Some?
    ensures t[x].parent.value in v <==> t[x].parent.value in t
    ensures t[x].parent.value in t ==> v[t[x].parent.value] == t[t[x].parent.value]
  {
    var p := t[x].parent.value;
    assert x in Children(t, p);
    if p in t && p !in v {
      assert false;
    }
    if p in v && p !in t {
      assert false;
    }
  }

  lemma FillingKeepsEpisode(t: Tree, v: Tree, asked: set<Id>, e: Id)
    requires Fills(t, v, asked) && EpisodesAreLeaves(t) && OnlyEpisodesAreNumbered(t)
    requires e in t && t[e].kind.Episode?
    ensures if e in v then KeepsEpisode(t, v, e) else t[e].synthetic
  {
    if e in v {
      if t[e].parent.Some? {
        FillingKeepsParents(t, v, asked, e);
        var p := t[e].parent.value;
        if p in t && t[p].parent.Some? {
          FillingKeepsParents(t, v, asked, p);
        }
      }
    }
  }

  lemma FillingKeepsSeasons(t: Tree, v: Tree, asked: set<Id>, s: Id, n: nat)
    requires Fills(t, v, asked) && OnlyEpisodesAreNumbered(t)
    ensures SeasonsOf(v, s, n) == SeasonsOf(t, s, n)
  {
    forall x | x in SeasonsOf(t, s, n)
      ensures x in v
    {
      if x !in v {
        assert false;
      }
    }
  }

  lemma FillingKeepsCount(t: Tree, v: Tree, asked: set<Id>, p: Id)
    requires Fills(t, v, asked) && p !in asked && SeasonExact(t, p)
    ensures SeasonExact(v, p)
  {
    if p in v && v[p].kind.Season? {
      assert p in t;
      assert Children(v, p) == Children(t, p);
    }
  }

  lemma RecountingMovesNothing(v: Tree, series: Id)
    requires series in v
    ensures
      var u := v[series := v[series].(childCount := |Children(v, series)|)];
      && (EpisodesAreLeaves(u) <==> EpisodesAreLeaves(v))
      && (forall p: Id :: Children(u, p) == Children(v, p))
      && (forall s: Id, n: nat :: SeasonsOf(u, s, n) == SeasonsOf(v, s, n))
      && (forall e | e in v :: SeriesOf(u, e) == SeriesOf(v, e))
  {
    var u := v[series := v[series].(childCount := |Children(v, series)|)];
    RenumberingMovesNothing(v, series, u[series]);
    RenumberingMovesNothing(u, series, v[series]);
    assert u[series := v[series]] == v;
  }

  /** A count is no part of what is kept of the rest. */
  lemma RecountingKeeps(t: Tree, v: Tree, series: Id, asked: set<Id>)
    requires series in v && KeepsEpisodes(t, v) && NoSecondSeason(t, v) && KeepsCounts(t, v, asked)
    ensures
      var u := v[series := v[series].(childCount := |Children(v, series)|)];
      && (EpisodesAreLeaves(v) <==> EpisodesAreLeaves(u)) && (Standing(v) ==> Standing(u))
      && KeepsEpisodes(t, u) && NoSecondSeason(t, u) && KeepsCounts(t, u, asked)
  {
    var u := v[series := v[series].(childCount := |Children(v, series)|)];
    RecountingMovesNothing(v, series);
    forall e | e in t && t[e].kind.Episode? && e in u
      ensures KeepsEpisode(t, u, e)
    {
      assert KeepsEpisode(t, v, e);
    }
  }

  lemma FillingKeeps(t: Tree, v: Tree, asked: set<Id>)
    requires Fills(t, v, asked) && Standing(t)
    ensures NoEmptyInvented(v) && OnlyEpisodesAreNumbered(v)
    ensures KeepsEpisodes(t, v) && NoSecondSeason(t, v) && KeepsCounts(t, v, asked)
  {
    FillingLeavesNoneEmpty(t, v, asked);
    forall e | e in t && t[e].kind.Episode?
      ensures if e in v then KeepsEpisode(t, v, e) else t[e].synthetic
    {
      FillingKeepsEpisode(t, v, asked, e);
    }
    forall s: Id, n: nat
      ensures |SeasonsOf(v, s, n)| <= if SeasonsOf(t, s, n) == {} then 1 else |SeasonsOf(t, s, n)|
    {
      FillingKeepsSeasons(t, v, asked, s, n);
    }
    forall p | p !in asked && SeasonExact(t, p)
      ensures SeasonExact(v, p)
    {
      FillingKeepsCount(t, v, asked, p);
    }
  }

  /** A discovery keeps what the others keep, but for leaves, which its guard decides, and the counts it makes stale. */
  lemma DiscoveryKeeps(t: Tree, c: Change)
    requires c.Discover? && Allowed(t, c) && Standing(t) && AsksNoEpisode(t, c)
    ensures
      var u := Changed(t, c);
      Standing(u) && KeepsEpisodes(t, u) && NoSecondSeason(t, u) && KeepsCounts(t, u, LooksAt(c))
  {
    var v, asked := Discovered(t, c.seasons, c.listings, c.mint), set s | s in c.seasons;
    DiscoveryFills(t, c.id, c.seasons, c.listings, c.mint);
    DiscoveryLeavesIff(t, c);
    FillingKeeps(t, v, asked);
    RecountedOnly(t, c.id, c.seasons, c.listings, c.mint);
    if Changed(t, c) != v {
      RecountingKeeps(t, v, SeriesAsked(t, c.id).value, asked);
    }
  }

  lemma DiscoveryLeavesIff(t: Tree, c: Change)
    requires c.Discover? && Allowed(t, c) && EpisodesAreLeaves(t)
    ensures EpisodesAreLeaves(Discovered(t, c.seasons, c.listings, c.mint)) <==> AsksNoEpisode(t, c)
    ensures EpisodesAreLeaves(Changed(t, c)) <==> AsksNoEpisode(t, c)
  {
    SeasonsAreApart(t, c.id, c.seasons);
    EpisodesStayLeavesIff(t, c.seasons, c.listings, c.mint);
    RecountedOnly(t, c.id, c.seasons, c.listings, c.mint);
    var v := Discovered(t, c.seasons, c.listings, c.mint);
    if Changed(t, c) != v {
      RecountingMovesNothing(v, SeriesAsked(t, c.id).value);
    }
  }

  // -------------------------------------------------------------------------------- runs

  /** A change keeps episodes leaves exactly when it asks for none with an aired listing. */
  lemma ChangeKeepsLeavesIff(t: Tree, c: Change)
    requires Allowed(t, c) && EpisodesAreLeaves(t)
    ensures EpisodesAreLeaves(Changed(t, c)) <==> AsksNoEpisode(t, c)
  {
    match c
    case Correct(request) => CorrectionKeepsLeaves(t, request);
    case RefileAll(order) => PassKeepsLeaves(t, order);
    case Discover(_, _, _, _) => DiscoveryLeavesIff(t, c);
  }

  ghost predicate LeavesThroughout(t: Tree, changes: seq<Change>)
    requires Happens(t, changes)
    decreases |changes|
  {
    EpisodesAreLeaves(t) && (changes == [] || LeavesThroughout(Changed(t, changes[0]), changes[1..]))
  }

  ghost predicate AskNoEpisode(t: Tree, changes: seq<Change>)
    requires Happens(t, changes)
    decreases |changes|
  {
    changes == [] || (AsksNoEpisode(t, changes[0]) && AskNoEpisode(Changed(t, changes[0]), changes[1..]))
  }

  /**
   * Over any run, episodes hold no rows the whole way through exactly when no discovery asks for an
   * episode that has aired entries.
   */
  lemma {:induction false} LeavesThroughoutIff(t: Tree, changes: seq<Change>)
    requires Happens(t, changes) && EpisodesAreLeaves(t)
    ensures LeavesThroughout(t, changes) <==> AskNoEpisode(t, changes)
    decreases |changes|
  {
    if changes != [] {
      ChangeKeepsLeavesIff(t, changes[0]);
      if AsksNoEpisode(t, changes[0]) {
        LeavesThroughoutIff(Changed(t, changes[0]), changes[1..]);
      }
    }
  }

  lemma ChangeKeeps(t: Tree, c: Change)
    requires Allowed(t, c) && Standing(t) && AsksNoEpisode(t, c)
    ensures
      var u := Changed(t, c);
      Standing(u) && KeepsEpisodes(t, u) && NoSecondSeason(t, u) && KeepsCounts(t, u, LooksAt(c))
    ensures c.Correct? ==> c.request.id in Changed(t, c) && Filed(Changed(t, c), c.request.id)
  {
    match c
    case Correct(request) => CorrectionKeeps(t, request);
    case RefileAll(order) => PassKeeps(t, order);
    case Discover(_, _, _, _) => DiscoveryKeeps(t, c);
  }

  /** The row is in every table of the run. */
  ghost predicate StaysThroughout(t: Tree, changes: seq<Change>, e: Id)
    requires Happens(t, changes)
    decreases |changes|
  {
    e in t && (changes == [] || StaysThroughout(Changed(t, changes[0]), changes[1..], e))
  }

  /** Every row some discovery of the run looked under. */
  function LookedAt(changes: seq<Change>): set<Id> {
    if changes == [] then {} else LooksAt(changes[0]) + LookedAt(changes[1..])
  }

  /** Every row corrected in the run that stays from then on hangs where its number says in `end`. */
  ghost predicate CorrectedAreFiled(t: Tree, changes: seq<Change>, end: Tree)
    requires Happens(t, changes)
    decreases |changes|
  {
    changes == [] ||
    var u := Changed(t, changes[0]);
    && CorrectedAreFiled(u, changes[1..], end)
    && (changes[0].Correct? && StaysThroughout(u, changes[1..], changes[0].request.id) ==>
          changes[0].request.id in end && Filed(end, changes[0].request.id))
  }

  /** The episode is kept for as long as it stays, and only an invented one does not. */
  ghost predicate IsKept(t: Tree, changes: seq<Change>, e: Id)
    requires Happens(t, changes) && e in t
  {
    if StaysThroughout(t, changes, e) then KeepsEpisode(t, TableAfter(t, changes), e) else t[e].synthetic
  }

  lemma KeptOnceMore(t: Tree, changes: seq<Change>, e: Id)
    requires changes != [] && Happens(t, changes) && e in t && t[e].kind.Episode?
    requires KeepsEpisodes(t, Changed(t, changes[0]))
    requires e in Changed(t, changes[0]) ==> IsKept(Changed(t, changes[0]), changes[1..], e)
    ensures IsKept(t, changes, e)
  {
    var u, rest := Changed(t, changes[0]), changes[1..];
    if e in u {
      assert KeepsEpisode(t, u, e) && IsKept(u, rest, e);
      assert StaysThroughout(t, changes, e) == StaysThroughout(u, rest, e);
      if StaysThroughout(u, rest, e) {
        KeepsTransitively(t, u, TableAfter(u, rest), e);
      }
    } else {
      assert !StaysThroughout(u, rest, e);
    }
  }

  lemma KeepsTransitively(t: Tree, u: Tree, v: Tree, e: Id)
    requires e in t && KeepsEpisode(t, u, e) && KeepsEpisode(u, v, e)
    ensures KeepsEpisode(t, v, e)
  {
  }

  lemma SeasonsOnceMore(t: Tree, u: Tree, v: Tree)
    requires NoSecondSeason(t, u) && NoSecondSeason(u, v)
    ensures NoSecondSeason(t, v)
  {
    forall s: Id, n: nat
      ensures |SeasonsOf(v, s, n)| <= if SeasonsOf(t, s, n) == {} then 1 else |SeasonsOf(t, s, n)|
    {
      assert |SeasonsOf(u, s, n)| <= if SeasonsOf(t, s, n) == {} then 1 else |SeasonsOf(t, s, n)|;
      assert |SeasonsOf(v, s, n)| <= if SeasonsOf(u, s, n) == {} then 1 else |SeasonsOf(u, s, n)|;
    }
  }

  /**
   * Over any run of corrections, withdrawals, passes and discoveries that ask for no episode
   * with aired entries: no invented season stands empty, no series gains a second season of
   * one number, every episode that stays keeps its series and its place if that was right,
   * only invented ones do not stay, what was corrected hangs where its number says, and every
   * season's count that was true is, unless a discovery looked under it.
   */
  lemma {:induction false} MixedRunsKeepTheTree(t: Tree, changes: seq<Change>)
    requires Happens(t, changes) && Standing(t) && AskNoEpisode(t, changes)
    ensures Standing(TableAfter(t, changes))
    ensures NoSecondSeason(t, TableAfter(t, changes))
    ensures forall e | e in t && t[e].kind.Episode? :: IsKept(t, changes, e)
    ensures CorrectedAreFiled(t, changes, TableAfter(t, changes))
    ensures KeepsCounts(t, TableAfter(t, changes), LookedAt(changes))
    decreases |changes|
  {
    if changes == [] {
      assert forall e | e in t && t[e].kind.Episode? :: KeepsEpisode(t, t, e);
    } else {
      var c, rest, u := changes[0], changes[1..], Changed(t, changes[0]);
      ChangeKeeps(t, c);
      MixedRunsKeepTheTree(u, rest);
      SeasonsOnceMore(t, u, TableAfter(u, rest));
      forall e | e in t && t[e].kind.Episode?
        ensures IsKept(t, changes, e)
      {
        KeptOnceMore(t, changes, e);
      }
      forall p | p !in LookedAt(changes) && SeasonExact(t, p)
        ensures SeasonExact(TableAfter(t, changes), p)
      {
        assert SeasonExact(u, p);
      }
      if c.Correct? {
        var id := c.request.id;
        assert u[id].kind.Episode?;
        assert IsKept(u, rest, id);
      }
    }
  }
}
