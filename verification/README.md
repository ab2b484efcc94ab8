# What a media sync gateway promises, proved

A gateway keeps an index of several media servers, its own and its friends'. This project
models the parts of it whose bookkeeping has to agree with something simpler to say, and
proves that it does.

- **The projection store** (`OrderedMaps`, `Projections`, `ProjectionRuns`, `MediaGroups`):
  which roots have something missing beneath them, kept per filter, catalogue version and
  threshold, filled by passes that overlap. The model is a transition system whose steps are
  the stretches between two awaits; `MediaGroups` is the code of each stretch.
- **The grouped view** (`MatchGraphs`, `Gaps`, `ChildGroups`, `GapCounters`, `FollowedScope`,
  `Precedence`): the union-find that groups copies, the two gap counters, the bounded climb,
  and whose value a merged field is.
- **The media tree** (`MediaRows`, `Refiling`, `Corrections`, `Undo`, `ServiceRefiling`,
  `BatchAndOneRow`, `Discovery`, `TreeRuns`, `MediaManager`): episodes filed under seasons that
  are invented and removed as needed, one at a time, in a batch, undone, discovered, and all of
  these in any order.
- **Categories** (`CategoryKeys`, `Categories`, `CategoryFolding`, `CategoryOrder`,
  `CategoryMerging`, `CategoryKeywords`, `LibraryManager`): libraries folded by name, alias and
  keyword, and two categories made one.
- **Introductions** (`Paths`, `PeerTables`, `Introductions`): depths recorded by any number of
  gateways, against distances in the graph of friends.
- **Landings** (`Landings`, `LandingManager`, `Asking`): files waiting to be indexed, and the
  bounded map of what was just asked.
- **The lab's indexer and tracker** (`Decimal`, `KeyOrder`, `Permutations`, `Sizes`, `Bencode`,
  `PieceHashing`, `Tracker`, `Swarms`, `Announcing`): bencode with the decoder written as its
  specification, piece hashes, swarms and the bytes answered.

Code that rewrites fields or rows is a class whose methods are proved to leave exactly the
state a function of the old state names; the properties of whole runs are lemmas about those
functions. Everything the code reads from outside is a parameter: clocks, new identifiers, the
order a query answers in, what a projection or a digest computes.

## What the code does that its comments do not say

- The batch form of refiling and the one-row form read the seasons of a series in different
  orders. They agree exactly when both read the same one first, which a series that carries a
  number twice can break (`BatchAndOneRow.BatchAgreesWithOneRow`).
- The two gap counters read different rows of a child, and the listing does not read copies
  filed outside its result. They agree exactly when the two rows they read say the same
  (`GapCounters.CountersAgreeIff`), which copies numbered differently and a copy filed elsewhere
  both break (`GapCounters.CopiesThatDisagree`, `GapCounters.ACopyFiledElsewhere`).
- The page keeps one flat set of held ranges for all the groups it draws, although the comment
  above it says it runs for one media. Two seasons on one page, of which one is held as a file of
  two episodes, hide a gap of the other (`GapCounters.TwoSeasonsOnAPage`,
  `GapCounters.NumbersAgreedIff`).
- Discovering episodes creates and removes rows under a season and recounts the series but not
  the season (`Discovery.SeasonCountGoesStale`), and looks under every child of the series,
  episodes included, which gives episodes children exactly when such a listing has aired
  (`Discovery.EpisodesStayLeavesIff`).
- A request that is still unanswered when its sender comes back with an introduction keeps the
  depth it was filed with, which is one (`Introductions.ARequestOvertaken`); redialling it does
  the same, and a redial that fails settles it too (`Introductions.ARequestDialled`).
- A row made for a dial is deleted when the dial fails, along with whatever was decided about it
  in between (`Introductions.AChoiceLostWithADial`).
- Merging a category into another can change the kind of the other
  (`CategoryMerging.KindAfterMerge`, `CategoryMerging.AKindLost`).
- The answer to a rescan request saves the landing as it was when the request was sent; one that
  comes after the landing was forgotten brings it back (`Landings.AnAnswerTooLate`).
- A pass that ends unregisters its key even when another pass is registered under it, and a pass
  that stores replaces what was stored since it started
  (`ProjectionRuns.OverlappingPassKeepsIff`). Neither makes an answer wrong; both cost a pass.
- A keyword can hang off a library that another keyword files elsewhere. Plugging a name into a
  category then files it where that library reads itself
  (`CategoryKeywords.AKeywordFilesIntoItsCategoryIff`, `AKeywordFiledElsewhere`), and merging the
  category takes along libraries of a third (`CategoryMerging.OthersStayIff`,
  `CategoryKeywords.AStray`).

## Hypotheses

- Projections: an answer depends on the scope, the states, the version it reports and the
  threshold, and on nothing else. Scopes and keys stand for their signatures, taken as distinct.
- Gap counters: one group of a page at a time, both queries reading one table. That every copy of
  its children is filed under it is a hypothesis of every equivalence but the first.
- Categories: libraries have distinct identifiers; distinct positions, and the absence of strays,
  are hypotheses of the rows that name them.
- Tree: corrections are made on episodes, episodes hold no rows, new identifiers are new. Runs
  with discoveries also take it that only episodes carry an episode number. A series' own child
  count is not claimed.
- Landings and the asked map: each step is one piece; the map's clock does not go back.
- Introductions: an edge between friends is never removed from the graph distances are
  measured in, since a depth that was true once is compared with it later.

## Model

| member | source | states |
|---|---|---|
| `ProjectionRuns.RunsAreSound` | packages/api/src/managers/media-group.manager.ts:768-974 | In every interleaving of requests, passes, warms, failures and replaced graphs: each set filed under a scope, a version and a threshold is what one projection of that scope at that version answers; each set a request was told is a projection of its own scope and states, at its graph's version or at one a pass read; whatever is registered under a key is a pass for that key nobody has been told is over |
| `ProjectionRuns.AnsweredForEveryGroup` | packages/api/src/managers/media-group.manager.ts:768-809 | A request whose own pass is over is told one set for each group of states it asked about unless the pass broke; one that joined a pass is told, or starts a pass of its own for exactly its groups; nobody waits for a third |
| `ProjectionRuns.ToldAtOnceIsCurrent` | packages/api/src/managers/media-group.manager.ts:779-786 | A request answered from the store is answered with the projection at the version and threshold of the graph in place, for every group |
| `ProjectionRuns.TabsShareOnePass` | packages/api/src/managers/media-group.manager.ts:796-833 | A request that finds no answer leaves a pass registered, and the next one for that scope, whatever it asks, starts nothing |
| `ProjectionRuns.RunsKeepTheMostRecent` | packages/api/src/managers/media-group.manager.ts:876-883 | In every run the two stores hold exactly the eight most recently stored distinct keys (and the scopes of them), in the order they were last stored |
| `ProjectionRuns.OverlappingPassKeepsIff` | packages/api/src/managers/media-group.manager.ts:862-883 | A set one of two overlapping passes filed is still filed after the other stores exactly when the other had copied it when it started or asked for it itself |
| `ProjectionRuns.TheFirstToEndUnregisters` | packages/api/src/managers/media-group.manager.ts:826-830 | The first of two overlapping passes to end unregisters the key while the other is still running, so a third caller joins nothing |
| `ProjectionRuns.PassesDoOverlap` | packages/api/src/managers/media-group.manager.ts:990-1003 | Such passes are reachable: a request and a warm of its scope, three steps from an empty store, the second answering nothing of what the first asked |
| `ProjectionRuns.RememberedNamesAll` | packages/api/src/managers/media-group.manager.ts:944-959 | After a store, the scope is last in line and its question names every group just asked and every one it named before |
| `ProjectionRuns.FinishedIsSound` | packages/api/src/managers/media-group.manager.ts:848-887 | When the projection answers, the pass holds a true set for every group it was asked about, whichever version the answer describes; the sets are filed when it is the version of the pass's graph, and both stores are untouched otherwise |
| `ProjectionRuns.ResumedIsSound` | packages/api/src/managers/media-group.manager.ts:796-809 | A request whose joined pass is over is done if that pass has every group it asked about; otherwise it awaits a pass of its own that asks for exactly the groups the store lacks |
| `MediaGroups.Manager.Project` | packages/api/src/managers/media-group.manager.ts:848-870 | The stretch before the await: a copy of what is stored, and only the groups missing from it to ask for |
| `MediaGroups.Manager.Build` | packages/api/src/managers/media-group.manager.ts:820-833 | The pass is registered under its key before it is awaited |
| `MediaGroups.Manager.RootsBeneath` | packages/api/src/managers/media-group.manager.ts:768-809 | Store, running pass or new pass, and no key at all without a graph |
| `MediaGroups.Manager.Remember` | packages/api/src/managers/media-group.manager.ts:944-959 | The loop widens the scope's question by what it did not name and moves it to the back |
| `MediaGroups.Manager.ForgetOldest` | packages/api/src/managers/media-group.manager.ts:962-974 | Both loops leave the last eight entries of their map, untouched and in order |
| `MediaGroups.Manager.Keep` | packages/api/src/managers/media-group.manager.ts:876-884 | Filing an answer: under its key at the back of the store, its question remembered, both maps trimmed to eight |
| `MediaGroups.Manager.Projected` | packages/api/src/managers/media-group.manager.ts:870-887 | The stretch after the await is the finishing step of the model, whatever version the answer describes |
| `MediaGroups.Manager.Finally` | packages/api/src/managers/media-group.manager.ts:826-828 | The key is unregistered whichever pass is registered under it |
| `MediaGroups.Manager.AfterJoining` | packages/api/src/managers/media-group.manager.ts:798-809 | The stretch after awaiting somebody else's pass is the resuming step |
| `MediaGroups.Manager.AfterBuilding` | packages/api/src/managers/media-group.manager.ts:807-809 | One's own pass answers every group asked |
| `MediaGroups.Manager.Recent` | packages/api/src/managers/media-group.manager.ts:991-993 | The scopes warmed are the last two of the store, the very last first |
| `MediaGroups.Manager.WarmOne` | packages/api/src/managers/media-group.manager.ts:995-1003 | A scope already filed at this version, or with nothing asked, is skipped |
| `OrderedMaps.PutKeepsRecency` | packages/api/src/managers/media-group.manager.ts:876-883 | A map deleted from, set and trimmed each time holds the most recent distinct keys of the log of sets |
| `GapCounters.CountersAgreeIff` | packages/api/src/managers/media-group.manager.ts:1585-1708 | For a group of any page: both counters report the same children if and only if, for every child, the row counted (the first the query answered under the group) is a gap by what the listing reads exactly when the row drawn (the first by rank) is by what the page reads |
| `GapCounters.CountersAgreeIffAlike` | packages/api/src/managers/media-group.manager.ts:1904-1953 | With every copy of a child under the group they do if and only if, for each child neither ignored nor held on any copy, the row counted is inside a range held under the group exactly when the row drawn is inside one held anywhere on the page |
| `GapCounters.NumbersAgreedIff` | packages/api/src/managers/media-group.manager.ts:1904-1908 | Where the copies of each child agree on its number, they do if and only if no such child has a number that only the range of another group on the page holds |
| `GapCounters.TwoSeasonsOnAPage` | packages/api/src/managers/media-group.manager.ts:1897-1908 | Two seasons on one page set them apart: a held file of two episodes of the one fills the gap of the other on the page, and not in the listing |
| `GapCounters.AgreeInEveryOrderIff` | packages/api/src/managers/media-group.manager.ts:1585-1708 | They do in every order of query and of ranking if and only if, for any two rows of such a child, the one is inside a range held under the group exactly when the other is inside one on the page |
| `GapCounters.CountersAgree` | packages/api/src/managers/media-group.manager.ts:1891-1957 | When they are, the map the page builds shows as not held exactly the children the listing counts as gaps |
| `GapCounters.AloneRangesAreOne` | packages/api/src/managers/media-group.manager.ts:1897-1908 | A group drawn alone, with every copy under it, has one set of ranges; numbers agreed on by all copies are then enough (`AgreeingNumbersSuffice`) |
| `GapCounters.ACopyFiledElsewhere` | packages/api/src/managers/media-group.manager.ts:1765-1771 | A copy held under another parent sets them apart with no disagreement at all: the page fetches it, the listing never reads it |
| `GapCounters.CopiesThatDisagree` | packages/api/src/managers/media-group.manager.ts:1698-1708 | So do two copies of one episode, one unnumbered, beside a two-episode file that is held: the listing counts no gap, the page draws one |
| `Gaps.GapCounts` | packages/api/src/managers/media-group.manager.ts:1585-1646 | The loop over every group's children counts, for each parent, the distinct children whose first row is no gap-filler: not ignored on any copy, held on none, inside no range held under that parent |
| `Gaps.RangesUnder` | packages/api/src/managers/media-group.manager.ts:1655-1683 | Per parent, the numbers inside a range of a file that is held, and no others |
| `Gaps.CountRow` | packages/api/src/managers/media-group.manager.ts:1606-1643 | A row changes the counts of its own parent, once per child, and no other |
| `ChildGroups.Children` | packages/api/src/managers/media-group.manager.ts:1754-1774 | Children filed by parent in the order answered, and every copy of each that has a row |
| `ChildGroups.EpisodesCovered` | packages/api/src/services/episode-coverage.ts:64-74 | The flat set is the union of the spans of the held files that hold several |
| `ChildGroups.ChildGroups` | packages/api/src/managers/media-group.manager.ts:1891-1957 | The nested loops draw the children of the ranked copies in order, each child once |
| `ChildGroups.DrawnAsARowSays` | packages/api/src/managers/media-group.manager.ts:1912-1953 | A child is drawn exactly when it is not ignored, and as one of its rows says |
| `EpisodeCoverage.Span` | packages/api/src/services/episode-coverage.ts:38-62 | The numbers a row covers: none without a number, its own, or the range when the last is past the first |
| `MatchGraphs.RootsAreComponents` | packages/api/src/services/grouping.ts:117-204 | Two items have one root exactly when a chain of the edges told so far joins them |
| `MatchGraphs.MatchGraph.Root` | packages/api/src/services/grouping.ts:154-162 | The climb up parent links ends, at the representative of the component |
| `MatchGraphs.MatchGraph.Union` | packages/api/src/services/grouping.ts:169-187 | Everything that stood for one end stands for the other, and the parent links still climb |
| `MatchGraphs.MatchGraph.Absorb` | packages/api/src/services/grouping.ts:134-146 | A page of edges is added to those told, and its conflicting ends remembered; the components follow from the edges alone, however the pages were cut |
| `MatchGraphs.MatchGraph.Index` | packages/api/src/services/grouping.ts:189-203 | Each component under its root, in order, each item once |
| `MatchGraphs.MatchGraph.Members` | packages/api/src/services/grouping.ts:165-167 | Exactly the items joined to this one, itself included, in order |
| `MatchGraphs.ValueIsTheComponents` | packages/api/src/services/grouping.ts:154-167 | What the gap counters read of the graph is a partition, the one its edges make |
| `FollowedScope.Climb` | packages/api/src/managers/media-group.manager.ts:1125-1146 | The climb reaches exactly the roots and the rows within four parent links of one, on any parent relation, so skipping met parents loses nothing |
| `FollowedScope.Follow` | packages/api/src/managers/media-group.manager.ts:1115-1151 | The rows followed outright, and those whose children are |
| `FollowedScope.NextFrontierIsEnough` | packages/api/src/managers/media-group.manager.ts:1128-1146 | Only rows met last can have a parent not met yet |
| `Precedence.MergedField` | packages/api/src/managers/media-group.manager.ts:2277-2319 | A merged field is null when every copy's is, and otherwise the value of the one copy nothing else with a value outranks: corrected on this field, then local, then priority, then identifier |
| `Precedence.MergedRangeEnd` | packages/api/src/managers/media-group.manager.ts:1820-1848 | The end of a range is read the same way among copies that are held, and off no other |
| `Precedence.ArrivalOrderIsForgotten` | packages/api/src/managers/media-group.manager.ts:2022-2033 | The ranking of the copies is the same whatever order they arrive in |
| `Precedence.PreferringIsPrecedence` | packages/api/src/managers/media-group.manager.ts:2277-2281 | The stable sort puts corrected copies first and keeps the ranking inside each half |
| `Precedence.ExternalIds` | packages/api/src/managers/media-group.manager.ts:2237-2249 | Each identifier is the highest-ranked copy's that has a non-empty one |
| `Corrections.RunsKeepTheTree` | packages/api/src/managers/media.manager.ts:726-737 | Over any run of corrections and withdrawals: no invented season is empty, season counts stay exact, no episode changes series, no series gains a second season of a number, and each row corrected hangs where its effective number says in its own series, as does each that did before |
| `TreeRuns.MixedRunsKeepTheTree` | packages/api/src/managers/media.manager.ts:726-1125 | Over any run of corrections, withdrawals, passes over the service and discoveries that ask for no episode with aired entries: no invented season is empty, no series gains a second season of a number, every episode that stays keeps its series and its place if that was right, only invented ones do not stay, each row corrected hangs where its number says, and every season's count that was exact is, unless a discovery looked under it |
| `TreeRuns.LeavesThroughoutIff` | packages/api/src/managers/media.manager.ts:807-831 | Over any run of them, episodes have no children the whole way through if and only if no discovery asks for an episode with aired entries |
| `Corrections.EndsOfAMoveAreExact` | packages/api/src/managers/media.manager.ts:1455-1478 | When a correction moves its row, both ends hold exact counts whatever they held before |
| `Corrections.RefilingFiles` | packages/api/src/managers/media.manager.ts:974-1014 | The one-row form leaves its episode under a season of its own series with its number, invented if need be |
| `Corrections.RefilingAddsNoSecondSeason` | packages/api/src/managers/media.manager.ts:1337-1360 | A season is invented only for a number the series has none of |
| `Undo.UndoRestores` | packages/api/src/managers/media.manager.ts:726-737 | Correcting an episode's season and withdrawing the correction gives the whole table back if and only if, before it, the episode hung where its number says, was not all that kept an invented season, and both ends' counts were exact, the other end no empty invented season |
| `Undo.MisfiledIsNotPutBack` | packages/api/src/managers/media.manager.ts:974-1014 | An episode that was not where its number says, or alone kept an invented season, does not come back: it ends under the first season of its number that its leaving left standing, or a new one, or the series when it has no number |
| `Refiling.MoveRows` | packages/api/src/managers/media.manager.ts:1005-1011 | A move rewrites one parent and the two ends' counts, and nothing else |
| `Refiling.MoveCounts` | packages/api/src/managers/media.manager.ts:1455-1478 | Settling counts what hangs there |
| `Refiling.MoveLeavesNoEmptyInvented` | packages/api/src/managers/media.manager.ts:1455-1478 | An invented row is removed by the move that empties it |
| `Refiling.PreparedSeasons` | packages/api/src/managers/media.manager.ts:1337-1436 | Inventing a season adds it to its series and number alone |
| `ServiceRefiling.PassOutcome` | packages/api/src/managers/media.manager.ts:1042-1125 | The whole pass: every misplaced row hung from the first season of its number, then every row at an end of a move settled, and nothing else |
| `ServiceRefiling.PassFiles` | packages/api/src/managers/media.manager.ts:1042-1125 | After the pass a numbered episode whose series has a season of that number hangs from the first of them; no other parent changed |
| `ServiceRefiling.PassKeepsSeries` | packages/api/src/managers/media.manager.ts:1042-1148 | No episode is lost or changes series |
| `ServiceRefiling.PassDeletesOnlyWhatItEmptied` | packages/api/src/managers/media.manager.ts:1114-1118 | Only invented seasons whose every child the pass moved away are deleted |
| `ServiceRefiling.PassKeepsCounts` | packages/api/src/managers/media.manager.ts:1455-1478 | Seasons at an end of a move hold exact counts, and each other count that was exact stays so |
| `ServiceRefiling.PassKeepsInventedHeld` | packages/api/src/managers/media.manager.ts:1455-1478 | The invented seasons that stand empty afterwards are exactly those that did before and that nothing came to |
| `ServiceRefiling.NothingLeftToMove` | packages/api/src/managers/media.manager.ts:1042-1125 | After a pass nothing is misplaced, even after its deletions |
| `ServiceRefiling.PassIsIdempotent` | packages/api/src/managers/media.manager.ts:1042-1125 | A second pass over what is left decides no move and changes nothing |
| `BatchAndOneRow.BatchAgreesWithOneRow` | packages/api/src/managers/media.manager.ts:974-1125 | With nothing to invent, the pass and one call per numbered episode, in any order, end in one table if and only if both read the same season as first for every number |
| `BatchAndOneRow.UniqueNumbersReadTheSame` | packages/api/src/managers/media.manager.ts:1042-1125 | They do when no series carries a number twice |
| `BatchAndOneRow.TwoCutsOfOneSeason` | packages/api/src/managers/media.manager.ts:1042-1125 | A service on which they do not |
| `Discovery.DiscoveryOutcome` | packages/api/src/managers/media.manager.ts:813-882 | Each season covers exactly what it covered plus every aired listed number; what is withdrawn is an invented single-episode row a reported row covers; what is created is invented under an identifier nothing used; and every row that stays is the same in every column |
| `Discovery.SeasonCoverage` | packages/api/src/managers/media.manager.ts:813-831 | One season's coverage before and after |
| `Discovery.DiscoveryIsIdempotent` | packages/api/src/managers/media.manager.ts:813-882 | A second run with the same listing creates and withdraws nothing |
| `Discovery.WithdrawingUncoversNothing` | packages/api/src/managers/media.manager.ts:862-882 | What is taken back was covered by what stays |
| `Discovery.ChildrenAfterDiscovery` | packages/api/src/managers/media.manager.ts:813-831 | Under the season hang exactly the rows that were not withdrawn and one for each aired, uncovered place of the listing |
| `Discovery.SeasonCountGoesStale` | packages/api/src/managers/media.manager.ts:813-839 | The season's child count, which nothing recounts, stays exact if and only if its listing has as many aired uncovered places as it has covered invented rows |
| `Discovery.AStaleCount` | packages/api/src/managers/media.manager.ts:813-839 | An empty season given its one aired episode still counts none |
| `Discovery.EpisodesStayLeavesIff` | packages/api/src/managers/media.manager.ts:807-831 | Discovery keeps every episode without children, which filing relies on, if and only if no listing asked for a row that is an episode has an aired entry |
| `Discovery.AnEpisodeTakenForASeason` | packages/api/src/managers/media.manager.ts:807-813 | On a service with no season level one has: an episode straight under its series is looked under like a season and given children |
| `MediaManager.Manager.Settle` | packages/api/src/managers/media.manager.ts:1455-1478 | Removed when invented and empty, recounted otherwise |
| `MediaManager.Manager.SeasonFor` | packages/api/src/managers/media.manager.ts:1337-1380 | The first season of the number, the series itself without a number, or a season invented for it |
| `MediaManager.Manager.Refile` | packages/api/src/managers/media.manager.ts:974-1014 | The one-row form, step by step, leaves the table its specification names, and answers whether it moved |
| `MediaManager.Manager.SetOverride` | packages/api/src/managers/media.manager.ts:726-737 | The correction is written, pruned against the reported snapshot, and the row refiled |
| `MediaManager.Manager.SeasonsBySeries` | packages/api/src/managers/media.manager.ts:1045-1065 | The first season of each number under each series, in the order the projection lists them |
| `MediaManager.Manager.DecideMoves` | packages/api/src/managers/media.manager.ts:1067-1087 | The rows to move, decided over one reading of the table |
| `MediaManager.Manager.WriteMoves` | packages/api/src/managers/media.manager.ts:1089-1099 | Every decided parent is written |
| `MediaManager.Manager.SettleAll` | packages/api/src/managers/media.manager.ts:1106-1118 | Every end is settled once, and no settling undoes another |
| `MediaManager.Manager.RefileService` | packages/api/src/managers/media.manager.ts:1042-1125 | The batch form leaves the table its specification names and answers how many it moved |
| `MediaManager.Manager.WithdrawCovered` | packages/api/src/managers/media.manager.ts:862-882 | The invented rows reported ones cover are removed, and counted |
| `MediaManager.Manager.DiscoverSeason` | packages/api/src/managers/media.manager.ts:813-831 | One season of the discovery: withdrawals, then creations for aired numbers nothing covers |
| `MediaManager.Manager.DiscoverSeasons` | packages/api/src/managers/media.manager.ts:810-831 | The seasons in turn, and how many rows came and went |
| `MediaManager.Manager.DiscoverEpisodes` | packages/api/src/managers/media.manager.ts:767-840 | The three refusals and their order, and the discovery otherwise |
| `CategoryKeys.KeyOfTrimmed` | packages/shared/src/models/library.model.ts:195-201 | The space around a name does not change its category |
| `CategoryKeys.KeyOfKey` | packages/shared/src/models/library.model.ts:195-201 | A key is its own key |
| `Categories.BandDescribes` | packages/api/src/managers/library.manager.ts:328-378 | A folded category lists its libraries in order, sums their items, takes the lowest position of them all, the name and kind of the lowest that nothing folded (or of the first read), every service once, and is local when one of them is |
| `CategoryFolding.ShownAre` | packages/api/src/managers/library.manager.ts:309-384 | The categories shown are, in order, exactly those the libraries under each key make, no key twice |
| `CategoryFolding.EachLibraryInOneCategory` | packages/api/src/managers/library.manager.ts:309-384 | A library is in exactly one category |
| `CategoryFolding.ItemsAreConserved` | packages/api/src/managers/library.manager.ts:309-384 | The item counts of the categories add up to those of the libraries |
| `CategoryOrder.ReadingOrderIsForgottenIff` | packages/api/src/managers/library.manager.ts:309-384 | With distinct positions, the order the rows are read in decides nothing (keys, names, kinds, positions, members, counts, order of the list) if and only if every category has a library that names it or only libraries filed alike |
| `CategoryOrder.UnfoldedAnchorsSettleNames` | packages/api/src/managers/library.manager.ts:989-1011 | It is so when no keyword hangs off a library another keyword folds |
| `CategoryMerging.KeyAfter` | packages/api/src/managers/library.manager.ts:535-582 | Where each library is after a merge: the source's in the destination, those filed through a renamed one too, and the rest where they were |
| `CategoryMerging.OthersStayIff` | packages/api/src/managers/library.manager.ts:535-582 | The libraries outside the source stay in their categories if and only if none outside both is filed by a keyword that hangs off the source |
| `CategoryMerging.UnfoldedAnchorsLeaveNoStrays` | packages/api/src/managers/library.manager.ts:989-1019 | None is when no keyword hangs off a folded library |
| `CategoryMerging.SourceIsGone` | packages/api/src/managers/library.manager.ts:535-582 | Nothing is left under the source, strays or none |
| `CategoryMerging.KindAfterMerge` | packages/api/src/managers/library.manager.ts:368-373 | With distinct positions, whatever strays in, the merged category keeps the kind of the destination if one of its own libraries names it and stands before all the source's, and otherwise takes the kind of the source's first library |
| `CategoryMerging.AKindLost` | packages/api/src/managers/library.manager.ts:535-582 | Two libraries and a merge after which the destination is of the other's kind |
| `LibraryManager.MergingTakesItsStrays` | packages/api/src/managers/library.manager.ts:535-582 | A merge that writes makes the source disappear and the destination exactly the two and the strays (libraries, services, items, lowest position, name; for the kind see `KindAfterMerge`); every other category is what its libraries make without their strays, and is gone if it has no others; the total is conserved |
| `LibraryManager.MergingJoinsExactlyTwo` | packages/api/src/managers/library.manager.ts:535-582 | With no strays, it joins the two and leaves every other category as it was |
| `LibraryManager.Manager.FiledByKeyword` | packages/api/src/managers/library.manager.ts:989-1011 | The last keyword for a name whose library is there, resolved through that library's own reading |
| `LibraryManager.Manager.Joining` | packages/api/src/managers/library.manager.ts:330-377 | A library begins its category or joins it, field by field |
| `LibraryManager.Manager.Categories` | packages/api/src/managers/library.manager.ts:309-384 | The fold over the rows, sorted by position and name |
| `LibraryManager.Manager.MergeCategoryInto` | packages/api/src/managers/library.manager.ts:535-582 | Nothing is written for a category or destination that cannot be read, for one and the same category, for an empty name or for a library that is not ours; otherwise every library of the source is renamed |
| `LibraryManager.Manager.RenameAll` | packages/api/src/managers/library.manager.ts:566-581 | The loop writes the name over the source's rows and no other, and counts them |
| `CategoryKeywords.AddKeyword` | packages/api/src/managers/library.manager.ts:439-462 | The four answers: invalid, no such category, the keyword it already has, taken by another; and one keyword more otherwise |
| `CategoryKeywords.AnchorIsPreferred` | packages/api/src/managers/library.manager.ts:1054-1071 | The library keywords hang off is ours before others', then lowest, then first by identifier |
| `CategoryKeywords.AKeywordFilesOnlyWhatItNames` | packages/api/src/managers/library.manager.ts:1014-1024 | A keyword changes how the unaliased libraries of its name read, and no other |
| `CategoryKeywords.AKeywordFilesIntoItsCategoryIff` | packages/api/src/managers/library.manager.ts:439-462 | What it names files into the category it was plugged into if and only if its anchor reads itself as that category; an unfolded anchor always does |
| `CategoryKeywords.AKeywordFiledElsewhere` | packages/api/src/managers/library.manager.ts:439-462 | Three libraries and one keyword with which it does not: the name plugged into one category is filed under another |
| `CategoryKeywords.AStray` | packages/api/src/managers/library.manager.ts:535-582 | The same libraries, that keyword kept: merging the category moves a library that was in neither of the two |
| `Introductions.RunsAreHonest` | packages/api/src/managers/peer.manager.ts:498-660 | Over any run of any number of gateways (requests made, answered, approved, invitations redeemed, links opened and lost, introductions answered over them, dials, removals, bans, changed settings) each recorded depth of a settled peer, and each token's, is at least the true distance in the graph of friends the whole way through, if and only if no step settles, without an answer, a request filed at one hop between gateways that were never friends |
| `Introductions.EveryNetworkIsHonestIff` | packages/api/src/managers/peer-exchange.manager.ts:311-373 | So in every network that began with nobody knowing anybody |
| `Introductions.ChoosingIsTrue` | packages/api/src/managers/peer.manager.ts:498-596 | Asking for a link, being asked, approving and redeeming an invitation keep every record true, a settled peer asked for again included |
| `Introductions.AskingAgainIsHarmless` | packages/api/src/managers/peer.manager.ts:531-543 | A settled peer asked for again waits at the depth it had, so an introduction that finds it waiting leaves a true record |
| `Introductions.NoTokenBeyondReach` | packages/api/src/managers/peer-exchange.manager.ts:315-373 | No token is signed for two gateways farther apart than the introducer's ceiling or either peer's own limit, the caller being any peer with an open link, its row waiting or not |
| `Introductions.NobodyAdmittedFromBeyond` | packages/api/src/managers/peer.manager.ts:1234-1250 | Nobody is admitted from farther than the holder's ceiling or the limit of the introducer's circle |
| `Introductions.MeetingIsTrueIff` | packages/api/src/managers/peer.manager.ts:1254-1279 | An admission, a dial or a lost link keeps every record true if and only if it overtakes no such request |
| `Introductions.ARequestDialled` | packages/api/src/managers/peer.manager.ts:1012-1046 | Redialling overtakes one whether or not the dial succeeds: a failed dial leaves the row unreachable, which counts as settled |
| `Introductions.ARequestOvertaken` | packages/api/src/managers/peer.manager.ts:1254-1279 | A run in which it does: a request filed at one hop, then answered through an introduction two hops long |
| `Introductions.AdmittedTrulyWhateverTheTokenSays` | packages/api/src/managers/peer.manager.ts:1231-1235 | A friend of the introducer is admitted at a true depth whatever the token states |
| `Introductions.SavedTrulyWhateverTheAnswerSays` | packages/api/src/managers/peer-introduction.manager.ts:172-186 | So is a friend of a friend kept by the caller, floored at two |
| `Introductions.AChosenPeerIsKept` | packages/api/src/managers/peer-introduction.manager.ts:106-132 | Over any run, a peer somebody chose or is keeping stays, and stays kept, if and only if no step removes it, bans it or fails the dial its row was made for; its depth is the one it had or a friend's |
| `Introductions.AFailedDialLeavesNoTrace` | packages/api/src/managers/peer-introduction.manager.ts:205-240 | A holder introduced and not reached leaves the network as it was, even where introduced peers are kept |
| `Introductions.AChoiceLostWithADial` | packages/api/src/managers/peer-introduction.manager.ts:233-240 | A request typed for that holder while its dial was under way is deleted with it |
| `PeerTables.IntroductionManager.Reach` | packages/api/src/managers/peer-introduction.manager.ts:78-134 | When asking yields a row and which row it is; and exactly when each refusal is given: unknown friend, no link, no capability or answer, banned |
| `PeerTables.IntroductionManager.Connect` | packages/api/src/managers/peer-introduction.manager.ts:205-246 | A link opened is recorded; a row made for a dial that failed goes with it |
| `PeerTables.IntroductionManager.Release` | packages/api/src/managers/peer-introduction.manager.ts:146-158 | A temporary peer is forgotten, a kept one left alone |
| `Landings.LifeOfALanding` | packages/api/src/managers/landing.manager.ts:251-394 | Over any run: an item has a landing exactly when its last one was neither indexed nor gone at any reconciliation since; its deadline is the one given then; it is stale exactly when a reconciliation came at or after that deadline, so only another landing sets it waiting again |
| `Landings.RunsAreSound` | packages/api/src/managers/landing.manager.ts:251-280 | At most one landing an item, and no identifier twice, in every run |
| `Landings.NoneIsOverdue` | packages/api/src/managers/landing.manager.ts:370-390 | After any reconciliation no waiting landing is past its deadline, and nothing but a waiting row's state changed |
| `Landings.ReconciledRowOf` | packages/api/src/managers/landing.manager.ts:344-368 | A reconciliation forgets a landing exactly when it is indexed or gone, and decides it by that row alone |
| `Landings.AnswersAreHarmlessIff` | packages/api/src/managers/landing.manager.ts:542-571 | Saving the media server's answer leaves every landing as it was if and only if the row is still as it was saved, or its item has another |
| `Landings.AnAnswerTooLate` | packages/api/src/managers/landing.manager.ts:551-562 | An answer that comes after the row was forgotten brings it back |
| `LandingManager.PaintedAt` | packages/api/src/managers/landing.manager.ts:767-789 | An item shows its landing's state, unless it is one of ours; no other item changes |
| `LandingManager.Manager.IndexedAs` | packages/api/src/managers/landing.manager.ts:663-700 | An item of one of our services is found exactly when there is one: by content, then path, then applied pair |
| `LandingManager.Manager.MatchedAs` | packages/api/src/managers/landing.manager.ts:714-739 | Applied pairs are read on both sides |
| `LandingManager.Manager.RecordFile` | packages/api/src/managers/landing.manager.ts:251-280 | The item's row is started again or a new one made |
| `LandingManager.Manager.Announced` | packages/api/src/managers/landing.manager.ts:542-571 | The row as it was saved is saved again with the answer, and the unique index refuses a second |
| `LandingManager.Manager.Settle` | packages/api/src/managers/landing.manager.ts:344-368 | The first loop deletes what is over and keeps the rest in order |
| `LandingManager.Manager.Age` | packages/api/src/managers/landing.manager.ts:370-390 | The second marks those past their deadline, and no other |
| `LandingManager.Manager.Reconcile` | packages/api/src/managers/landing.manager.ts:328-394 | The two loops are one pass over the table, and the screens show the result |
| `LandingManager.Manager.Paint` | packages/api/src/managers/landing.manager.ts:767-789 | Each landing's state on its item |
| `Asking.RunsKeep` | packages/api/src/managers/landing.manager.ts:471-504 | Over any run with a clock that does not go back: at most 500 entries, in order of asking, each the last grant of its row; a row forgotten early saw at least 500 distinct other rows granted since; two grants of a row inside a window have that many between them |
| `Asking.RefusalsAreRecent` | packages/api/src/managers/landing.manager.ts:471-504 | A refusal of a non-empty identifier means that row was granted less than a window ago |
| `Asking.AskedMap.WorthAsking` | packages/api/src/managers/landing.manager.ts:471-504 | One question: refused, or granted with the map pruned, trimmed and the row put at the back |
| `Bencode.RoundTrip` | docker/lab/fake-indexer/bencode.js:13-40 | Any value's bytes, whatever follows them, decode to the value with its keys in order and to exactly what follows (BEP 3, section "bencoding") |
| `Bencode.DecodesOnlyEncodings` | docker/lab/fake-indexer/bencode.js:13-40 | Bytes that decode are the encoding of what they decode to |
| `Bencode.SameBytesSameValue` | docker/lab/fake-indexer/bencode.js:13-40 | Two values have the same bytes exactly when they are the same but for the order keys were set in |
| `Bencode.NoProperPrefix` | docker/lab/fake-indexer/bencode.js:13-40 | No encoding is a proper prefix of another |
| `Bencode.InsertionOrderIsForgotten` | docker/lab/fake-indexer/bencode.js:33-39 | A dictionary's bytes do not depend on the order its keys were set in |
| `PieceHashing.HashPieces` | docker/lab/fake-indexer/make-torrents.js:96-122 | The nested loops end, and answer the digests of the fixed-size blocks of all the files in one, wherever the file boundaries fall |
| `PieceHashing.BlocksAreTheSlices` | docker/lab/fake-indexer/make-torrents.js:96-122 | As many blocks as it takes, block k at k piece lengths, all full but perhaps the last (BEP 3, section "metainfo files") |
| `PieceHashing.DigestAt` | docker/lab/fake-indexer/make-torrents.js:119-121 | Digest k of the answer is that of block k |
| `Tracker.ScrapeBodyIsEncoded` | docker/lab/fake-indexer/server.js:472-483 | The body assembled by hand is the encoding of the nested dictionary, for any hash and for none |
| `Tracker.ScrapeBodyDecodes` | docker/lab/fake-indexer/server.js:472-483 | It decodes to that dictionary |
| `Swarms.AnsweredFromWhoWasHeard` | docker/lab/fake-indexer/server.js:293-336 | The swarm an announce or a scrape is answered from is exactly the peers whose last word about the torrent was not a goodbye and was said within the timeout |
| `Announcing.ReplyDecodes` | docker/lab/fake-indexer/server.js:339-367 | Every announce answer decodes to the dictionary it stands for |
| `Announcing.CompleteAreTheSeeds` | docker/lab/fake-indexer/server.js:337-344 | The complete count is the number of peers with nothing left |
| `Announcing.PackedReadsBack` | docker/lab/fake-indexer/server.js:353-363 | The compact peer list is read back peer by peer |
| `Announcing.AnySpellingDecodes` | docker/lab/fake-indexer/server.js:118-134 | However a client spells each byte of the hash, it is read back as meant |
| `Announcing.DecodeBytes` | docker/lab/fake-indexer/server.js:118-134 | The loop with its moving index computes that reading of any text, a percent sign with no two digits after it included |
| `Announcing.Server.PeersFor` | docker/lab/fake-indexer/server.js:293-308 | The swarm without the peers not heard from for too long, kept so |
| `Announcing.Server.AnnounceReply` | docker/lab/fake-indexer/server.js:310-372 | The two refusals, and otherwise the swarm updated and everybody but the caller answered |
| `Announcing.Server.ScrapeReply` | docker/lab/fake-indexer/server.js:467-487 | The counts of the pruned swarm, as the encoding of the nested dictionary |

## Left out

- Projection contents: what a pass computes is a parameter, so the catalogue walk, its climb to the roots and the worker thread are not modelled.
- MediaGroups.Manager.Recent: which scopes a warm takes is modelled; that it awaits one pass before starting the next is not, the steps allowing any overlap.
- MediaGroups.Manager.Swap: how a graph is rebuilt page by page before it is swapped in is not modelled beyond the union-find itself.
- `title` and `normalizedTitle` taken from one copy, artwork, qualities, versions and paging of the grouped view: each reads off one body.
- Gaps.GapCounts: pauses between rows (`breathe`) are not modelled.
- Media tree: one service's series, seasons and episodes, with the columns filing reads; films, libraries, the other corrected fields and the pinned folder are left out. Rows equal on season, episode and title come in the order of their identifiers, and missing numbers first, as on SQLite.
- Discovery.DiscoveryOutcome: the metadata source, the air-date clock and the recorrelation afterwards are parameters or left out.
- Names of categories are ASCII, so accents are not folded; names compare by any ranking of them.
- `moveKeyword`, `removeKeyword`, `update` and the mount derivation of libraries: single rewrites.
- CategoryKeywords.AddKeyword: takes and answers the keyword list rather than rewriting a table, as the two statements it makes are one row.
- Introductions: token signing and its lifetime, invitation codes, links, relays and retries; a token is presented only as it was signed, and a redeemed invitation is one that was valid.
- PeerTables: the requests, approvals and redemptions of `peer.manager.ts` are functions of the table, as each is one read and one write of one row; the manager's other columns and its notifications are left out.
- PeerTables.IntroductionManager.Reach: the trust level, names and addresses of the row are not modelled.
- Landings: the hundred-row cap and the text search behind finding an item by file are not modelled; path translation is a parameter.
- LandingManager.Manager.RecordFile: the library, the transfer, the size and the notification of the row are not modelled.
- The rescan timers of landings and the metadata requests themselves.
- Announcing.Server.AnnounceReply: addresses are IPv4; the query string around the hash is not modelled.
- Bencode keys are byte strings in byte order, which is what ASCII keys are; numbers are mathematical integers.
- The Torznab feed, its matching and escaping, and the building of torrents around their piece hashes.
