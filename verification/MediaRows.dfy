/**
 * The rows of one media service, as `media.manager.ts` reads and rewrites them, and the
 * few queries it asks of the repository.
 *
 * A row names its parent by identifier and nothing enforces that the parent exists, that
 * the chain ends, or that a parent is of a sensible kind: the index mirrors what a media
 * server wrote.
 */
module MediaRows {
  import opened Options

  type Id = nat

  datatype Kind = Series | Season | Episode

  /** The two numbers a correction can change and the service's snapshot remembers. */
  datatype Numbers = Numbers(season: Option<nat>, episode: Option<nat>)

  /**
   * `numbers` holds the effective values, corrections included. `reported` is the
   * service's own answer and is present exactly while a correction is in force.
   * `end` is set for a file of several episodes, and is the last of them.
   */
  datatype Row = Row(
    kind: Kind,
    parent: Option<Id>,
    numbers: Numbers,
    end: Option<nat>,
    title: int,
    synthetic: bool,
    childCount: nat,
    reported: Option<Numbers>)

  type Tree = map<Id, Row>

  function Children(t: Tree, p: Id): set<Id> {
    set c | c in t && t[c].parent == Some(p)
  }

  /** The rows of a series that are seasons carrying this number. */
  function SeasonsOf(t: Tree, series: Id, number: nat): set<Id> {
    set c | c in t && t[c].parent == Some(series) && t[c].kind.Season? && t[c].numbers.season == Some(number)
  }

  /** The series reached from a parent link, climbing at most one level. */
  function SeriesAbove(t: Tree, parent: Option<Id>): Option<Id> {
    if parent.None? || parent.value !in t then
      None
    else
      var up := t[parent.value];
      if up.kind.Series? then
        parent
      else if up.parent.Some? && up.parent.value in t && t[up.parent.value].kind.Series? then
        up.parent
      else
        None
  }

  function SeriesOf(t: Tree, id: Id): Option<Id>
    requires id in t
  {
    SeriesAbove(t, t[id].parent)
  }

  /** A missing number sorts before every number. */
  function Rank(number: Option<nat>): nat {
    match number
    case None => 0
    case Some(n) => n + 1
  }

  /**
   * The order `findChildren` answers in: season, episode, title. Rows equal on all three
   * come back in some order the engine chose; the identifier stands for it. A missing number
   * comes first, as SQLite has it; PostgreSQL puts it last, and nothing here turns on it.
   */
  predicate ListedBefore(t: Tree, a: Id, b: Id)
    requires a in t && b in t
  {
    var x, y := t[a].numbers, t[b].numbers;
    if x.season != y.season then Rank(x.season) < Rank(y.season)
    else if x.episode != y.episode then Rank(x.episode) < Rank(y.episode)
    else if t[a].title != t[b].title then t[a].title < t[b].title
    else a <= b
  }

  lemma SomeRowIsFirst(t: Tree, ids: set<Id>)
    requires ids != {} && ids <= t.Keys
    ensures exists r :: Heads(t, ids, r)
  {
    var y :| y in ids;
    var rest := ids - {y};
    if rest == {} {
      assert ids == {y};
      assert Heads(t, ids, y);
    } else {
      SomeRowIsFirst(t, rest);
      var r :| Heads(t, rest, r);
      HeadsOneMore(t, rest, r, y);
      assert rest + {y} == ids;
    }
  }

  predicate Heads(t: Tree, ids: set<Id>, r: Id)
    requires ids <= t.Keys
  {
    r in ids && forall x | x in ids :: ListedBefore(t, r, x)
  }

  lemma HeadsOneMore(t: Tree, ids: set<Id>, r: Id, y: Id)
    requires ids <= t.Keys && y in t && Heads(t, ids, r)
    ensures Heads(t, ids + {y}, if ListedBefore(t, r, y) then r else y)
  {
  }

  /** The row a listing of `ids` would put first. */
  function FirstListed(t: Tree, ids: set<Id>): (r: Id)
    requires ids != {} && ids <= t.Keys
    ensures r in ids && forall x | x in ids :: ListedBefore(t, r, x)
  {
    SomeRowIsFirst(t, ids);
    var r :| r in ids && Heads(t, ids, r);
    r
  }

  /** Rewriting columns the order does not read leaves the first row first. */
  lemma FirstListedDependsOnTheOrderOnly(t: Tree, u: Tree, ids: set<Id>)
    requires ids != {} && ids <= t.Keys && ids <= u.Keys
    requires forall x | x in ids :: u[x].numbers == t[x].numbers && u[x].title == t[x].title
    ensures FirstListed(u, ids) == FirstListed(t, ids)
  {
    var a, b := FirstListed(t, ids), FirstListed(u, ids);
    assert ListedBefore(t, a, b) && ListedBefore(u, b, a);
  }

  /** An episode holds files and never other rows. */
  ghost predicate EpisodesAreLeaves(t: Tree) {
    forall c | c in t && t[c].parent.Some? && t[c].parent.value in t :: !t[t[c].parent.value].kind.Episode?
  }

  /** An identifier nothing in the table is called or points at, as a new UUID is. */
  predicate Unused(t: Tree, minted: Id) {
    minted !in t && forall c | c in t :: t[c].parent != Some(minted)
  }

  ghost predicate CountExact(t: Tree, p: Id) {
    p in t ==> t[p].childCount == |Children(t, p)|
  }

  ghost predicate SeasonCountsExact(t: Tree) {
    forall p | p in t && t[p].kind.Season? :: CountExact(t, p)
  }

  /** No season the gateway invented stands with nothing under it. */
  ghost predicate NoEmptyInvented(t: Tree) {
    forall p | p in t && t[p].kind.Season? && t[p].synthetic :: Children(t, p) != {}
  }
}
