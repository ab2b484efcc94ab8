/**
 * Landings: what the gateway knows of a file between the moment it is put in a folder and
 * the moment a media server has indexed it. The table as values, and what holds over any run
 * of landings, late answers and reconciliations.
 */
module Landings {
  import opened Options

  type Id = nat
  const GRACE: int := 12 * 60 * 60 * 1000

  datatype State = Waiting | Stale

  /** A file put in place and not yet indexed, and the item it was pulled for. */
  datatype Landed = Landed(item: Id, path: string, content: Option<string>)

  datatype Landing = Landing(id: Id, file: Landed, state: State, expiresAt: int, rescan: Option<string>)

  /** The rows, oldest first, and the item each identifier was given out for. */
  datatype Table = Table(rows: seq<Landing>, owners: seq<Id>)

  const NOTHING := Table([], [])

  // ------------------------------------------------- the world a reconciliation looks at

  datatype FileHint = FileHint(path: string, content: Option<string>)

  /** `localPath` is the path of the file on the gateway, if some library maps it. */
  datatype Item = Item(id: Id, service: Id, file: Option<FileHint>, localPath: Option<string>)

  datatype Pair = Pair(localItem: Option<Id>, remoteItem: Option<Id>, conflict: bool, confidence: real, confirmed: bool)

  datatype Probe = Found | NotFound | Failed

  /** `probes` is what looking for a file answered; a path not in it was found. */
  datatype World = World(
    items: seq<Item>,
    local: set<Id>,
    pairs: seq<Pair>,
    threshold: real,
    probes: map<string, Probe>)

  predicate Ours(w: World, file: Landed, it: Item) {
    it.service in w.local && it.id != file.item
  }

  predicate SameContent(w: World, file: Landed, it: Item) {
    && file.content.Some? && file.content.value != ""
    && Ours(w, file, it) && it.file.Some? && it.file.value.content == file.content
  }

  predicate SamePath(w: World, file: Landed, it: Item) {
    Ours(w, file, it) && it.localPath == Some(file.path)
  }

  predicate Applied(w: World, p: Pair) {
    !p.conflict && (p.confidence >= w.threshold || p.confirmed)
  }

  predicate Joins(p: Pair, a: Id, b: Id) {
    (p.localItem == Some(a) && p.remoteItem == Some(b)) || (p.localItem == Some(b) && p.remoteItem == Some(a))
  }

  predicate Paired(w: World, file: Landed, it: Item) {
    && Ours(w, file, it) && it.file.Some?
    && exists p | p in w.pairs :: Applied(w, p) && Joins(p, file.item, it.id)
  }

  predicate IsItem(w: World, file: Landed, it: Item) {
    SameContent(w, file, it) || SamePath(w, file, it) || Paired(w, file, it)
  }

  /** One of our own services holds an item for this file. */
  predicate Indexed(w: World, file: Landed) {
    exists it | it in w.items :: IsItem(w, file, it)
  }

  /** Only a file that is certainly not there is gone: a mount that blinked is not. */
  predicate Gone(w: World, path: string) {
    path in w.probes && w.probes[path].NotFound?
  }

  predicate Over(w: World, file: Landed) {
    Indexed(w, file) || Gone(w, file.path)
  }

  // ------------------------------------------------------------------ what a step makes

  function RowOf(rows: seq<Landing>, item: Id): (r: Option<Landing>)
    ensures r.Some? ==> r.value in rows && r.value.file.item == item
    ensures r.None? <==> forall l | l in rows :: l.file.item != item
  {
    if rows == [] then None
    else if rows[0].file.item == item then Some(rows[0])
    else RowOf(rows[1..], item)
  }

  /** Write a row over the one with its identifier, or after all the others. */
  function Written(rows: seq<Landing>, l: Landing): seq<Landing> {
    if rows == [] then [l]
    else if rows[0].id == l.id then [l] + rows[1..]
    else [rows[0]] + Written(rows[1..], l)
  }

  /** The row a landed file makes: the one its item already had, started again, or a new one. */
  function LandedRow(t: Table, file: Landed, now: int): Landing {
    var known := RowOf(t.rows, file.item);
    Landing(if known.Some? then known.value.id else |t.owners|, file, Waiting, now + GRACE, None)
  }

  function Recorded(t: Table, file: Landed, now: int): Table {
    Table(
      Written(t.rows, LandedRow(t, file, now)),
      if RowOf(t.rows, file.item).Some? then t.owners else t.owners + [file.item])
  }

  /**
   * The media server answered: the row as it was saved when the file landed is saved again
   * with the answer. A second row for the item is refused by the unique index.
   */
  function Answered(t: Table, held: Landing, answer: string): Table {
    if (exists l | l in t.rows :: l.id != held.id && l.file.item == held.file.item) then t
    else t.(rows := Written(t.rows, held.(rescan := Some(answer))))
  }

  function Aged(l: Landing, now: int): Landing {
    if l.state.Waiting? && l.expiresAt <= now then l.(state := Stale) else l
  }

  /** What survives a reconciliation, aged. */
  function Reconciled(rows: seq<Landing>, w: World, now: int): seq<Landing> {
    if rows == [] then []
    else (if Over(w, rows[0].file) then [] else [Aged(rows[0], now)]) + Reconciled(rows[1..], w, now)
  }

  datatype Event =
    | Land(file: Landed, now: int)
    | Answer(held: Landing, answer: string)
    | Reconcile(world: World, now: int)

  function Next(t: Table, e: Event): Table {
    match e
    case Land(file, now) => Recorded(t, file, now)
    case Answer(held, answer) => Answered(t, held, answer)
    case Reconcile(w, now) => t.(rows := Reconciled(t.rows, w, now))
  }

  function After(events: seq<Event>): Table {
    if events == [] then NOTHING else Next(After(events[..|events| - 1]), events[|events| - 1])
  }

  // --------------------------------------------------------------- what every step keeps

  ghost predicate OnePerItem(rows: seq<Landing>) {
    forall i, j | 0 <= i < j < |rows| :: rows[i].file.item != rows[j].file.item
  }

  ghost predicate DistinctIds(rows: seq<Landing>) {
    forall i, j | 0 <= i < j < |rows| :: rows[i].id != rows[j].id
  }

  /** The row's identifier was given out, for the row's item. */
  predicate Issued(t: Table, l: Landing) {
    l.id < |t.owners| && t.owners[l.id] == l.file.item
  }

  /** Identifiers are distinct and were given out; an item has one landing at most. */
  ghost predicate Sound(t: Table) {
    && (forall l | l in t.rows :: Issued(t, l))
    && DistinctIds(t.rows)
    && OnePerItem(t.rows)
  }

  lemma {:induction false} WrittenShape(rows: seq<Landing>, l: Landing)
    ensures
      var u := Written(rows, l);
      if exists i | 0 <= i < |rows| :: rows[i].id == l.id then
        |u| == |rows| && exists i | 0 <= i < |rows| :: rows[i].id == l.id && u == rows[i := l]
      else u == rows + [l]
  {
    if rows != [] && rows[0].id != l.id {
      WrittenShape(rows[1..], l);
      if i :| 0 <= i < |rows[1..]| && rows[1..][i].id == l.id && Written(rows[1..], l) == rows[1..][i := l] {
        assert rows[i + 1] == rows[1..][i];
        assert Written(rows, l) == rows[i + 1 := l];
      } else {
        assert forall i | 0 < i < |rows| :: rows[i] == rows[1..][i - 1];
        assert Written(rows, l) == rows + [l];
      }
    } else if rows != [] {
      assert Written(rows, l) == rows[0 := l];
    }
  }

  /** With one landing an item at most, the landing found for an item is any of them. */
  lemma {:induction false} TheRowOf(rows: seq<Landing>, l: Landing)
    requires OnePerItem(rows) && l in rows
    ensures RowOf(rows, l.file.item) == Some(l)
  {
    if rows[0] != l {
      var i :| 0 <= i < |rows| && rows[i] == l;
      assert rows[0].file.item != l.file.item;
      assert rows[1..][i - 1] == l;
      assert OnePerItem(rows[1..]) by {
        assert forall k | 0 <= k < |rows| - 1 :: rows[1..][k] == rows[k + 1];
      }
      TheRowOf(rows[1..], l);
    }
  }

  /** Writing a row for its own item changes what is known of that item and of no other. */
  lemma {:induction false} WrittenRowOf(rows: seq<Landing>, l: Landing, item: Id)
    requires forall m | m in rows :: m.id == l.id <==> m.file.item == l.file.item
    ensures RowOf(Written(rows, l), item) == if item == l.file.item then Some(l) else RowOf(rows, item)
  {
    if rows != [] && rows[0].id != l.id {
      WrittenRowOf(rows[1..], l, item);
      var u := Written(rows, l);
      assert u[0] == rows[0] && u[1..] == Written(rows[1..], l);
    } else if rows != [] {
      assert rows[0].file.item == l.file.item;
      assert Written(rows, l)[1..] == rows[1..];
    }
  }

  lemma WrittenSound(rows: seq<Landing>, l: Landing)
    requires DistinctIds(rows) && OnePerItem(rows)
    requires forall m | m in rows :: m.id == l.id <==> m.file.item == l.file.item
    ensures DistinctIds(Written(rows, l)) && OnePerItem(Written(rows, l))
    ensures forall m | m in Written(rows, l) :: m == l || m in rows
  {
    var u := Written(rows, l);
    WrittenShape(rows, l);
    if i :| 0 <= i < |rows| && rows[i].id == l.id && u == rows[i := l] {
      assert rows[i].file.item == l.file.item;
    } else {
      assert u == rows + [l];
    }
  }

  lemma {:induction false} ReconciledShape(rows: seq<Landing>, w: World, now: int)
    requires DistinctIds(rows) && OnePerItem(rows)
    ensures forall m | m in Reconciled(rows, w, now) :: exists l | l in rows :: !Over(w, l.file) && m == Aged(l, now)
    ensures DistinctIds(Reconciled(rows, w, now)) && OnePerItem(Reconciled(rows, w, now))
  {
    if rows != [] {
      assert forall k | 0 <= k < |rows| - 1 :: rows[1..][k] == rows[k + 1];
      ReconciledShape(rows[1..], w, now);
      var rest := Reconciled(rows[1..], w, now);
      forall m | m in rest
        ensures m.id != rows[0].id && m.file.item != rows[0].file.item
        ensures exists l | l in rows :: !Over(w, l.file) && m == Aged(l, now)
      {
        var l :| l in rows[1..] && !Over(w, l.file) && m == Aged(l, now);
      }
    }
  }

  /** What a reconciliation leaves of one item's landing depends on that landing alone. */
  lemma {:induction false} ReconciledRowOf(rows: seq<Landing>, w: World, now: int, item: Id)
    requires OnePerItem(rows)
    ensures
      var was := RowOf(rows, item);
      RowOf(Reconciled(rows, w, now), item) ==
        if was.Some? && !Over(w, was.value.file) then Some(Aged(was.value, now)) else None
  {
    if rows != [] {
      assert forall k | 0 <= k < |rows| - 1 :: rows[1..][k] == rows[k + 1];
      ReconciledRowOf(rows[1..], w, now, item);
      var rest := Reconciled(rows[1..], w, now);
      if rows[0].file.item == item {
        assert RowOf(rows[1..], item).None?;
        assert RowOf(rest, item).None?;
      }
      if Over(w, rows[0].file) {
        assert Reconciled(rows, w, now) == rest;
      } else {
        RowOfMore(Aged(rows[0], now), rest, item);
      }
    }
  }

  lemma RowOfMore(first: Landing, rest: seq<Landing>, item: Id)
    ensures RowOf([first] + rest, item) == if first.file.item == item then Some(first) else RowOf(rest, item)
  {
    assert ([first] + rest)[1..] == rest;
  }

  /** There is never more than one landing an item, and no identifier is used twice. */
  lemma StepsAreSound(t: Table, e: Event)
    requires Sound(t) && (e.Answer? ==> Issued(t, e.held))
    ensures Sound(Next(t, e)) && t.owners <= Next(t, e).owners
  {
    match e
    case Land(file, now) =>
      WrittenSound(t.rows, LandedRow(t, file, now));
    case Answer(held, answer) =>
      if !(exists l | l in t.rows :: l.id != held.id && l.file.item == held.file.item) {
        WrittenSound(t.rows, held.(rescan := Some(answer)));
      }
    case Reconcile(w, now) =>
      ReconciledShape(t.rows, w, now);
  }

  /** After a reconciliation no waiting landing is past its deadline, and every row is one that was there. */
  lemma {:induction false} NoneIsOverdue(rows: seq<Landing>, w: World, now: int)
    ensures forall m | m in Reconciled(rows, w, now) :: m.state.Waiting? ==> m.expiresAt > now
    ensures forall m | m in Reconciled(rows, w, now) ::
              exists l | l in rows :: l.(state := m.state) == m && (l.state != m.state ==> l.state.Waiting?)
  {
    if rows != [] {
      NoneIsOverdue(rows[1..], w, now);
      forall m | m in Reconciled(rows, w, now)
        ensures m.state.Waiting? ==> m.expiresAt > now
        ensures exists l | l in rows :: l.(state := m.state) == m && (l.state != m.state ==> l.state.Waiting?)
      {
        if m in Reconciled(rows[1..], w, now) {
          var l :| l in rows[1..] && l.(state := m.state) == m && (l.state != m.state ==> l.state.Waiting?);
        } else {
          assert rows[0].(state := m.state) == m;
        }
      }
    }
  }

  // ------------------------------------------------------------------------ late answers

  /** The row is still there as it was saved. */
  predicate InTime(t: Table, held: Landing) {
    exists l | l in t.rows :: l.(rescan := held.rescan) == held
  }

  /** Another row has taken its item since. */
  predicate Superseded(t: Table, held: Landing) {
    exists l | l in t.rows :: l.id != held.id && l.file.item == held.file.item
  }

  /** A landing without what was asked of the server about it. */
  function Known(l: Option<Landing>): Option<Landing> {
    if l.Some? then Some(l.value.(rescan := None)) else None
  }

  ghost predicate SameLandings(t: Table, u: Table) {
    forall item :: Known(RowOf(t.rows, item)) == Known(RowOf(u.rows, item))
  }

  /**
   * Saving the answer leaves every landing as it was exactly when the row has not been
   * touched since it was saved, or its item has another one.
   */
  lemma AnswersAreHarmlessIff(t: Table, held: Landing, answer: string)
    requires Sound(t) && Issued(t, held)
    ensures SameLandings(t, Answered(t, held, answer)) <==> InTime(t, held) || Superseded(t, held)
  {
    if !Superseded(t, held) {
      var l := held.(rescan := Some(answer));
      forall item
        ensures RowOf(Answered(t, held, answer).rows, item) ==
                if item == held.file.item then Some(l) else RowOf(t.rows, item)
      {
        WrittenRowOf(t.rows, l, item);
      }
      var was := RowOf(t.rows, held.file.item);
      if InTime(t, held) {
        var m :| m in t.rows && m.(rescan := held.rescan) == held;
        assert was.value == m;
      } else if was.Some? {
        assert was.value.(rescan := held.rescan) != held;
        assert Known(Some(l)) != Known(was);
      }
    }
  }

  // ------------------------------------------------------------------------------- runs

  /** The row is what some landing of the run saved. */
  ghost predicate SavedIn(events: seq<Event>, held: Landing) {
    events != [] &&
    var before, last := events[..|events| - 1], events[|events| - 1];
    SavedIn(before, held) || (last.Land? && held == LandedRow(After(before), last.file, last.now))
  }

  /** Answers are to rows that were saved. */
  ghost predicate Possible(events: seq<Event>) {
    events == [] ||
    var before, last := events[..|events| - 1], events[|events| - 1];
    Possible(before) && (last.Answer? ==> SavedIn(before, last.held))
  }

  /** No answer comes back to a row that was changed or forgotten meanwhile. */
  ghost predicate AnsweredInTime(events: seq<Event>) {
    events == [] ||
    var before, last := events[..|events| - 1], events[|events| - 1];
    && AnsweredInTime(before)
    && (last.Answer? ==> InTime(After(before), last.held) || Superseded(After(before), last.held))
  }

  lemma {:induction false} RunsAreSound(events: seq<Event>)
    requires Possible(events)
    ensures Sound(After(events))
    ensures forall held | SavedIn(events, held) :: Issued(After(events), held)
  {
    if events != [] {
      var before, last := events[..|events| - 1], events[|events| - 1];
      RunsAreSound(before);
      StepsAreSound(After(before), last);
      forall held | SavedIn(events, held)
        ensures Issued(After(events), held)
      {
        if !SavedIn(before, held) {
          LandedRowIsIssued(After(before), last.file, last.now);
        }
      }
    }
  }

  lemma LandedRowIsIssued(t: Table, file: Landed, now: int)
    requires Sound(t)
    ensures Issued(Recorded(t, file, now), LandedRow(t, file, now))
  {
  }

  /** The last landing of an item in a run, by its place in it. */
  function Latest(events: seq<Event>, item: Id): (r: Option<nat>)
    ensures r.Some? ==> r.value < |events| && events[r.value].Land? && events[r.value].file.item == item
    ensures r.Some? ==> forall j | r.value < j < |events| && events[j].Land? :: events[j].file.item != item
    ensures r.None? ==> forall j | 0 <= j < |events| && events[j].Land? :: events[j].file.item != item
  {
    if events == [] then None
    else
      var m := |events| - 1;
      if events[m].Land? && events[m].file.item == item then Some(m) else Latest(events[..m], item)
  }

  predicate Ends(e: Event, file: Landed) {
    e.Reconcile? && Over(e.world, file)
  }

  predicate Expires(e: Event, deadline: int) {
    e.Reconcile? && deadline <= e.now
  }

  /** What became of the landing made at `i` by the end of the run. */
  ghost predicate LivedAs(events: seq<Event>, i: nat, row: Option<Landing>)
    requires i < |events| && events[i].Land?
  {
    && (row.Some? <==> forall j | i < j < |events| :: !Ends(events[j], events[i].file))
    && (row.Some? ==>
          && row.value.file == events[i].file
          && row.value.expiresAt == events[i].now + GRACE
          && (row.value.state.Stale? <==> exists j | i < j < |events| :: Expires(events[j], row.value.expiresAt)))
  }

  /**
   * The whole life of a landing, over any run. An item has one exactly when its last landing
   * was neither indexed nor gone at any reconciliation since; its deadline is the one it was
   * given when it landed; and it is stale exactly when a reconciliation came after that
   * deadline, so only another landing of the item sets it waiting again.
   */
  lemma {:induction false} LifeOfALanding(events: seq<Event>, item: Id)
    requires Possible(events) && AnsweredInTime(events)
    ensures
      var row, latest := RowOf(After(events).rows, item), Latest(events, item);
      if latest.None? then row.None? else LivedAs(events, latest.value, row)
  {
    if events != [] {
      var m := |events| - 1;
      var before, last := events[..m], events[m];
      var t := After(before);
      LifeOfALanding(before, item);
      RunsAreSound(before);
      if last.Answer? {
        assert Issued(t, last.held);
      }
      StepOnItem(t, last, item);
      LivedOn(events, item, RowOf(t.rows, item), RowOf(After(events).rows, item));
    }
  }

  /** What a step makes of what is known of one item. */
  predicate Follows(e: Event, item: Id, was: Option<Landing>, row: Option<Landing>) {
    match e
    case Land(file, now) =>
      if file.item == item then
        row.Some? && row.value.file == file && row.value.state.Waiting? && row.value.expiresAt == now + GRACE
      else row == was
    case Answer(_, _) => Known(row) == Known(was)
    case Reconcile(w, now) =>
      row == if was.Some? && !Over(w, was.value.file) then Some(Aged(was.value, now)) else None
  }

  lemma StepOnItem(t: Table, e: Event, item: Id)
    requires Sound(t)
    requires e.Answer? ==> Issued(t, e.held) && (InTime(t, e.held) || Superseded(t, e.held))
    ensures Follows(e, item, RowOf(t.rows, item), RowOf(Next(t, e).rows, item))
  {
    match e
    case Land(file, now) => WrittenRowOf(t.rows, LandedRow(t, file, now), item);
    case Answer(held, answer) => AnswersAreHarmlessIff(t, held, answer);
    case Reconcile(w, now) => ReconciledRowOf(t.rows, w, now, item);
  }

  /** One more step of a life. */
  lemma LivedOn(events: seq<Event>, item: Id, was: Option<Landing>, row: Option<Landing>)
    requires events != [] && Follows(events[|events| - 1], item, was, row)
    requires var before := events[..|events| - 1];
             var latest := Latest(before, item);
             if latest.None? then was.None? else LivedAs(before, latest.value, was)
    ensures
      var latest := Latest(events, item);
      if latest.None? then row.None? else LivedAs(events, latest.value, row)
  {
    var m := |events| - 1;
    var before, last := events[..m], events[m];
    var latest := Latest(before, item);
    if latest.Some? && Latest(events, item) == latest {
      var i := latest.value;
      assert forall j | i < j < m :: before[j] == events[j];
      assert (forall j | i < j < |events| :: !Ends(events[j], events[i].file)) <==>
             (forall j | i < j < m :: !Ends(before[j], before[i].file)) && !Ends(last, events[i].file);
      if row.Some? {
        var deadline := row.value.expiresAt;
        assert (exists j | i < j < |events| :: Expires(events[j], deadline)) <==>
               (exists j | i < j < m :: Expires(before[j], deadline)) || Expires(last, deadline);
      }
    }
  }

  /**
   * The answer comes back to a row already forgotten: its file was indexed, and the landing
   * is there again.
   */
  lemma AnAnswerTooLate(file: Landed, it: Item, answer: string)
    requires it.id != file.item && it.localPath == Some(file.path)
    ensures
      var t := Recorded(NOTHING, file, 0);
      var held := LandedRow(NOTHING, file, 0);
      var w := World([it], {it.service}, [], 0.9, map[]);
      && Indexed(w, file)
      && RowOf(Reconciled(t.rows, w, 1), file.item).None?
      && RowOf(Answered(t.(rows := Reconciled(t.rows, w, 1)), held, answer).rows, file.item).Some?
  {
    var w := World([it], {it.service}, [], 0.9, map[]);
    assert IsItem(w, file, it) && it in w.items;
  }
}
