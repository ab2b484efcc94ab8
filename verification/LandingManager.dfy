/**
 * The landing manager, step by step: the table and what the screens show of it are fields
 * its methods rewrite (`landing.manager.ts`). Each method is tied to the functions of
 * `Landings`, where the properties of whole runs are proved.
 */
module LandingManager {
  import opened Options
  import opened Landings

  /** Of the states an item can show, the two a landing gives it; the rest are not told apart. */
  datatype SyncState = AwaitingIndex | NotIndexed | Another(code: nat)

  function Shown(state: State): SyncState {
    match state
    case Stale => NotIndexed
    case Waiting => AwaitingIndex
  }

  function ServiceOf(items: seq<Item>, id: Id): Option<Id> {
    if items == [] then None else if items[0].id == id then Some(items[0].service) else ServiceOf(items[1..], id)
  }

  /** The item is in the index, and its service is not one of ours. */
  predicate Elsewhere(w: World, id: Id) {
    var service := ServiceOf(w.items, id);
    service.Some? && service.value !in w.local
  }

  function Painted(shown: map<Id, SyncState>, w: World, rows: seq<Landing>): map<Id, SyncState> {
    if rows == [] then shown
    else
      var before, l := Painted(shown, w, rows[..|rows| - 1]), rows[|rows| - 1];
      if Elsewhere(w, l.file.item) then before[l.file.item := Shown(l.state)] else before
  }

  function StateAt(shown: map<Id, SyncState>, id: Id): Option<SyncState> {
    if id in shown then Some(shown[id]) else None
  }

  /** An item shows the state of its landing, wherever in the list that is, and only if it is not one of ours. */
  lemma {:induction false} PaintedAt(shown: map<Id, SyncState>, w: World, rows: seq<Landing>, id: Id)
    requires OnePerItem(rows)
    ensures
      var l := RowOf(rows, id);
      StateAt(Painted(shown, w, rows), id) ==
        if l.Some? && Elsewhere(w, id) then Some(Shown(l.value.state)) else StateAt(shown, id)
  {
    if rows != [] {
      var before, last := rows[..|rows| - 1], rows[|rows| - 1];
      PaintedAt(shown, w, before, id);
      assert forall l | l in rows :: l in before || l == last;
      if last.file.item == id {
        TheRowOf(rows, last);
      } else if RowOf(before, id).Some? {
        TheRowOf(rows, RowOf(before, id).value);
      }
    }
  }

  function Survivors(rows: seq<Landing>, w: World): seq<Landing> {
    if rows == [] then []
    else Survivors(rows[..|rows| - 1], w) + if Over(w, rows[|rows| - 1].file) then [] else [rows[|rows| - 1]]
  }

  function AgedAll(rows: seq<Landing>, now: int): (r: seq<Landing>)
    ensures |r| == |rows|
  {
    seq(|rows|, i requires 0 <= i < |rows| => Aged(rows[i], now))
  }

  function Removed(rows: seq<Landing>, id: Id): seq<Landing> {
    if rows == [] then []
    else (if rows[0].id == id then [] else [rows[0]]) + Removed(rows[1..], id)
  }

  lemma {:induction false} ReconciledMore(rows: seq<Landing>, last: Landing, w: World, now: int)
    ensures Reconciled(rows + [last], w, now) ==
            Reconciled(rows, w, now) + if Over(w, last.file) then [] else [Aged(last, now)]
  {
    if rows != [] {
      assert (rows + [last])[1..] == rows[1..] + [last];
      ReconciledMore(rows[1..], last, w, now);
    } else {
      assert [last][1..] == [];
    }
  }

  /** The two loops, first what survives and then what ages, are one pass. */
  lemma {:induction false} AgedSurvivors(rows: seq<Landing>, w: World, now: int)
    ensures AgedAll(Survivors(rows, w), now) == Reconciled(rows, w, now)
  {
    if rows != [] {
      var before, last := rows[..|rows| - 1], rows[|rows| - 1];
      AgedSurvivors(before, w, now);
      ReconciledMore(before, last, w, now);
      assert before + [last] == rows;
      if !Over(w, last.file) {
        assert Survivors(rows, w) == Survivors(before, w) + [last];
        assert AgedAll(Survivors(rows, w), now) == AgedAll(Survivors(before, w), now) + [Aged(last, now)];
      }
    }
  }

  lemma {:induction false} RemovedAt(rows: seq<Landing>, i: nat)
    requires DistinctIds(rows) && i < |rows|
    ensures Removed(rows, rows[i].id) == rows[..i] + rows[i + 1..]
  {
    assert DistinctIds(rows[1..]) by {
      assert forall k | 0 <= k < |rows| - 1 :: rows[1..][k] == rows[k + 1];
    }
    if i == 0 {
      NothingRemoved(rows[1..], rows[0].id);
    } else {
      assert rows[1..][i - 1] == rows[i];
      RemovedAt(rows[1..], i - 1);
      assert rows[1..][..i - 1] == rows[1..i];
      assert [rows[0]] + rows[1..i] == rows[..i];
    }
  }

  lemma OneMoreSurvivor(open: seq<Landing>, i: nat, w: World)
    requires i < |open|
    ensures Survivors(open[..i + 1], w) == Survivors(open[..i], w) + if Over(w, open[i].file) then [] else [open[i]]
  {
    assert open[..i + 1][..i] == open[..i];
  }

  lemma Keeping(surviving: seq<Landing>, open: seq<Landing>, i: nat)
    requires i < |open|
    ensures surviving + open[i..] == surviving + [open[i]] + open[i + 1..]
  {
  }

  lemma Forgetting(surviving: seq<Landing>, open: seq<Landing>, i: nat)
    requires i < |open| && DistinctIds(surviving + open[i..])
    ensures Removed(surviving + open[i..], open[i].id) == surviving + open[i + 1..]
    ensures DistinctIds(surviving + open[i + 1..])
  {
    var rows, k := surviving + open[i..], |surviving|;
    assert rows[k] == open[i];
    RemovedAt(rows, k);
    assert rows[..k] == surviving && rows[k + 1..] == open[i + 1..];
    var left := surviving + open[i + 1..];
    assert forall j | 0 <= j < |left| :: left[j] == if j < k then rows[j] else rows[j + 1];
  }

  lemma {:induction false} NothingRemoved(rows: seq<Landing>, id: Id)
    requires forall l | l in rows :: l.id != id
    ensures Removed(rows, id) == rows
  {
    if rows != [] {
      NothingRemoved(rows[1..], id);
    }
  }

  lemma WrittenAt(rows: seq<Landing>, i: nat, l: Landing)
    requires DistinctIds(rows) && i < |rows| && rows[i].id == l.id
    ensures Written(rows, l) == rows[i := l]
  {
    WrittenShape(rows, l);
  }

  lemma {:induction false} SurvivorsIn(rows: seq<Landing>, w: World)
    requires DistinctIds(rows)
    ensures DistinctIds(Survivors(rows, w))
    ensures forall l | l in Survivors(rows, w) :: l in rows
  {
    if rows != [] {
      var before, last := rows[..|rows| - 1], rows[|rows| - 1];
      SurvivorsIn(before, w);
      assert forall l | l in before :: l.id != last.id;
    }
  }

  class Manager {
    var table: Table
    var shown: map<Id, SyncState>

    ghost predicate Valid()
      reads this
    {
      Sound(table)
    }

    constructor ()
      ensures table == NOTHING && shown == map[] && Valid()
    {
      table, shown := NOTHING, map[];
    }

    /**
     * Some item of ours that is this file: one of its content if there is any, else one at its path,
     * else one paired with it.
     */
    method IndexedAs(w: World, file: Landed) returns (found: Option<Item>)
      ensures found.Some? <==> Indexed(w, file)
      ensures found.Some? ==> found.value in w.items && IsItem(w, file, found.value)
      ensures (exists it | it in w.items :: SameContent(w, file, it)) ==> SameContent(w, file, found.value)
      ensures (exists it | it in w.items :: SamePath(w, file, it)) ==>
                SameContent(w, file, found.value) || SamePath(w, file, found.value)
    {
      if file.content.Some? && file.content.value != "" {
        for i := 0 to |w.items|
          invariant forall j | 0 <= j < i :: !SameContent(w, file, w.items[j])
        {
          var it := w.items[i];
          if it.service in w.local && it.id != file.item && it.file.Some? && it.file.value.content == file.content {
            assert IsItem(w, file, it);
            return Some(it);
          }
        }
      }
      for i := 0 to |w.items|
        invariant forall j | 0 <= j < i :: !SamePath(w, file, w.items[j])
      {
        var it := w.items[i];
        if it.service in w.local && it.id != file.item && it.localPath == Some(file.path) {
          assert IsItem(w, file, it);
          return Some(it);
        }
      }
      found := MatchedAs(w, file);
    }

    /** The other end of an applied pair that names the item pulled, whichever end that item is. */
    method MatchedAs(w: World, file: Landed) returns (found: Option<Item>)
      ensures found.Some? ==> found.value in w.items && Paired(w, file, found.value)
      ensures found.None? ==> forall it | it in w.items :: !Paired(w, file, it)
    {
      var ids: set<Id> := {};
      for i := 0 to |w.pairs|
        invariant forall id :: id in ids <==>
          id != file.item && exists j | 0 <= j < i :: Applied(w, w.pairs[j]) && Joins(w.pairs[j], file.item, id)
      {
        var p := w.pairs[i];
        if !p.conflict && (p.confidence >= w.threshold || p.confirmed) {
          if p.remoteItem == Some(file.item) && p.localItem.Some? && p.localItem.value != file.item {
            ids := ids + {p.localItem.value};
          }
          if p.localItem == Some(file.item) && p.remoteItem.Some? && p.remoteItem.value != file.item {
            ids := ids + {p.remoteItem.value};
          }
        }
      }
      for i := 0 to |w.items|
        invariant forall j | 0 <= j < i :: !Paired(w, file, w.items[j])
      {
        var it := w.items[i];
        if it.id in ids && it.service in w.local && it.file.Some? {
          return Some(it);
        }
      }
      return None;
    }

    /** Put the landings' states onto the items every screen is looking at. */
    method Paint(w: World, rows: seq<Landing>)
      modifies this`shown
      ensures shown == Painted(old(shown), w, rows)
    {
      for i := 0 to |rows|
        invariant shown == Painted(old(shown), w, rows[..i])
      {
        assert rows[..i + 1][..i] == rows[..i];
        var id, state := rows[i].file.item, Shown(rows[i].state);
        var service := ServiceOf(w.items, id);
        if service.Some? && service.value !in w.local && (id !in shown || shown[id] != state) {
          shown := shown[id := state];
        }
      }
      assert rows[..|rows|] == rows;
    }

    /** A file was put somewhere. Answers the row as it was saved. */
    method RecordFile(w: World, file: Landed, now: int) returns (held: Landing)
      requires Valid()
      modifies this
      ensures Valid() && table == Recorded(old(table), file, now)
      ensures held == LandedRow(old(table), file, now)
      ensures shown == Painted(old(shown), w, [held])
    {
      var existing := RowOf(table.rows, file.item);
      if existing.Some? {
        held := existing.value.(file := file, state := Waiting, expiresAt := now + GRACE, rescan := None);
      } else {
        held := Landing(|table.owners|, file, Waiting, now + GRACE, None);
      }
      StepsAreSound(table, Land(file, now));
      table := Table(
        Written(table.rows, held), if existing.Some? then table.owners else table.owners + [file.item]);
      Paint(w, [held]);
    }

    /** The media server answered the request to look; the row it was asked about is saved with the answer. */
    method Announced(held: Landing, answer: string)
      requires Valid() && Issued(table, held)
      modifies this`table
      ensures Valid() && table == Answered(old(table), held, answer)
    {
      StepsAreSound(table, Answer(held, answer));
      var i := 0;
      while i < |table.rows|
        invariant i <= |table.rows|
        invariant forall j | 0 <= j < i :: !(table.rows[j].id != held.id && table.rows[j].file.item == held.file.item)
        decreases |table.rows| - i
      {
        if table.rows[i].id != held.id && table.rows[i].file.item == held.file.item {
          return;
        }
        i := i + 1;
      }
      table := table.(rows := Written(table.rows, held.(rescan := Some(answer))));
    }

    /** The landing is over: indexed, or gone. The index is asked first. */
    method IsOver(w: World, file: Landed) returns (over: bool)
      ensures over == Over(w, file)
    {
      var indexed := IndexedAs(w, file);
      if indexed.Some? {
        return true;
      }
      return file.path in w.probes && w.probes[file.path].NotFound?;
    }

    /** Forget every landing that is indexed, or gone from the disk; answer the others. */
    method Settle(w: World) returns (surviving: seq<Landing>)
      requires Valid()
      modifies this`table
      ensures surviving == Survivors(old(table).rows, w)
      ensures table == old(table).(rows := surviving)
    {
      var open := table.rows;
      surviving := [];
      for i := 0 to |open|
        invariant surviving == Survivors(open[..i], w)
        invariant table.owners == old(table).owners && table.rows == surviving + open[i..]
        invariant DistinctIds(table.rows)
      {
        var landing := open[i];
        OneMoreSurvivor(open, i, w);
        var over := IsOver(w, landing.file);
        if over {
          Forgetting(surviving, open, i);
          table := table.(rows := Removed(table.rows, landing.id));
        } else {
          Keeping(surviving, open, i);
          surviving := surviving + [landing];
        }
      }
      assert open[..|open|] == open;
    }

    /** Say of every landing whose patience has run out that it has. */
    method Age(surviving: seq<Landing>, now: int) returns (aged: seq<Landing>)
      requires DistinctIds(surviving) && table.rows == surviving
      modifies this`table
      ensures aged == AgedAll(surviving, now)
      ensures table == old(table).(rows := aged)
    {
      aged := surviving;
      for i := 0 to |surviving|
        invariant |aged| == |surviving|
        invariant forall j | 0 <= j < i :: aged[j] == Aged(surviving[j], now)
        invariant forall j | i <= j < |surviving| :: aged[j] == surviving[j]
        invariant table == old(table).(rows := aged)
      {
        if !aged[i].state.Waiting? || aged[i].expiresAt > now {
          continue;
        }
        aged := aged[i := aged[i].(state := Stale)];
        WrittenAt(table.rows, i, aged[i]);
        table := table.(rows := Written(table.rows, aged[i]));
      }
    }

    /** The landings whose item the index shows are over, the overdue of the rest are stale, and the screens follow. */
    method Reconcile(w: World, now: int)
      requires Valid()
      modifies this
      ensures Valid() && table == old(table).(rows := Reconciled(old(table).rows, w, now))
      ensures shown == Painted(old(shown), w, table.rows)
    {
      ghost var open := table.rows;
      StepsAreSound(table, Landings.Reconcile(w, now));
      AgedSurvivors(open, w, now);
      SurvivorsIn(open, w);
      var surviving := Settle(w);
      surviving := Age(surviving, now);
      Paint(w, surviving);
    }
  }
}
