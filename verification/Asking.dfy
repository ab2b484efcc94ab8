/**
 * Which questions a media server is spared: a bounded map with a time window, so that filing
 * a season's files one by one asks about their show once (`_worthAsking`).
 *
 * The map keeps insertion order, as a JavaScript `Map` does; it is a sequence here.
 */
module Asking {
  import opened Options
  import opened Sizes

  const ASK_WINDOW: int := 10 * 60 * 1000
  const ASKED_KEPT := 500

  /** A row of a server. An empty external identifier names nothing. */
  datatype Key = Key(service: nat, external: string)

  datatype Asked = Asked(key: Key, at: int)

  function IndexOf(asked: seq<Asked>, key: Key): (r: Option<nat>)
    ensures r.Some? ==> r.value < |asked| && asked[r.value].key == key
    ensures r.None? <==> forall a | a in asked :: a.key != key
  {
    if asked == [] then None
    else if asked[0].key == key then Some(0)
    else
      var later := IndexOf(asked[1..], key);
      if later.Some? then Some(later.value + 1) else None
  }

  predicate Recent(a: Asked, now: int) {
    now - a.at < ASK_WINDOW
  }

  /** Asked inside the window, so not worth asking again. */
  predicate Refused(asked: seq<Asked>, key: Key, now: int) {
    key.external == "" || (IndexOf(asked, key).Some? && Recent(asked[IndexOf(asked, key).value], now))
  }

  function Fresh(asked: seq<Asked>, now: int): seq<Asked> {
    if asked == [] then []
    else Fresh(asked[..|asked| - 1], now) + if Recent(asked[|asked| - 1], now) then [asked[|asked| - 1]] else []
  }

  function Trimmed(asked: seq<Asked>): seq<Asked> {
    if |asked| >= ASKED_KEPT then asked[|asked| - (ASKED_KEPT - 1)..] else asked
  }

  function Without(asked: seq<Asked>, key: Key): seq<Asked> {
    match IndexOf(asked, key)
    case None => asked
    case Some(i) => asked[..i] + asked[i + 1..]
  }

  /** The map once a question about `key` has been granted at `now`. */
  function Granted(asked: seq<Asked>, key: Key, now: int): seq<Asked> {
    Without(Trimmed(Fresh(asked, now)), key) + [Asked(key, now)]
  }

  class AskedMap {
    var asked: seq<Asked>

    constructor ()
      ensures asked == []
    {
      asked := [];
    }

    method WorthAsking(key: Key, now: int) returns (worth: bool)
      modifies this
      ensures worth == !Refused(old(asked), key, now)
      ensures asked == if worth then Granted(old(asked), key, now) else old(asked)
    {
      if key.external == "" {
        return false;
      }
      var known := IndexOf(asked, key);
      if known.Some? && now - asked[known.value].at < ASK_WINDOW {
        return false;
      }
      var kept := Prune(now);
      kept := Trim(kept);
      var again := IndexOf(kept, key);
      if again.Some? {
        kept := kept[..again.value] + kept[again.value + 1..];
      }
      asked := kept + [Asked(key, now)];
      return true;
    }

    /** Drop what is older than the window. */
    method Prune(now: int) returns (kept: seq<Asked>)
      ensures kept == Fresh(asked, now)
    {
      kept := [];
      for i := 0 to |asked|
        invariant kept == Fresh(asked[..i], now)
      {
        assert asked[..i + 1][..i] == asked[..i];
        if !(now - asked[i].at >= ASK_WINDOW) {
          kept := kept + [asked[i]];
        }
      }
      assert asked[..|asked|] == asked;
    }

    /** Drop the oldest until there is room for one more. */
    method Trim(recent: seq<Asked>) returns (kept: seq<Asked>)
      ensures kept == Trimmed(recent)
    {
      kept := recent;
      while |kept| >= ASKED_KEPT
        invariant |kept| <= |recent| && kept == recent[|recent| - |kept|..]
        invariant |recent| >= ASKED_KEPT ==> |kept| >= ASKED_KEPT - 1
        invariant |recent| < ASKED_KEPT ==> kept == recent
      {
        kept := kept[1..];
      }
    }
  }

  // ------------------------------------------------------------------------------- runs

  datatype Question = Question(key: Key, now: int)

  /** The map, and every grant ever made, oldest first. */
  datatype History = History(asked: seq<Asked>, grants: seq<Asked>)

  function Answered(h: History, q: Question): History {
    if Refused(h.asked, q.key, q.now) then h
    else History(Granted(h.asked, q.key, q.now), h.grants + [Asked(q.key, q.now)])
  }

  function After(questions: seq<Question>): History {
    if questions == [] then History([], [])
    else Answered(After(questions[..|questions| - 1]), questions[|questions| - 1])
  }

  ghost predicate ClockNeverGoesBack(questions: seq<Question>) {
    forall i, j | 0 <= i <= j < |questions| :: questions[i].now <= questions[j].now
  }

  ghost predicate OnceEach(asked: seq<Asked>) {
    forall i, j | 0 <= i < j < |asked| :: asked[i].key != asked[j].key
  }

  /** The keys of a stretch of grants other than one. */
  ghost function Others(grants: seq<Asked>, key: Key): set<Key> {
    set a | a in grants && a.key != key :: a.key
  }

  /** Between one grant of a row and the next inside its window, at least 500 other rows were granted. */
  ghost predicate Spaced(grants: seq<Asked>) {
    forall i, j | 0 <= i < j < |grants| && grants[i].key == grants[j].key && grants[j].at - grants[i].at < ASK_WINDOW ::
      |Others(grants[i + 1..j], grants[i].key)| >= ASKED_KEPT
  }

  /** A grant no longer in the map was too old, or 500 others came after it. */
  ghost predicate Forgotten(grants: seq<Asked>, i: nat, now: int)
    requires i < |grants|
  {
    now - grants[i].at >= ASK_WINDOW || |Others(grants[i + 1..], grants[i].key)| >= ASKED_KEPT
  }

  /** The map is the last grants made, at most 500, each row once. */
  ghost predicate HoldsTheLast(asked: seq<Asked>, grants: seq<Asked>) {
    && |asked| <= ASKED_KEPT && |asked| <= |grants|
    && asked == grants[|grants| - |asked|..]
    && OnceEach(asked)
  }

  ghost predicate InOrder(grants: seq<Asked>, now: int) {
    && (forall i, j | 0 <= i <= j < |grants| :: grants[i].at <= grants[j].at)
    && (forall i | 0 <= i < |grants| :: grants[i].at <= now)
  }

  ghost predicate ForgetsRightly(grants: seq<Asked>, kept: nat, now: int)
    requires kept <= |grants|
  {
    forall i | 0 <= i < |grants| - kept :: Forgotten(grants, i, now)
  }

  ghost predicate Kept(h: History, now: int) {
    && HoldsTheLast(h.asked, h.grants)
    && InOrder(h.grants, now)
    && ForgetsRightly(h.grants, |h.asked|, now)
    && Spaced(h.grants)
  }

  lemma OneMoreAtTheEnd(asked: seq<Asked>, k: nat)
    requires asked != [] && k < |asked|
    ensures asked[..|asked| - 1][k..] + [asked[|asked| - 1]] == asked[k..]
  {
  }

  lemma {:induction false} NoneIsFresh(asked: seq<Asked>, now: int)
    requires forall a | a in asked :: !Recent(a, now)
    ensures Fresh(asked, now) == []
  {
    if asked != [] {
      NoneIsFresh(asked[..|asked| - 1], now);
      assert asked[|asked| - 1] in asked;
    }
  }

  /** With a clock that does not go back, what is too old is at the front. */
  lemma {:induction false} FreshIsASuffix(asked: seq<Asked>, now: int) returns (k: nat)
    requires forall i, j | 0 <= i <= j < |asked| :: asked[i].at <= asked[j].at
    ensures k <= |asked| && Fresh(asked, now) == asked[k..]
    ensures forall i | 0 <= i < k :: !Recent(asked[i], now)
    ensures forall i | k <= i < |asked| :: Recent(asked[i], now)
  {
    if asked == [] {
      k := 0;
    } else {
      var n := |asked| - 1;
      if Recent(asked[n], now) {
        k := FreshIsASuffix(asked[..n], now);
        OneMoreAtTheEnd(asked, k);
      } else {
        NoneIsFresh(asked, now);
        k := n + 1;
      }
    }
  }

  function KeysOf(asked: seq<Asked>): set<Key> {
    set a | a in asked :: a.key
  }

  lemma {:induction false} AsManyKeys(asked: seq<Asked>)
    requires OnceEach(asked)
    ensures |KeysOf(asked)| == |asked|
  {
    if asked != [] {
      var last := asked[|asked| - 1];
      var front := asked[..|asked| - 1];
      AsManyKeys(front);
      assert KeysOf(asked) == KeysOf(front) + {last.key};
    }
  }

  lemma MoreOthers(grants: seq<Asked>, more: seq<Asked>, i: nat)
    requires i < |grants|
    ensures |Others((grants + more)[i + 1..], grants[i].key)| >= |Others(grants[i + 1..], grants[i].key)|
  {
    assert (grants + more)[i + 1..] == grants[i + 1..] + more;
    Fewer(Others(grants[i + 1..], grants[i].key), Others((grants + more)[i + 1..], grants[i].key));
  }

  lemma IndexOfHeld(asked: seq<Asked>, j: nat)
    requires j < |asked| && OnceEach(asked)
    ensures IndexOf(asked, asked[j].key) == Some(j)
  {
    assert asked[j] in asked;
  }

  /** A row asked about again with leave to be is not among the recent ones. */
  lemma GrantedIsNotRecent(asked: seq<Asked>, key: Key, now: int)
    requires OnceEach(asked) && !Refused(asked, key, now)
    ensures forall i | 0 <= i < |asked| && Recent(asked[i], now) :: asked[i].key != key
  {
    forall i | 0 <= i < |asked| && Recent(asked[i], now)
      ensures asked[i].key != key
    {
      IndexOfHeld(asked, i);
    }
  }

  /** Where a grant cuts the map: `k` entries are too old, `t` go once room is made. */
  ghost predicate Cut(asked: seq<Asked>, q: Question, k: nat, t: nat) {
    && k <= t <= |asked| && t == |asked| - |Trimmed(asked[k..])|
    && (forall i | k <= i < |asked| :: asked[i].key != q.key)
    && (forall i | 0 <= i < k :: !Recent(asked[i], q.now))
  }

  /** A grant drops from the front, finds the row's own old entry gone, and adds at the back. */
  lemma GrantShape(asked: seq<Asked>, q: Question) returns (k: nat, t: nat)
    requires OnceEach(asked) && forall i, j | 0 <= i <= j < |asked| :: asked[i].at <= asked[j].at
    requires !Refused(asked, q.key, q.now)
    ensures Cut(asked, q, k, t)
    ensures Granted(asked, q.key, q.now) == asked[t..] + [Asked(q.key, q.now)]
  {
    k := FreshIsASuffix(asked, q.now);
    GrantedIsNotRecent(asked, q.key, q.now);
    t := |asked| - |Trimmed(asked[k..])|;
    assert Trimmed(asked[k..]) == asked[t..];
    assert forall a | a in asked[t..] :: a.key != q.key;
    assert IndexOf(asked[t..], q.key).None?;
  }

  /** An entry dropped to make room leaves 499 later rows in the map, and the one coming in. */
  lemma CrowdedOut(asked: seq<Asked>, q: Question, k: nat, t: nat, i: nat)
    requires OnceEach(asked) && Cut(asked, q, k, t) && k <= i < t
    ensures |Others(asked[i + 1..] + [Asked(q.key, q.now)], asked[i].key)| >= ASKED_KEPT
  {
    var later := asked[i + 1..] + [Asked(q.key, q.now)];
    var held := asked[t..] + [Asked(q.key, q.now)];
    assert |held| == ASKED_KEPT;
    assert OnceEach(held);
    AsManyKeys(held);
    forall a | a in held
      ensures a in later && a.key != asked[i].key
    {
      var j :| 0 <= j < |held| && held[j] == a;
      assert later[t - i - 1 + j] == a;
    }
    assert KeysOf(held) <= Others(later, asked[i].key);
    Fewer(KeysOf(held), Others(later, asked[i].key));
  }

  lemma TailOfTheTail(grants: seq<Asked>, start: nat, drop: nat, last: Asked)
    requires start + drop <= |grants|
    ensures (grants + [last])[start + drop..] == grants[start..][drop..] + [last]
  {
  }

  /** An entry still in the map that the grant drops is forgotten rightly. */
  lemma DroppedIsForgotten(grants: seq<Asked>, start: nat, q: Question, k: nat, t: nat, i: nat)
    requires start <= |grants| && OnceEach(grants[start..]) && Cut(grants[start..], q, k, t)
    requires start <= i < start + t
    ensures Forgotten(grants + [Asked(q.key, q.now)], i, q.now)
  {
    var asked := grants[start..];
    assert (grants + [Asked(q.key, q.now)])[i] == asked[i - start];
    if i - start >= k {
      CrowdedOut(asked, q, k, t, i - start);
      TailOfTheTail(grants, start, i - start + 1, Asked(q.key, q.now));
    }
  }

  lemma StaysForgotten(h: History, q: Question, now: int, k: nat, t: nat, i: nat)
    requires HoldsTheLast(h.asked, h.grants) && ForgetsRightly(h.grants, |h.asked|, now)
    requires now <= q.now && Cut(h.asked, q, k, t)
    requires i < |h.grants| - |h.asked| + t
    ensures Forgotten(h.grants + [Asked(q.key, q.now)], i, q.now)
  {
    if i < |h.grants| - |h.asked| {
      assert Forgotten(h.grants, i, now);
      MoreOthers(h.grants, [Asked(q.key, q.now)], i);
    } else {
      DroppedIsForgotten(h.grants, |h.grants| - |h.asked|, q, k, t, i);
    }
  }

  lemma StaysSpaced(h: History, q: Question, now: int)
    requires Kept(h, now) && now <= q.now && !Refused(h.asked, q.key, q.now)
    ensures Spaced(h.grants + [Asked(q.key, q.now)])
  {
    var grants := h.grants + [Asked(q.key, q.now)];
    var start := |h.grants| - |h.asked|;
    forall i, j | 0 <= i < j < |grants| && grants[i].key == grants[j].key && grants[j].at - grants[i].at < ASK_WINDOW
      ensures |Others(grants[i + 1..j], grants[i].key)| >= ASKED_KEPT
    {
      if j < |h.grants| {
        assert grants[i + 1..j] == h.grants[i + 1..j];
      } else {
        assert grants[i + 1..j] == h.grants[i + 1..];
        if i >= start {
          GrantedIsNotRecent(h.asked, q.key, q.now);
          assert false;
        } else {
          assert Forgotten(h.grants, i, now);
        }
      }
    }
  }

  lemma TailKept(h: History, q: Question, k: nat, t: nat)
    requires HoldsTheLast(h.asked, h.grants) && Cut(h.asked, q, k, t)
    ensures HoldsTheLast(h.asked[t..] + [Asked(q.key, q.now)], h.grants + [Asked(q.key, q.now)])
  {
    var asked, grants := h.asked[t..] + [Asked(q.key, q.now)], h.grants + [Asked(q.key, q.now)];
    assert h.asked[t..] == h.grants[|h.grants| - |h.asked| + t..];
    assert grants[|grants| - |asked|..] == h.grants[|h.grants| - |h.asked| + t..] + [Asked(q.key, q.now)];
  }

  lemma AskedInOrder(h: History, now: int)
    requires HoldsTheLast(h.asked, h.grants) && InOrder(h.grants, now)
    ensures forall i, j | 0 <= i <= j < |h.asked| :: h.asked[i].at <= h.asked[j].at
  {
    var n := |h.grants| - |h.asked|;
    forall i, j | 0 <= i <= j < |h.asked|
      ensures h.asked[i].at <= h.asked[j].at
    {
      assert h.asked[i] == h.grants[n + i] && h.asked[j] == h.grants[n + j];
    }
  }

  lemma GrantInOrder(grants: seq<Asked>, a: Asked, now: int)
    requires InOrder(grants, now) && now <= a.at
    ensures InOrder(grants + [a], a.at)
  {
  }

  lemma GrantForgetsRightly(h: History, q: Question, now: int, k: nat, t: nat)
    requires Kept(h, now) && now <= q.now && Cut(h.asked, q, k, t)
    ensures ForgetsRightly(h.grants + [Asked(q.key, q.now)], |h.asked| - t + 1, q.now)
  {
    var grants := h.grants + [Asked(q.key, q.now)];
    forall i: nat | i < |grants| - (|h.asked| - t + 1)
      ensures Forgotten(grants, i, q.now)
    {
      StaysForgotten(h, q, now, k, t, i);
    }
  }

  lemma GrantKeeps(h: History, q: Question, now: int)
    requires Kept(h, now) && now <= q.now && !Refused(h.asked, q.key, q.now)
    ensures Kept(Answered(h, q), q.now)
  {
    AskedInOrder(h, now);
    var k, t := GrantShape(h.asked, q);
    TailKept(h, q, k, t);
    GrantForgetsRightly(h, q, now, k, t);
    StaysSpaced(h, q, now);
    GrantInOrder(h.grants, Asked(q.key, q.now), now);
  }

  /**
   * Over any run of questions with a clock that does not go back: never more than 500
   * entries, in the order of asking (the map is the last grants made, each row once); what
   * is refused was granted inside the window; and two grants of one row inside a window
   * have at least 500 other rows granted between them.
   */
  lemma {:induction false} RunsKeep(questions: seq<Question>)
    requires ClockNeverGoesBack(questions)
    ensures forall now | questions != [] ==> questions[|questions| - 1].now <= now :: Kept(After(questions), now)
  {
    if questions != [] {
      var n := |questions| - 1;
      var before, q := After(questions[..n]), questions[n];
      RunsKeep(questions[..n]);
      assert Kept(before, q.now);
      if !Refused(before.asked, q.key, q.now) {
        GrantKeeps(before, q, q.now);
      }
      forall now | q.now <= now
        ensures Kept(After(questions), now)
      {
        Later(After(questions), q.now, now);
      }
    } else {
      assert Kept(After([]), 0);
    }
  }

  lemma Later(h: History, now: int, later: int)
    requires Kept(h, now) && now <= later
    ensures Kept(h, later)
  {
    forall i | 0 <= i < |h.grants| - |h.asked|
      ensures Forgotten(h.grants, i, later)
    {
      assert Forgotten(h.grants, i, now);
    }
  }

  /** A row with an identifier is refused only when it was granted less than a window ago. */
  lemma RefusalsAreRecent(questions: seq<Question>, q: Question)
    requires ClockNeverGoesBack(questions + [q]) && q.key.external != ""
    ensures Refused(After(questions).asked, q.key, q.now) ==>
              exists i :: 0 <= i < |After(questions).grants|
                && After(questions).grants[i].key == q.key && Recent(After(questions).grants[i], q.now)
  {
    forall i, j | 0 <= i <= j < |questions|
      ensures questions[i].now <= questions[j].now
    {
      assert (questions + [q])[i] == questions[i] && (questions + [q])[j] == questions[j];
    }
    assert questions != [] ==> (questions + [q])[|questions| - 1].now <= (questions + [q])[|questions|].now;
    RunsKeep(questions);
    var h := After(questions);
    assert Kept(h, q.now);
    if Refused(h.asked, q.key, q.now) {
      var i := IndexOf(h.asked, q.key).value;
      assert h.grants[|h.grants| - |h.asked| + i] == h.asked[i];
    }
  }
}
