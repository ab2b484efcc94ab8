/**
 * Which copy of a media a merged field is read off: a correction of that field first, then
 * our own servers, then the configured priority, then the identifier (`_rank`,
 * `_preferring`, `_first`, `_externalIds`).
 */
module Precedence {
  import opened Options
  import opened Permutations

  type Id = nat
  type Service = nat
  type Text = string

  datatype Field = Year | SeasonNumber | EpisodeNumber | EpisodeNumberEnd | Overview

  /** A field missing from `values` is null; `reported` is the service's snapshot, kept beside a correction. */
  datatype Copy = Copy(
    id: Id,
    service: Service,
    values: map<Field, Text>,
    reported: Option<map<Field, Text>>,
    externalIds: map<string, Text>)

  /** The services we can write into, and the priority of the ones still registered. */
  datatype Context = Context(local: set<Service>, priorities: map<Service, nat>)

  const MAX_SAFE_INTEGER: nat := 9007199254740991

  function At(values: map<Field, Text>, field: Field): Option<Text> {
    if field in values then Some(values[field]) else None
  }

  function PriorityOf(c: Copy, context: Context): nat {
    if c.service in context.priorities then context.priorities[c.service] else MAX_SAFE_INTEGER
  }

  /** A column is corrected where its value is not the one reported. */
  predicate IsCorrected(c: Copy, field: Field) {
    c.reported.Some? && At(c.values, field) != At(c.reported.value, field)
  }

  predicate Before(a: Copy, b: Copy, context: Context) {
    var x, y := a.service in context.local, b.service in context.local;
    if x != y then x
    else if PriorityOf(a, context) != PriorityOf(b, context) then PriorityOf(a, context) < PriorityOf(b, context)
    else a.id < b.id
  }

  function Inserted(c: Copy, ranked: seq<Copy>, context: Context): seq<Copy> {
    if ranked == [] || Before(c, ranked[0], context) then [c] + ranked
    else [ranked[0]] + Inserted(c, ranked[1..], context)
  }

  /** The copies, each before those it outranks. */
  function Rank(copies: seq<Copy>, context: Context): seq<Copy> {
    if copies == [] then [] else Inserted(copies[0], Rank(copies[1..], context), context)
  }

  function Keeping(ranked: seq<Copy>, keep: Copy -> bool): seq<Copy> {
    if ranked == [] then []
    else (if keep(ranked[0]) then [ranked[0]] else []) + Keeping(ranked[1..], keep)
  }

  /** A stable sort on "corrected": the corrected copies in their order, then the others in theirs. */
  function Preferring(ranked: seq<Copy>, field: Field): seq<Copy> {
    Keeping(ranked, (c: Copy) => IsCorrected(c, field)) + Keeping(ranked, (c: Copy) => !IsCorrected(c, field))
  }

  function First(ranked: seq<Copy>, field: Field): Option<Text> {
    if ranked == [] then None
    else if field in ranked[0].values then Some(ranked[0].values[field])
    else First(ranked[1..], field)
  }

  function Merged(copies: seq<Copy>, field: Field, context: Context): Option<Text> {
    First(Preferring(Rank(copies, context), field), field)
  }

  /** The end of a range is read off copies we hold and no others, however wide another claims to be. */
  function MergedEnd(copies: seq<Copy>, holds: Copy -> bool, context: Context): Option<Text> {
    First(Preferring(Keeping(Rank(copies, context), holds), EpisodeNumberEnd), EpisodeNumberEnd)
  }

  // ------------------------------------------------------------------------ the ranking

  /** One row per copy, as identifiers are. */
  ghost predicate DistinctIds(copies: seq<Copy>) {
    forall i, j | 0 <= i < j < |copies| :: copies[i].id != copies[j].id
  }

  ghost predicate Ranked(copies: seq<Copy>, context: Context) {
    forall i, j | 0 <= i < j < |copies| :: Before(copies[i], copies[j], context)
  }

  lemma {:induction false} InsertedKeeps(c: Copy, ranked: seq<Copy>, context: Context)
    ensures multiset(Inserted(c, ranked, context)) == multiset(ranked) + multiset{c}
  {
    if ranked != [] && !Before(c, ranked[0], context) {
      InsertedKeeps(c, ranked[1..], context);
      assert ranked == [ranked[0]] + ranked[1..];
    }
  }

  lemma {:induction false} RankKeeps(copies: seq<Copy>, context: Context)
    ensures multiset(Rank(copies, context)) == multiset(copies)
  {
    if copies != [] {
      RankKeeps(copies[1..], context);
      InsertedKeeps(copies[0], Rank(copies[1..], context), context);
      assert copies == [copies[0]] + copies[1..];
    }
  }

  lemma {:induction false} InsertedRanks(c: Copy, ranked: seq<Copy>, context: Context)
    requires Ranked(ranked, context) && forall x | x in ranked :: x.id != c.id
    ensures Ranked(Inserted(c, ranked, context), context)
  {
    if ranked != [] && !Before(c, ranked[0], context) {
      InsertedRanks(c, ranked[1..], context);
      InsertedKeeps(c, ranked[1..], context);
      var rest := Inserted(c, ranked[1..], context);
      forall k | 0 <= k < |rest|
        ensures Before(ranked[0], rest[k], context)
      {
        assert rest[k] in multiset(rest);
        if rest[k] != c {
          assert rest[k] in multiset(ranked[1..]);
        }
      }
    }
  }

  lemma {:induction false} RankRanks(copies: seq<Copy>, context: Context)
    requires DistinctIds(copies)
    ensures Ranked(Rank(copies, context), context)
  {
    if copies != [] {
      RankRanks(copies[1..], context);
      RankKeeps(copies[1..], context);
      forall x | x in Rank(copies[1..], context)
        ensures x.id != copies[0].id
      {
        assert x in multiset(Rank(copies[1..], context)) && x in multiset(copies[1..]);
      }
      InsertedRanks(copies[0], Rank(copies[1..], context), context);
    }
  }

  lemma FirstsAgree(a: seq<Copy>, b: seq<Copy>, context: Context)
    requires Ranked(a, context) && Ranked(b, context) && a != [] && b != []
    requires a[0] in b && b[0] in a
    ensures a[0] == b[0]
  {
    var i :| 0 <= i < |b| && b[i] == a[0];
    var j :| 0 <= j < |a| && a[j] == b[0];
    assert i > 0 ==> Before(b[0], a[0], context);
    assert j > 0 ==> Before(a[0], b[0], context);
  }

  /** There is one ranking of given copies. */
  lemma {:induction false} OneRanking(a: seq<Copy>, b: seq<Copy>, context: Context)
    requires Ranked(a, context) && Ranked(b, context) && multiset(a) == multiset(b)
    ensures a == b
  {
    SameElements(a, b);
    if a != [] {
      FirstsAgree(a, b, context);
      OneRanking(a[1..], b[1..], context);
      assert a == [a[0]] + a[1..] && b == [b[0]] + b[1..];
    }
  }

  /** The order the copies arrive in leaves no trace: not on the ranking, so not on anything read off it. */
  lemma ArrivalOrderIsForgotten(a: seq<Copy>, b: seq<Copy>, context: Context)
    requires DistinctIds(a) && DistinctIds(b) && multiset(a) == multiset(b)
    ensures Rank(a, context) == Rank(b, context)
  {
    RankRanks(a, context);
    RankRanks(b, context);
    RankKeeps(a, context);
    RankKeeps(b, context);
    OneRanking(Rank(a, context), Rank(b, context), context);
  }

  // -------------------------------------------------------------------- the merged field

  /** The whole precedence on one field. */
  predicate Outranks(a: Copy, b: Copy, field: Field, context: Context) {
    if IsCorrected(a, field) != IsCorrected(b, field) then IsCorrected(a, field) else Before(a, b, context)
  }

  /** The copy a field is read off, said without sorting anything. */
  ghost predicate Speaks(w: Copy, copies: seq<Copy>, field: Field, context: Context) {
    && w in copies && field in w.values
    && forall c | c in copies && c != w && field in c.values :: Outranks(w, c, field, context)
  }

  lemma {:induction false} KeepingKeeps(ranked: seq<Copy>, keep: Copy -> bool, context: Context)
    requires Ranked(ranked, context)
    ensures Ranked(Keeping(ranked, keep), context)
    ensures forall c :: c in Keeping(ranked, keep) <==> c in ranked && keep(c)
  {
    if ranked != [] {
      KeepingKeeps(ranked[1..], keep, context);
      var rest := Keeping(ranked[1..], keep);
      forall k | 0 <= k < |rest|
        ensures Before(ranked[0], rest[k], context)
      {
        assert rest[k] in rest && rest[k] in ranked[1..];
        var j :| 0 <= j < |ranked| - 1 && ranked[1..][j] == rest[k];
        assert Before(ranked[0], ranked[j + 1], context);
      }
    }
  }

  ghost predicate InPrecedence(copies: seq<Copy>, field: Field, context: Context) {
    forall i, j | 0 <= i < j < |copies| :: Outranks(copies[i], copies[j], field, context)
  }

  lemma PreferringIsPrecedence(ranked: seq<Copy>, field: Field, context: Context)
    requires Ranked(ranked, context)
    ensures InPrecedence(Preferring(ranked, field), field, context)
    ensures forall c :: c in Preferring(ranked, field) <==> c in ranked
  {
    var yes, no := (c: Copy) => IsCorrected(c, field), (c: Copy) => !IsCorrected(c, field);
    KeepingKeeps(ranked, yes, context);
    KeepingKeeps(ranked, no, context);
    var a, b := Keeping(ranked, yes), Keeping(ranked, no);
    assert forall i | 0 <= i < |a| :: a[i] in a;
    assert forall i | 0 <= i < |b| :: b[i] in b;
  }

  lemma {:induction false} FirstSpeaks(ordered: seq<Copy>, field: Field, context: Context)
    requires InPrecedence(ordered, field, context)
    ensures First(ordered, field).None? <==> forall c | c in ordered :: field !in c.values
    ensures First(ordered, field).Some? ==>
              exists w :: Speaks(w, ordered, field, context) && Some(w.values[field]) == First(ordered, field)
  {
    if ordered != [] {
      if field in ordered[0].values {
        assert Speaks(ordered[0], ordered, field, context);
      } else {
        FirstSpeaks(ordered[1..], field, context);
        if First(ordered[1..], field).Some? {
          var w :| Speaks(w, ordered[1..], field, context) && Some(w.values[field]) == First(ordered[1..], field);
          assert Speaks(w, ordered, field, context);
        }
      }
    }
  }

  lemma InRank(copies: seq<Copy>, context: Context)
    ensures forall c :: c in Rank(copies, context) <==> c in copies
  {
    RankKeeps(copies, context);
    assert forall c :: c in Rank(copies, context) <==> c in multiset(Rank(copies, context));
  }

  lemma OneSpeaker(v: Copy, w: Copy, copies: seq<Copy>, field: Field, context: Context)
    requires Speaks(v, copies, field, context) && Speaks(w, copies, field, context)
    ensures v == w
  {
  }

  lemma SameSpeaker(w: Copy, a: seq<Copy>, b: seq<Copy>, field: Field, context: Context)
    requires Speaks(w, a, field, context) && forall c :: c in b <==> c in a
    ensures Speaks(w, b, field, context)
  {
  }

  /**
   * A merged field is null exactly when every copy's is; otherwise it is the value of the
   * one copy that outranks every other copy having one, a correction of that very field
   * before everything else.
   */
  lemma MergedField(copies: seq<Copy>, field: Field, context: Context)
    requires DistinctIds(copies)
    ensures Merged(copies, field, context).None? <==> forall c | c in copies :: field !in c.values
    ensures Merged(copies, field, context).Some? <==> exists w :: Speaks(w, copies, field, context)
    ensures forall w | Speaks(w, copies, field, context) :: Merged(copies, field, context) == Some(w.values[field])
  {
    var ordered := Preferring(Rank(copies, context), field);
    assert InPrecedence(ordered, field, context) && forall c :: c in ordered <==> c in copies by {
      RankRanks(copies, context);
      InRank(copies, context);
      PreferringIsPrecedence(Rank(copies, context), field, context);
    }
    FirstSpeaks(ordered, field, context);
    if Merged(copies, field, context).Some? {
      var v :| Speaks(v, ordered, field, context) && Some(v.values[field]) == Merged(copies, field, context);
      SameSpeaker(v, ordered, copies, field, context);
      forall w | Speaks(w, copies, field, context)
        ensures w == v
      {
        OneSpeaker(v, w, copies, field, context);
      }
    }
  }

  /** The end of a range is read off held copies alone, and is missing when none of them has one. */
  lemma MergedRangeEnd(copies: seq<Copy>, holds: Copy -> bool, context: Context)
    requires DistinctIds(copies)
    ensures
      var end := MergedEnd(copies, holds, context);
      && (end.None? <==> forall c | c in copies && holds(c) :: EpisodeNumberEnd !in c.values)
      && (end.Some? ==> exists w ::
            && w in copies && holds(w) && EpisodeNumberEnd in w.values && end == Some(w.values[EpisodeNumberEnd])
            && forall c | c in copies && holds(c) && c != w && EpisodeNumberEnd in c.values ::
                 Outranks(w, c, EpisodeNumberEnd, context))
  {
    var ranked := Rank(copies, context);
    RankRanks(copies, context);
    InRank(copies, context);
    KeepingKeeps(ranked, holds, context);
    var held := Keeping(ranked, holds);
    PreferringIsPrecedence(held, EpisodeNumberEnd, context);
    FirstSpeaks(Preferring(held, EpisodeNumberEnd), EpisodeNumberEnd, context);
    if MergedEnd(copies, holds, context).Some? {
      var w :| Speaks(w, Preferring(held, EpisodeNumberEnd), EpisodeNumberEnd, context)
        && Some(w.values[EpisodeNumberEnd]) == MergedEnd(copies, holds, context);
      assert w in copies && holds(w);
    }
  }

  // --------------------------------------------------------------- external identifiers

  /** The highest-ranked copy with a non-empty value under this key. */
  function FirstIdentifier(ranked: seq<Copy>, key: string): Option<Text> {
    if ranked == [] then None
    else if key in ranked[0].externalIds && ranked[0].externalIds[key] != "" then Some(ranked[0].externalIds[key])
    else FirstIdentifier(ranked[1..], key)
  }

  /** Every copy's identifiers written over each other, the preferred copy last. */
  method ExternalIds(ranked: seq<Copy>) returns (merged: map<string, Text>)
    ensures forall key :: FirstIdentifier(ranked, key) == if key in merged then Some(merged[key]) else None
  {
    merged := map[];
    var i := |ranked|;
    while i > 0
      invariant 0 <= i <= |ranked|
      invariant forall key :: FirstIdentifier(ranked[i..], key) == if key in merged then Some(merged[key]) else None
    {
      i := i - 1;
      assert ranked[i..][1..] == ranked[i + 1..];
      var given := ranked[i].externalIds;
      merged := merged + map key | key in given && given[key] != "" :: given[key];
    }
  }
}
