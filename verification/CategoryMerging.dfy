/**
 * Making one category read as another (`mergeCategoryInto`): the libraries of the first take
 * the second's name, and the fold joins them on its own. It joins exactly those two, unless
 * something outside them is filed through a library it renames.
 */
module CategoryMerging {
  import opened Options
  import opened CategoryKeys
  import opened Categories
  import opened CategoryFolding
  import opened CategoryOrder

  function Rename(l: Library, ids: seq<Id>, name: string): Library {
    if l.id in ids then l.(alias := Some(name)) else l
  }

  function Renamed(libraries: seq<Library>, ids: seq<Id>, name: string): (r: seq<Library>)
    ensures |r| == |libraries| && forall i | 0 <= i < |r| :: r[i] == Rename(libraries[i], ids, name)
  {
    seq(|libraries|, i requires 0 <= i < |libraries| => Rename(libraries[i], ids, name))
  }

  lemma {:induction false} FindRenamed(libraries: seq<Library>, ids: seq<Id>, name: string, id: Id)
    ensures
      var was := Find(libraries, id);
      Find(Renamed(libraries, ids, name), id) == if was.Some? then Some(Rename(was.value, ids, name)) else None
  {
    if libraries != [] && libraries[0].id != id {
      FindRenamed(libraries[1..], ids, name, id);
      assert Renamed(libraries, ids, name)[1..] == Renamed(libraries[1..], ids, name);
    }
  }

  lemma {:induction false} AnchorRenamed(
    libraries: seq<Library>, keywords: seq<Keyword>, w: string, ids: seq<Id>, name: string)
    ensures
      var was := AnchorFor(libraries, keywords, w);
      AnchorFor(Renamed(libraries, ids, name), keywords, w) ==
        if was.Some? then Some(Rename(was.value, ids, name)) else None
  {
    if keywords != [] {
      AnchorRenamed(libraries, keywords[..|keywords| - 1], w, ids, name);
      FindRenamed(libraries, ids, name, keywords[|keywords| - 1].library);
    }
  }

  // ------------------------------------------------------------------------- two blocks

  /** A category to fold into another, and the libraries as they are before and after. */
  datatype Merge = Merge(
    libraries: seq<Library>, keywords: seq<Keyword>, source: string, destination: string, name: string) {
    function Before(): Filings { Filed(libraries, keywords) }
    function SourceIds(): seq<Id> { Ids(Under(libraries, source, Before())) }
    function After(): seq<Library> { Renamed(libraries, SourceIds(), name) }
    function Since(): Filings { Filed(After(), keywords) }
    function Of(l: Library): Library { Rename(l, SourceIds(), name) }
  }

  /** The two differ, and the name to take is one the destination reads as. */
  predicate Fits(m: Merge) {
    && m.source != m.destination && m.name != "" && Trim(m.name) == m.name && KeyOf(m.name) == m.destination
  }

  /** The library is filed through a keyword that hangs off a library being renamed. */
  predicate FiledThroughSource(m: Merge, l: Library) {
    var anchor := AnchorFor(m.libraries, m.keywords, KeyOf(l.name));
    !Aliased(l) && anchor.Some? && anchor.value.id in m.SourceIds()
  }

  lemma ReadingAfter(m: Merge, l: Library)
    requires Fits(m)
    ensures
      if l.id in m.SourceIds() then ReadingOf(m.Of(l), m.Since()) == Reading(m.name, l.kind, true)
      else if FiledThroughSource(m, l) then ReadingOf(m.Of(l), m.Since()) == ReadingOf(l, m.Before()).(name := m.name)
      else ReadingOf(m.Of(l), m.Since()) == ReadingOf(l, m.Before())
  {
    var w := KeyOf(l.name);
    FiledByAnchor(m.libraries, m.keywords, w);
    FiledByAnchor(m.After(), m.keywords, w);
    AnchorRenamed(m.libraries, m.keywords, w, m.SourceIds(), m.name);
  }

  /** Where a library is after: the source's are in the destination, the rest where they were, but for the strays. */
  lemma KeyAfter(m: Merge, l: Library)
    requires Fits(m) && DistinctLibraries(m.libraries) && l in m.libraries
    ensures
      KeyIn(m.Of(l), m.Since()) ==
        if KeyIn(l, m.Before()) == m.source || FiledThroughSource(m, l) then m.destination else KeyIn(l, m.Before())
  {
    ReadingAfter(m, l);
    OneOfUnder(m.libraries, m.source, m.Before(), l);
  }

  /** It is in neither category, and the merge moves it. */
  predicate Strays(m: Merge, l: Library) {
    KeyIn(l, m.Before()) != m.source && KeyIn(l, m.Before()) != m.destination && FiledThroughSource(m, l)
  }

  /** The others stay where they were exactly when none of them is filed through the source. */
  lemma OthersStayIff(m: Merge)
    requires Fits(m) && DistinctLibraries(m.libraries)
    ensures
      (forall l | l in m.libraries && KeyIn(l, m.Before()) != m.source ::
        KeyIn(m.Of(l), m.Since()) == KeyIn(l, m.Before())) <==>
      (forall l | l in m.libraries :: !Strays(m, l))
  {
    forall l | l in m.libraries
      ensures KeyIn(l, m.Before()) != m.source ==>
                (KeyIn(m.Of(l), m.Since()) == KeyIn(l, m.Before()) <==> !Strays(m, l))
    {
      KeyAfter(m, l);
    }
  }

  /** None strays when no keyword hangs off a folded library. */
  lemma UnfoldedAnchorsLeaveNoStrays(m: Merge, l: Library)
    requires Fits(m) && DistinctLibraries(m.libraries) && AnchorsUnfolded(m.libraries, m.keywords) && l in m.libraries
    ensures !Strays(m, l)
  {
    var w := KeyOf(l.name);
    var anchor := AnchorFor(m.libraries, m.keywords, w);
    if FiledThroughSource(m, l) {
      FiledByAnchor(m.libraries, m.keywords, w);
      var k := KeywordOf(m.libraries, m.keywords, w);
      assert ReadingOf(anchor.value, m.Before()).names;
      OneOfUnder(m.libraries, m.source, m.Before(), anchor.value);
      assert KeyIn(l, m.Before()) == KeyIn(anchor.value, m.Before());
    }
  }

  // -------------------------------------------------------------- the categories it leaves

  ghost predicate NoneStrays(m: Merge) {
    forall l | l in m.libraries :: !Strays(m, l)
  }

  function StraysAmong(m: Merge, libraries: seq<Library>): (r: seq<Library>)
    ensures forall l :: l in r <==> l in libraries && Strays(m, l)
  {
    if libraries == [] then []
    else
      var last := libraries[|libraries| - 1];
      StraysAmong(m, libraries[..|libraries| - 1]) + if Strays(m, last) then [last] else []
  }

  /** The libraries of neither category that a merge moves, in reading order. */
  function StraysOf(m: Merge): seq<Library> {
    StraysAmong(m, m.libraries)
  }

  function StayingAmong(m: Merge, libraries: seq<Library>, key: string): (r: seq<Library>)
    ensures forall l :: l in r <==> l in libraries && KeyIn(l, m.Before()) == key && !Strays(m, l)
  {
    if libraries == [] then []
    else
      var last := libraries[|libraries| - 1];
      StayingAmong(m, libraries[..|libraries| - 1], key)
      + if KeyIn(last, m.Before()) == key && !Strays(m, last) then [last] else []
  }

  /** What a category keeps: its libraries, but for its strays. */
  function Staying(m: Merge, key: string): seq<Library> {
    StayingAmong(m, m.libraries, key)
  }

  lemma {:induction false} AllStay(m: Merge, libraries: seq<Library>, key: string)
    requires forall l | l in libraries :: !Strays(m, l)
    ensures StayingAmong(m, libraries, key) == Under(libraries, key, m.Before()) && StraysAmong(m, libraries) == []
  {
    if libraries != [] {
      AllStay(m, libraries[..|libraries| - 1], key);
      assert libraries[|libraries| - 1] in libraries;
    }
  }

  /** What one library reads as afterwards, by what it was. */
  lemma KeysAfter(m: Merge, i: nat)
    requires Fits(m) && DistinctLibraries(m.libraries) && i < |m.libraries|
    ensures
      var l, v := m.libraries[i], m.After()[i];
      var was, now := KeyIn(l, m.Before()), KeyIn(v, m.Since());
      && now == (if was == m.source || Strays(m, l) then m.destination else was)
      && AsOne(l, v) && v.itemCount == l.itemCount
      && (if was == m.source then ReadingOf(v, m.Since()) == Reading(m.name, l.kind, true) else v == l)
    ensures
      var l := m.libraries[i];
      var was, now := ReadingOf(l, m.Before()), ReadingOf(m.After()[i], m.Since());
      && (Strays(m, l) ==> !now.names)
      && (KeyOf(was.name) == m.destination ==> now.names == was.names && (was.names ==> now == was))
      && (KeyOf(was.name) != m.source && KeyOf(was.name) != m.destination && !Strays(m, l) ==> now == was)
  {
    var l := m.libraries[i];
    assert l in m.libraries && m.After()[i] == m.Of(l);
    KeyAfter(m, l);
    ReadingAfter(m, l);
    OneOfUnder(m.libraries, m.source, m.Before(), l);
    FiledByAnchor(m.libraries, m.keywords, KeyOf(l.name));
  }

  lemma LastStays(m: Merge, libraries: seq<Library>, n: nat, key: string)
    requires n < |libraries|
    ensures
      var was, l := StayingAmong(m, libraries[..n], key), libraries[n];
      StayingAmong(m, libraries[..n + 1], key) ==
        if KeyIn(l, m.Before()) == key && !Strays(m, l) then was + [l] else was
  {
    assert libraries[..n + 1][..n] == libraries[..n];
  }

  lemma {:induction false} UnderAnother(m: Merge, key: string, n: nat)
    requires Fits(m) && DistinctLibraries(m.libraries) && n <= |m.libraries|
    requires key != m.source && key != m.destination
    ensures Under(m.After()[..n], key, m.Since()) == StayingAmong(m, m.libraries[..n], key)
  {
    if n == 0 {
      assert m.After()[..0] == [] && m.libraries[..0] == [];
    } else {
      var k := n - 1;
      UnderAnother(m, key, k);
      KeysAfter(m, k);
      LastCounts(m.After(), k, key, m.Since());
      LastStays(m, m.libraries, k, key);
    }
  }

  lemma {:induction false} SameBand(under: seq<Library>, filed: Filings, since: Filings, local: set<Id>)
    requires under != [] && forall l | l in under :: ReadingOf(l, filed) == ReadingOf(l, since)
    ensures BandOf(under, filed, local) == BandOf(under, since, local)
  {
    assert under[|under| - 1] in under && under[0] in under;
    if |under| > 1 {
      SameBand(under[..|under| - 1], filed, since, local);
    }
  }

  /** Every other category loses its strays and nothing else, and is what the rest of it makes. */
  lemma OthersLoseTheirStrays(m: Merge, local: set<Id>, key: string)
    requires Fits(m) && DistinctLibraries(m.libraries)
    requires key != m.source && key != m.destination
    ensures Under(m.After(), key, m.Since()) == Staying(m, key)
    ensures Staying(m, key) != [] ==>
              CategoryOf(m.After(), key, m.Since(), local) == BandOf(Staying(m, key), m.Before(), local).category
  {
    UnderAnother(m, key, |m.libraries|);
    assert m.After()[..|m.libraries|] == m.After() && m.libraries[..|m.libraries|] == m.libraries;
    var staying := Staying(m, key);
    if staying != [] {
      forall l | l in staying
        ensures ReadingOf(l, m.Before()) == ReadingOf(l, m.Since())
      {
        var i :| 0 <= i < |m.libraries| && m.libraries[i] == l;
        KeysAfter(m, i);
      }
      SameBand(staying, m.Before(), m.Since(), local);
    }
  }

  /** Nothing is under the source any more, strays or none. */
  lemma SourceIsGone(m: Merge)
    requires Fits(m) && DistinctLibraries(m.libraries)
    ensures Under(m.After(), m.source, m.Since()) == []
  {
    var under := Under(m.After(), m.source, m.Since());
    if under != [] {
      assert under[0] in under;
      var i :| 0 <= i < |m.After()| && m.After()[i] == under[0];
      assert m.libraries[i] in m.libraries;
      KeyAfter(m, m.libraries[i]);
    }
  }

  // ------------------------------------------------------------------------------ the union

  lemma OneMoreItem(was: seq<Library>, l: Library)
    ensures Items(was + [l]) == Items(was) + l.itemCount
  {
    assert (was + [l])[..|was|] == was;
  }

  lemma LastCounts(libraries: seq<Library>, n: nat, key: string, filed: Filings)
    requires n < |libraries|
    ensures
      var was, now, l := Under(libraries[..n], key, filed), Under(libraries[..n + 1], key, filed), libraries[n];
      && now == (if KeyIn(l, filed) == key then was + [l] else was)
      && Items(now) == Items(was) + (if KeyIn(l, filed) == key then l.itemCount else 0)
  {
    assert libraries[..n + 1][..n] == libraries[..n];
    OneMoreItem(Under(libraries[..n], key, filed), libraries[n]);
  }

  lemma LastStray(m: Merge, libraries: seq<Library>, n: nat)
    requires n < |libraries|
    ensures
      var was, now, l := StraysAmong(m, libraries[..n]), StraysAmong(m, libraries[..n + 1]), libraries[n];
      && now == (if Strays(m, l) then was + [l] else was)
      && Items(now) == Items(was) + (if Strays(m, l) then l.itemCount else 0)
  {
    assert libraries[..n + 1][..n] == libraries[..n];
    OneMoreItem(StraysAmong(m, libraries[..n]), libraries[n]);
  }

  /** As many libraries and items as the two held and the strays bring, among the first so many. */
  ghost predicate CountsTo(m: Merge, n: nat)
    requires n <= |m.libraries|
  {
    var a, b := m.libraries[..n], m.After()[..n];
    var s, d, u :=
        Under(a, m.source, m.Before()), Under(a, m.destination, m.Before()), Under(b, m.destination, m.Since());
    && |u| == |s| + |d| + |StraysAmong(m, a)|
    && Items(u) == Items(s) + Items(d) + Items(StraysAmong(m, a))
  }

  lemma CountsToOneMore(m: Merge, n: nat)
    requires Fits(m) && DistinctLibraries(m.libraries) && n < |m.libraries| && CountsTo(m, n)
    ensures CountsTo(m, n + 1)
  {
    KeysAfter(m, n);
    LastCounts(m.libraries, n, m.source, m.Before());
    LastCounts(m.libraries, n, m.destination, m.Before());
    LastCounts(m.After(), n, m.destination, m.Since());
    LastStray(m, m.libraries, n);
  }

  lemma UnionCounts(m: Merge)
    requires Fits(m) && DistinctLibraries(m.libraries)
    ensures
      var u, s, d := Under(m.After(), m.destination, m.Since()), Under(m.libraries, m.source, m.Before()),
        Under(m.libraries, m.destination, m.Before());
      && |u| == |s| + |d| + |StraysOf(m)|
      && Items(u) == Items(s) + Items(d) + Items(StraysOf(m))
  {
    for n := 0 to |m.libraries|
      invariant CountsTo(m, n)
    {
      CountsToOneMore(m, n);
    }
    assert m.After()[..|m.libraries|] == m.After() && m.libraries[..|m.libraries|] == m.libraries;
  }

  function Lower(before: Option<Library>, l: Library, filed: Filings): Option<Library> {
    if ReadingOf(l, filed).names && (before.None? || l.position < before.value.position) then Some(l) else before
  }

  lemma OneMoreNamer(was: seq<Library>, l: Library, filed: Filings)
    ensures Namer(was + [l], filed) == Lower(Namer(was, filed), l, filed)
  {
    assert (was + [l])[..|was|] == was;
  }

  lemma LastNames(libraries: seq<Library>, n: nat, key: string, filed: Filings)
    requires n < |libraries|
    ensures
      var was := Namer(Under(libraries[..n], key, filed), filed);
      Namer(Under(libraries[..n + 1], key, filed), filed) ==
        if KeyIn(libraries[n], filed) == key then Lower(was, libraries[n], filed) else was
  {
    LastCounts(libraries, n, key, filed);
    OneMoreNamer(Under(libraries[..n], key, filed), libraries[n], filed);
  }

  /** The lowest namer of a union is a renamed library, or the one that named the destination. */
  ghost predicate NamedByEither(was: Option<Library>, now: Option<Library>, since: Filings, name: string) {
    && (was.Some? ==> now.Some? && now.value.position <= was.value.position)
    && (now.Some? ==> now == was || ReadingOf(now.value, since).name == name)
  }

  lemma EitherOneMore(
    was: Option<Library>, now: Option<Library>, l: Library, v: Library,
    filed: Filings, since: Filings, name: string, renamed: bool, there: bool, strays: bool)
    requires NamedByEither(was, now, since, name)
    requires renamed ==> ReadingOf(v, since).name == name
    requires there ==> l == v && ReadingOf(l, since).names == ReadingOf(l, filed).names
    requires strays ==> !ReadingOf(v, since).names
    ensures NamedByEither(
              if there then Lower(was, l, filed) else was,
              if renamed || there || strays then Lower(now, v, since) else now, since, name)
  {
  }

  ghost predicate NamedTo(m: Merge, n: nat)
    requires n <= |m.libraries|
  {
    NamedByEither(
      Namer(Under(m.libraries[..n], m.destination, m.Before()), m.Before()),
      Namer(Under(m.After()[..n], m.destination, m.Since()), m.Since()), m.Since(), m.name)
  }

  lemma NamedToOneMore(m: Merge, n: nat)
    requires Fits(m) && DistinctLibraries(m.libraries) && n < |m.libraries| && NamedTo(m, n)
    ensures NamedTo(m, n + 1)
  {
    var l := m.libraries[n];
    KeysAfter(m, n);
    LastNames(m.libraries, n, m.destination, m.Before());
    LastNames(m.After(), n, m.destination, m.Since());
    EitherOneMore(
      Namer(Under(m.libraries[..n], m.destination, m.Before()), m.Before()),
      Namer(Under(m.After()[..n], m.destination, m.Since()), m.Since()), l, m.After()[n],
      m.Before(), m.Since(), m.name,
      KeyIn(l, m.Before()) == m.source, KeyIn(l, m.Before()) == m.destination, Strays(m, l));
  }

  lemma UnionNamer(m: Merge)
    requires Fits(m) && DistinctLibraries(m.libraries)
    ensures
      NamedByEither(
        Namer(Under(m.libraries, m.destination, m.Before()), m.Before()),
        Namer(Under(m.After(), m.destination, m.Since()), m.Since()), m.Since(), m.name)
  {
    for n := 0 to |m.libraries|
      invariant NamedTo(m, n)
    {
      NamedToOneMore(m, n);
    }
    assert m.After()[..|m.libraries|] == m.After() && m.libraries[..|m.libraries|] == m.libraries;
  }

  ghost predicate JoinsLibraries(u: Category, s: Category, d: Category, strays: seq<Library>) {
    && |u.libraryIds| == |s.libraryIds| + |d.libraryIds| + |strays|
    && (forall id :: id in u.libraryIds <==> id in s.libraryIds || id in d.libraryIds || id in Ids(strays))
    && u.itemCount == s.itemCount + d.itemCount + Items(strays)
  }

  ghost predicate JoinsServices(u: Category, s: Category, d: Category, strays: seq<Library>, local: set<Id>) {
    && (forall id :: id in u.serviceIds <==> id in s.serviceIds || id in d.serviceIds || Serves(strays, id))
    && (u.local <==> s.local || d.local || exists service | service in local :: Serves(strays, service))
  }

  /** The lowest of these positions. */
  ghost predicate IsLowest(u: int, s: int, d: int, strays: seq<Library>) {
    && (u == s || u == d || exists l | l in strays :: l.position == u)
    && u <= s && u <= d && forall l | l in strays :: u <= l.position
  }

  /** The category is the two and the strays as one: every library and item of them, and nothing else. */
  ghost predicate IsUnion(u: Category, s: Category, d: Category, strays: seq<Library>, local: set<Id>) {
    && u.key == d.key && Trim(u.name) == Trim(d.name)
    && JoinsLibraries(u, s, d, strays) && JoinsServices(u, s, d, strays, local)
    && IsLowest(u.position, s.position, d.position, strays)
  }

  predicate AsOne(l: Library, v: Library) {
    l.id == v.id && l.service == v.service && l.position == v.position
  }

  ghost function IdsOf(libraries: seq<Library>): set<Id> { set l | l in libraries :: l.id }
  ghost function ServicesOf(libraries: seq<Library>): set<Id> { set l | l in libraries :: l.service }
  ghost function PositionsOf(libraries: seq<Library>): set<int> { set l | l in libraries :: l.position }

  /** The libraries of the one list are those of the three, renamed or not. */
  ghost predicate Matches(u: seq<Library>, s: seq<Library>, d: seq<Library>, t: seq<Library>) {
    && IdsOf(u) == IdsOf(s) + IdsOf(d) + IdsOf(t)
    && ServicesOf(u) == ServicesOf(s) + ServicesOf(d) + ServicesOf(t)
    && PositionsOf(u) == PositionsOf(s) + PositionsOf(d) + PositionsOf(t)
  }

  predicate Joins(m: Merge, l: Library) {
    KeyIn(l, m.Before()) == m.source || KeyIn(l, m.Before()) == m.destination || Strays(m, l)
  }

  lemma Comes(m: Merge, v: Library) returns (l: Library)
    requires Fits(m) && DistinctLibraries(m.libraries) && v in Under(m.After(), m.destination, m.Since())
    ensures AsOne(l, v) && l in m.libraries && Joins(m, l)
  {
    var i :| 0 <= i < |m.After()| && m.After()[i] == v;
    l := m.libraries[i];
    KeysAfter(m, i);
  }

  lemma Goes(m: Merge, l: Library) returns (v: Library)
    requires Fits(m) && DistinctLibraries(m.libraries) && l in m.libraries && Joins(m, l)
    ensures AsOne(l, v) && v in Under(m.After(), m.destination, m.Since())
  {
    var i :| 0 <= i < |m.libraries| && m.libraries[i] == l;
    v := m.After()[i];
    KeysAfter(m, i);
    assert v in m.After();
  }

  lemma UnionHas(m: Merge, part: seq<Library>)
    requires Fits(m) && DistinctLibraries(m.libraries)
    requires forall l | l in part :: l in m.libraries && Joins(m, l)
    ensures
      var u := Under(m.After(), m.destination, m.Since());
      IdsOf(part) <= IdsOf(u) && ServicesOf(part) <= ServicesOf(u) && PositionsOf(part) <= PositionsOf(u)
  {
    var u := Under(m.After(), m.destination, m.Since());
    forall l | l in part
      ensures Has(u, l)
    {
      var v := Goes(m, l);
      HasOne(u, v);
    }
    HasAll(u, part);
  }

  lemma ComesFromOne(m: Merge, v: Library)
    requires Fits(m) && DistinctLibraries(m.libraries) && v in Under(m.After(), m.destination, m.Since())
    ensures Has(Under(m.libraries, m.source, m.Before()), v) || Has(Under(m.libraries, m.destination, m.Before()), v)
        || Has(StraysOf(m), v)
  {
    var l := Comes(m, v);
  }

  lemma UnionMatches(m: Merge)
    requires Fits(m) && DistinctLibraries(m.libraries)
    ensures Matches(
              Under(m.After(), m.destination, m.Since()), Under(m.libraries, m.source, m.Before()),
              Under(m.libraries, m.destination, m.Before()), StraysOf(m))
  {
    UnionHas(m, Under(m.libraries, m.source, m.Before()));
    UnionHas(m, Under(m.libraries, m.destination, m.Before()));
    UnionHas(m, StraysOf(m));
    UnionHasNoOther(m);
  }

  lemma UnionHasNoOther(m: Merge)
    requires Fits(m) && DistinctLibraries(m.libraries)
    ensures
      var u, s, d, t := Under(m.After(), m.destination, m.Since()), Under(m.libraries, m.source, m.Before()),
        Under(m.libraries, m.destination, m.Before()), StraysOf(m);
      && IdsOf(u) <= IdsOf(s) + IdsOf(d) + IdsOf(t)
      && ServicesOf(u) <= ServicesOf(s) + ServicesOf(d) + ServicesOf(t)
      && PositionsOf(u) <= PositionsOf(s) + PositionsOf(d) + PositionsOf(t)
  {
    var u, s, d, t := Under(m.After(), m.destination, m.Since()), Under(m.libraries, m.source, m.Before()),
      Under(m.libraries, m.destination, m.Before()), StraysOf(m);
    forall v | v in u
      ensures Has(s, v) || Has(d, v) || Has(t, v)
    {
      ComesFromOne(m, v);
    }
    HasNoOther(u, s, d, t);
  }

  /** Some library of the list is this one, renamed or not. */
  ghost predicate Has(libraries: seq<Library>, l: Library) {
    l.id in IdsOf(libraries) && l.service in ServicesOf(libraries) && l.position in PositionsOf(libraries)
  }

  lemma HasOne(libraries: seq<Library>, l: Library)
    requires l in libraries
    ensures Has(libraries, l)
  {
  }

  lemma HasAll(u: seq<Library>, s: seq<Library>)
    requires forall l | l in s :: Has(u, l)
    ensures IdsOf(s) <= IdsOf(u) && ServicesOf(s) <= ServicesOf(u) && PositionsOf(s) <= PositionsOf(u)
  {
  }

  lemma HasNoOther(u: seq<Library>, s: seq<Library>, d: seq<Library>, t: seq<Library>)
    requires forall v | v in u :: Has(s, v) || Has(d, v) || Has(t, v)
    ensures IdsOf(u) <= IdsOf(s) + IdsOf(d) + IdsOf(t)
    ensures ServicesOf(u) <= ServicesOf(s) + ServicesOf(d) + ServicesOf(t)
    ensures PositionsOf(u) <= PositionsOf(s) + PositionsOf(d) + PositionsOf(t)
  {
  }

  lemma InIds(libraries: seq<Library>, id: Id)
    ensures id in Ids(libraries) <==> exists l | l in libraries :: l.id == id
  {
    if l :| l in libraries && l.id == id {
      var i :| 0 <= i < |libraries| && libraries[i] == l;
      assert Ids(libraries)[i] == id;
    }
    if id in Ids(libraries) {
      var i :| 0 <= i < |Ids(libraries)| && Ids(libraries)[i] == id;
      assert libraries[i] in libraries;
    }
  }

  lemma MatchedIds(u: seq<Library>, s: seq<Library>, d: seq<Library>, t: seq<Library>, id: Id)
    requires Matches(u, s, d, t)
    ensures id in Ids(u) <==> id in Ids(s) || id in Ids(d) || id in Ids(t)
  {
    assert id in IdsOf(u) <==> id in IdsOf(s) || id in IdsOf(d) || id in IdsOf(t);
    InIds(u, id);
    InIds(s, id);
    InIds(d, id);
    InIds(t, id);
  }

  lemma MatchedServes(u: seq<Library>, s: seq<Library>, d: seq<Library>, t: seq<Library>, service: Id)
    requires Matches(u, s, d, t)
    ensures Serves(u, service) <==> Serves(s, service) || Serves(d, service) || Serves(t, service)
  {
    assert service in ServicesOf(u) <==>
        service in ServicesOf(s) || service in ServicesOf(d) || service in ServicesOf(t);
  }

  lemma MatchedServed(
    c: Category, e: Category, f: Category, u: seq<Library>, s: seq<Library>, d: seq<Library>, t: seq<Library>,
    local: set<Id>)
    requires Matches(u, s, d, t) && Served(c, u, local) && Served(e, s, local) && Served(f, d, local)
    ensures JoinsServices(c, e, f, t, local)
  {
    forall service: Id
      ensures Serves(u, service) <==> Serves(s, service) || Serves(d, service) || Serves(t, service)
    {
      MatchedServes(u, s, d, t, service);
    }
  }

  lemma LowestOf(x: int, libraries: seq<Library>)
    requires Lowest(x, libraries)
    ensures x in PositionsOf(libraries) && forall y | y in PositionsOf(libraries) :: x <= y
  {
  }

  lemma MatchedPositions(u: seq<Library>, s: seq<Library>, d: seq<Library>, t: seq<Library>, x: int, y: int, z: int)
    requires Matches(u, s, d, t) && Lowest(x, u) && Lowest(y, s) && Lowest(z, d)
    ensures IsLowest(x, y, z, t)
  {
    LowestOf(x, u);
    LowestOf(y, s);
    LowestOf(z, d);
    forall l | l in t
      ensures x <= l.position
    {
      assert l.position in PositionsOf(t);
    }
    if x in PositionsOf(t) {
      var l :| l in t && l.position == x;
    }
  }

  lemma MatchedLibraries(
    c: Category, e: Category, f: Category, u: seq<Library>, s: seq<Library>, d: seq<Library>, t: seq<Library>)
    requires Matches(u, s, d, t) && |u| == |s| + |d| + |t| && Items(u) == Items(s) + Items(d) + Items(t)
    requires c.libraryIds == Ids(u) && e.libraryIds == Ids(s) && f.libraryIds == Ids(d)
    requires c.itemCount == Items(u) && e.itemCount == Items(s) && f.itemCount == Items(d)
    ensures JoinsLibraries(c, e, f, t)
  {
    forall id
      ensures id in c.libraryIds <==> id in e.libraryIds || id in f.libraryIds || id in Ids(t)
    {
      MatchedIds(u, s, d, t, id);
    }
  }

  /** The destination becomes exactly the union of the two, and of what strays into it. */
  lemma DestinationIsTheUnion(m: Merge, local: set<Id>)
    requires Fits(m) && DistinctLibraries(m.libraries)
    requires Under(m.libraries, m.source, m.Before()) != [] && Under(m.libraries, m.destination, m.Before()) != []
    requires m.name == Trim(CategoryOf(m.libraries, m.destination, m.Before(), local).name)
    ensures Under(m.After(), m.destination, m.Since()) != []
    ensures IsUnion(
              CategoryOf(m.After(), m.destination, m.Since(), local),
              CategoryOf(m.libraries, m.source, m.Before(), local),
              CategoryOf(m.libraries, m.destination, m.Before(), local), StraysOf(m), local)
  {
    var u, s, d := Under(m.After(), m.destination, m.Since()), Under(m.libraries, m.source, m.Before()),
      Under(m.libraries, m.destination, m.Before());
    UnionIsNamed(m, local);
    var c, e, f := BandOf(u, m.Since(), local).category, BandOf(s, m.Before(), local).category,
      BandOf(d, m.Before(), local).category;
    BandDescribes(u, m.Since(), local);
    BandDescribes(s, m.Before(), local);
    BandDescribes(d, m.Before(), local);
    assert c.key == f.key by { assert u[0] in u && d[0] in d; }
    UnionMatches(m);
    MatchedServed(c, e, f, u, s, d, StraysOf(m), local);
    MatchedPositions(u, s, d, StraysOf(m), c.position, e.position, f.position);
    UnionCounts(m);
    MatchedLibraries(c, e, f, u, s, d, StraysOf(m));
  }

  lemma UnionIsNamed(m: Merge, local: set<Id>)
    requires Fits(m) && DistinctLibraries(m.libraries)
    requires Under(m.libraries, m.source, m.Before()) != [] && Under(m.libraries, m.destination, m.Before()) != []
    requires m.name == Trim(CategoryOf(m.libraries, m.destination, m.Before(), local).name)
    ensures Under(m.After(), m.destination, m.Since()) != []
    ensures Trim(CategoryOf(m.After(), m.destination, m.Since(), local).name) == m.name
  {
    var u, d := Under(m.After(), m.destination, m.Since()), Under(m.libraries, m.destination, m.Before());
    UnionNamer(m);
    SourceLibrariesName(m);
    BandIsNamed(u, m.Since(), local);
    BandIsNamed(d, m.Before(), local);
    var now := Namer(u, m.Since());
    if now == Namer(d, m.Before()) {
      var i :| 0 <= i < |m.libraries| && m.libraries[i] == now.value;
      KeysAfter(m, i);
    } else {
      assert ReadingOf(now.value, m.Since()).name == m.name;
    }
  }

  /** A renamed library may name the category it joins. */
  lemma SourceLibrariesName(m: Merge)
    requires Fits(m) && DistinctLibraries(m.libraries) && Under(m.libraries, m.source, m.Before()) != []
    ensures Namer(Under(m.After(), m.destination, m.Since()), m.Since()).Some?
  {
    var s := Under(m.libraries, m.source, m.Before());
    assert s[0] in s;
    var i :| 0 <= i < |m.libraries| && m.libraries[i] == s[0];
    KeysAfter(m, i);
    assert m.After()[i] in m.After();
    assert m.After()[i] in Under(m.After(), m.destination, m.Since());
  }

  // ------------------------------------------------------------------------------- its kind

  /** The destination has a library entitled to name it that stands before all the source's. */
  predicate NamesOnAfterwards(m: Merge, first: Library) {
    var namer := Namer(Under(m.libraries, m.destination, m.Before()), m.Before());
    namer.Some? && namer.value.position < first.position
  }

  /** Who may name the union: every library renamed, and whoever could name the destination. */
  lemma NamersOfTheUnion(m: Merge)
    requires Fits(m) && DistinctLibraries(m.libraries)
    ensures
      var s, d, u := Under(m.libraries, m.source, m.Before()), Under(m.libraries, m.destination, m.Before()),
        Under(m.After(), m.destination, m.Since());
      && (forall l | l in s :: m.Of(l) in u && ReadingOf(m.Of(l), m.Since()) == Reading(m.name, l.kind, true))
      && (forall l | l in d && ReadingOf(l, m.Before()).names ::
            l in u && ReadingOf(l, m.Since()) == ReadingOf(l, m.Before()))
      && (forall n | n in u && ReadingOf(n, m.Since()).names ::
            (exists l | l in s :: n == m.Of(l)) || (n in d && ReadingOf(n, m.Before()).names))
  {
    var s, d, u := Under(m.libraries, m.source, m.Before()), Under(m.libraries, m.destination, m.Before()),
      Under(m.After(), m.destination, m.Since());
    forall l | l in s || l in d
      ensures m.Of(l) in u
      ensures l in s ==> ReadingOf(m.Of(l), m.Since()) == Reading(m.name, l.kind, true)
      ensures l in d ==> m.Of(l) == l && (ReadingOf(l, m.Since()).names <==> ReadingOf(l, m.Before()).names)
      ensures l in d && ReadingOf(l, m.Before()).names ==> ReadingOf(l, m.Since()) == ReadingOf(l, m.Before())
    {
      NamesAsBefore(m, l);
    }
    forall n | n in u && ReadingOf(n, m.Since()).names
      ensures (exists l | l in s :: n == m.Of(l)) || (n in d && ReadingOf(n, m.Before()).names)
    {
      var i :| 0 <= i < |m.After()| && m.After()[i] == n;
      assert n == m.Of(m.libraries[i]);
      KeysAfter(m, i);
    }
  }

  lemma NamesAsBefore(m: Merge, l: Library)
    requires Fits(m) && DistinctLibraries(m.libraries) && l in m.libraries
    requires KeyIn(l, m.Before()) == m.source || KeyIn(l, m.Before()) == m.destination
    ensures m.Of(l) in Under(m.After(), m.destination, m.Since())
    ensures KeyIn(l, m.Before()) == m.source ==> ReadingOf(m.Of(l), m.Since()) == Reading(m.name, l.kind, true)
    ensures KeyIn(l, m.Before()) == m.destination ==>
              m.Of(l) == l && (ReadingOf(l, m.Since()).names <==> ReadingOf(l, m.Before()).names)
    ensures KeyIn(l, m.Before()) == m.destination && ReadingOf(l, m.Before()).names ==>
              ReadingOf(l, m.Since()) == ReadingOf(l, m.Before())
  {
    var i :| 0 <= i < |m.libraries| && m.libraries[i] == l;
    assert m.After()[i] == m.Of(l);
    KeysAfter(m, i);
  }

  ghost predicate StandsFirst(first: Option<Library>, these: set<Library>) {
    if first.None? then these == {}
    else first.value in these && forall l | l in these :: first.value.position <= l.position
  }

  lemma FirstOfEither(these: set<Library>, those: set<Library>, a: Option<Library>, b: Library, c: Option<Library>)
    requires StandsFirst(a, these) && StandsFirst(Some(b), those) && StandsFirst(c, these + those)
    requires forall l, n | l in these + those && n in these + those && l.position == n.position :: l == n
    ensures c == if a.Some? && a.value.position < b.position then a else Some(b)
  {
  }

  /** Whoever named the destination, and the source's libraries renamed. */
  ghost function Entitled(m: Merge): set<Library> {
    set l | l in Under(m.libraries, m.destination, m.Before()) && ReadingOf(l, m.Before()).names
  }

  ghost function NewlyEntitled(m: Merge): set<Library> {
    set l | l in Under(m.libraries, m.source, m.Before()) :: m.Of(l)
  }

  lemma EntitledStandApart(m: Merge)
    requires Fits(m) && DistinctPositions(m.libraries)
    ensures
      var all := Entitled(m) + NewlyEntitled(m);
      forall l, n | l in all && n in all && l.position == n.position :: l == n
  {
    var all := Entitled(m) + NewlyEntitled(m);
    forall l, n | l in all && n in all && l.position == n.position
      ensures l == n
    {
      var x := Origin(m, l);
      var y := Origin(m, n);
      assert x == y;
    }
  }

  lemma Origin(m: Merge, l: Library) returns (was: Library)
    requires Fits(m) && l in Entitled(m) + NewlyEntitled(m)
    ensures was in m.libraries && was.position == l.position
    ensures if KeyIn(was, m.Before()) == m.source then l == m.Of(was) else l == was
  {
    if l in NewlyEntitled(m) {
      was :| was in Under(m.libraries, m.source, m.Before()) && l == m.Of(was);
    } else {
      was := l;
      assert KeyIn(was, m.Before()) == m.destination;
    }
  }

  lemma NamerOfTheUnion(m: Merge)
    requires Fits(m) && DistinctLibraries(m.libraries)
    ensures StandsFirst(Namer(Under(m.After(), m.destination, m.Since()), m.Since()), Entitled(m) + NewlyEntitled(m))
  {
    NamersOfTheUnion(m);
    var u := Under(m.After(), m.destination, m.Since());
    assert forall n :: n in Entitled(m) + NewlyEntitled(m) <==> n in u && ReadingOf(n, m.Since()).names;
  }

  lemma FirstOfTheSource(m: Merge, first: Library)
    requires first in Under(m.libraries, m.source, m.Before())
        && Lowest(first.position, Under(m.libraries, m.source, m.Before()))
    ensures StandsFirst(Some(m.Of(first)), NewlyEntitled(m))
  {
    forall l | l in NewlyEntitled(m)
      ensures m.Of(first).position <= l.position
    {
      var was :| was in Under(m.libraries, m.source, m.Before()) && l == m.Of(was);
    }
  }

  lemma NamerOfTheDestination(m: Merge)
    ensures StandsFirst(Namer(Under(m.libraries, m.destination, m.Before()), m.Before()), Entitled(m))
  {
  }

  /** The library that names the union is the source's first, or the one that named the destination. */
  lemma UnionNamedBy(m: Merge, first: Library)
    requires Fits(m) && DistinctLibraries(m.libraries) && DistinctPositions(m.libraries)
    requires first in Under(m.libraries, m.source, m.Before())
        && Lowest(first.position, Under(m.libraries, m.source, m.Before()))
    ensures
      Namer(Under(m.After(), m.destination, m.Since()), m.Since()) ==
        if NamesOnAfterwards(m, first) then Namer(Under(m.libraries, m.destination, m.Before()), m.Before())
        else Some(m.Of(first))
  {
    EntitledStandApart(m);
    FirstOfTheSource(m, first);
    NamerOfTheDestination(m);
    NamerOfTheUnion(m);
    FirstOfEither(
      Entitled(m), NewlyEntitled(m), Namer(Under(m.libraries, m.destination, m.Before()), m.Before()), m.Of(first),
      Namer(Under(m.After(), m.destination, m.Since()), m.Since()));
  }

  /**
   * The kind of the destination outlives the merge only while a library of its own names it
   * and stands before all of the source's. Otherwise the union is of the kind of the
   * source's first library, and no longer of the kind somebody merged into.
   */
  lemma KindAfterMerge(m: Merge, local: set<Id>, first: Library)
    requires Fits(m) && DistinctLibraries(m.libraries) && DistinctPositions(m.libraries)
    requires first in Under(m.libraries, m.source, m.Before())
        && Lowest(first.position, Under(m.libraries, m.source, m.Before()))
    requires Under(m.libraries, m.destination, m.Before()) != []
    ensures Under(m.After(), m.destination, m.Since()) != []
    ensures CategoryOf(m.After(), m.destination, m.Since(), local).kind ==
            if NamesOnAfterwards(m, first) then CategoryOf(m.libraries, m.destination, m.Before(), local).kind
            else first.kind
  {
    UnionNamedBy(m, first);
    NamersOfTheUnion(m);
    BandIsNamed(Under(m.After(), m.destination, m.Since()), m.Since(), local);
    BandIsNamed(Under(m.libraries, m.destination, m.Before()), m.Before(), local);
  }

  const FILMS := Library(1, 7, "a", None, 0, 2, 0)
  const SHOWS := Library(2, 7, "b", None, 1, 1, 0)
  const SHOWS_INTO_FILMS := Merge([FILMS, SHOWS], [], "b", "a", "a")

  lemma TwoLetters()
    ensures KeyOf("a") == "a" && KeyOf("b") == "b" && Trim("a") == "a"
    ensures SHOWS_INTO_FILMS.Before() == map[] && SHOWS_INTO_FILMS.Since() == map[]
  {
    KeyOfLetter('a');
    KeyOfLetter('b');
  }

  lemma FilmsAndShowsApart()
    ensures Under([FILMS, SHOWS], "a", map[]) == [FILMS] && Under([FILMS, SHOWS], "b", map[]) == [SHOWS]
  {
    TwoLetters();
    var both := [FILMS, SHOWS];
    assert both[..1] == [FILMS] && both[..1][..0] == [];
    assert Under(both[..1], "a", map[]) == [FILMS] && Under(both[..1], "b", map[]) == [];
  }

  lemma FilmsAndShows()
    ensures
      var m := SHOWS_INTO_FILMS;
      && Fits(m) && DistinctLibraries(m.libraries) && DistinctPositions(m.libraries) && NoneStrays(m)
      && Under(m.libraries, "a", m.Before()) == [FILMS] && Under(m.libraries, "b", m.Before()) == [SHOWS]
  {
    TwoLetters();
    FilmsAndShowsApart();
  }

  /** A category of one kind, merged into one of another that stands below it, hands on its own. */
  lemma AKindLost(local: set<Id>)
    ensures
      var m := SHOWS_INTO_FILMS;
      && Fits(m) && DistinctLibraries(m.libraries) && DistinctPositions(m.libraries) && NoneStrays(m)
      && Under(m.libraries, "a", m.Before()) != [] && Under(m.After(), "a", m.Since()) != []
      && CategoryOf(m.libraries, "a", m.Before(), local).kind == 0
      && CategoryOf(m.After(), "a", m.Since(), local).kind == 1
  {
    FilmsAndShows();
    TwoLetters();
    KindAfterMerge(SHOWS_INTO_FILMS, local, SHOWS);
    assert [FILMS][..0] == [] && Namer([FILMS], map[]) == Some(FILMS);
  }
}
