/**
 * The library manager, step by step: the fold that makes categories of the rows, and the
 * rewrite that makes one category read as another (`library.manager.ts`).
 */
module LibraryManager {
  import opened Options
  import opened CategoryKeys
  import opened Categories
  import opened CategoryFolding
  import opened CategoryOrder
  import opened CategoryMerging

  function KeyedIn(cs: seq<Category>, key: string): (r: Option<Category>)
    ensures r.Some? ==> r.value in cs && r.value.key == key
    ensures r.None? ==> forall c | c in cs :: c.key != key
  {
    if cs == [] then None else if cs[0].key == key then Some(cs[0]) else KeyedIn(cs[1..], key)
  }

  function Holding(cs: seq<Category>, id: Id): (r: Option<Category>)
    ensures r.Some? ==> r.value in cs && id in r.value.libraryIds
    ensures r.None? ==> forall c | c in cs :: id !in c.libraryIds
  {
    if cs == [] then None else if id in cs[0].libraryIds then Some(cs[0]) else Holding(cs[1..], id)
  }

  /** What a merge will write, or nothing for a request that is refused. */
  function Plan(
    libraries: seq<Library>, keywords: seq<Keyword>, local: set<Id>, collate: string -> real, key: string,
    id: Id): Option<Merge>
  {
    var shown := Shown(libraries, keywords, local, collate);
    var source, destination, target := KeyedIn(shown, key), Holding(shown, id), Find(libraries, id);
    if destination.None? || source.None? || destination.value.key == source.value.key then None
    else if Trim(destination.value.name) == "" then None
    else if target.None? || target.value.service !in local then None
    else Some(Merge(libraries, keywords, source.value.key, destination.value.key, Trim(destination.value.name)))
  }

  /** A category is the one its own name belongs to, spaces or not. */
  lemma NameOfKey(c: Category, libraries: seq<Library>, filed: Filings, local: set<Id>)
    requires IsWhole(c, libraries, filed, local)
    ensures KeyOf(Trim(c.name)) == c.key && Trim(Trim(c.name)) == Trim(c.name)
  {
    var under := Under(libraries, c.key, filed);
    assert under[0] in under && NamedAfter(under, filed) in under;
    KeyOfTrimmed(c.name);
    TrimTwice(c.name);
  }

  lemma WholeIsTheCategory(c: Category, libraries: seq<Library>, filed: Filings, local: set<Id>)
    requires IsWhole(c, libraries, filed, local)
    ensures Under(libraries, c.key, filed) != []
    ensures c == CategoryOf(libraries, c.key, filed, local) && c.libraryIds == Ids(Under(libraries, c.key, filed))
  {
  }

  lemma PlanFits(
    libraries: seq<Library>, keywords: seq<Keyword>, local: set<Id>, collate: string -> real, key: string, id: Id,
    m: Merge)
    returns (s: Category, d: Category)
    requires Plan(libraries, keywords, local, collate, key, id) == Some(m)
    ensures Fits(m) && m.libraries == libraries && m.keywords == keywords && m.source == key
    ensures Under(libraries, m.source, m.Before()) != [] && Under(libraries, m.destination, m.Before()) != []
    ensures s == CategoryOf(libraries, m.source, m.Before(), local)
        && d == CategoryOf(libraries, m.destination, m.Before(), local)
    ensures
      var shown := Shown(libraries, keywords, local, collate);
      && KeyedIn(shown, key) == Some(s) && Holding(shown, id) == Some(d)
    ensures s.key == m.source && d.key == m.destination && m.name == Trim(d.name) && m.SourceIds() == s.libraryIds
    ensures d.libraryIds == Ids(Under(libraries, m.destination, m.Before()))
  {
    var shown := Shown(libraries, keywords, local, collate);
    s, d := KeyedIn(shown, key).value, Holding(shown, id).value;
    assert IsWhole(s, libraries, m.Before(), local) && IsWhole(d, libraries, m.Before(), local) by {
      ShownAre(libraries, keywords, local, collate);
    }
    WholeIsTheCategory(s, libraries, m.Before(), local);
    WholeIsTheCategory(d, libraries, m.Before(), local);
    NameOfKey(d, libraries, m.Before(), local);
  }

  /** The destination library is not one of those renamed. */
  lemma DestinationIsKept(m: Merge, id: Id)
    requires DistinctLibraries(m.libraries) && m.source != m.destination
    requires id in Ids(Under(m.libraries, m.destination, m.Before()))
    ensures id !in m.SourceIds()
  {
    InIds(Under(m.libraries, m.destination, m.Before()), id);
    var l :| l in Under(m.libraries, m.destination, m.Before()) && l.id == id;
    OneOfUnder(m.libraries, m.source, m.Before(), l);
  }

  /** Every category but the two is what its libraries make once its strays have left it. */
  ghost predicate LoseTheirStrays(m: Merge, local: set<Id>, after: seq<Category>) {
    forall c: Category | c.key != m.source && c.key != m.destination ::
      c in after <==> Staying(m, c.key) != [] && c == BandOf(Staying(m, c.key), m.Before(), local).category
  }

  /**
   * What a merge that writes does: the source category disappears, the destination is
   * exactly the two and the strays, every other category loses its strays and nothing else,
   * and no item is lost.
   */
  lemma MergingTakesItsStrays(
    libraries: seq<Library>, keywords: seq<Keyword>, local: set<Id>, collate: string -> real, key: string, id: Id,
    m: Merge)
    requires DistinctLibraries(libraries) && Plan(libraries, keywords, local, collate, key, id) == Some(m)
    ensures
      var before := Shown(libraries, keywords, local, collate);
      var after := Shown(m.After(), keywords, local, collate);
      && (forall c | c in after :: c.key != key)
      && (exists s, d, u | s in before && d in before && u in after ::
            s.key == key && id in d.libraryIds && IsUnion(u, s, d, StraysOf(m), local))
      && LoseTheirStrays(m, local, after)
      && Total(after) == Total(before)
  {
    var s, d := PlanFits(libraries, keywords, local, collate, key, id, m);
    assert forall c | c in Shown(m.After(), keywords, local, collate) :: c.key != key by {
      SourceIsGone(m);
      ShownAre(m.After(), keywords, local, collate);
    }
    var u := UnionIsShown(m, local, collate);
    OthersShown(m, local, collate);
    ItemsAreConserved(libraries, keywords, local, collate);
    ItemsAreConserved(m.After(), keywords, local, collate);
    SameItemsRenamed(libraries, m.SourceIds(), m.name);
  }

  lemma UnionIsShown(m: Merge, local: set<Id>, collate: string -> real) returns (u: Category)
    requires Fits(m) && DistinctLibraries(m.libraries)
    requires Under(m.libraries, m.source, m.Before()) != [] && Under(m.libraries, m.destination, m.Before()) != []
    requires m.name == Trim(CategoryOf(m.libraries, m.destination, m.Before(), local).name)
    ensures u in Shown(m.After(), m.keywords, local, collate)
    ensures IsUnion(
              u, CategoryOf(m.libraries, m.source, m.Before(), local),
              CategoryOf(m.libraries, m.destination, m.Before(), local), StraysOf(m), local)
  {
    DestinationIsTheUnion(m, local);
    u := CategoryOf(m.After(), m.destination, m.Since(), local);
    assert u.key == m.destination by {
      var under := Under(m.After(), m.destination, m.Since());
      BandDescribes(under, m.Since(), local);
      assert under[0] in under;
    }
    ShownOf(m.After(), m.keywords, local, collate, u);
  }

  lemma OthersShown(m: Merge, local: set<Id>, collate: string -> real)
    requires Fits(m) && DistinctLibraries(m.libraries)
    ensures LoseTheirStrays(m, local, Shown(m.After(), m.keywords, local, collate))
  {
    forall c: Category | c.key != m.source && c.key != m.destination
      ensures c in Shown(m.After(), m.keywords, local, collate) <==>
              Staying(m, c.key) != [] && c == BandOf(Staying(m, c.key), m.Before(), local).category
    {
      OthersLoseTheirStrays(m, local, c.key);
      ShownOf(m.After(), m.keywords, local, collate, c);
    }
  }

  lemma ShownOf(libraries: seq<Library>, keywords: seq<Keyword>, local: set<Id>, collate: string -> real, c: Category)
    ensures
      var filed := Filed(libraries, keywords);
      c in Shown(libraries, keywords, local, collate) <==>
        Under(libraries, c.key, filed) != [] && c == CategoryOf(libraries, c.key, filed, local)
  {
    ShownAre(libraries, keywords, local, collate);
  }

  /** With no strays, the merge joins the two categories and leaves every other one as it was. */
  lemma MergingJoinsExactlyTwo(
    libraries: seq<Library>, keywords: seq<Keyword>, local: set<Id>, collate: string -> real, key: string, id: Id,
    m: Merge)
    requires DistinctLibraries(libraries) && Plan(libraries, keywords, local, collate, key, id) == Some(m)
    requires NoneStrays(m)
    ensures
      var before := Shown(libraries, keywords, local, collate);
      var after := Shown(m.After(), keywords, local, collate);
      && (forall c | c in after :: c.key != key)
      && (exists s, d, u | s in before && d in before && u in after ::
            s.key == key && id in d.libraryIds && IsUnion(u, s, d, [], local))
      && (forall c: Category | c.key != key && c.key != m.destination :: c in before <==> c in after)
      && Total(after) == Total(before)
  {
    MergingTakesItsStrays(libraries, keywords, local, collate, key, id, m);
    var s, d := PlanFits(libraries, keywords, local, collate, key, id, m);
    AllStay(m, libraries, key);
    OthersStay(m, local, collate);
  }

  lemma OthersStay(m: Merge, local: set<Id>, collate: string -> real)
    requires NoneStrays(m) && LoseTheirStrays(m, local, Shown(m.After(), m.keywords, local, collate))
    ensures
      forall c: Category | c.key != m.source && c.key != m.destination ::
        c in Shown(m.libraries, m.keywords, local, collate) <==> c in Shown(m.After(), m.keywords, local, collate)
  {
    forall c: Category | c.key != m.source && c.key != m.destination
      ensures c in Shown(m.libraries, m.keywords, local, collate) <==> c in Shown(m.After(), m.keywords, local, collate)
    {
      AllStay(m, m.libraries, c.key);
      ShownOf(m.libraries, m.keywords, local, collate, c);
    }
  }

  lemma {:induction false} SameItemsRenamed(libraries: seq<Library>, ids: seq<Id>, name: string)
    ensures Items(Renamed(libraries, ids, name)) == Items(libraries)
  {
    if libraries != [] {
      var n := |libraries| - 1;
      SameItemsRenamed(libraries[..n], ids, name);
      assert Renamed(libraries, ids, name)[..n] == Renamed(libraries[..n], ids, name);
    }
  }

  // ---------------------------------------------------------------------- step by step

  lemma UnderOneMore(libraries: seq<Library>, l: Library, key: string, filed: Filings)
    ensures Under(libraries + [l], key, filed) ==
            Under(libraries, key, filed) + if KeyIn(l, filed) == key then [l] else []
  {
    assert (libraries + [l])[..|libraries|] == libraries;
  }

  lemma KeysOneMore(libraries: seq<Library>, l: Library, filed: Filings)
    ensures
      var before := Keys(libraries, filed);
      Keys(libraries + [l], filed) == if KeyIn(l, filed) in before then before else before + [KeyIn(l, filed)]
  {
    assert (libraries + [l])[..|libraries|] == libraries;
  }

  ghost predicate FoldedAt(read: seq<Library>, filed: Filings, local: set<Id>, merged: map<string, Band>, key: string) {
    var under := Under(read, key, filed);
    if under == [] then key !in merged else key in merged && merged[key] == BandOf(under, filed, local)
  }

  /** What the fold has made of the rows read so far. */
  ghost predicate FoldedSoFar(read: seq<Library>, filed: Filings, local: set<Id>, merged: map<string, Band>) {
    forall key :: FoldedAt(read, filed, local, merged, key)
  }

  lemma BandOneMore(under: seq<Library>, l: Library, filed: Filings, local: set<Id>)
    ensures BandOf(under + [l], filed, local) ==
            if under == [] then Begun(l, filed, local) else Joined(BandOf(under, filed, local), l, filed, local)
  {
    assert (under + [l])[..|under|] == under;
  }

  lemma FoldedOneMore(
    read: seq<Library>, l: Library, filed: Filings, local: set<Id>, merged: map<string, Band>, b: Band)
    requires FoldedSoFar(read, filed, local, merged)
    requires
      var key := KeyIn(l, filed);
      b == if key in merged then Joined(merged[key], l, filed, local) else Begun(l, filed, local)
    ensures FoldedSoFar(read + [l], filed, local, merged[KeyIn(l, filed) := b])
  {
    var more, joined := read + [l], merged[KeyIn(l, filed) := b];
    forall k
      ensures FoldedAt(more, filed, local, joined, k)
    {
      assert FoldedAt(read, filed, local, merged, k);
      UnderOneMore(read, l, k, filed);
      if k == KeyIn(l, filed) {
        BandOneMore(Under(read, k, filed), l, filed, local);
      } else {
        assert Under(more, k, filed) == Under(read, k, filed);
      }
    }
  }

  /** The map, in the order its keys were first met. */
  ghost predicate FoldedInOrder(
    read: seq<Library>, filed: Filings, local: set<Id>, merged: map<string, Band>, order: seq<string>)
  {
    FoldedSoFar(read, filed, local, merged) && order == Keys(read, filed)
  }

  lemma FoldedInOrderOneMore(
    libraries: seq<Library>, i: nat, filed: Filings, local: set<Id>, merged: map<string, Band>, order: seq<string>,
    b: Band)
    requires i < |libraries| && FoldedInOrder(libraries[..i], filed, local, merged, order)
    requires
      var key := KeyIn(libraries[i], filed);
      b == if key in merged then Joined(merged[key], libraries[i], filed, local) else Begun(libraries[i], filed, local)
    ensures
      var key := KeyIn(libraries[i], filed);
      FoldedInOrder(
        libraries[..i + 1], filed, local, merged[key := b], if key in merged then order else order + [key])
  {
    var read, l := libraries[..i], libraries[i];
    assert libraries[..i + 1] == read + [l];
    FoldedOneMore(read, l, filed, local, merged, b);
    KeysOneMore(read, l, filed);
    assert FoldedAt(read, filed, local, merged, KeyIn(l, filed));
  }

  /** The values of a map that remembers the order of its keys. */
  function Values(order: seq<string>, merged: map<string, Band>): (r: seq<Category>)
    requires forall key | key in order :: key in merged
    ensures |r| == |order| && forall i | 0 <= i < |r| :: r[i] == merged[order[i]].category
  {
    seq(|order|, i requires 0 <= i < |order| => merged[order[i]].category)
  }

  lemma FoldedValues(
    libraries: seq<Library>, filed: Filings, local: set<Id>, merged: map<string, Band>, order: seq<string>)
    requires FoldedInOrder(libraries, filed, local, merged, order)
    ensures forall key | key in order :: key in merged
    ensures Values(order, merged) == Listed(libraries, filed, local)
  {
    forall key | key in order
      ensures key in merged
    {
      assert FoldedAt(libraries, filed, local, merged, key);
    }
    var values, listed := Values(order, merged), Listed(libraries, filed, local);
    forall i | 0 <= i < |order|
      ensures values[i] == listed[i]
    {
      assert FoldedAt(libraries, filed, local, merged, order[i]);
    }
  }

  class Manager {
    var libraries: seq<Library>
    var keywords: seq<Keyword>
    const local: set<Id>
    const collate: string -> real

    constructor (libraries: seq<Library>, keywords: seq<Keyword>, local: set<Id>, collate: string -> real)
      ensures this.libraries == libraries && this.keywords == keywords && this.local == local && this.collate == collate
    {
      this.libraries, this.keywords, this.local, this.collate := libraries, keywords, local, collate;
    }

    /** The reading each keyword gives, the last of a name winning; one whose library is gone gives none. */
    method FiledByKeyword() returns (filed: map<string, Filing>)
      ensures filed == Filed(libraries, keywords)
    {
      filed := map[];
      for i := 0 to |keywords|
        invariant filed == Filed(libraries, keywords[..i])
      {
        assert keywords[..i + 1][..i] == keywords[..i];
        var anchor := Find(libraries, keywords[i].library);
        if anchor.None? {
          continue;
        }
        var l := anchor.value;
        filed := filed[keywords[i].normalized := Filing(if Aliased(l) then Trim(l.alias.value) else l.name, l.kind)];
      }
      assert keywords[..|keywords|] == keywords;
    }

    /** The category a library is read into, begun with it or with it joined. */
    method Joining(library: Library, filed: map<string, Filing>, merged: map<string, Band>)
      returns (key: string, band: Band)
      ensures key == KeyIn(library, filed)
      ensures band ==
              if key in merged then Joined(merged[key], library, filed, local) else Begun(library, filed, local)
    {
      var name, kind, names := OwnName(library), library.kind, true;
      if !Aliased(library) && KeyOf(library.name) in filed {
        name, kind, names := filed[KeyOf(library.name)].name, filed[KeyOf(library.name)].kind, false;
      }
      var position := library.position;
      key := KeyOf(name);
      if key !in merged {
        return key, Band(
          Category(key, name, kind, position, [library.id], [library.service], library.itemCount,
              library.service in local),
          if names then Some(position) else None);
      }
      var existing, named := merged[key].category, merged[key].namedAt;
      existing := existing.(libraryIds := existing.libraryIds + [library.id]);
      existing := existing.(itemCount := existing.itemCount + library.itemCount);
      existing := existing.(local := existing.local || library.service in local);
      if library.service !in existing.serviceIds {
        existing := existing.(serviceIds := existing.serviceIds + [library.service]);
      }
      if position < existing.position {
        existing := existing.(position := position);
      }
      if names && (named.None? || position < named.value) {
        named := Some(position);
        existing := existing.(name := name, kind := kind);
      }
      return key, Band(existing, named);
    }

    /** One category for each key the libraries read under, in the order they are shown. */
    method Categories() returns (shown: seq<Category>)
      ensures shown == Shown(libraries, keywords, local, collate)
    {
      var filed := FiledByKeyword();
      var merged: map<string, Band> := map[];
      var order: seq<string> := [];
      for i := 0 to |libraries|
        invariant FoldedInOrder(libraries[..i], filed, local, merged, order)
      {
        var key, band := Joining(libraries[i], filed, merged);
        FoldedInOrderOneMore(libraries, i, filed, local, merged, order, band);
        if key !in merged {
          order := order + [key];
        }
        merged := merged[key := band];
      }
      assert libraries[..|libraries|] == libraries;
      FoldedValues(libraries, filed, local, merged, order);
      shown := Sorted(Values(order, merged), collate);
    }

    /** Rename every library of one category after the category of another library, or refuse and write nothing. */
    method MergeCategoryInto(key: string, destinationId: Id) returns (name: Option<string>)
      requires DistinctLibraries(libraries)
      modifies this`libraries
      ensures
        var m := Plan(old(libraries), keywords, local, collate, key, destinationId);
        && name == (if m.Some? then Some(m.value.name) else None)
        && libraries == (if m.Some? then m.value.After() else old(libraries))
    {
      var categories := Categories();
      var destination, source := Holding(categories, destinationId), KeyedIn(categories, key);
      if destination.None? || source.None? || destination.value.key == source.value.key {
        return None;
      }
      var read := Trim(destination.value.name);
      if read == "" {
        return None;
      }
      var target := Find(libraries, destinationId);
      if target.None? || target.value.service !in local {
        return None;
      }
      ghost var m := Merge(libraries, keywords, source.value.key, destination.value.key, read);
      ghost var s, d := PlanFits(libraries, keywords, local, collate, key, destinationId, m);
      DestinationIsKept(m, destinationId);
      var renamed := RenameAll(source.value.libraryIds, destinationId, read);
      SomethingIsRenamed(m);
      return if renamed == 0 then None else Some(read);
    }

    /** Write the name over every one of these rows but the destination. */
    method RenameAll(ids: seq<Id>, destinationId: Id, name: string) returns (renamed: nat)
      requires destinationId !in ids
      modifies this`libraries
      ensures libraries == Renamed(old(libraries), ids, name)
      ensures renamed == 0 <==> forall l | l in old(libraries) :: l.id !in ids
    {
      renamed := 0;
      for i := 0 to |libraries|
        invariant |libraries| == |old(libraries)|
        invariant forall j | 0 <= j < i :: libraries[j] == Rename(old(libraries)[j], ids, name)
        invariant forall j | i <= j < |libraries| :: libraries[j] == old(libraries)[j]
        invariant renamed == 0 <==> forall j | 0 <= j < i :: old(libraries)[j].id !in ids
      {
        var library := libraries[i];
        if library.id !in ids || library.id == destinationId {
          continue;
        }
        libraries := libraries[i := library.(alias := Some(name))];
        renamed := renamed + 1;
      }
    }
  }

  lemma SomethingIsRenamed(m: Merge)
    requires Under(m.libraries, m.source, m.Before()) != []
    ensures exists l | l in m.libraries :: l.id in m.SourceIds()
  {
    var under := Under(m.libraries, m.source, m.Before());
    assert under[0] in under && m.SourceIds()[0] == under[0].id;
  }
}
