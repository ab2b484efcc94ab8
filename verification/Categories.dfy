/**
 * What a library reads as, by its own name or by a keyword, and the fold that makes one
 * category of all that read under one key (`library.manager.ts`).
 */
module Categories {
  import opened Options
  import opened CategoryKeys

  type Id = nat
  type Kind = nat

  datatype Library = Library(
    id: Id, service: Id, name: string, alias: Option<string>, kind: Kind, position: int, itemCount: nat)

  /** Files every library under this name into the category that `library` is in. */
  datatype Keyword = Keyword(library: Id, normalized: string)

  datatype Filing = Filing(name: string, kind: Kind)

  datatype Category = Category(
    key: string, name: string, kind: Kind, position: int,
    libraryIds: seq<Id>, serviceIds: seq<Id>, itemCount: nat, local: bool)

  predicate Aliased(l: Library) {
    l.alias.Some? && Trim(l.alias.value) != ""
  }

  /** How a library reads itself, before any keyword. */
  function OwnName(l: Library): string {
    if Aliased(l) then Trim(l.alias.value) else l.name
  }

  function Find(libraries: seq<Library>, id: Id): (r: Option<Library>)
    ensures r.Some? ==> r.value in libraries && r.value.id == id
    ensures r.None? <==> forall l | l in libraries :: l.id != id
  {
    if libraries == [] then None
    else if libraries[0].id == id then Some(libraries[0])
    else Find(libraries[1..], id)
  }

  /** What each keyword files a library into. A keyword whose library is gone files nothing. */
  function Filed(libraries: seq<Library>, keywords: seq<Keyword>): map<string, Filing> {
    if keywords == [] then map[]
    else
      var before, last := Filed(libraries, keywords[..|keywords| - 1]), keywords[|keywords| - 1];
      var anchor := Find(libraries, last.library);
      if anchor.None? then before
      else before[last.normalized := Filing(OwnName(anchor.value), anchor.value.kind)]
  }

  /** `names` says the library may name its category: nothing folded it. */
  datatype Reading = Reading(name: string, kind: Kind, names: bool)

  function ReadingOf(l: Library, filed: map<string, Filing>): Reading {
    if !Aliased(l) && KeyOf(l.name) in filed then
      Reading(filed[KeyOf(l.name)].name, filed[KeyOf(l.name)].kind, false)
    else Reading(OwnName(l), l.kind, true)
  }

  function KeyIn(l: Library, filed: map<string, Filing>): string {
    KeyOf(ReadingOf(l, filed).name)
  }

  function Under(libraries: seq<Library>, key: string, filed: map<string, Filing>): (r: seq<Library>)
    ensures forall l :: l in r <==> l in libraries && KeyIn(l, filed) == key
  {
    if libraries == [] then []
    else
      var last := libraries[|libraries| - 1];
      Under(libraries[..|libraries| - 1], key, filed) + if KeyIn(last, filed) == key then [last] else []
  }

  // ------------------------------------------------------------------------------ a band

  /** A category in the making, and where the library that named it so far stands, if one did. */
  datatype Band = Band(category: Category, namedAt: Option<int>)

  function Begun(l: Library, filed: map<string, Filing>, local: set<Id>): Band {
    var r := ReadingOf(l, filed);
    Band(
      Category(KeyOf(r.name), r.name, r.kind, l.position, [l.id], [l.service], l.itemCount, l.service in local),
      if r.names then Some(l.position) else None)
  }

  function Joined(b: Band, l: Library, filed: map<string, Filing>, local: set<Id>): Band {
    var r, c := ReadingOf(l, filed), b.category;
    var named := r.names && (b.namedAt.None? || l.position < b.namedAt.value);
    Band(
      c.(libraryIds := c.libraryIds + [l.id],
         itemCount := c.itemCount + l.itemCount,
         local := c.local || l.service in local,
         serviceIds := if l.service in c.serviceIds then c.serviceIds else c.serviceIds + [l.service],
         position := if l.position < c.position then l.position else c.position,
         name := if named then r.name else c.name,
         kind := if named then r.kind else c.kind),
      if named then Some(l.position) else b.namedAt)
  }

  function BandOf(under: seq<Library>, filed: map<string, Filing>, local: set<Id>): Band
    requires under != []
  {
    if |under| == 1 then Begun(under[0], filed, local)
    else Joined(BandOf(under[..|under| - 1], filed, local), under[|under| - 1], filed, local)
  }

  function Ids(libraries: seq<Library>): (r: seq<Id>)
    ensures |r| == |libraries| && forall i | 0 <= i < |r| :: r[i] == libraries[i].id
  {
    seq(|libraries|, i requires 0 <= i < |libraries| => libraries[i].id)
  }

  function Items(libraries: seq<Library>): nat {
    if libraries == [] then 0 else Items(libraries[..|libraries| - 1]) + libraries[|libraries| - 1].itemCount
  }

  /** The lowest-positioned of the libraries that may name the category; the first of those. */
  function Namer(under: seq<Library>, filed: map<string, Filing>): (r: Option<Library>)
    ensures r.Some? ==> r.value in under && ReadingOf(r.value, filed).names
    ensures r.Some? ==> forall l | l in under && ReadingOf(l, filed).names :: r.value.position <= l.position
    ensures r.None? ==> forall l | l in under :: !ReadingOf(l, filed).names
  {
    if under == [] then None
    else
      var before, last := Namer(under[..|under| - 1], filed), under[|under| - 1];
      if ReadingOf(last, filed).names && (before.None? || last.position < before.value.position) then Some(last)
      else before
  }

  /** Whose name a category bears: the first entitled to give one, else the first read. */
  function NamedAfter(under: seq<Library>, filed: map<string, Filing>): Library
    requires under != []
  {
    var namer := Namer(under, filed);
    if namer.Some? then namer.value else under[0]
  }

  predicate Serves(under: seq<Library>, service: Id) {
    exists l | l in under :: l.service == service
  }

  /** What a category says of the services its libraries are on. */
  ghost predicate Served(c: Category, under: seq<Library>, local: set<Id>) {
    && (c.local <==> exists s | s in local :: Serves(under, s))
    && (forall s :: s in c.serviceIds <==> Serves(under, s))
    && (forall i, j | 0 <= i < j < |c.serviceIds| :: c.serviceIds[i] != c.serviceIds[j])
  }

  predicate Lowest(position: int, under: seq<Library>) {
    (exists l | l in under :: l.position == position) && (forall l | l in under :: position <= l.position)
  }

  ghost predicate Named(c: Category, under: seq<Library>, filed: map<string, Filing>)
    requires under != []
  {
    var r := ReadingOf(NamedAfter(under, filed), filed);
    c.name == r.name && c.kind == r.kind
  }

  /** The category is the one these libraries, in this order, make. */
  ghost predicate Describes(c: Category, under: seq<Library>, filed: map<string, Filing>, local: set<Id>)
    requires under != []
  {
    && c.key == KeyIn(under[0], filed)
    && c.libraryIds == Ids(under)
    && c.itemCount == Items(under)
    && Lowest(c.position, under)
    && Named(c, under, filed)
    && Served(c, under, local)
  }

  lemma {:induction false} BandServes(under: seq<Library>, filed: map<string, Filing>, local: set<Id>)
    requires under != []
    ensures Served(BandOf(under, filed, local).category, under, local)
  {
    var before, l := under[..|under| - 1], under[|under| - 1];
    assert forall m :: m in under <==> m in before || m == l;
    assert forall s :: Serves(under, s) <==> Serves(before, s) || s == l.service by {
      assert l in under;
    }
    if before != [] {
      BandServes(before, filed, local);
      var c, d := BandOf(before, filed, local).category, BandOf(under, filed, local).category;
      assert d.local <==> exists s | s in local :: Serves(under, s) by {
        if c.local {
          var s :| s in local && Serves(before, s);
          assert Serves(under, s);
        }
        if l.service in local {
          assert Serves(under, l.service);
        }
      }
    } else {
      if l.service in local {
        assert Serves(under, l.service);
      }
    }
  }

  lemma {:induction false} BandIsLowest(under: seq<Library>, filed: map<string, Filing>, local: set<Id>)
    requires under != []
    ensures Lowest(BandOf(under, filed, local).category.position, under)
  {
    var before, l := under[..|under| - 1], under[|under| - 1];
    assert l in under;
    if before != [] {
      BandIsLowest(before, filed, local);
      var c := BandOf(before, filed, local).category;
      if l.position >= c.position {
        var m :| m in before && m.position == c.position;
        assert m in under;
      }
    }
  }

  lemma {:induction false} BandIsNamed(under: seq<Library>, filed: map<string, Filing>, local: set<Id>)
    requires under != []
    ensures Named(BandOf(under, filed, local).category, under, filed)
    ensures BandOf(under, filed, local).namedAt ==
            (if Namer(under, filed).Some? then Some(Namer(under, filed).value.position) else None)
  {
    if |under| > 1 {
      BandIsNamed(under[..|under| - 1], filed, local);
    } else {
      assert Namer(under[..0], filed).None?;
    }
  }

  lemma {:induction false} BandAdds(under: seq<Library>, filed: map<string, Filing>, local: set<Id>)
    requires under != []
    ensures
      var c := BandOf(under, filed, local).category;
      c.key == KeyIn(under[0], filed) && c.libraryIds == Ids(under) && c.itemCount == Items(under)
  {
    if |under| > 1 {
      var before := under[..|under| - 1];
      BandAdds(before, filed, local);
      assert Ids(under) == Ids(before) + [under[|under| - 1].id];
    } else {
      assert Items(under[..0]) == 0;
    }
  }

  lemma BandDescribes(under: seq<Library>, filed: map<string, Filing>, local: set<Id>)
    requires under != []
    ensures Describes(BandOf(under, filed, local).category, under, filed, local)
  {
    BandAdds(under, filed, local);
    BandIsNamed(under, filed, local);
    BandServes(under, filed, local);
    BandIsLowest(under, filed, local);
  }
}
