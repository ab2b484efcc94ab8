/**
 * Every category of a list of libraries, in the order a screen shows them (`categories`):
 * each library is in one category, no item is lost, and the order the rows are read in
 * decides nothing it should not.
 */
module CategoryFolding {
  import opened Options
  import opened CategoryKeys
  import opened Categories

  type Filings = map<string, Filing>

  /** The keys in the order they are met. */
  function Keys(libraries: seq<Library>, filed: Filings): (r: seq<string>)
    ensures forall k :: k in r <==> Under(libraries, k, filed) != []
    ensures forall i, j | 0 <= i < j < |r| :: r[i] != r[j]
  {
    if libraries == [] then []
    else
      var before, key := Keys(libraries[..|libraries| - 1], filed), KeyIn(libraries[|libraries| - 1], filed);
      if key in before then before else before + [key]
  }

  function CategoryOf(libraries: seq<Library>, key: string, filed: Filings, local: set<Id>): Category
    requires Under(libraries, key, filed) != []
  {
    BandOf(Under(libraries, key, filed), filed, local).category
  }

  function Listed(libraries: seq<Library>, filed: Filings, local: set<Id>): (r: seq<Category>)
    ensures |r| == |Keys(libraries, filed)|
    ensures forall i | 0 <= i < |r| :: r[i] == CategoryOf(libraries, Keys(libraries, filed)[i], filed, local)
  {
    var keys := Keys(libraries, filed);
    seq(|keys|, i requires 0 <= i < |keys| => CategoryOf(libraries, keys[i], filed, local))
  }

  /** By position, then by name, in whatever order names are compared. */
  predicate Before(a: Category, b: Category, collate: string -> real) {
    a.position < b.position || (a.position == b.position && collate(a.name) < collate(b.name))
  }

  function Placed(c: Category, sorted: seq<Category>, collate: string -> real): seq<Category> {
    if sorted == [] || !Before(sorted[0], c, collate) then [c] + sorted
    else [sorted[0]] + Placed(c, sorted[1..], collate)
  }

  function Sorted(cs: seq<Category>, collate: string -> real): seq<Category> {
    if cs == [] then [] else Placed(cs[0], Sorted(cs[1..], collate), collate)
  }

  function Shown(
    libraries: seq<Library>, keywords: seq<Keyword>, local: set<Id>, collate: string -> real): seq<Category> {
    Sorted(Listed(libraries, Filed(libraries, keywords), local), collate)
  }

  function Total(cs: seq<Category>): nat {
    if cs == [] then 0 else cs[0].itemCount + Total(cs[1..])
  }

  // --------------------------------------------------------------------------- the order

  lemma {:induction false} PlacedKeeps(c: Category, sorted: seq<Category>, collate: string -> real)
    ensures multiset(Placed(c, sorted, collate)) == multiset(sorted) + multiset{c}
    ensures Total(Placed(c, sorted, collate)) == Total(sorted) + c.itemCount
  {
    if sorted != [] && Before(sorted[0], c, collate) {
      PlacedKeeps(c, sorted[1..], collate);
      assert sorted == [sorted[0]] + sorted[1..];
    } else {
      assert ([c] + sorted)[1..] == sorted;
    }
  }

  lemma {:induction false} SortedKeeps(cs: seq<Category>, collate: string -> real)
    ensures multiset(Sorted(cs, collate)) == multiset(cs)
    ensures Total(Sorted(cs, collate)) == Total(cs)
  {
    if cs != [] {
      SortedKeeps(cs[1..], collate);
      PlacedKeeps(cs[0], Sorted(cs[1..], collate), collate);
      assert cs == [cs[0]] + cs[1..];
    }
  }

  lemma SameElements(cs: seq<Category>, sorted: seq<Category>)
    requires multiset(cs) == multiset(sorted)
    ensures forall c :: c in sorted <==> c in cs
  {
    assert forall c :: c in sorted <==> c in multiset(sorted);
    assert forall c :: c in cs <==> c in multiset(cs);
  }

  ghost predicate InOrder(cs: seq<Category>, collate: string -> real) {
    forall i, j | 0 <= i < j < |cs| :: !Before(cs[j], cs[i], collate)
  }

  lemma {:induction false} PlacedInOrder(c: Category, sorted: seq<Category>, collate: string -> real)
    requires InOrder(sorted, collate)
    ensures InOrder(Placed(c, sorted, collate), collate)
  {
    if sorted != [] && Before(sorted[0], c, collate) {
      assert forall k | 0 <= k < |sorted| - 1 :: sorted[1..][k] == sorted[k + 1];
      PlacedInOrder(c, sorted[1..], collate);
      PlacedKeeps(c, sorted[1..], collate);
      var rest := Placed(c, sorted[1..], collate);
      forall k | 0 <= k < |rest|
        ensures !Before(rest[k], sorted[0], collate)
      {
        assert rest[k] in multiset(rest);
        assert rest[k] == c || rest[k] in multiset(sorted[1..]);
      }
    }
  }

  lemma {:induction false} SortedInOrder(cs: seq<Category>, collate: string -> real)
    ensures InOrder(Sorted(cs, collate), collate)
  {
    if cs != [] {
      SortedInOrder(cs[1..], collate);
      PlacedInOrder(cs[0], Sorted(cs[1..], collate), collate);
    }
  }

  // ----------------------------------------------------------------------- conservation

  /** The category the libraries under its key make. */
  ghost predicate IsWhole(c: Category, libraries: seq<Library>, filed: Filings, local: set<Id>) {
    var under := Under(libraries, c.key, filed);
    under != [] && Describes(c, under, filed, local) && c == BandOf(under, filed, local).category
  }

  ghost predicate DistinctCategories(cs: seq<Category>) {
    forall i, j | 0 <= i < j < |cs| :: cs[i].key != cs[j].key
  }

  lemma ListedIsWhole(libraries: seq<Library>, filed: Filings, local: set<Id>, i: nat)
    requires i < |Keys(libraries, filed)|
    ensures
      var c := Listed(libraries, filed, local)[i];
      IsWhole(c, libraries, filed, local) && c.key == Keys(libraries, filed)[i]
  {
    var under := Under(libraries, Keys(libraries, filed)[i], filed);
    BandDescribes(under, filed, local);
    assert under[0] in under;
  }

  ghost predicate AreWhole(cs: seq<Category>, libraries: seq<Library>, filed: Filings, local: set<Id>) {
    && (forall c | c in cs :: IsWhole(c, libraries, filed, local))
    && (forall key | Under(libraries, key, filed) != [] :: CategoryOf(libraries, key, filed, local) in cs)
    && DistinctCategories(cs)
  }

  lemma ListedAreWhole(libraries: seq<Library>, filed: Filings, local: set<Id>)
    ensures AreWhole(Listed(libraries, filed, local), libraries, filed, local)
  {
    var keys, listed := Keys(libraries, filed), Listed(libraries, filed, local);
    forall i | 0 <= i < |keys|
      ensures IsWhole(listed[i], libraries, filed, local) && listed[i].key == keys[i]
    {
      ListedIsWhole(libraries, filed, local, i);
    }
    forall key | Under(libraries, key, filed) != []
      ensures CategoryOf(libraries, key, filed, local) in listed
    {
      var i :| 0 <= i < |keys| && keys[i] == key;
      assert listed[i] in listed;
    }
  }

  /** Every category shown is the one the libraries under its key make, no two share a key, and they are in order. */
  lemma ShownAre(libraries: seq<Library>, keywords: seq<Keyword>, local: set<Id>, collate: string -> real)
    ensures
      var shown := Shown(libraries, keywords, local, collate);
      AreWhole(shown, libraries, Filed(libraries, keywords), local) && InOrder(shown, collate)
  {
    var listed := Listed(libraries, Filed(libraries, keywords), local);
    var shown := Sorted(listed, collate);
    SortedInOrder(listed, collate);
    SortedKeeps(listed, collate);
    SameElements(listed, shown);
    ListedAreWhole(libraries, Filed(libraries, keywords), local);
    DistinctKeysSurviveSorting(listed, shown);
  }

  lemma DistinctKeysSurviveSorting(cs: seq<Category>, sorted: seq<Category>)
    requires multiset(cs) == multiset(sorted)
    requires DistinctCategories(cs)
    ensures DistinctCategories(sorted)
  {
    forall i, j | 0 <= i < j < |sorted|
      ensures sorted[i].key != sorted[j].key
    {
      var a, b := sorted[i], sorted[j];
      assert a in multiset(cs) && b in multiset(cs);
      if a == b {
        TwiceIsTwo(sorted, i, j);
        OnceIsOne(cs, a);
      }
    }
  }

  lemma TwiceIsTwo<T>(cs: seq<T>, i: nat, j: nat)
    requires i < j < |cs| && cs[i] == cs[j]
    ensures multiset(cs)[cs[i]] >= 2
  {
    assert cs == cs[..i] + [cs[i]] + cs[i + 1..j] + [cs[j]] + cs[j + 1..];
  }

  lemma OnceIsOne(cs: seq<Category>, c: Category)
    requires DistinctCategories(cs)
    ensures multiset(cs)[c] <= 1
  {
    if c in cs {
      var i :| 0 <= i < |cs| && cs[i] == c;
      assert cs == cs[..i] + [c] + cs[i + 1..];
      assert c !in cs[..i] && c !in cs[i + 1..];
    }
  }

  ghost predicate DistinctLibraries(libraries: seq<Library>) {
    forall i, j | 0 <= i < j < |libraries| :: libraries[i].id != libraries[j].id
  }

  lemma OneOfUnder(libraries: seq<Library>, key: string, filed: Filings, l: Library)
    requires DistinctLibraries(libraries) && l in libraries
    ensures l.id in Ids(Under(libraries, key, filed)) <==> KeyIn(l, filed) == key
  {
    var under := Under(libraries, key, filed);
    if l.id in Ids(under) {
      var i :| 0 <= i < |under| && under[i].id == l.id;
      assert under[i] in libraries;
      var a :| 0 <= a < |libraries| && libraries[a] == under[i];
      var b :| 0 <= b < |libraries| && libraries[b] == l;
    }
    if l in under {
      var i :| 0 <= i < |under| && under[i] == l;
      assert Ids(under)[i] == l.id;
    }
  }

  /** A library is in one category: the one its key names. */
  lemma EachLibraryInOneCategory(
    libraries: seq<Library>, keywords: seq<Keyword>, local: set<Id>, collate: string -> real, l: Library)
    requires l in libraries && DistinctLibraries(libraries)
    ensures
      var shown := Shown(libraries, keywords, local, collate);
      exists c | c in shown :: l.id in c.libraryIds && forall d | d in shown && l.id in d.libraryIds :: d == c
  {
    var filed := Filed(libraries, keywords);
    var shown := Shown(libraries, keywords, local, collate);
    ShownAre(libraries, keywords, local, collate);
    var key := KeyIn(l, filed);
    assert l in Under(libraries, key, filed);
    var c := CategoryOf(libraries, key, filed, local);
    BandAdds(Under(libraries, key, filed), filed, local);
    OneOfUnder(libraries, key, filed, l);
    forall d | d in shown && l.id in d.libraryIds
      ensures d == c
    {
      OneOfUnder(libraries, d.key, filed, l);
    }
  }

  function Counted(libraries: seq<Library>, keys: seq<string>, filed: Filings): nat {
    if keys == [] then 0 else Items(Under(libraries, keys[0], filed)) + Counted(libraries, keys[1..], filed)
  }

  lemma {:induction false} CountedWithOneMore(libraries: seq<Library>, keys: seq<string>, filed: Filings)
    requires libraries != [] && forall i, j | 0 <= i < j < |keys| :: keys[i] != keys[j]
    ensures
      var before, last := libraries[..|libraries| - 1], libraries[|libraries| - 1];
      Counted(libraries, keys, filed) ==
        Counted(before, keys, filed) + if KeyIn(last, filed) in keys then last.itemCount else 0
  {
    if keys != [] {
      var before, last := libraries[..|libraries| - 1], libraries[|libraries| - 1];
      assert forall k | 0 <= k < |keys| - 1 :: keys[1..][k] == keys[k + 1];
      CountedWithOneMore(libraries, keys[1..], filed);
      var was, under := Under(before, keys[0], filed), Under(libraries, keys[0], filed);
      if KeyIn(last, filed) == keys[0] {
        assert under[..|under| - 1] == was;
        assert KeyIn(last, filed) !in keys[1..];
      } else {
        assert under == was;
      }
    }
  }

  lemma {:induction false} CountedWithOneKeyMore(
    libraries: seq<Library>, keys: seq<string>, key: string, filed: Filings)
    requires Under(libraries, key, filed) == []
    ensures Counted(libraries, keys + [key], filed) == Counted(libraries, keys, filed)
  {
    if keys != [] {
      assert (keys + [key])[1..] == keys[1..] + [key];
      CountedWithOneKeyMore(libraries, keys[1..], key, filed);
    } else {
      assert [key][1..] == [];
    }
  }

  lemma {:induction false} EveryItemCounted(libraries: seq<Library>, filed: Filings)
    ensures Counted(libraries, Keys(libraries, filed), filed) == Items(libraries)
  {
    if libraries != [] {
      var before, last := libraries[..|libraries| - 1], libraries[|libraries| - 1];
      EveryItemCounted(before, filed);
      CountedWithOneMore(libraries, Keys(libraries, filed), filed);
      if KeyIn(last, filed) !in Keys(before, filed) {
        CountedWithOneKeyMore(before, Keys(before, filed), KeyIn(last, filed), filed);
      }
    }
  }

  lemma {:induction false} ListedCounts(
    libraries: seq<Library>, keys: seq<string>, cs: seq<Category>, filed: Filings, local: set<Id>)
    requires |cs| == |keys|
    requires forall i | 0 <= i < |keys| ::
               Under(libraries, keys[i], filed) != [] && cs[i] == CategoryOf(libraries, keys[i], filed, local)
    ensures Total(cs) == Counted(libraries, keys, filed)
  {
    if cs != [] {
      ListedCounts(libraries, keys[1..], cs[1..], filed, local);
      BandAdds(Under(libraries, keys[0], filed), filed, local);
    }
  }

  /** No item is lost or counted twice. */
  lemma ItemsAreConserved(libraries: seq<Library>, keywords: seq<Keyword>, local: set<Id>, collate: string -> real)
    ensures Total(Shown(libraries, keywords, local, collate)) == Items(libraries)
  {
    var filed := Filed(libraries, keywords);
    EveryItemCounted(libraries, filed);
    ListedCounts(libraries, Keys(libraries, filed), Listed(libraries, filed, local), filed, local);
    SortedKeeps(Listed(libraries, filed, local), collate);
  }
}
