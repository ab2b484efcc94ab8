/**
 * What the order libraries are read in decides. Positions are distinct, as the libraries
 * screen leaves them: then nothing but the name of a category nothing names.
 */
module CategoryOrder {
  import opened Options
  import opened CategoryKeys
  import opened Categories
  import opened CategoryFolding

  ghost predicate DistinctPositions(libraries: seq<Library>) {
    forall l, m | l in libraries && m in libraries && l.position == m.position :: l == m
  }

  /** The same category, but for the order its libraries and services are listed in. */
  ghost predicate Alike(c: Category, d: Category) {
    && c.key == d.key && c.name == d.name && c.kind == d.kind && c.position == d.position
    && c.itemCount == d.itemCount && c.local == d.local
    && |c.libraryIds| == |d.libraryIds| && (forall id :: id in c.libraryIds <==> id in d.libraryIds)
    && forall s :: s in c.serviceIds <==> s in d.serviceIds
  }

  ghost predicate AlikeLists(cs: seq<Category>, ds: seq<Category>) {
    |cs| == |ds| && forall i | 0 <= i < |cs| :: Alike(cs[i], ds[i])
  }

  lemma SameLibraries(a: seq<Library>, b: seq<Library>)
    requires multiset(a) == multiset(b)
    ensures |a| == |b| && forall l :: l in a <==> l in b
  {
    assert forall l :: l in a <==> l in multiset(a);
    assert forall l :: l in b <==> l in multiset(b);
    assert |multiset(a)| == |a| && |multiset(b)| == |b|;
  }

  lemma {:induction false} SameFilings(a: seq<Library>, b: seq<Library>, keywords: seq<Keyword>)
    requires multiset(a) == multiset(b) && DistinctLibraries(a)
    ensures Filed(a, keywords) == Filed(b, keywords)
  {
    SameLibraries(a, b);
    if keywords != [] {
      SameFilings(a, b, keywords[..|keywords| - 1]);
      var id := keywords[|keywords| - 1].library;
      var l, m := Find(a, id), Find(b, id);
      if l.Some? {
        assert m.Some? && m.value in a;
        var i :| 0 <= i < |a| && a[i] == l.value;
        var j :| 0 <= j < |a| && a[j] == m.value;
      }
    }
  }

  lemma {:induction false} UnderAsMultiset(libraries: seq<Library>, key: string, filed: Filings, l: Library)
    ensures multiset(Under(libraries, key, filed))[l] == if KeyIn(l, filed) == key then multiset(libraries)[l] else 0
  {
    if libraries != [] {
      var before, last := libraries[..|libraries| - 1], libraries[|libraries| - 1];
      UnderAsMultiset(before, key, filed, l);
      assert libraries == before + [last];
      assert multiset(libraries) == multiset(before) + multiset{last};
      var was := Under(before, key, filed);
      if KeyIn(last, filed) == key {
        assert multiset(was + [last]) == multiset(was) + multiset{last};
      }
    }
  }

  lemma UnderSame(a: seq<Library>, b: seq<Library>, key: string, filed: Filings)
    requires multiset(a) == multiset(b)
    ensures multiset(Under(a, key, filed)) == multiset(Under(b, key, filed))
  {
    forall l
      ensures multiset(Under(a, key, filed))[l] == multiset(Under(b, key, filed))[l]
    {
      UnderAsMultiset(a, key, filed, l);
      UnderAsMultiset(b, key, filed, l);
    }
  }

  function WithoutAt(libraries: seq<Library>, i: nat): seq<Library>
    requires i < |libraries|
  {
    libraries[..i] + libraries[i + 1..]
  }

  lemma {:induction false} ItemsWithout(libraries: seq<Library>, i: nat)
    requires i < |libraries|
    ensures Items(libraries) == Items(WithoutAt(libraries, i)) + libraries[i].itemCount
  {
    var n := |libraries| - 1;
    if i < n {
      ItemsWithout(libraries[..n], i);
      var less := WithoutAt(libraries, i);
      assert less[..n - 1] == WithoutAt(libraries[..n], i);
      assert less[n - 1] == libraries[n];
    } else {
      assert WithoutAt(libraries, i) == libraries[..n];
    }
  }

  lemma AsMultisetWithout(libraries: seq<Library>, i: nat)
    requires i < |libraries|
    ensures multiset(WithoutAt(libraries, i)) == multiset(libraries) - multiset{libraries[i]}
  {
    var front, back := libraries[..i], libraries[i + 1..];
    assert libraries == front + [libraries[i]] + back;
    assert multiset(libraries) == multiset(front) + multiset{libraries[i]} + multiset(back);
    assert multiset(front + back) == multiset(front) + multiset(back);
  }

  lemma {:induction false} SameItems(a: seq<Library>, b: seq<Library>)
    requires multiset(a) == multiset(b)
    ensures Items(a) == Items(b)
  {
    SameLibraries(a, b);
    if a != [] {
      var n := |a| - 1;
      assert a[n] in b;
      var i :| 0 <= i < |b| && b[i] == a[n];
      AsMultisetWithout(a, n);
      AsMultisetWithout(b, i);
      SameItems(WithoutAt(a, n), WithoutAt(b, i));
      ItemsWithout(a, n);
      ItemsWithout(b, i);
    }
  }

  lemma SameIds(a: seq<Library>, b: seq<Library>)
    requires forall l :: l in a <==> l in b
    ensures forall id :: id in Ids(a) ==> id in Ids(b)
  {
    forall id | id in Ids(a)
      ensures id in Ids(b)
    {
      var i :| 0 <= i < |a| && a[i].id == id;
      assert a[i] in b;
      var j :| 0 <= j < |b| && b[j] == a[i];
      assert Ids(b)[j] == id;
    }
  }

  /** Libraries of one key agree on its name, or one of them names it. */
  ghost predicate Settles(under: seq<Library>, filed: Filings) {
    Namer(under, filed).None? ==>
      forall l, m | l in under && m in under :: ReadingOf(l, filed) == ReadingOf(m, filed)
  }

  lemma AlikeUnder(u: seq<Library>, v: seq<Library>, filed: Filings, local: set<Id>)
    requires u != [] && v != [] && multiset(u) == multiset(v) && DistinctPositions(u)
    requires Settles(u, filed) && forall l | l in u :: KeyIn(l, filed) == KeyIn(u[0], filed)
    ensures Alike(BandOf(u, filed, local).category, BandOf(v, filed, local).category)
  {
    SameLibraries(u, v);
    AlikeDescriptions(BandOf(u, filed, local).category, BandOf(v, filed, local).category, u, v, local) by {
      BandDescribes(u, filed, local);
      BandDescribes(v, filed, local);
      SameItems(u, v);
      SameNamer(u, v, filed);
      assert v[0] in u;
    }
  }

  lemma AlikeDescriptions(c: Category, d: Category, u: seq<Library>, v: seq<Library>, local: set<Id>)
    requires |u| == |v| && forall l :: l in u <==> l in v
    requires c.key == d.key && c.name == d.name && c.kind == d.kind && c.itemCount == d.itemCount
    requires c.libraryIds == Ids(u) && d.libraryIds == Ids(v)
    requires Lowest(c.position, u) && Lowest(d.position, v)
    requires Served(c, u, local) && Served(d, v, local)
    ensures Alike(c, d)
  {
    SameIds(u, v);
    SameIds(v, u);
    assert forall s :: Serves(u, s) <==> Serves(v, s);
  }

  lemma SameNamer(u: seq<Library>, v: seq<Library>, filed: Filings)
    requires u != [] && v != [] && multiset(u) == multiset(v) && DistinctPositions(u) && Settles(u, filed)
    ensures ReadingOf(NamedAfter(u, filed), filed) == ReadingOf(NamedAfter(v, filed), filed)
  {
    SameLibraries(u, v);
    var l, m := Namer(u, filed), Namer(v, filed);
    if l.Some? {
      assert m.Some? && m.value in u;
    } else {
      assert u[0] in u && v[0] in u;
    }
  }

  /** Every category has a library that names it, or only libraries that were all filed alike. */
  ghost predicate NamesSettled(libraries: seq<Library>, filed: Filings) {
    forall key :: Settles(Under(libraries, key, filed), filed)
  }

  lemma PositionTellsTheKey(
    cs: seq<Category>, libraries: seq<Library>, filed: Filings, local: set<Id>, c: Category, d: Category)
    requires AreWhole(cs, libraries, filed, local) && DistinctPositions(libraries)
    requires c in cs && d in cs && c.position == d.position
    ensures c == d
  {
    var l :| l in Under(libraries, c.key, filed) && l.position == c.position;
    var m :| m in Under(libraries, d.key, filed) && m.position == d.position;
    assert l == m;
  }

  function Positions(cs: seq<Category>): (r: seq<int>)
    ensures |r| == |cs| && forall i | 0 <= i < |r| :: r[i] == cs[i].position
  {
    seq(|cs|, i requires 0 <= i < |cs| => cs[i].position)
  }

  ghost predicate Rising(xs: seq<int>) {
    forall i, j | 0 <= i < j < |xs| :: xs[i] < xs[j]
  }

  lemma PositionsRise(
    cs: seq<Category>, libraries: seq<Library>, filed: Filings, local: set<Id>, collate: string -> real)
    requires AreWhole(cs, libraries, filed, local) && DistinctPositions(libraries) && InOrder(cs, collate)
    ensures Rising(Positions(cs))
  {
    forall i, j | 0 <= i < j < |cs|
      ensures cs[i].position < cs[j].position
    {
      assert !Before(cs[j], cs[i], collate);
      if cs[i].position == cs[j].position {
        PositionTellsTheKey(cs, libraries, filed, local, cs[i], cs[j]);
      }
    }
  }

  lemma {:induction false} RisingIsItsSet(xs: seq<int>, ys: seq<int>)
    requires Rising(xs) && Rising(ys) && forall x :: x in xs <==> x in ys
    ensures xs == ys
  {
    if xs != [] { assert xs[0] in xs; }
    if ys != [] { assert ys[0] in ys; }
    if xs != [] && ys != [] {
      assert xs[0] == ys[0];
      RisingTail(xs);
      RisingTail(ys);
      RisingIsItsSet(xs[1..], ys[1..]);
    }
  }

  lemma RisingTail(xs: seq<int>)
    requires Rising(xs) && xs != []
    ensures Rising(xs[1..]) && xs == [xs[0]] + xs[1..]
    ensures forall x :: x in xs[1..] <==> x in xs && x != xs[0]
  {
    forall x | x in xs && x != xs[0]
      ensures x in xs[1..]
    {
      var i :| 0 <= i < |xs| && xs[i] == x;
      assert xs[1..][i - 1] == x;
    }
  }

  /** The category of one key, whatever order the libraries come in. */
  lemma AlikeInBoth(a: seq<Library>, b: seq<Library>, filed: Filings, local: set<Id>, key: string)
    requires multiset(a) == multiset(b) && DistinctPositions(a) && NamesSettled(a, filed)
    requires Under(a, key, filed) != []
    ensures Under(b, key, filed) != []
    ensures Alike(CategoryOf(a, key, filed, local), CategoryOf(b, key, filed, local))
  {
    var u, v := Under(a, key, filed), Under(b, key, filed);
    UnderSame(a, b, key, filed);
    SameLibraries(u, v);
    assert u[0] in u;
    AlikeUnder(u, v, filed, local);
  }

  ghost predicate HasAlike(c: Category, ds: seq<Category>) {
    exists d | d in ds :: Alike(c, d)
  }

  lemma Counterpart(a: seq<Library>, b: seq<Library>, filed: Filings, local: set<Id>, ds: seq<Category>, c: Category)
    requires multiset(a) == multiset(b) && DistinctPositions(a) && NamesSettled(a, filed)
    requires IsWhole(c, a, filed, local) && AreWhole(ds, b, filed, local)
    ensures HasAlike(c, ds)
  {
    AlikeInBoth(a, b, filed, local, c.key);
    var d := CategoryOf(b, c.key, filed, local);
    assert d in ds && Alike(c, d);
  }

  lemma PositionOfAlike(cs: seq<Category>, ds: seq<Category>, x: int)
    requires forall c | c in cs :: HasAlike(c, ds)
    requires x in Positions(cs)
    ensures x in Positions(ds)
  {
    var i :| 0 <= i < |cs| && cs[i].position == x;
    assert cs[i] in cs;
    var d :| d in ds && Alike(cs[i], d);
    var j :| 0 <= j < |ds| && ds[j] == d;
    assert Positions(ds)[j] == x;
  }

  lemma AlikeInOrder(cs: seq<Category>, ds: seq<Category>)
    requires Rising(Positions(cs)) && Rising(Positions(ds))
    requires forall c | c in cs :: HasAlike(c, ds)
    requires forall d | d in ds :: HasAlike(d, cs)
    ensures AlikeLists(cs, ds)
  {
    forall x
      ensures x in Positions(cs) <==> x in Positions(ds)
    {
      if x in Positions(cs) { PositionOfAlike(cs, ds, x); }
      if x in Positions(ds) { PositionOfAlike(ds, cs, x); }
    }
    RisingIsItsSet(Positions(cs), Positions(ds));
    assert |cs| == |Positions(cs)| == |ds|;
    forall i | 0 <= i < |cs|
      ensures Alike(cs[i], ds[i])
    {
      assert cs[i] in cs;
      var d :| d in ds && Alike(cs[i], d);
      var j :| 0 <= j < |ds| && ds[j] == d;
      assert Positions(ds)[j] == Positions(cs)[i] == Positions(ds)[i];
      assert i == j;
    }
  }

  lemma SettledInBoth(a: seq<Library>, b: seq<Library>, filed: Filings)
    requires multiset(a) == multiset(b) && NamesSettled(a, filed)
    ensures NamesSettled(b, filed)
  {
    forall key
      ensures Settles(Under(b, key, filed), filed)
    {
      UnderSame(a, b, key, filed);
      SameLibraries(Under(a, key, filed), Under(b, key, filed));
      assert Settles(Under(a, key, filed), filed);
    }
  }

  lemma AlikeWhole(
    a: seq<Library>, b: seq<Library>, filed: Filings, local: set<Id>,
    cs: seq<Category>, ds: seq<Category>, collate: string -> real)
    requires multiset(a) == multiset(b) && DistinctPositions(a) && NamesSettled(a, filed)
    requires AreWhole(cs, a, filed, local) && AreWhole(ds, b, filed, local)
    requires InOrder(cs, collate) && InOrder(ds, collate)
    ensures AlikeLists(cs, ds)
  {
    SameLibraries(a, b);
    assert DistinctPositions(b);
    SettledInBoth(a, b, filed);
    PositionsRise(cs, a, filed, local, collate);
    PositionsRise(ds, b, filed, local, collate);
    forall c | c in cs
      ensures HasAlike(c, ds)
    {
      Counterpart(a, b, filed, local, ds, c);
    }
    forall d | d in ds
      ensures HasAlike(d, cs)
    {
      Counterpart(b, a, filed, local, cs, d);
    }
    AlikeInOrder(cs, ds);
  }

  /** With every name settled, the order the rows are read in decides nothing. */
  lemma ReadingOrderIsForgotten(
    a: seq<Library>, b: seq<Library>, keywords: seq<Keyword>, local: set<Id>, collate: string -> real)
    requires multiset(a) == multiset(b) && DistinctLibraries(a) && DistinctPositions(a)
    requires NamesSettled(a, Filed(a, keywords))
    ensures AlikeLists(Shown(a, keywords, local, collate), Shown(b, keywords, local, collate))
  {
    SameFilings(a, b, keywords);
    ShownAre(a, keywords, local, collate);
    ShownAre(b, keywords, local, collate);
    AlikeWhole(
      a, b, Filed(a, keywords), local,
      Shown(a, keywords, local, collate), Shown(b, keywords, local, collate), collate);
  }

  // ------------------------------------------------------------- when the order does decide

  lemma {:induction false} UnderOfTwo(a: seq<Library>, b: seq<Library>, key: string, filed: Filings)
    ensures Under(a + b, key, filed) == Under(a, key, filed) + Under(b, key, filed)
  {
    if b == [] {
      assert a + b == a;
    } else {
      var front, last := b[..|b| - 1], b[|b| - 1];
      assert (a + b)[..|a + b| - 1] == a + front;
      UnderOfTwo(a, front, key, filed);
    }
  }

  lemma UnderFromFirst(l: Library, rest: seq<Library>, key: string, filed: Filings)
    requires KeyIn(l, filed) == key
    ensures Under([l] + rest, key, filed) == [l] + Under(rest, key, filed)
  {
    UnderOfTwo([l], rest, key, filed);
    assert Under([l][..0], key, filed) == [];
  }

  lemma ReadFirst(libraries: seq<Library>, l: Library) returns (order: seq<Library>)
    requires l in libraries
    ensures multiset(order) == multiset(libraries) && order != [] && order[0] == l
  {
    var i :| 0 <= i < |libraries| && libraries[i] == l;
    order := [l] + WithoutAt(libraries, i);
    AsMultisetWithout(libraries, i);
    assert libraries[i] in multiset(libraries);
  }

  /** Nothing but the reading order decides the name: the first library read does. */
  lemma FirstReadNames(order: seq<Library>, filed: Filings, local: set<Id>)
    requires order != [] && Namer(Under(order, KeyIn(order[0], filed), filed), filed).None?
    ensures
      var key := KeyIn(order[0], filed);
      && Under(order, key, filed) != []
      && CategoryOf(order, key, filed, local).name == ReadingOf(order[0], filed).name
      && CategoryOf(order, key, filed, local).kind == ReadingOf(order[0], filed).kind
  {
    var key := KeyIn(order[0], filed);
    assert order == [order[0]] + order[1..];
    UnderFromFirst(order[0], order[1..], key, filed);
    BandIsNamed(Under(order, key, filed), filed, local);
  }

  ghost predicate ReadAlikeInAnyOrder(
    libraries: seq<Library>, keywords: seq<Keyword>, local: set<Id>, collate: string -> real) {
    forall a, b | multiset(a) == multiset(libraries) == multiset(b) ::
      AlikeLists(Shown(a, keywords, local, collate), Shown(b, keywords, local, collate))
  }

  lemma UnlikeNames(cs: seq<Category>, ds: seq<Category>, c: Category, d: Category)
    requires c in cs && d in ds && c.key == d.key && (c.name != d.name || c.kind != d.kind)
    requires DistinctCategories(ds)
    ensures !AlikeLists(cs, ds)
  {
    var i :| 0 <= i < |cs| && cs[i] == c;
    var j :| 0 <= j < |ds| && ds[j] == d;
    assert i >= |ds| || !Alike(cs[i], ds[i]) by {
      if i < |ds| && ds[i].key == c.key {
        assert i == j;
      }
    }
  }

  /** An order in which this library is read first, and the category it names then. */
  lemma NamedByReadingFirst(
    libraries: seq<Library>, keywords: seq<Keyword>, local: set<Id>, collate: string -> real, l: Library)
    returns (order: seq<Library>, c: Category)
    requires DistinctLibraries(libraries) && l in libraries
    requires var filed := Filed(libraries, keywords);
             Namer(Under(libraries, KeyIn(l, filed), filed), filed).None?
    ensures multiset(order) == multiset(libraries)
    ensures c in Shown(order, keywords, local, collate) && DistinctCategories(Shown(order, keywords, local, collate))
    ensures var filed := Filed(libraries, keywords);
            c.key == KeyIn(l, filed) && c.name == ReadingOf(l, filed).name && c.kind == ReadingOf(l, filed).kind
  {
    var filed := Filed(libraries, keywords);
    var key := KeyIn(l, filed);
    order := ReadFirst(libraries, l);
    SameFilings(libraries, order, keywords);
    NobodyNames(libraries, order, key, filed);
    FirstReadNames(order, filed, local);
    c := CategoryOf(order, key, filed, local);
    ShownAre(order, keywords, local, collate);
    BandAdds(Under(order, key, filed), filed, local);
    assert Under(order, key, filed)[0] in Under(order, key, filed);
  }

  lemma TwoOrdersTwoNames(
    libraries: seq<Library>, keywords: seq<Keyword>, local: set<Id>, collate: string -> real, l: Library, m: Library)
    requires DistinctLibraries(libraries) && l in libraries && m in libraries
    requires
      var filed := Filed(libraries, keywords);
      && KeyIn(l, filed) == KeyIn(m, filed) && ReadingOf(l, filed) != ReadingOf(m, filed)
      && Namer(Under(libraries, KeyIn(l, filed), filed), filed).None?
    ensures !ReadAlikeInAnyOrder(libraries, keywords, local, collate)
  {
    var filed := Filed(libraries, keywords);
    var key := KeyIn(l, filed);
    assert l in Under(libraries, key, filed) && m in Under(libraries, key, filed);
    var a, c := NamedByReadingFirst(libraries, keywords, local, collate, l);
    var b, d := NamedByReadingFirst(libraries, keywords, local, collate, m);
    UnlikeNames(Shown(a, keywords, local, collate), Shown(b, keywords, local, collate), c, d);
  }

  lemma NobodyNames(a: seq<Library>, b: seq<Library>, key: string, filed: Filings)
    requires multiset(a) == multiset(b) && Namer(Under(a, key, filed), filed).None?
    ensures Namer(Under(b, key, filed), filed).None?
  {
    SameLibraries(a, b);
    assert forall l | l in Under(b, key, filed) :: l in Under(a, key, filed);
  }

  /** Reading order decides nothing exactly when every name is settled. */
  lemma ReadingOrderIsForgottenIff(
    libraries: seq<Library>, keywords: seq<Keyword>, local: set<Id>, collate: string -> real)
    requires DistinctLibraries(libraries) && DistinctPositions(libraries)
    ensures ReadAlikeInAnyOrder(libraries, keywords, local, collate) <==>
        NamesSettled(libraries, Filed(libraries, keywords))
  {
    var filed := Filed(libraries, keywords);
    if NamesSettled(libraries, filed) {
      forall a, b | multiset(a) == multiset(libraries) == multiset(b)
        ensures AlikeLists(Shown(a, keywords, local, collate), Shown(b, keywords, local, collate))
      {
        StillDistinct(libraries, a);
        SameFilings(libraries, a, keywords);
        SettledInBoth(libraries, a, filed);
        SameLibraries(libraries, a);
        ReadingOrderIsForgotten(a, b, keywords, local, collate);
      }
    } else {
      var key :| !Settles(Under(libraries, key, filed), filed);
      var under := Under(libraries, key, filed);
      var l, m :| l in under && m in under && ReadingOf(l, filed) != ReadingOf(m, filed);
      TwoOrdersTwoNames(libraries, keywords, local, collate, l, m);
    }
  }

  lemma OnceInDistinct(a: seq<Library>, x: nat)
    requires DistinctLibraries(a) && x < |a|
    ensures multiset(a)[a[x]] == 1
  {
    AsMultisetWithout(a, x);
    assert a[x] !in WithoutAt(a, x);
    assert multiset(WithoutAt(a, x))[a[x]] == 0;
    assert a[x] in multiset(a);
  }

  lemma StillDistinct(a: seq<Library>, b: seq<Library>)
    requires multiset(a) == multiset(b) && DistinctLibraries(a)
    ensures DistinctLibraries(b)
  {
    SameLibraries(a, b);
    forall i, j | 0 <= i < j < |b|
      ensures b[i].id != b[j].id
    {
      assert b[i] in a && b[j] in a;
      var x :| 0 <= x < |a| && a[x] == b[i];
      var y :| 0 <= y < |a| && a[y] == b[j];
      if b[i] == b[j] {
        TwiceIsTwo(b, i, j);
        OnceInDistinct(a, x);
      }
    }
  }

  /** The library a name is filed through: the last keyword for it whose library is there. */
  function AnchorFor(libraries: seq<Library>, keywords: seq<Keyword>, normalized: string): Option<Library> {
    if keywords == [] then None
    else
      var last := keywords[|keywords| - 1];
      if last.normalized == normalized && Find(libraries, last.library).Some? then Find(libraries, last.library)
      else AnchorFor(libraries, keywords[..|keywords| - 1], normalized)
  }

  lemma {:induction false} FiledByAnchor(libraries: seq<Library>, keywords: seq<Keyword>, w: string)
    ensures
      var anchor, filed := AnchorFor(libraries, keywords, w), Filed(libraries, keywords);
      && (w in filed <==> anchor.Some?)
      && (w in filed ==> filed[w] == Filing(OwnName(anchor.value), anchor.value.kind))
  {
    if keywords != [] {
      FiledByAnchor(libraries, keywords[..|keywords| - 1], w);
    }
  }

  lemma {:induction false} KeywordOf(libraries: seq<Library>, keywords: seq<Keyword>, w: string) returns (k: Keyword)
    requires AnchorFor(libraries, keywords, w).Some?
    ensures k in keywords && Find(libraries, k.library) == AnchorFor(libraries, keywords, w)
  {
    var last := keywords[|keywords| - 1];
    if last.normalized == w && Find(libraries, last.library).Some? {
      k := last;
    } else {
      k := KeywordOf(libraries, keywords[..|keywords| - 1], w);
    }
  }

  /** Enough for it: no keyword hangs off a library that another keyword folds. */
  lemma UnfoldedAnchorsSettleNames(libraries: seq<Library>, keywords: seq<Keyword>)
    requires AnchorsUnfolded(libraries, keywords)
    ensures NamesSettled(libraries, Filed(libraries, keywords))
  {
    var filed := Filed(libraries, keywords);
    forall key, l | l in Under(libraries, key, filed) && !ReadingOf(l, filed).names
      ensures Namer(Under(libraries, key, filed), filed).Some?
    {
      FiledByAnchor(libraries, keywords, KeyOf(l.name));
      var k := KeywordOf(libraries, keywords, KeyOf(l.name));
      var anchor := AnchorFor(libraries, keywords, KeyOf(l.name)).value;
      assert anchor in Under(libraries, key, filed) && ReadingOf(anchor, filed).names;
    }
  }

  ghost predicate AnchorsUnfolded(libraries: seq<Library>, keywords: seq<Keyword>) {
    forall k | k in keywords && Find(libraries, k.library).Some? ::
      ReadingOf(Find(libraries, k.library).value, Filed(libraries, keywords)).names
  }
}
