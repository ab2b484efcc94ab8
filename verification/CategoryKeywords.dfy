/**
 * Plugging a name into a category (`addKeyword`): what it files, and which library it hangs
 * off (`_anchorOf`). Nothing is written into the libraries, so what a keyword does is only
 * how they read.
 */
module CategoryKeywords {
  import opened Options
  import opened CategoryKeys
  import opened Categories
  import opened CategoryFolding
  import opened CategoryOrder
  import opened CategoryMerging

  /** One of ours first, then the lowest position, then the identifier. */
  predicate Preferred(a: Library, b: Library, local: set<Id>) {
    var x, y := a.service in local, b.service in local;
    if x != y then x
    else if a.position != b.position then a.position < b.position
    else a.id < b.id
  }

  function Anchor(members: seq<Library>, local: set<Id>): (r: Library)
    requires members != []
    ensures r in members
  {
    var last := members[|members| - 1];
    if |members| == 1 then last
    else
      var before := Anchor(members[..|members| - 1], local);
      if Preferred(last, before, local) then last else before
  }

  /** Nothing in the category is preferred to the library its keywords hang off. */
  lemma {:induction false} AnchorIsPreferred(members: seq<Library>, local: set<Id>, m: Library)
    requires m in members
    ensures !Preferred(m, Anchor(members, local), local)
  {
    var init := members[..|members| - 1];
    if |members| > 1 && m in init {
      AnchorIsPreferred(init, local, m);
    }
  }

  datatype Error = CategoryNotFound | KeywordInvalid | KeywordTaken
  datatype Result = Ok(keyword: Keyword) | Err(error: Error)

  function Existing(keywords: seq<Keyword>, normalized: string): (r: Option<Keyword>)
    ensures r.Some? ==> r.value in keywords && r.value.normalized == normalized
    ensures r.None? ==> forall k | k in keywords :: k.normalized != normalized
  {
    if keywords == [] then None
    else if keywords[0].normalized == normalized then Some(keywords[0])
    else Existing(keywords[1..], normalized)
  }

  /** The answer to plugging a name in; it adds the keyword exactly when the answer is one it did not have. */
  method AddKeyword(
    libraries: seq<Library>, keywords: seq<Keyword>, local: set<Id>, categoryKey: string, keyword: string)
    returns (answer: Result, after: seq<Keyword>)
    ensures
      var w, members := KeyOf(keyword), Under(libraries, categoryKey, Filed(libraries, keywords));
      var existing := Existing(keywords, w);
      && (answer.Ok? ==> members != [])
      && after == (if answer.Ok? && existing.None? then keywords + [Keyword(Anchor(members, local).id, w)]
                   else keywords)
      && answer ==
         if Folded(keyword, Start) == "" then Err(KeywordInvalid)
         else if members == [] then Err(CategoryNotFound)
         else if existing.None? then Ok(Keyword(Anchor(members, local).id, w))
         else if exists m | m in members :: m.id == existing.value.library then Ok(existing.value)
         else Err(KeywordTaken)
  {
    after := keywords;
    if Folded(keyword, Start) == "" {
      return Err(KeywordInvalid), after;
    }
    var w, members := KeyOf(keyword), Under(libraries, categoryKey, Filed(libraries, keywords));
    if members == [] {
      return Err(CategoryNotFound), after;
    }
    var existing := Existing(keywords, w);
    if existing.Some? {
      var among := HangsAmong(members, existing.value.library);
      return if among then Ok(existing.value) else Err(KeywordTaken), after;
    }
    var added := Keyword(Anchor(members, local).id, w);
    return Ok(added), keywords + [added];
  }

  method HangsAmong(members: seq<Library>, id: Id) returns (among: bool)
    ensures among <==> exists m | m in members :: m.id == id
  {
    for i := 0 to |members|
      invariant forall j | 0 <= j < i :: members[j].id != id
    {
      if members[i].id == id {
        return true;
      }
    }
    return false;
  }

  /** A keyword changes how the libraries it names read, and no other. */
  lemma AKeywordFilesOnlyWhatItNames(
    libraries: seq<Library>, keywords: seq<Keyword>, k: Keyword, anchor: Library, l: Library)
    requires Find(libraries, k.library) == Some(anchor)
    ensures
      ReadingOf(l, Filed(libraries, keywords + [k])) ==
        if !Aliased(l) && KeyOf(l.name) == k.normalized then Reading(OwnName(anchor), anchor.kind, false)
        else ReadingOf(l, Filed(libraries, keywords))
  {
    assert (keywords + [k])[..|keywords|] == keywords;
  }

  /**
   * What it names files into the category it was plugged into exactly when the library it
   * hangs off reads itself as that category; a library nothing folds always does.
   */
  lemma AKeywordFilesIntoItsCategoryIff(
    libraries: seq<Library>, keywords: seq<Keyword>, local: set<Id>, categoryKey: string, w: string, l: Library)
    requires DistinctLibraries(libraries)
    requires Under(libraries, categoryKey, Filed(libraries, keywords)) != []
    requires l in libraries && !Aliased(l) && KeyOf(l.name) == w
    ensures
      var anchor := Anchor(Under(libraries, categoryKey, Filed(libraries, keywords)), local);
      var filed := Filed(libraries, keywords + [Keyword(anchor.id, w)]);
      && (KeyIn(l, filed) == categoryKey <==> KeyOf(OwnName(anchor)) == categoryKey)
      && (ReadingOf(anchor, Filed(libraries, keywords)).names ==> KeyIn(l, filed) == categoryKey)
  {
    var anchor := Anchor(Under(libraries, categoryKey, Filed(libraries, keywords)), local);
    FoundAgain(libraries, anchor);
    AKeywordFilesOnlyWhatItNames(libraries, keywords, Keyword(anchor.id, w), anchor, l);
  }

  lemma {:induction false} FoundAgain(libraries: seq<Library>, l: Library)
    requires DistinctLibraries(libraries) && l in libraries
    ensures Find(libraries, l.id) == Some(l)
  {
    var found := Find(libraries, l.id).value;
    var i :| 0 <= i < |libraries| && libraries[i] == found;
    var j :| 0 <= j < |libraries| && libraries[j] == l;
  }

  const A := Library(1, 7, "a", None, 0, 2, 0)
  const B := Library(2, 7, "b", None, 0, 1, 0)
  const C := Library(3, 7, "c", None, 0, 3, 0)
  const D := Library(4, 7, "d", None, 0, 4, 0)
  const ALL := [A, B, C, D]
  /** "b" is plugged into "a", so the category of that name holds both, and `B` stands first in it. */
  const B_IN_A := [Keyword(1, "b")]
  const FILED_B := map["b" := Filing("a", 0)]

  lemma Letters()
    ensures KeyOf("a") == "a" && KeyOf("b") == "b" && KeyOf("c") == "c" && KeyOf("d") == "d" && Trim("d") == "d"
  {
    KeyOfLetter('a');
    KeyOfLetter('b');
    KeyOfLetter('c');
    KeyOfLetter('d');
  }

  lemma BIsFiled()
    ensures Filed(ALL, B_IN_A) == FILED_B && DistinctLibraries(ALL)
  {
    assert B_IN_A[..0] == [] && Filed(ALL, B_IN_A[..0]) == map[];
    assert Find(ALL, 1) == Some(A);
  }

  lemma LettersReadAs()
    ensures KeyIn(A, FILED_B) == "a" && KeyIn(B, FILED_B) == "a" && KeyIn(C, FILED_B) == "c" && KeyIn(D, FILED_B) == "d"
  {
    Letters();
  }

  lemma BIsUnderA()
    ensures Under(ALL, "a", FILED_B) == [A, B]
  {
    LettersReadAs();
    assert ALL[..3] == [A, B, C] && [A, B, C][..2] == [A, B] && [A, B][..1] == [A] && [A][..0] == [];
    assert Under([A], "a", FILED_B) == [A];
    assert Under([A, B], "a", FILED_B) == [A, B];
    assert Under([A, B, C], "a", FILED_B) == [A, B];
  }

  /** Plugging "c" into "a" hangs it off `B`, which names itself "b": `C` is filed somewhere else. */
  lemma AKeywordFiledElsewhere()
    ensures Under(ALL, "a", Filed(ALL, B_IN_A)) == [A, B] && Anchor([A, B], {7}) == B
    ensures KeyIn(C, Filed(ALL, B_IN_A + [Keyword(2, "c")])) == "b"
  {
    BIsFiled();
    BIsUnderA();
    Letters();
    assert [A, B][..1] == [A] && Anchor([A], {7}) == A;
    assert Find(ALL, 2) == Some(B) by { FoundAgain(ALL, B); }
    AKeywordFilesOnlyWhatItNames(ALL, B_IN_A, Keyword(2, "c"), B, C);
  }

  /** That keyword in place, merging "a" into "d" takes `C` along, which was in neither. */
  const A_INTO_D := Merge(ALL, B_IN_A + [Keyword(2, "c")], "a", "d", "d")

  lemma AStray()
    ensures Fits(A_INTO_D) && DistinctLibraries(ALL) && Strays(A_INTO_D, C)
    ensures KeyIn(C, A_INTO_D.Before()) == "b" && KeyIn(A_INTO_D.Of(C), A_INTO_D.Since()) == "d"
  {
    Letters();
    BIsFiled();
    AKeywordFiledElsewhere();
    BHangsInTheSource();
    KeyAfter(A_INTO_D, C);
  }

  lemma BHangsInTheSource()
    ensures AnchorFor(ALL, A_INTO_D.keywords, "c") == Some(B) && B.id in A_INTO_D.SourceIds()
  {
    var keywords := A_INTO_D.keywords;
    assert keywords[..1] == B_IN_A && Find(ALL, 2) == Some(B) by { BIsFiled(); FoundAgain(ALL, B); }
    assert KeyIn(B, A_INTO_D.Before()) == "a" by {
      Letters();
      BIsFiled();
      AKeywordFilesOnlyWhatItNames(ALL, B_IN_A, Keyword(2, "c"), B, B);
      LettersReadAs();
    }
    assert B in ALL;
    OneOfUnder(ALL, "a", A_INTO_D.Before(), B);
    BIsFiled();
  }
}
