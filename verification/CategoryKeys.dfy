/**
 * The key two library names are one category under: the name without case, and with every
 * run of anything but letters and digits as one hyphen (`categoryKeyOf`). Names are ASCII
 * here, so there are no accents to strip.
 */
module CategoryKeys {
  predicate IsSpace(c: char) {
    c == ' ' || '\t' <= c <= '\r'
  }

  predicate IsWordChar(c: char) {
    'a' <= c <= 'z' || 'A' <= c <= 'Z' || '0' <= c <= '9'
  }

  function Lower(c: char): char {
    if 'A' <= c <= 'Z' then c + ' ' else c
  }

  function TrimStart(s: string): string {
    if s != "" && IsSpace(s[0]) then TrimStart(s[1..]) else s
  }

  function TrimEnd(s: string): string {
    if s != "" && IsSpace(s[|s| - 1]) then TrimEnd(s[..|s| - 1]) else s
  }

  function Trim(s: string): string {
    TrimEnd(TrimStart(s))
  }

  /** Where a hyphen is owed: before anything was written never, after a gap always. */
  datatype Place = Start | Word | Gap

  function Folded(s: string, place: Place): string {
    if s == "" then ""
    else if IsWordChar(s[0]) then (if place.Gap? then "-" else "") + [Lower(s[0])] + Folded(s[1..], Word)
    else Folded(s[1..], if place.Start? then Start else Gap)
  }

  function KeyOf(name: string): string {
    var key := Folded(name, Start);
    if key == "" then "library" else key
  }

  lemma {:induction false} FoldedWithoutLast(s: string, place: Place)
    requires s != "" && !IsWordChar(s[|s| - 1])
    ensures Folded(s, place) == Folded(s[..|s| - 1], place)
  {
    if |s| > 1 {
      var before := s[..|s| - 1];
      assert s[1..][..|s[1..]| - 1] == before[1..];
      FoldedWithoutLast(s[1..], if IsWordChar(s[0]) then Word else if place.Start? then Start else Gap);
    }
  }

  lemma {:induction false} FoldedTrimEnd(s: string)
    ensures Folded(TrimEnd(s), Start) == Folded(s, Start)
  {
    if s != "" && IsSpace(s[|s| - 1]) {
      FoldedWithoutLast(s, Start);
      FoldedTrimEnd(s[..|s| - 1]);
    }
  }

  lemma {:induction false} FoldedTrimStart(s: string)
    ensures Folded(TrimStart(s), Start) == Folded(s, Start)
  {
    if s != "" && IsSpace(s[0]) {
      FoldedTrimStart(s[1..]);
    }
  }

  /** The space around a name does not change its category. */
  lemma KeyOfTrimmed(name: string)
    ensures KeyOf(Trim(name)) == KeyOf(name)
  {
    FoldedTrimStart(name);
    FoldedTrimEnd(TrimStart(name));
  }

  lemma {:induction false} TrimEndTwice(s: string)
    ensures TrimEnd(TrimEnd(s)) == TrimEnd(s)
    ensures TrimEnd(s) <= s
  {
    if s != "" && IsSpace(s[|s| - 1]) {
      TrimEndTwice(s[..|s| - 1]);
    }
  }

  lemma {:induction false} TrimStartTrimmed(s: string)
    ensures var t := TrimStart(s); t != "" ==> !IsSpace(t[0])
  {
    if s != "" && IsSpace(s[0]) {
      TrimStartTrimmed(s[1..]);
    }
  }

  lemma TrimTwice(s: string)
    ensures Trim(Trim(s)) == Trim(s)
  {
    TrimStartTrimmed(s);
    TrimEndTwice(TrimStart(s));
  }

  lemma {:induction false} FoldedTwice(s: string, place: Place)
    ensures Folded(Folded(s, place), if place.Start? then Start else Word) == Folded(s, place)
  {
    if s != "" {
      if IsWordChar(s[0]) {
        FoldedTwice(s[1..], Word);
        var rest := Folded(s[1..], Word);
        if place.Gap? {
          assert Folded(s, Gap)[1..] == [Lower(s[0])] + rest;
        }
        assert ([Lower(s[0])] + rest)[1..] == rest;
      } else {
        FoldedTwice(s[1..], if place.Start? then Start else Gap);
      }
    }
  }

  lemma KeyOfLetter(c: char)
    requires 'a' <= c <= 'z'
    ensures KeyOf([c]) == [c] && Trim([c]) == [c]
  {
    assert [c][1..] == "" && Folded("", Word) == "";
  }

  /** A key is its own key, so a category can be looked up under the key it shows. */
  lemma KeyOfKey(name: string)
    ensures KeyOf(KeyOf(name)) == KeyOf(name)
  {
    FoldedTwice(name, Start);
    if KeyOf(name) == "library" {
      LibraryFolds();
    }
  }

  lemma LibraryFolds()
    ensures Folded("library", Start) == "library"
  {
    assert Folded("", Word) == "";
    assert Folded("y", Word) == "y";
    assert Folded("ry", Word) == "ry" by { assert "ry"[1..] == "y"; }
    assert Folded("ary", Word) == "ary" by { assert "ary"[1..] == "ry"; }
    assert Folded("rary", Word) == "rary" by { assert "rary"[1..] == "ary"; }
    assert Folded("brary", Word) == "brary" by { assert "brary"[1..] == "rary"; }
    assert Folded("ibrary", Word) == "ibrary" by { assert "ibrary"[1..] == "brary"; }
    assert "library"[1..] == "ibrary";
  }
}
