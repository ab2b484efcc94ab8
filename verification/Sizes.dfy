/** How many, and how much: the few facts about size that several parts share. */
module Sizes {
  function Min(a: int, b: int): int { if a < b then a else b }
  function Max(a: int, b: int): int { if a > b then a else b }

  lemma Fewer<T>(a: set<T>, b: set<T>)
    requires a <= b
    ensures |a| <= |b|
  {
    assert b == a + (b - a);
  }

  lemma SomeWentSomeCame<T>(before: set<T>, gone: set<T>, come: set<T>)
    requires gone <= before && come !! before
    ensures |(before - gone) + come| == |before| - |gone| + |come|
  {
    assert before == (before - gone) + gone;
    assert (before - gone) !! come;
  }

  lemma OneCame<T>(before: set<T>, now: set<T>, x: T)
    requires x !in before && x !in now
    ensures |(now + {x}) - before| == |now - before| + 1
    ensures before - (now + {x}) == before - now
  {
    assert (now + {x}) - before == (now - before) + {x};
  }
}
