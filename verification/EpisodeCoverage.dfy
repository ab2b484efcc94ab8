/** Which episode numbers a row covers (`services/episode-coverage.ts`). */
module EpisodeCoverage {
  import opened Options

  function Range(first: nat, last: nat): (r: set<nat>)
    ensures forall n: nat :: n in r <==> first <= n <= last
    decreases last + 1 - first
  {
    if first > last then {} else {first} + Range(first + 1, last)
  }

  /**
   * The numbers a row stands for: none when it is unnumbered, its own when its last is not
   * past its first, and all from the one to the other when it is.
   */
  function Span(episode: Option<nat>, end: Option<nat>): (r: set<nat>)
    ensures episode.None? ==> r == {}
    ensures episode.Some? ==> forall n: nat :: n in r <==>
      n == episode.value || (end.Some? && episode.value <= n <= end.value)
  {
    if episode.None? then {}
    else if end.None? || end.value <= episode.value then {episode.value}
    else Range(episode.value, end.value)
  }
}
