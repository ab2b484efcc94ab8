/** Chains of links between nodes, read both ways. */
module Paths {
  type Node = nat
  type Links = set<(Node, Node)>

  predicate Adjacent(links: Links, a: Node, b: Node) {
    (a, b) in links || (b, a) in links
  }

  /** A chain of at most `hops` links leads from one to the other. */
  ghost predicate Within(links: Links, a: Node, b: Node, hops: int)
    decreases hops
  {
    hops >= 0 && (a == b || exists c :: Adjacent(links, a, c) && Within(links, c, b, hops - 1))
  }

  lemma {:induction false} WithinMore(links: Links, more: Links, a: Node, b: Node, hops: int, further: int)
    requires Within(links, a, b, hops) && links <= more && hops <= further
    ensures Within(more, a, b, further)
    decreases hops
  {
    if a != b {
      var c :| Adjacent(links, a, c) && Within(links, c, b, hops - 1);
      WithinMore(links, more, c, b, hops - 1, further - 1);
      assert Adjacent(more, a, c);
    }
  }

  lemma {:induction false} WithinChain(links: Links, a: Node, b: Node, c: Node, m: int, n: int)
    requires Within(links, a, b, m) && Within(links, b, c, n)
    ensures Within(links, a, c, m + n)
    decreases m
  {
    if a == b {
      WithinMore(links, links, a, c, n, m + n);
    } else {
      var d :| Adjacent(links, a, d) && Within(links, d, b, m - 1);
      WithinChain(links, d, b, c, m - 1, n);
    }
  }

  lemma {:induction false} WithinBack(links: Links, a: Node, b: Node, hops: int)
    requires Within(links, a, b, hops)
    ensures Within(links, b, a, hops)
    decreases hops
  {
    if a != b {
      var c :| Adjacent(links, a, c) && Within(links, c, b, hops - 1);
      WithinBack(links, c, b, hops - 1);
      assert Adjacent(links, c, a) && Within(links, a, a, 0);
      assert Within(links, c, a, 1);
      WithinChain(links, b, c, a, hops - 1, 1);
    }
  }

  /** Some chain leads from one to the other. */
  ghost predicate Connected(links: Links, a: Node, b: Node) {
    exists hops :: Within(links, a, b, hops)
  }
}
