/**
 * Exactly when the two gap counters agree for one group of a page, one reading the children
 * in the order the query answered, with ranges per parent, the other by ranked copy, with one
 * flat set for the whole page. Each reads one row of a child; they agree when the two rows
 * say the same against the two sets of ranges.
 */
module GapCounters {
  import opened Options
  import opened EpisodeCoverage
  import opened Gaps
  import opened ChildGroups

  ghost predicate DistinctIds(children: seq<Digest>) {
    forall i, j | 0 <= i < j < |children| :: children[i].id != children[j].id
  }

  /**
   * One group of a page. `children` is what the query answers for a whole result, `page` what
   * it answers for the groups drawn together, `ranked` the copies of the group in order.
   */
  datatype Page = Page(
    children: seq<Digest>, page: seq<Digest>, ranked: seq<Id>, rows: map<Id, Digest>, c: Context, group: Id)

  predicate InTheGroup(p: Page, d: Digest) {
    ParentRoot(d, p.c.graph) == Some(p.group)
  }

  /** A child of the group, on the page. */
  predicate IsChild(p: Page, d: Digest) {
    d in p.page && InTheGroup(p, d)
  }

  ghost predicate IsTable(rows: map<Id, Digest>) {
    forall id | id in rows :: rows[id].id == id
  }

  ghost predicate Answers(children: seq<Digest>, rows: map<Id, Digest>) {
    DistinctIds(children) && forall d | d in children :: d.id in rows && rows[d.id] == d
  }

  /** The copies of the group are ranked, every one with a child and nothing else. */
  ghost predicate RanksTheGroup(p: Page) {
    && (forall id | id in p.ranked :: Root(p.c.graph, id) == p.group)
    && (forall d | IsChild(p, d) :: d.parent.value in p.ranked)
  }

  /** Both queries read the table, and the children of the group in full. */
  ghost predicate ReadsTheTable(p: Page) {
    && IsPartition(p.c.graph) && IsTable(p.rows)
    && Answers(p.children, p.rows) && Answers(p.page, p.rows)
    && (forall d | InTheGroup(p, d) :: d in p.page <==> d in p.children)
    && RanksTheGroup(p)
  }

  /** Every copy of a child of the group is filed under the group. */
  ghost predicate CopiesStay(p: Page) {
    forall d, id | IsChild(p, d) && id in Members(p.c.graph, d.id) && id in p.rows :: IsChild(p, p.rows[id])
  }

  /** Copies of one child agree on its number, and on whether it holds a range. */
  ghost predicate NumbersAgree(p: Page) {
    forall d, e | IsChild(p, d) && IsChild(p, e) && Root(p.c.graph, d.id) == Root(p.c.graph, e.id) ::
      d.episode == e.episode && d.end.None? == e.end.None?
  }

  function Index(p: Page): map<Id, Digest> {
    WithOutsiders(ById(p.page), Outsiders(p.page, p.c.graph, ById(p.page)), p.rows)
  }

  lemma {:induction false} ByIdHolds(children: seq<Digest>)
    ensures forall id | id in ById(children) :: ById(children)[id] in children && ById(children)[id].id == id
    ensures forall d | d in children :: d.id in ById(children)
  {
    if children != [] {
      var before, last := children[..|children| - 1], children[|children| - 1];
      ByIdHolds(before);
      assert forall d :: d in children <==> d in before || d == last;
    }
  }

  /** What a query indexes is the part of the table it answered. */
  lemma ByIdIsTheTable(rows: map<Id, Digest>, children: seq<Digest>)
    requires IsTable(rows) && Answers(children, rows)
    ensures forall id :: id in ById(children) <==> id in rows && rows[id] in children
    ensures forall id | id in ById(children) :: ById(children)[id] == rows[id]
  {
    ByIdHolds(children);
    forall id | id in rows && rows[id] in children
      ensures id in ById(children)
    {
      assert rows[id].id == id;
    }
  }

  /** The page knows its own rows and every copy of them the table has. */
  lemma IndexIsTheTable(p: Page)
    requires ReadsTheTable(p)
    ensures forall id | id in Index(p) :: id in p.rows && Index(p)[id] == p.rows[id]
    ensures forall d, id | d in p.page && id in Members(p.c.graph, d.id) && id in p.rows :: id in Index(p)
    ensures forall d | d in p.page :: d.id in Index(p)
  {
    ByIdIsTheTable(p.rows, p.page);
  }

  lemma InCovered(byId: map<Id, Digest>, id: Id, n: nat, c: Context)
    requires id in byId && Spans(byId[id], c) && n in Span(byId[id].episode, byId[id].end)
    ensures n in CoveredIn(byId, c)
  {
  }

  /** With every copy under the group, each counter knows all copies of a child there are. */
  lemma KnowsEveryCopy(p: Page, d: Digest)
    requires ReadsTheTable(p) && CopiesStay(p) && IsChild(p, d)
    ensures forall id | id in Members(p.c.graph, d.id) ::
              (id in ById(p.children) <==> id in p.rows) && (id in Index(p) <==> id in p.rows)
    ensures forall id | id in ById(p.children) :: id in p.rows && ById(p.children)[id] == p.rows[id]
    ensures forall id | id in Index(p) :: id in p.rows && Index(p)[id] == p.rows[id]
  {
    ByIdIsTheTable(p.rows, p.children);
    IndexIsTheTable(p);
    forall id | id in Members(p.c.graph, d.id) && id in p.rows
      ensures id in ById(p.children) && id in Index(p)
    {
      assert IsChild(p, p.rows[id]);
    }
  }

  lemma {:induction false} InFiled(children: seq<Digest>, parent: Id, d: Digest)
    ensures d in Filed(children, parent) <==> d in children && d.parent == Some(parent)
  {
    if children != [] {
      var before, last := children[..|children| - 1], children[|children| - 1];
      InFiled(before, parent, d);
      assert d in children <==> d in before || d == last;
    }
  }

  /** Two rows of one child under one parent. */
  predicate AreRowsOfOne(d: Digest, e: Digest, g: Graph) {
    ParentRoot(d, g) == ParentRoot(e, g) && Root(g, d.id) == Root(g, e.id)
  }

  lemma {:induction false} FirstOfItsChild(children: seq<Digest>, k: nat, g: Graph) returns (j: nat)
    requires k < |children|
    ensures j <= k && IsFirst(children, j, g)
    ensures AreRowsOfOne(children[j], children[k], g)
    decreases k
  {
    if i :| 0 <= i < k && AreRowsOfOne(children[i], children[k], g) {
      j := FirstOfItsChild(children, i, g);
    } else {
      j := k;
    }
  }

  // -------------------------------------------------------------------- the row each reads

  /** The children of the page in the order the group's copies rank. */
  function InRankOrder(page: seq<Digest>, ranked: seq<Id>): seq<Digest> {
    if ranked == [] then [] else InRankOrder(page, ranked[..|ranked| - 1]) + Filed(page, ranked[|ranked| - 1])
  }

  function Drawing(p: Page): seq<Digest> {
    InRankOrder(p.page, p.ranked)
  }

  /** The children the page shows as missing. */
  function Missing(p: Page): set<Id> {
    MissingIn(DrawnAll(Drawing(p), Index(p), RangesDrawn(p), p.c))
  }

  /** The children the listing counts as gaps. */
  function Short(p: Page): set<Id> {
    GapsAmong(p.children, |p.children|, p.c, p.group)
  }

  /** The numbers inside the ranges held under the group, as the listing reads them. */
  function RangesHeld(p: Page): set<nat> {
    CoveredUnder(p.children, p.c, p.group)
  }

  /** The numbers inside any range held on the page, as the page reads them. */
  function RangesDrawn(p: Page): set<nat> {
    CoveredIn(Index(p), p.c)
  }

  /** The row that speaks for its child under this parent: the first one there. */
  ghost predicate Leads(rows: seq<Digest>, d: Digest, g: Graph, parent: Id) {
    exists j | 0 <= j < |rows| :: rows[j] == d && ParentRoot(d, g) == Some(parent) && IsFirst(rows, j, g)
  }

  lemma OneLeader(rows: seq<Digest>, d: Digest, e: Digest, g: Graph, parent: Id)
    requires Leads(rows, d, g, parent) && Leads(rows, e, g, parent) && Root(g, d.id) == Root(g, e.id)
    ensures d == e
  {
  }

  lemma SomeLeader(rows: seq<Digest>, d: Digest, g: Graph, parent: Id) returns (e: Digest)
    requires d in rows && ParentRoot(d, g) == Some(parent)
    ensures Leads(rows, e, g, parent) && Root(g, e.id) == Root(g, d.id)
  {
    var k :| 0 <= k < |rows| && rows[k] == d;
    var j := FirstOfItsChild(rows, k, g);
    e := rows[j];
  }

  lemma {:induction false} DrawnFromThePage(page: seq<Digest>, ranked: seq<Id>, d: Digest)
    ensures d in InRankOrder(page, ranked) <==> d in page && d.parent.Some? && d.parent.value in ranked
  {
    if ranked != [] {
      var before, last := ranked[..|ranked| - 1], ranked[|ranked| - 1];
      DrawnFromThePage(page, before, d);
      InFiled(page, last, d);
      assert forall id :: id in ranked <==> id in before || id == last;
    }
  }

  /** Of everything on the page, the children of the group are drawn. */
  lemma DrawsTheGroup(p: Page, d: Digest)
    requires ReadsTheTable(p)
    ensures d in Drawing(p) <==> IsChild(p, d)
    ensures IsChild(p, d) ==> d in p.children
  {
    DrawnFromThePage(p.page, p.ranked, d);
  }

  /** A child is drawn as its first row says, unless it is ignored. */
  lemma {:induction false} DrawnAsItsFirstRow(
    listed: seq<Digest>, k: nat, byId: map<Id, Digest>, covered: set<nat>, c: Context)
    requires IsPartition(c.graph) && k < |listed|
    requires forall i | 0 <= i < k :: Root(c.graph, listed[i].id) != Root(c.graph, listed[k].id)
    ensures Root(c.graph, listed[k].id) in MissingIn(DrawnAll(listed, byId, covered, c)) <==>
        IsGap(listed[k], byId, covered, c)
    ensures AnyIgnored(byId, Members(c.graph, listed[k].id)) ==>
        Root(c.graph, listed[k].id) !in DrawnAll(listed, byId, covered, c)
  {
    var before, last, root := listed[..|listed| - 1], listed[|listed| - 1], Root(c.graph, listed[k].id);
    DrawnAsARowSays(before, byId, covered, c, root);
    if k < |before| {
      DrawnAsItsFirstRow(before, k, byId, covered, c);
      MembersShareARoot(c.graph, listed[k].id, last.id);
    } else {
      assert root !in DrawnAll(before, byId, covered, c);
    }
  }

  lemma MissingAsItsLeader(p: Page, e: Digest)
    requires ReadsTheTable(p) && Leads(Drawing(p), e, p.c.graph, p.group)
    ensures Root(p.c.graph, e.id) in Missing(p) <==> IsGap(e, Index(p), RangesDrawn(p), p.c)
  {
    var listed := Drawing(p);
    var j :| 0 <= j < |listed| && listed[j] == e && IsFirst(listed, j, p.c.graph);
    forall i | 0 <= i < j
      ensures Root(p.c.graph, listed[i].id) != Root(p.c.graph, listed[j].id)
    {
      DrawsTheGroup(p, listed[i]);
    }
    DrawnAsItsFirstRow(listed, j, Index(p), RangesDrawn(p), p.c);
  }

  lemma ShortAsItsLeader(p: Page, d: Digest)
    requires Leads(p.children, d, p.c.graph, p.group)
    ensures Root(p.c.graph, d.id) in Short(p) <==>
            IsGap(d, ById(p.children), CoveredUnder(p.children, p.c, p.group), p.c)
  {
    var root := Root(p.c.graph, d.id);
    if root in Short(p) {
      var j :| 0 <= j < |p.children| && IsFirst(p.children, j, p.c.graph)
               && ParentRoot(p.children[j], p.c.graph) == Some(p.group)
               && IsGap(p.children[j], ById(p.children), CoveredUnder(p.children, p.c, p.group), p.c)
               && Root(p.c.graph, p.children[j].id) == root;
      OneLeader(p.children, d, p.children[j], p.c.graph, p.group);
    }
  }

  /** A child either counter reports has a row that speaks for it in each order. */
  lemma Reported(p: Page, root: Id) returns (d: Digest, e: Digest)
    requires ReadsTheTable(p) && (root in Short(p) || root in Missing(p))
    ensures Leads(p.children, d, p.c.graph, p.group) && Leads(Drawing(p), e, p.c.graph, p.group)
    ensures Root(p.c.graph, d.id) == root == Root(p.c.graph, e.id)
  {
    var g := p.c.graph;
    var some: Digest;
    if root in Short(p) {
      var j :| 0 <= j < |p.children| && ParentRoot(p.children[j], g) == Some(p.group)
          && Root(g, p.children[j].id) == root;
      some := p.children[j];
    } else {
      DrawnAsARowSays(Drawing(p), Index(p), RangesDrawn(p), p.c, root);
      some :| some in Drawing(p) && Root(g, some.id) == root;
    }
    DrawsTheGroup(p, some);
    d := SomeLeader(p.children, some, g, p.group);
    e := SomeLeader(Drawing(p), some, g, p.group);
  }

  /** If these are rows of one child, the counters make the same of them. */
  ghost predicate Agree(p: Page, d: Digest, e: Digest) {
    Root(p.c.graph, d.id) == Root(p.c.graph, e.id) ==>
      IsGap(d, ById(p.children), RangesHeld(p), p.c) == IsGap(e, Index(p), RangesDrawn(p), p.c)
  }

  /** The first row counted of each child is a gap exactly when the first row drawn is. */
  ghost predicate FirstRowsAgree(p: Page) {
    forall d, e | Leads(p.children, d, p.c.graph, p.group) && Leads(Drawing(p), e, p.c.graph, p.group) :: Agree(p, d, e)
  }

  /** Both counters report the same children exactly when the rows they read agree. */
  lemma CountersAgreeIff(p: Page)
    requires ReadsTheTable(p)
    ensures Missing(p) == Short(p) <==> FirstRowsAgree(p)
  {
    forall d, e | Leads(p.children, d, p.c.graph, p.group) && Leads(Drawing(p), e, p.c.graph, p.group)
      ensures Missing(p) == Short(p) ==> Agree(p, d, e)
    {
      ShortAsItsLeader(p, d);
      MissingAsItsLeader(p, e);
    }
    if FirstRowsAgree(p) {
      forall root
        ensures root in Missing(p) <==> root in Short(p)
      {
        if root in Short(p) || root in Missing(p) {
          var d, e := Reported(p, root);
          assert Agree(p, d, e);
          ShortAsItsLeader(p, d);
          MissingAsItsLeader(p, e);
        }
      }
    }
  }

  // ------------------------------------------------------ with every copy under the group

  /** No copy of the child is ignored and none is held, so a range is all that can fill it. */
  ghost predicate Unanswered(p: Page, d: Digest) {
    var copies := Members(p.c.graph, d.id);
    !AnyIgnored(p.rows, copies) && !AnyHeld(p.rows, copies, p.c)
  }

  /**
   * If these are rows of one unanswered child, a range under the group fills the first exactly when
   * one on the page fills the second.
   */
  ghost predicate Alike(p: Page, d: Digest, e: Digest) {
    Root(p.c.graph, d.id) == Root(p.c.graph, e.id) && Unanswered(p, d) ==>
      InsideARange(d, RangesHeld(p)) == InsideARange(e, RangesDrawn(p))
  }

  ghost predicate FirstRowsAlike(p: Page) {
    forall d, e | Leads(p.children, d, p.c.graph, p.group) && Leads(Drawing(p), e, p.c.graph, p.group) :: Alike(p, d, e)
  }

  lemma GapOfTheGroup(p: Page, d: Digest)
    requires ReadsTheTable(p) && CopiesStay(p) && IsChild(p, d)
    ensures IsGap(d, ById(p.children), RangesHeld(p), p.c) <==> Unanswered(p, d) && !InsideARange(d, RangesHeld(p))
    ensures IsGap(d, Index(p), RangesDrawn(p), p.c) <==> Unanswered(p, d) && !InsideARange(d, RangesDrawn(p))
  {
    KnowsEveryCopy(p, d);
  }

  lemma LeadsAChild(p: Page, d: Digest)
    requires ReadsTheTable(p)
    requires Leads(p.children, d, p.c.graph, p.group) || Leads(Drawing(p), d, p.c.graph, p.group)
    ensures IsChild(p, d)
  {
    DrawsTheGroup(p, d);
  }

  lemma AgreeIffAlike(p: Page, d: Digest, e: Digest)
    requires ReadsTheTable(p) && CopiesStay(p) && IsChild(p, d) && IsChild(p, e)
    ensures Agree(p, d, e) <==> Alike(p, d, e)
  {
    GapOfTheGroup(p, d);
    GapOfTheGroup(p, e);
    MembersShareARoot(p.c.graph, d.id, e.id);
  }

  /** With every copy under the group, only a range can set the counters apart. */
  lemma CountersAgreeIffAlike(p: Page)
    requires ReadsTheTable(p) && CopiesStay(p)
    ensures Missing(p) == Short(p) <==> FirstRowsAlike(p)
  {
    CountersAgreeIff(p);
    forall d, e | Leads(p.children, d, p.c.graph, p.group) && Leads(Drawing(p), e, p.c.graph, p.group)
      ensures Agree(p, d, e) <==> Alike(p, d, e)
    {
      LeadsAChild(p, d);
      LeadsAChild(p, e);
      AgreeIffAlike(p, d, e);
    }
  }

  /** Any two rows of one child are alike, so whichever each counter reads. */
  ghost predicate RangesAgree(p: Page) {
    forall d, e | IsChild(p, d) && IsChild(p, e) :: Alike(p, d, e)
  }

  lemma AlikeWhicheverLeads(p: Page)
    requires ReadsTheTable(p) && RangesAgree(p)
    ensures FirstRowsAlike(p)
  {
    forall d, e | Leads(p.children, d, p.c.graph, p.group) && Leads(Drawing(p), e, p.c.graph, p.group)
      ensures Alike(p, d, e)
    {
      LeadsAChild(p, d);
      LeadsAChild(p, e);
    }
  }

  // ------------------------------------------------------------ one group, and several

  /** What a range under the group holds, the page holds too. */
  lemma DrawnHoldsMore(p: Page)
    requires ReadsTheTable(p)
    ensures RangesHeld(p) <= RangesDrawn(p)
  {
    forall n | n in RangesHeld(p)
      ensures n in RangesDrawn(p)
    {
      var d :| d in p.children && ParentRoot(d, p.c.graph) == Some(p.group) && Spans(d, p.c)
          && n in Span(d.episode, d.end);
      assert IsChild(p, d);
      assert d.id in Index(p) && Index(p)[d.id] == d by { IndexIsTheTable(p); }
      InCovered(Index(p), d.id, n, p.c);
    }
  }

  /** No other group is drawn on the page. */
  ghost predicate DrawnAlone(p: Page) {
    forall d | d in p.page :: InTheGroup(p, d)
  }

  /** Drawn alone, with every copy under it, a group has one set of ranges. */
  lemma AloneRangesAreOne(p: Page)
    requires ReadsTheTable(p) && CopiesStay(p) && DrawnAlone(p)
    ensures RangesDrawn(p) == RangesHeld(p)
  {
    DrawnHoldsMore(p);
    forall n | n in RangesDrawn(p)
      ensures n in RangesHeld(p)
    {
      var id :| id in Index(p) && Spans(Index(p)[id], p.c) && n in Span(Index(p)[id].episode, Index(p)[id].end);
      AloneKnowsItsOwn(p, id);
    }
  }

  lemma AloneKnowsItsOwn(p: Page, id: Id)
    requires ReadsTheTable(p) && CopiesStay(p) && DrawnAlone(p) && id in Index(p)
    ensures IsChild(p, Index(p)[id]) && Index(p)[id] in p.children
  {
    IndexIsTheTable(p);
    ByIdIsTheTable(p.rows, p.page);
    if id !in ById(p.page) {
      var d :| d in p.page && id in Members(p.c.graph, d.id);
      assert IsChild(p, d);
    }
  }

  lemma AgreeingNumbersSuffice(p: Page)
    requires NumbersAgree(p) && RangesDrawn(p) == RangesHeld(p)
    ensures RangesAgree(p)
  {
  }

  /** An unanswered child whose number only a range of another group on the page holds. */
  ghost predicate FilledFromElsewhere(p: Page, d: Digest) {
    IsChild(p, d) && Unanswered(p, d) && InsideARange(d, RangesDrawn(p)) && !InsideARange(d, RangesHeld(p))
  }

  /** Where the copies of each child agree on its number, only another group's range can set the counters apart. */
  lemma NumbersAgreedIff(p: Page)
    requires ReadsTheTable(p) && CopiesStay(p) && NumbersAgree(p)
    ensures Missing(p) == Short(p) <==> forall d :: !FilledFromElsewhere(p, d)
  {
    CountersAgreeIffAlike(p);
    DrawnHoldsMore(p);
    if FirstRowsAlike(p) {
      forall d | IsChild(p, d)
        ensures !FilledFromElsewhere(p, d)
      {
        DrawsTheGroup(p, d);
        var first := SomeLeader(p.children, d, p.c.graph, p.group);
        var drawn := SomeLeader(Drawing(p), d, p.c.graph, p.group);
        LeadsAChild(p, first);
        LeadsAChild(p, drawn);
        MembersShareARoot(p.c.graph, d.id, first.id);
        assert Alike(p, first, drawn);
      }
    }
    if forall d :: !FilledFromElsewhere(p, d) {
      forall d, e | IsChild(p, d) && IsChild(p, e)
        ensures Alike(p, d, e)
      {
        assert !FilledFromElsewhere(p, d);
      }
      AlikeWhicheverLeads(p);
    }
  }

  lemma {:induction false} ListedInRankOrder(page: seq<Digest>, ranked: seq<Id>, byParent: map<Id, seq<Digest>>)
    requires forall parent :: FiledAt(byParent, parent) == Filed(page, parent)
    ensures Listed(ranked, byParent) == InRankOrder(page, ranked)
  {
    if ranked != [] {
      ListedInRankOrder(page, ranked[..|ranked| - 1], byParent);
    }
  }

  /** Where all rows of a child are alike, both counters report the same children. */
  lemma CountersAgree(p: Page, byParent: map<Id, seq<Digest>>, groups: map<Id, bool>)
    requires ReadsTheTable(p) && CopiesStay(p) && RangesAgree(p)
    requires forall parent :: FiledAt(byParent, parent) == Filed(p.page, parent)
    requires groups == DrawnAll(Listed(p.ranked, byParent), Index(p), RangesDrawn(p), p.c)
    ensures MissingIn(groups) == GapsAmong(p.children, |p.children|, p.c, p.group)
  {
    ListedInRankOrder(p.page, p.ranked, byParent);
    AlikeWhicheverLeads(p);
    CountersAgreeIffAlike(p);
  }

  // ------------------------------------------------------------------- in whatever order

  /** The same rows and the same copies, answered and ranked in some other order. */
  ghost predicate Reordered(p: Page, q: Page) {
    && q == p.(children := q.children, page := q.page, ranked := q.ranked)
    && multiset(q.children) == multiset(p.children)
    && multiset(q.page) == multiset(p.page)
    && multiset(q.ranked) == multiset(p.ranked)
    && ReadsTheTable(q)
  }

  ghost predicate AgreeInEveryOrder(p: Page) {
    forall q | Reordered(p, q) :: Missing(q) == Short(q)
  }

  lemma SameRows<T>(a: seq<T>, b: seq<T>)
    requires multiset(a) == multiset(b)
    ensures forall x :: x in a <==> x in b
  {
    assert forall x :: x in a <==> x in multiset(a);
    assert forall x :: x in b <==> x in multiset(b);
  }

  lemma ReorderedIndexesTheSame(p: Page, q: Page)
    requires ReadsTheTable(p) && Reordered(p, q)
    ensures Index(q) == Index(p)
  {
    SameRows(p.page, q.page);
    ByIdIsTheTable(p.rows, p.page);
    ByIdIsTheTable(q.rows, q.page);
    assert ById(q.page) == ById(p.page);
    assert Outsiders(q.page, q.c.graph, ById(q.page)) == Outsiders(p.page, p.c.graph, ById(p.page));
  }

  lemma ReorderedHoldsTheSame(p: Page, q: Page)
    requires ReadsTheTable(p) && Reordered(p, q)
    ensures RangesHeld(q) == RangesHeld(p) && RangesDrawn(q) == RangesDrawn(p)
    ensures forall d :: IsChild(q, d) <==> IsChild(p, d)
  {
    SameRows(p.page, q.page);
    assert RangesDrawn(q) == RangesDrawn(p) by { ReorderedIndexesTheSame(p, q); }
    SameRows(p.children, q.children);
    forall n: nat
      ensures n in RangesHeld(q) <==> n in RangesHeld(p)
    {
    }
  }

  lemma ReorderedReadsTheSame(p: Page, q: Page)
    requires ReadsTheTable(p) && CopiesStay(p) && Reordered(p, q)
    ensures CopiesStay(q) && forall d :: IsChild(q, d) <==> IsChild(p, d)
    ensures forall d, e :: Alike(q, d, e) == Alike(p, d, e)
  {
    ReorderedHoldsTheSame(p, q);
  }

  function Fronted<T>(s: seq<T>, i: nat): (r: seq<T>)
    requires i < |s|
    ensures multiset(r) == multiset(s)
  {
    assert s == s[..i] + [s[i]] + s[i + 1..];
    [s[i]] + s[..i] + s[i + 1..]
  }

  lemma FrontedStaysDistinct(s: seq<Digest>, i: nat)
    requires i < |s| && DistinctIds(s)
    ensures DistinctIds(Fronted(s, i))
  {
    var r := Fronted(s, i);
    assert forall k | 0 <= k < |r| :: r[k] == if k == 0 then s[i] else if k <= i then s[k - 1] else s[k];
  }

  lemma {:induction false} FiledFirst(page: seq<Digest>, parent: Id)
    requires page != [] && page[0].parent == Some(parent)
    ensures Filed(page, parent) != [] && Filed(page, parent)[0] == page[0]
  {
    if |page| > 1 {
      FiledFirst(page[..|page| - 1], parent);
    }
  }

  lemma {:induction false} DrawnFirst(page: seq<Digest>, ranked: seq<Id>)
    requires page != [] && ranked != [] && page[0].parent == Some(ranked[0])
    ensures InRankOrder(page, ranked) != [] && InRankOrder(page, ranked)[0] == page[0]
  {
    if |ranked| == 1 {
      assert InRankOrder(page, ranked[..0]) == [];
      FiledFirst(page, ranked[0]);
    } else {
      DrawnFirst(page, ranked[..|ranked| - 1]);
    }
  }

  lemma FrontedAnswers(children: seq<Digest>, i: nat, rows: map<Id, Digest>)
    requires Answers(children, rows) && i < |children|
    ensures Answers(Fronted(children, i), rows)
    ensures forall d :: d in Fronted(children, i) <==> d in children
  {
    FrontedStaysDistinct(children, i);
    SameRows(children, Fronted(children, i));
  }

  lemma FrontedReadsTheTable(p: Page, i: nat, j: nat, k: nat)
    requires ReadsTheTable(p) && i < |p.children| && j < |p.page| && k < |p.ranked|
    ensures Reordered(
              p, p.(children := Fronted(p.children, i), page := Fronted(p.page, j), ranked := Fronted(p.ranked, k)))
  {
    var q := p.(children := Fronted(p.children, i), page := Fronted(p.page, j), ranked := Fronted(p.ranked, k));
    FrontedAnswers(p.children, i, p.rows);
    FrontedAnswers(p.page, j, p.rows);
    assert RanksTheGroup(q) by {
      SameRows(p.ranked, q.ranked);
      assert forall d :: IsChild(q, d) <==> IsChild(p, d);
    }
  }

  lemma TheFirstLeads(rows: seq<Digest>, g: Graph, parent: Id)
    requires rows != [] && ParentRoot(rows[0], g) == Some(parent)
    ensures Leads(rows, rows[0], g, parent)
  {
    assert IsFirst(rows, 0, g);
  }

  /** The order that counts `d` first and draws `e` first. */
  lemma ReadFirst(p: Page, d: Digest, e: Digest) returns (q: Page)
    requires ReadsTheTable(p) && IsChild(p, d) && IsChild(p, e)
    ensures Reordered(p, q) && Leads(q.children, d, q.c.graph, q.group) && Leads(Drawing(q), e, q.c.graph, q.group)
  {
    DrawsTheGroup(p, d);
    DrawsTheGroup(p, e);
    var i :| 0 <= i < |p.children| && p.children[i] == d;
    var j :| 0 <= j < |p.page| && p.page[j] == e;
    var k :| 0 <= k < |p.ranked| && p.ranked[k] == e.parent.value;
    FrontedReadsTheTable(p, i, j, k);
    q := p.(children := Fronted(p.children, i), page := Fronted(p.page, j), ranked := Fronted(p.ranked, k));
    DrawnFirst(q.page, q.ranked);
    TheFirstLeads(q.children, q.c.graph, q.group);
    TheFirstLeads(Drawing(q), q.c.graph, q.group);
  }

  /**
   * The two counters agree in every order the database may answer in, and every ranking,
   * exactly when for any two rows of a child nobody holds or ignores, one is inside a range
   * held under the group exactly when the other is inside one held on the page.
   */
  lemma AgreeInEveryOrderIff(p: Page)
    requires ReadsTheTable(p) && CopiesStay(p)
    ensures AgreeInEveryOrder(p) <==> RangesAgree(p)
  {
    if RangesAgree(p) {
      forall q | Reordered(p, q)
        ensures Missing(q) == Short(q)
      {
        ReorderedReadsTheSame(p, q);
        AlikeWhicheverLeads(q);
        CountersAgreeIffAlike(q);
      }
    } else {
      var d, e :| IsChild(p, d) && IsChild(p, e) && !Alike(p, d, e);
      var q := ReadFirst(p, d, e);
      ReorderedReadsTheSame(p, q);
      assert !Alike(q, d, e);
      CountersAgreeIffAlike(q);
    }
  }

  // ------------------------------------------------------------------- where they part

  const NUMBERED := Digest(1, Some(9), 8, true, true, false, false, Some(2), None)
  const UNNUMBERED := Digest(2, Some(9), 8, true, true, false, false, None, None)
  const DOUBLE := Digest(3, Some(9), 7, true, true, false, false, Some(1), Some(2))
  const OURS := Context(Graph(map[1 := 2, 2 := 2], {}), {7})
  /** Two copies of one episode, one of them without its number, beside a file of ours that holds it. */
  const DISAGREEING := Page(
    [NUMBERED, UNNUMBERED, DOUBLE], [UNNUMBERED, NUMBERED, DOUBLE], [9],
    map[1 := NUMBERED, 2 := UNNUMBERED, 3 := DOUBLE], OURS, 9)

  lemma DisagreeingRows(d: Digest)
    ensures d in DISAGREEING.page <==> d == NUMBERED || d == UNNUMBERED || d == DOUBLE
    ensures d in DISAGREEING.children <==> d == NUMBERED || d == UNNUMBERED || d == DOUBLE
    ensures d in DISAGREEING.page ==> IsChild(DISAGREEING, d)
  {
  }

  lemma DisagreeingReadsTheTable()
    ensures ReadsTheTable(DISAGREEING) && CopiesStay(DISAGREEING) && DrawnAlone(DISAGREEING)
        && !NumbersAgree(DISAGREEING)
  {
    var p := DISAGREEING;
    forall d
      ensures d in p.page <==> d in p.children
      ensures d in p.page ==> IsChild(p, d) && d.parent == Some(9) && d.id in p.rows && p.rows[d.id] == d
    {
      DisagreeingRows(d);
    }
    DisagreeingRows(NUMBERED);
    DisagreeingRows(UNNUMBERED);
    assert forall id | id in p.rows :: p.rows[id] in p.page;
  }

  lemma DisagreeingIsNotCounted()
    ensures 2 !in GapsAmong(DISAGREEING.children, 3, OURS, 9)
  {
    var children := DISAGREEING.children;
    assert children[2] == DOUBLE && ParentRoot(DOUBLE, OURS.graph) == Some(9) && Spans(DOUBLE, OURS);
    assert 2 in Span(DOUBLE.episode, DOUBLE.end);
    assert 2 in CoveredUnder(children, OURS, 9);
    assert children[0] == NUMBERED && children[1] == UNNUMBERED;
    assert ParentRoot(children[0], OURS.graph) == ParentRoot(children[1], OURS.graph);
    assert !IsFirst(children, 1, OURS.graph);
  }

  lemma DisagreeingIsDrawnMissing(byId: map<Id, Digest>, covered: set<nat>)
    requires byId == map[1 := NUMBERED, 2 := UNNUMBERED, 3 := DOUBLE]
    ensures 2 in MissingIn(DrawnAll(DISAGREEING.page, byId, covered, OURS))
  {
    var listed := DISAGREEING.page;
    assert listed == [UNNUMBERED] + [NUMBERED] + [DOUBLE];
    assert DrawnAll([], byId, covered, OURS) == map[];
    DrawnOneMore([], UNNUMBERED, byId, covered, OURS);
    assert [] + [UNNUMBERED] == [UNNUMBERED];
    DrawnOneMore([UNNUMBERED], NUMBERED, byId, covered, OURS);
    DrawnOneMore([UNNUMBERED] + [NUMBERED], DOUBLE, byId, covered, OURS);
    assert Members(OURS.graph, 2) == {1, 2};
  }

  /**
   * Copies that disagree on their number: the first counted is inside the range of a file we
   * hold, the first drawn is not, and one counter says nothing is missing.
   */
  lemma CopiesThatDisagree()
    ensures ReadsTheTable(DISAGREEING) && CopiesStay(DISAGREEING) && DrawnAlone(DISAGREEING)
        && !NumbersAgree(DISAGREEING)
    ensures 2 !in GapsAmong(DISAGREEING.children, 3, OURS, 9)
    ensures 2 in MissingIn(DrawnAll(DISAGREEING.page, Index(DISAGREEING), CoveredIn(Index(DISAGREEING), OURS), OURS))
  {
    DisagreeingReadsTheTable();
    DisagreeingIsNotCounted();
    DisagreeingIsIndexed();
    DisagreeingIsDrawnMissing(DISAGREEING.rows, CoveredIn(Index(DISAGREEING), OURS));
  }

  lemma DisagreeingIsIndexed()
    ensures Index(DISAGREEING) == DISAGREEING.rows
  {
    var page := DISAGREEING.page;
    assert page[..2] == [UNNUMBERED, NUMBERED] && page[..2][..1] == [UNNUMBERED] && page[..2][..1][..0] == [];
    assert ById(page[..2][..1]) == map[2 := UNNUMBERED];
    assert ById(page[..2]) == map[2 := UNNUMBERED, 1 := NUMBERED];
    assert ById(page) == DISAGREEING.rows;
    assert Outsiders(page, OURS.graph, DISAGREEING.rows) == {};
  }

  const OURS_ELSEWHERE := Digest(4, Some(8), 7, true, true, false, false, None, None)
  const THEIRS := Digest(3, Some(9), 8, true, true, false, false, None, None)
  /** One child of a group, missing here, with a copy of ours filed under something else. */
  const STRAYED := Page(
    [THEIRS], [THEIRS], [9], map[3 := THEIRS, 4 := OURS_ELSEWHERE], Context(Graph(map[3 := 4, 4 := 4], {}), {7}), 9)

  /**
   * A copy we hold under another parent: the page fetches it and shows the child as held,
   * the listing never reads it and counts a gap.
   */
  lemma ACopyFiledElsewhere()
    ensures ReadsTheTable(STRAYED) && DrawnAlone(STRAYED) && RangesAgree(STRAYED) && !CopiesStay(STRAYED)
    ensures Short(STRAYED) == {4} && Missing(STRAYED) == {}
  {
    var p := STRAYED;
    StrayedReadsTheTable();
    assert p.children[..0] == [] && ById(p.children) == map[3 := THEIRS];
    assert IsFirst(p.children, 0, p.c.graph);
    assert Short(p) == {4} by {
      assert IsGap(p.children[0], ById(p.children), RangesHeld(p), p.c);
    }
    StrayedIsDrawnHeld();
  }

  lemma StrayedReadsTheTable()
    ensures ReadsTheTable(STRAYED) && DrawnAlone(STRAYED) && RangesAgree(STRAYED) && !CopiesStay(STRAYED)
  {
    var p := STRAYED;
    assert forall d :: d in p.page <==> d == THEIRS;
    assert IsChild(p, THEIRS) && 4 in Members(p.c.graph, 3) && !IsChild(p, p.rows[4]);
  }

  lemma StrayedIsDrawnHeld()
    ensures Missing(STRAYED) == {}
  {
    var p := STRAYED;
    assert p.page[..0] == [] && p.ranked[..0] == [];
    assert Filed(p.page[..0], 9) == [] && Filed(p.page, 9) == [THEIRS] && InRankOrder(p.page, p.ranked[..0]) == [];
    assert Drawing(p) == [THEIRS];
    var index := Index(p);
    assert 4 in Outsiders(p.page, p.c.graph, ById(p.page)) by {
      assert THEIRS in p.page && 4 in Members(p.c.graph, THEIRS.id) && 4 !in ById(p.page);
    }
    assert 4 in index && index[4] == OURS_ELSEWHERE;
    assert Holds(index[4], p.c) && 4 in Members(p.c.graph, 3);
    assert DrawnAll([THEIRS][..0], index, CoveredIn(index, p.c), p.c) == map[];
  }

  const FIRST_TWO := Digest(5, Some(8), 7, true, true, false, false, Some(1), Some(2))
  const SECOND := Digest(6, Some(9), 8, true, true, false, false, Some(2), None)
  /** Two seasons on one page: of one we hold a file of two episodes, of the other we lack the second. */
  const TWO_SEASONS := Page(
    [FIRST_TWO, SECOND], [FIRST_TWO, SECOND], [9], map[5 := FIRST_TWO, 6 := SECOND],
    Context(Graph(map[], {}), {7}), 9)

  /** The range of the one season fills the gap of the other on the page, and not in the listing. */
  lemma TwoSeasonsOnAPage()
    ensures ReadsTheTable(TWO_SEASONS) && CopiesStay(TWO_SEASONS) && NumbersAgree(TWO_SEASONS)
    ensures Short(TWO_SEASONS) == {6} && Missing(TWO_SEASONS) == {}
  {
    TwoSeasonsRead();
    SecondIsCounted();
    SecondIsDrawnHeld();
  }

  lemma TwoSeasonsRead()
    ensures ReadsTheTable(TWO_SEASONS) && CopiesStay(TWO_SEASONS) && NumbersAgree(TWO_SEASONS)
  {
    var p := TWO_SEASONS;
    assert forall d :: d in p.page <==> d == FIRST_TWO || d == SECOND;
    assert forall d :: IsChild(p, d) <==> d == SECOND;
  }

  lemma SecondIsCounted()
    ensures Short(TWO_SEASONS) == {6}
  {
    var p := TWO_SEASONS;
    assert p.children[..1] == [FIRST_TWO] && p.children[..1][..0] == [];
    assert CoveredUnder(p.children[..1], p.c, 9) == {};
    assert RangesHeld(p) == {};
    assert ById(p.children[..1]) == map[5 := FIRST_TWO];
    assert ById(p.children) == p.rows;
    assert IsFirst(p.children, 1, p.c.graph) && IsGap(p.children[1], p.rows, {}, p.c);
  }

  lemma SecondIsDrawnHeld()
    ensures Missing(TWO_SEASONS) == {}
  {
    var p := TWO_SEASONS;
    assert p.page[..1] == [FIRST_TWO] && p.page[..1][..0] == [] && p.ranked[..0] == [];
    assert Filed(p.page[..1], 9) == [] && InRankOrder(p.page, p.ranked[..0]) == [];
    assert Drawing(p) == [SECOND];
    assert ById(p.page[..1]) == map[5 := FIRST_TWO];
    assert ById(p.page) == p.rows && Index(p) == p.rows;
    assert Spans(p.rows[5], p.c) && 2 in Span(FIRST_TWO.episode, FIRST_TWO.end);
    assert 2 in RangesDrawn(p);
    assert DrawnAll([SECOND][..0], p.rows, RangesDrawn(p), p.c) == map[];
  }
}
