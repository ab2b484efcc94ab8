/**
 * Introductions among any number of gateways, as steps over every gateway's table.
 *
 * A recorded depth is a claim about distance. Distance is measured in the graph of friends:
 * an edge for every pair that ever settled a link themselves. No step removes an edge from
 * it, so a depth that was true stays true when a friend is later forgotten.
 */
module Introductions {
  import opened Options
  import opened Paths
  import opened PeerTables

  /** Every pair that ever settled a link themselves. */
  type Friends = Links

  /** Every gateway's table, ban list and settings; every token ever signed. */
  datatype Network = Network(
    tables: map<Gateway, Table>,
    bans: map<Gateway, set<Gateway>>,
    settings: map<Gateway, Settings>,
    tokens: set<Token>,
    friends: Friends)

  predicate Runs(n: Network, g: Gateway) {
    g in n.tables && g in n.bans && g in n.settings
  }

  datatype Step =
    | Add(me: Gateway, other: Gateway)                           // somebody here asked for the link
    | Announce(me: Gateway, other: Gateway)                      // the other gateway asked for it
    | Approve(me: Gateway, other: Gateway)
    | Redeem(me: Gateway, other: Gateway)                        // an invitation of the other's
    | Redial(me: Gateway, other: Gateway, linked: bool)          // with nobody in the middle
    | Open(me: Gateway, other: Gateway)                          // the other gateway connected
    | Close(me: Gateway, other: Gateway)
    | Answer(me: Gateway, caller: Gateway, holder: Gateway)      // an introduction, granted or refused
    | Save(me: Gateway, via: Gateway, token: Token)
    | Dial(me: Gateway, other: Gateway, linked: bool, created: bool)
    | Admit(me: Gateway, token: Token)
    | Lose(me: Gateway, other: Gateway, anotherOpen: bool)       // a link of ours dropped
    | Release(me: Gateway, other: Gateway)                       // after a transfer, or at a restart
    | Remove(me: Gateway, other: Gateway)
    | Ban(me: Gateway, other: Gateway)
    | Unban(me: Gateway, other: Gateway)
    | Configure(me: Gateway, settings: Settings)
    | Restrict(me: Gateway, other: Gateway, maxDepth: Option<int>, readingForbidden: bool)

  function WithTable(n: Network, me: Gateway, table: Table): Network {
    n.(tables := n.tables[me := table])
  }

  /** The step makes a link both ends chose: an answered request, an approval, an invitation. */
  predicate Chooses(n: Network, s: Step) {
    Runs(n, s.me) &&
    var table, banned := n.tables[s.me], n.bans[s.me];
    match s
    case Add(me, other) => other !in banned && other in table && table[other].direction == Some(Incoming)
    case Announce(me, other) => other !in banned && other in table && table[other].direction == Some(Outgoing)
    case Approve(me, other) => other in table && table[other].direction != Some(Outgoing)
    case Redeem(me, other) => other !in banned
    case _ => false
  }

  /** The table rewritten, and a new pair of friends if the step made one. */
  function Befriended(n: Network, s: Step, table: Table): Network
    requires s.Add? || s.Announce? || s.Approve? || s.Redeem?
  {
    WithTable(n, s.me, table).(friends := if Chooses(n, s) then n.friends + {(s.me, s.other)} else n.friends)
  }

  function Next(n: Network, s: Step): Network {
    if !Runs(n, s.me) then n
    else
      var table, banned, settings := n.tables[s.me], n.bans[s.me], n.settings[s.me];
      match s
      case Add(me, other) => Befriended(n, s, Asked(table, banned, other))
      case Announce(me, other) => Befriended(n, s, Announced(table, banned, other))
      case Approve(me, other) => Befriended(n, s, Approved(table, other))
      case Redeem(me, other) => Befriended(n, s, Redeemed(table, banned, other))
      case Redial(me, other, linked) => WithTable(n, me, Redialled(table, banned, other, linked))
      case Open(me, other) => WithTable(n, me, Opened(table, other))
      case Close(me, other) => WithTable(n, me, Closed(table, other))
      case Answer(me, caller, holder) =>
        // A call arrives over a link, and nothing else is asked of the caller's row.
        if caller in table && table[caller].open && Introduce(me, table, settings, caller, holder).Some? then
          n.(tokens := n.tokens + {Introduce(me, table, settings, caller, holder).value})
        else n
      case Save(me, via, token) =>
        if token in n.tokens && token.subject == me && token.introducer == via then
          WithTable(n, me, Saved(table, settings, banned, via, token))
        else n
      case Dial(me, other, linked, created) => WithTable(n, me, Dialled(table, other, linked, created))
      case Admit(me, token) =>
        if token in n.tokens then WithTable(n, me, Admitted(me, table, settings, banned, token)) else n
      case Lose(me, other, anotherOpen) => WithTable(n, me, Lost(table, other, anotherOpen))
      case Release(me, other) => WithTable(n, me, Released(table, other))
      case Remove(me, other) => WithTable(n, me, table - {other})
      case Ban(me, other) => WithTable(n, me, table - {other}).(bans := n.bans[me := banned + {other}])
      case Unban(me, other) => n.(bans := n.bans[me := banned - {other}])
      case Configure(me, changed) => n.(settings := n.settings[me := changed])
      case Restrict(me, other, maxDepth, readingForbidden) =>
        if other in table then
          WithTable(n, me, table[other := table[other].(maxDepth := maxDepth, readingForbidden := readingForbidden)])
        else n
  }

  /** What a gateway says of the distance to a settled peer is never shorter than the truth. */
  ghost predicate Truthful(friends: Friends, me: Gateway, table: Table) {
    forall other | other in table && IsSettled(table[other]) :: Within(friends, me, other, table[other].depth)
  }

  ghost predicate Honest(n: Network) {
    && (forall me | me in n.tables :: Truthful(n.friends, me, n.tables[me]))
    && (forall token | token in n.tokens :: Within(n.friends, token.subject, token.holder, token.depth))
  }

  /** A row at its true distance or farther, or a request filed at one hop that no link was ever opened for. */
  ghost predicate IsSound(friends: Friends, me: Gateway, other: Gateway, row: Peer) {
    (row.status.Pending? && !row.open && row.depth == 1) || Within(friends, me, other, row.depth)
  }

  /** A row waiting for an answer stands at one hop, as a new request does, or where a settled row truly stood. */
  ghost predicate RequestsAtOneHopOrTrue(n: Network) {
    forall me | me in n.tables ::
      forall other | other in n.tables[me] && n.tables[me][other].status.Pending? ::
        IsSound(n.friends, me, other, n.tables[me][other])
  }

  predicate Waits(table: Table, other: Gateway) {
    other in table && table[other].status.Pending?
  }

  /** The step settles a request nobody has answered: by an introduction, by a dial or by a link that drops. */
  predicate MeetsARequest(n: Network, s: Step) {
    Runs(n, s.me) &&
    match s
    case Dial(me, other, linked, created) => linked && Waits(n.tables[me], other)
    case Redial(me, other, linked) => other !in n.bans[me] && Waits(n.tables[me], other)
    case Lose(me, other, anotherOpen) =>
      Waits(n.tables[me], other) && (n.tables[me][other].discovered ==> anotherOpen)
    case Admit(me, token) =>
      && token in n.tokens && Admits(me, n.tables[me], n.settings[me], n.bans[me], token)
      && token.subject in n.tables[me]
    case _ => false
  }

  /** The gateway a request met by this step is from or to. */
  function RequestMet(s: Step): Gateway
    requires s.Dial? || s.Redial? || s.Lose? || s.Admit?
  {
    if s.Admit? then s.token.subject else s.other
  }

  /** It meets one filed at one hop, between two gateways that were never friends. */
  predicate Overtakes(n: Network, s: Step) {
    && MeetsARequest(n, s) && n.tables[s.me][RequestMet(s)].depth == 1
    && s.me != RequestMet(s) && !Adjacent(n.friends, s.me, RequestMet(s))
  }

  /** Whoever calls over a link is recorded at its true distance or farther, even while a request of ours waits. */
  lemma CallersAreTrue(n: Network, me: Gateway, caller: Gateway)
    requires Honest(n) && RequestsAtOneHopOrTrue(n) && me in n.tables && caller in n.tables[me]
    requires IsSettled(n.tables[me][caller]) || n.tables[me][caller].open
    ensures Within(n.friends, me, caller, n.tables[me][caller].depth)
  {
    assert Truthful(n.friends, me, n.tables[me]);
  }

  lemma TokensAreTrue(n: Network, s: Step)
    requires Honest(n) && RequestsAtOneHopOrTrue(n) && s.Answer? && Runs(n, s.me)
    ensures Honest(Next(n, s))
  {
    var table, settings := n.tables[s.me], n.settings[s.me];
    var token := Introduce(s.me, table, settings, s.caller, s.holder);
    if s.caller in table && table[s.caller].open && token.Some? {
      CallersAreTrue(n, s.me, s.caller);
      WithinBack(n.friends, s.me, s.caller, table[s.caller].depth);
      WithinChain(n.friends, s.caller, s.me, s.holder, table[s.caller].depth, table[s.holder].depth);
    }
  }

  lemma SavingIsTrue(n: Network, s: Step)
    requires Honest(n) && s.Save? && Runs(n, s.me)
    ensures Honest(Next(n, s))
  {
    if s.token in n.tokens {
      WithinMore(n.friends, n.friends, s.token.subject, s.token.holder, s.token.depth, Floored(s.token.depth));
    }
  }

  lemma OneMoreFriendIsTrue(n: Network, me: Gateway, other: Gateway)
    requires Honest(n) && RequestsAtOneHopOrTrue(n)
    ensures
      var u := n.(friends := n.friends + {(me, other)});
      Honest(u) && RequestsAtOneHopOrTrue(u) && Within(u.friends, me, other, 1)
  {
    var u := n.(friends := n.friends + {(me, other)});
    assert Adjacent(u.friends, me, other);
    OneHop(u.friends, me, other);
    forall a, b, d | a in n.tables && b in n.tables[a] && d == n.tables[a][b].depth && Within(n.friends, a, b, d)
      ensures Within(u.friends, a, b, d)
    {
      WithinMore(n.friends, u.friends, a, b, d, d);
    }
    forall token | token in n.tokens
      ensures Within(u.friends, token.subject, token.holder, token.depth)
    {
      WithinMore(n.friends, u.friends, token.subject, token.holder, token.depth, token.depth);
    }
  }

  lemma OneRowRewritten(n: Network, me: Gateway, other: Gateway, row: Peer)
    requires Honest(n) && RequestsAtOneHopOrTrue(n) && Runs(n, me)
    requires IsSound(n.friends, me, other, row)
    ensures
      var u := WithTable(n, me, n.tables[me][other := row]);
      Honest(u) && RequestsAtOneHopOrTrue(u)
  {
  }

  /** The row an asking, an answer, an approval or an invitation leaves, if it leaves the table changed. */
  lemma ChosenRowIsSound(n: Network, s: Step)
    requires Honest(n) && RequestsAtOneHopOrTrue(n) && Runs(n, s.me)
    requires s.Add? || s.Announce? || s.Approve? || s.Redeem?
    requires Chooses(n, s) ==> Within(n.friends, s.me, s.other, 1)
    ensures
      var table, v := n.tables[s.me], Next(n, s).tables[s.me];
      v == table ||
      (s.other in v && v == table[s.other := v[s.other]]
       && IsSound(n.friends, s.me, s.other, v[s.other]))
  {
  }

  /** Asking, answering, approving and redeeming keep every record honest. */
  lemma ChoosingIsTrue(n: Network, s: Step)
    requires Honest(n) && RequestsAtOneHopOrTrue(n) && Runs(n, s.me)
    requires s.Add? || s.Announce? || s.Approve? || s.Redeem?
    ensures Honest(Next(n, s)) && RequestsAtOneHopOrTrue(Next(n, s))
  {
    var u := Next(n, s);
    var m := n.(friends := u.friends);
    if Chooses(n, s) {
      OneMoreFriendIsTrue(n, s.me, s.other);
    } else {
      assert m == n;
    }
    assert Chooses(m, s) == Chooses(n, s) && Next(m, s).tables == u.tables;
    ChosenRowIsSound(m, s);
    var table, v := n.tables[s.me], u.tables[s.me];
    if v == table {
      assert n.tables[s.me := table] == n.tables;
    } else {
      OneRowRewritten(m, s.me, s.other, v[s.other]);
    }
  }

  /** A dial, an admission or a lost link keeps every record honest exactly when it overtakes no request. */
  lemma MeetingIsTrueIff(n: Network, s: Step)
    requires Honest(n) && RequestsAtOneHopOrTrue(n) && Runs(n, s.me)
    requires s.Dial? || s.Redial? || s.Lose? || s.Admit?
    ensures Honest(Next(n, s)) <==> !Overtakes(n, s)
    ensures RequestsAtOneHopOrTrue(Next(n, s))
  {
    var u := Next(n, s);
    if s.Admit? && s.token in n.tokens && Admits(s.me, n.tables[s.me], n.settings[s.me], n.bans[s.me], s.token) {
      var depth := AdmittedDepth(n.tables[s.me][s.token.introducer], s.token);
      WithinBack(n.friends, s.token.subject, s.me, s.token.depth);
      WithinMore(n.friends, n.friends, s.me, s.token.subject, s.token.depth, depth);
    }
    if MeetsARequest(n, s) {
      var met := RequestMet(s);
      assert met in u.tables[s.me] && IsSettled(u.tables[s.me][met]);
      assert u.tables[s.me][met].depth == n.tables[s.me][met].depth;
      OneHop(n.friends, s.me, met);
    }
  }

  /**
   * The holder's own arithmetic is enough for a friend of the introducer, whatever depth the
   * token states: stating a smaller one gains nothing.
   */
  lemma AdmittedTrulyWhateverTheTokenSays(
    friends: Friends, me: Gateway, table: Table, settings: Settings, banned: set<Gateway>, token: Token)
    requires Truthful(friends, me, table)
    requires Admits(me, table, settings, banned, token) && token.subject !in table
    requires Adjacent(friends, token.introducer, token.subject)
    ensures Truthful(friends, me, Admitted(me, table, settings, banned, token))
  {
    var introducer := table[token.introducer];
    OneHop(friends, token.introducer, token.subject);
    WithinChain(friends, me, token.introducer, token.subject, introducer.depth, 1);
    WithinMore(friends, friends, me, token.subject, introducer.depth + 1, AdmittedDepth(introducer, token));
  }

  /** So is the caller's floor, when both links of the chain were chosen. */
  lemma SavedTrulyWhateverTheAnswerSays(
    friends: Friends, me: Gateway, table: Table, settings: Settings, banned: set<Gateway>, via: Gateway, token: Token)
    requires Truthful(friends, me, table)
    requires Adjacent(friends, me, via) && Adjacent(friends, via, token.holder)
    ensures Truthful(friends, me, Saved(table, settings, banned, via, token))
  {
    OneHop(friends, me, via);
    OneHop(friends, via, token.holder);
    WithinChain(friends, me, via, token.holder, 1, 1);
    WithinMore(friends, friends, me, token.holder, 2, Floored(token.depth));
  }

  lemma OneHop(friends: Friends, a: Gateway, b: Gateway)
    ensures Within(friends, a, b, 1) <==> a == b || Adjacent(friends, a, b)
  {
    assert Within(friends, b, b, 0);
  }

  /** A step keeps every recorded depth honest exactly when it overtakes no request. */
  lemma StepsAreHonestIff(n: Network, s: Step)
    requires Honest(n) && RequestsAtOneHopOrTrue(n)
    ensures Honest(Next(n, s)) <==> !Overtakes(n, s)
    ensures RequestsAtOneHopOrTrue(Next(n, s))
  {
    if Runs(n, s.me) {
      match s
      case Add(_, _) => ChoosingIsTrue(n, s);
      case Announce(_, _) => ChoosingIsTrue(n, s);
      case Approve(_, _) => ChoosingIsTrue(n, s);
      case Redeem(_, _) => ChoosingIsTrue(n, s);
      case Answer(_, _, _) => TokensAreTrue(n, s);
      case Save(_, _, _) => SavingIsTrue(n, s);
      case Dial(_, _, _, _) => MeetingIsTrueIff(n, s);
      case Redial(_, _, _) => MeetingIsTrueIff(n, s);
      case Lose(_, _, _) => MeetingIsTrueIff(n, s);
      case Admit(_, _) => MeetingIsTrueIff(n, s);
      case _ =>
    }
  }

  // ------------------------------------------------------------------------------- runs

  function After(n: Network, steps: seq<Step>): Network {
    if steps == [] then n else Next(After(n, steps[..|steps| - 1]), steps[|steps| - 1])
  }

  /** No step of the run overtakes a request. */
  ghost predicate OvertakesNone(n: Network, steps: seq<Step>) {
    steps == [] ||
    var m := |steps| - 1;
    OvertakesNone(n, steps[..m]) && !Overtakes(After(n, steps[..m]), steps[m])
  }

  /** Every record is honest before, between and after the steps. */
  ghost predicate HonestThroughout(n: Network, steps: seq<Step>) {
    Honest(After(n, steps)) && (steps == [] || HonestThroughout(n, steps[..|steps| - 1]))
  }

  /**
   * Over any run of any number of gateways, each recorded depth is at least the true distance
   * the whole way through, exactly when no introduction, dial or lost link overtakes an
   * unanswered request.
   */
  lemma {:induction false} RunsAreHonest(n: Network, steps: seq<Step>)
    requires Honest(n) && RequestsAtOneHopOrTrue(n)
    ensures HonestThroughout(n, steps) <==> OvertakesNone(n, steps)
    ensures OvertakesNone(n, steps) ==> Honest(After(n, steps)) && RequestsAtOneHopOrTrue(After(n, steps))
  {
    if steps != [] {
      var m := |steps| - 1;
      RunsAreHonest(n, steps[..m]);
      if OvertakesNone(n, steps[..m]) {
        StepsAreHonestIff(After(n, steps[..m]), steps[m]);
      }
    }
  }

  /** Before anybody has met anybody. */
  function Beginning(settings: map<Gateway, Settings>): Network {
    Network(map g | g in settings :: map[], map g | g in settings :: {}, settings, {}, {})
  }

  /** So in every network that ever ran, each depth on record is true exactly if no request was overtaken. */
  lemma EveryNetworkIsHonestIff(settings: map<Gateway, Settings>, steps: seq<Step>)
    ensures HonestThroughout(Beginning(settings), steps) <==> OvertakesNone(Beginning(settings), steps)
  {
    RunsAreHonest(Beginning(settings), steps);
  }

  lemma GrantedWithinReach(n: Network, me: Gateway, caller: Gateway, holder: Gateway)
    requires Honest(n) && RequestsAtOneHopOrTrue(n) && Runs(n, me)
    requires caller in n.tables[me] && (IsSettled(n.tables[me][caller]) || n.tables[me][caller].open)
    requires Introduce(me, n.tables[me], n.settings[me], caller, holder).Some?
    ensures holder in n.tables[me]
    ensures Within(n.friends, caller, holder, n.settings[me].peerMaxDepth)
    ensures Within(n.friends, caller, holder, LimitOf(n.tables[me][caller], n.settings[me]))
    ensures Within(n.friends, caller, holder, LimitOf(n.tables[me][holder], n.settings[me]))
  {
    var table, settings := n.tables[me], n.settings[me];
    var depth := table[caller].depth + table[holder].depth;
    CallersAreTrue(n, me, caller);
    WithinBack(n.friends, me, caller, table[caller].depth);
    WithinChain(n.friends, caller, me, holder, table[caller].depth, table[holder].depth);
    WithinMore(n.friends, n.friends, caller, holder, depth, settings.peerMaxDepth);
    WithinMore(n.friends, n.friends, caller, holder, depth, LimitOf(table[caller], settings));
    WithinMore(n.friends, n.friends, caller, holder, depth, LimitOf(table[holder], settings));
  }

  /**
   * No token is ever signed for two gateways farther apart than the introducer's ceiling or either
   * peer's own limit.
   */
  lemma NoTokenBeyondReach(n: Network, steps: seq<Step>, me: Gateway, caller: Gateway, holder: Gateway)
    requires Honest(n) && RequestsAtOneHopOrTrue(n) && OvertakesNone(n, steps)
    requires
      var u := After(n, steps);
      && Runs(u, me) && caller in u.tables[me] && (IsSettled(u.tables[me][caller]) || u.tables[me][caller].open)
      && Introduce(me, u.tables[me], u.settings[me], caller, holder).Some?
    ensures
      var u := After(n, steps);
      var table, settings := u.tables[me], u.settings[me];
      && holder in table
      && Within(u.friends, caller, holder, settings.peerMaxDepth)
      && Within(u.friends, caller, holder, LimitOf(table[caller], settings))
      && Within(u.friends, caller, holder, LimitOf(table[holder], settings))
  {
    RunsAreHonest(n, steps);
    GrantedWithinReach(After(n, steps), me, caller, holder);
  }

  /** Nobody is let in from farther than the holder's ceiling, or than the reach it allows the introducer's circle. */
  lemma NobodyAdmittedFromBeyond(n: Network, steps: seq<Step>, me: Gateway, token: Token)
    requires Honest(n) && RequestsAtOneHopOrTrue(n) && OvertakesNone(n, steps)
    requires
      var u := After(n, steps);
      Runs(u, me) && token in u.tokens && Admits(me, u.tables[me], u.settings[me], u.bans[me], token)
    ensures
      var u := After(n, steps);
      && Within(u.friends, token.subject, me, u.settings[me].peerMaxDepth)
      && Within(u.friends, token.subject, me, LimitOf(u.tables[me][token.introducer], u.settings[me]))
  {
    var u := After(n, steps);
    RunsAreHonest(n, steps);
    WithinMore(u.friends, u.friends, token.subject, me, token.depth, u.settings[me].peerMaxDepth);
    WithinMore(u.friends, u.friends, token.subject, me, token.depth,
        LimitOf(u.tables[me][token.introducer], u.settings[me]));
  }

  // -------------------------------------------------------------------------- who is kept

  /** The steps that delete a row nobody means to forget: a removal, a ban, and a failed dial the row was made for. */
  predicate Forgets(s: Step, me: Gateway, other: Gateway) {
    s.me == me &&
    match s
    case Remove(_, who) => who == other
    case Ban(_, who) => who == other
    case Dial(_, who, linked, created) => who == other && !linked && created
    case _ => false
  }

  predicate IsKept(n: Network, me: Gateway, other: Gateway) {
    Runs(n, me) && other in n.tables[me] && !n.tables[me][other].discovered
  }

  lemma AStepKeepsWhoItDoesNotForget(n: Network, s: Step, me: Gateway, other: Gateway)
    requires IsKept(n, me, other)
    ensures IsKept(Next(n, s), me, other) <==> !Forgets(s, me, other)
    ensures n.friends <= Next(n, s).friends
    ensures
      var u := Next(n, s);
      IsKept(u, me, other) ==>
        u.tables[me][other].depth == n.tables[me][other].depth ||
        (u.tables[me][other].depth == 1 && Adjacent(u.friends, me, other))
  {
  }

  ghost predicate KeptThroughout(n: Network, steps: seq<Step>, me: Gateway, other: Gateway) {
    IsKept(After(n, steps), me, other) && (steps == [] || KeptThroughout(n, steps[..|steps| - 1], me, other))
  }

  /**
   * A peer that is to be kept stays, and stays kept, the whole way through exactly when no
   * step of the run removes it, bans it or fails the dial its row was made for. Its depth is
   * the one it had, or that of a friend once the two have chosen each other.
   */
  lemma {:induction false} AChosenPeerIsKept(n: Network, steps: seq<Step>, me: Gateway, other: Gateway)
    requires IsKept(n, me, other)
    ensures KeptThroughout(n, steps, me, other) <==> forall s | s in steps :: !Forgets(s, me, other)
    ensures
      var u := After(n, steps);
      KeptThroughout(n, steps, me, other) ==>
        u.tables[me][other].depth == n.tables[me][other].depth ||
        (u.tables[me][other].depth == 1 && Adjacent(u.friends, me, other))
  {
    if steps != [] {
      var m := |steps| - 1;
      AChosenPeerIsKept(n, steps[..m], me, other);
      if KeptThroughout(n, steps[..m], me, other) {
        AStepKeepsWhoItDoesNotForget(After(n, steps[..m]), steps[m], me, other);
      }
    }
  }

  /** An introduction whose dial fails leaves no trace, even where introduced peers are kept. */
  lemma AFailedDialLeavesNoTrace(n: Network, me: Gateway, via: Gateway, token: Token)
    requires Runs(n, me) && token.holder !in n.tables[me]
    ensures After(n, [Save(me, via, token), Dial(me, token.holder, false, true)]) == n
  {
    var save, dial := Save(me, via, token), Dial(me, token.holder, false, true);
    assert [save, dial][..1] == [save] && [save][..0] == [];
    assert After(n, [save]) == Next(n, save);
    assert Next(n, save).tables[me] - {token.holder} == n.tables[me];
    assert Next(Next(n, save), dial).tables == n.tables;
  }

  /** A request typed while that dial was under way goes with it. */
  lemma AChoiceLostWithADial(n: Network, me: Gateway, via: Gateway, token: Token)
    requires Runs(n, me) && token in n.tokens && token.subject == me && token.introducer == via
    requires token.holder !in n.tables[me] && token.holder !in n.bans[me]
    ensures
      var run := [Save(me, via, token), Add(me, token.holder), Dial(me, token.holder, false, true)];
      && IsKept(After(n, run[..2]), me, token.holder)
      && Runs(After(n, run), me) && token.holder !in After(n, run).tables[me]
  {
    var run := [Save(me, via, token), Add(me, token.holder), Dial(me, token.holder, false, true)];
    assert run[..2][..1] == [run[0]] && [run[0]][..0] == [];
    assert After(n, [run[0]]) == Next(n, run[0]);
    assert After(n, run[..2]) == Next(Next(n, run[0]), run[1]);
  }

  lemma AskedAgainStandsWhereItStood(n: Network, me: Gateway, other: Gateway)
    requires Honest(n) && Runs(n, me) && other in n.tables[me] && IsSettled(n.tables[me][other])
    ensures
      var w := Next(n, Add(me, other));
      && Runs(w, me)
      && (Waits(w.tables[me], other) && w.tables[me][other].depth == 1 ==>
          me == other || Adjacent(w.friends, me, other))
  {
    var table := n.tables[me];
    assert Truthful(n.friends, me, table);
    if table[other].depth == 1 {
      assert Within(n.friends, me, other, 1);
      OneHop(n.friends, me, other);
    }
  }

  /** A settled peer asked for again, and then met by an introduction, keeps the distance it was settled at. */
  lemma AskingAgainIsHarmless(n: Network, me: Gateway, other: Gateway, created: bool)
    requires Honest(n) && RequestsAtOneHopOrTrue(n) && Runs(n, me)
    requires other in n.tables[me] && IsSettled(n.tables[me][other])
    ensures HonestThroughout(n, [Add(me, other), Dial(me, other, true, created)])
  {
    var add, dial := Add(me, other), Dial(me, other, true, created);
    assert [add, dial][..1] == [add] && [add][..0] == [];
    assert After(n, [add]) == Next(n, add);
    AskedAgainStandsWhereItStood(n, me, other);
    assert OvertakesNone(n, [add]) by { assert !Overtakes(n, add); }
    assert OvertakesNone(n, [add, dial]);
    RunsAreHonest(n, [add, dial]);
  }

  const OPEN := Settings(3, false)
  const TOKEN := Token(2, 1, 3, 2)
  const FRIEND := Peer(Linked, None, 1, None, None, false, false, true)
  /** Gateway 2 is a friend of 1 and of 3, who have never met. */
  const ACQUAINTED := Network(
    map[2 := map[1 := FRIEND, 3 := FRIEND], 3 := map[2 := FRIEND]], map[2 := {}, 3 := {}],
    map[2 := OPEN, 3 := OPEN], {}, {(2, 1), (2, 3), (3, 2)})
  const ASKED := FRIEND.(status := Pending, direction := Some(Incoming), open := false)
  /** The same, with a request of 1's waiting at 3 and a token from 2 in 1's hands. */
  const WAITING := ACQUAINTED.(
    tables := ACQUAINTED.tables[3 := map[2 := FRIEND, 1 := ASKED]],
    tokens := {TOKEN})
  const OVERTAKING := [Announce(3, 1), Answer(2, 1, 3), Admit(3, TOKEN)]

  lemma BeforeTheAdmission()
    ensures After(ACQUAINTED, OVERTAKING[..2]) == WAITING
  {
    assert OVERTAKING[..1][..0] == [] && OVERTAKING[..2][..1] == OVERTAKING[..1];
    assert After(ACQUAINTED, []) == ACQUAINTED;
    assert After(ACQUAINTED, OVERTAKING[..1]) == Next(ACQUAINTED, Announce(3, 1));
  }

  lemma AcquaintedIsHonest()
    ensures Honest(ACQUAINTED) && RequestsAtOneHopOrTrue(ACQUAINTED)
  {
    assert forall g: Gateway :: Within(ACQUAINTED.friends, g, g, 0);
    assert Adjacent(ACQUAINTED.friends, 2, 1) && Adjacent(ACQUAINTED.friends, 2, 3)
        && Adjacent(ACQUAINTED.friends, 3, 2);
  }

  lemma TheAdmissionOvertakes()
    ensures Overtakes(WAITING, OVERTAKING[2])
  {
    assert Admits(3, WAITING.tables[3], OPEN, {}, TOKEN);
  }

  /**
   * A request left unanswered and then overtaken by an introduction is filed at one hop:
   * two gateways two hops apart end up one apart in the holder's table.
   */
  lemma ARequestOvertaken()
    ensures Honest(ACQUAINTED) && RequestsAtOneHopOrTrue(ACQUAINTED)
    ensures !HonestThroughout(ACQUAINTED, OVERTAKING)
  {
    AcquaintedIsHonest();
    BeforeTheAdmission();
    TheAdmissionOvertakes();
    assert !OvertakesNone(ACQUAINTED, OVERTAKING);
    RunsAreHonest(ACQUAINTED, OVERTAKING);
  }

  /** A dial that fails settles a request as well as one that succeeds: the row is no longer waiting. */
  lemma ARequestDialled(linked: bool)
    ensures !HonestThroughout(ACQUAINTED, [Announce(3, 1), Redial(3, 1, linked)])
  {
    var run := [Announce(3, 1), Redial(3, 1, linked)];
    AcquaintedIsHonest();
    assert run[..1] == [run[0]] && [run[0]][..0] == [];
    assert After(ACQUAINTED, [run[0]]) == Next(ACQUAINTED, run[0]);
    assert Overtakes(Next(ACQUAINTED, run[0]), run[1]);
    RunsAreHonest(ACQUAINTED, run);
  }
}
