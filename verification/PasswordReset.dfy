/**
 * Password resets as a protocol: a reset reads its link, hashes the new password,
 * and only then lands, so resets with one link and requests for a new link interleave.
 */
module PasswordReset {
  import opened AuthService
  import opened Prelude
  import RefreshTokens

  type Hash = RefreshTokens.Hash
  type UserId = RefreshTokens.UserId
  type Link = Hash
  type CallId = nat

  /** A reset goes `Asked`, `Cleared`, `Done`; a request for a link goes `Forgot`, `Minting`, `Done`. */
  datatype Call =
    | Asked(link: Link, common: bool, password: Hash)
    | Cleared(link: Link, verified: bool, password: Hash)
    | Forgot(user: UserId)
    | Minting(user: UserId)
    | Refused(error: ResetError)
    | Done

  /** A reset whose transaction committed. */
  datatype Landing = Landing(call: CallId, link: Link)

  datatype State = State(now: int, accounts: map<UserId, Account>, tokens: map<Link, ResetToken>,
                         calls: map<CallId, Call>, landings: seq<Landing>, superseded: set<Link>)

  datatype Event =
    | Tick(ms: nat)
    | Begin(call: CallId, request: Call)
    | Advance(call: CallId, newLink: Link, expiresAt: int)

  ghost predicate Enabled(s: State, e: Event) {
    match e
    case Tick(_) => true
    case Begin(call, request) => call !in s.calls && (request.Asked? || request.Forgot?)
    case Advance(call, newLink, _) =>
      && call in s.calls && !s.calls[call].Refused? && !s.calls[call].Done?
      && (s.calls[call].Minting? ==> newLink !in s.tokens)
  }

  function Move(s: State, call: CallId, next: Call): State {
    s.(calls := s.calls[call := next])
  }

  /** Up to the hash of the new password: the checks on the link as it is read now. */
  function Read(s: State, call: CallId, request: Call): State
    requires request.Asked?
  {
    var refusal := ResetRefusal(s.tokens, request.link, request.common, s.now);
    if refusal.Some? then Move(s, call, Refused(refusal.value))
    else if s.tokens[request.link].userId !in s.accounts then s
    else
      var account := s.accounts[s.tokens[request.link].userId];
      Move(s, call, Cleared(request.link, account.emailVerifiedAt.Some?, request.password))
  }

  /** The account a reset leaves; an address read as unverified is stamped, whatever has happened to it since. */
  function ResetAccount(account: Account, verified: bool, password: Hash, now: int): Account {
    Account(password, if verified then account.emailVerifiedAt else Some(now))
  }

  /** The transaction. The token is consumed by its id alone. */
  function Land(s: State, call: CallId, held: Call): State
    requires held.Cleared?
  {
    if held.link !in s.tokens || s.tokens[held.link].userId !in s.accounts then s
    else
      var token := s.tokens[held.link];
      var account := ResetAccount(s.accounts[token.userId], held.verified, held.password, s.now);
      Move(s, call, Done).(
        accounts := s.accounts[token.userId := account],
        tokens := s.tokens[held.link := token.(consumedAt := Some(s.now))],
        landings := s.landings + [Landing(call, held.link)])
  }

  function Outstanding(tokens: map<Link, ResetToken>, user: UserId): set<Link> {
    set link | link in tokens && tokens[link].userId == user && tokens[link].consumedAt.None?
  }

  /** `consumeOutstandingVerificationTokens`: only a token not consumed yet is stamped. */
  function Supersede(s: State, call: CallId, user: UserId): State {
    var outstanding := Outstanding(s.tokens, user);
    Move(s, call, Minting(user)).(
      tokens := map link | link in s.tokens ::
        if link in outstanding then s.tokens[link].(consumedAt := Some(s.now)) else s.tokens[link],
      superseded := s.superseded + outstanding)
  }

  function AdvanceCall(s: State, call: CallId, newLink: Link, expiresAt: int): State
    requires call in s.calls
  {
    match s.calls[call]
    case Asked(_, _, _) => Read(s, call, s.calls[call])
    case Cleared(_, _, _) => Land(s, call, s.calls[call])
    case Forgot(user) => if user in s.accounts then Supersede(s, call, user) else Move(s, call, Done)
    case Minting(user) =>
      Move(s, call, Done).(tokens := s.tokens[newLink := ResetToken(user, expiresAt, None)])
    case _ => s
  }

  function Next(s: State, e: Event): State {
    match e
    case Tick(ms) => s.(now := s.now + ms)
    case Begin(call, request) => Move(s, call, request)
    case Advance(call, newLink, expiresAt) => if call in s.calls then AdvanceCall(s, call, newLink, expiresAt) else s
  }

  ghost predicate IsRun(s: State, events: seq<Event>)
    decreases |events|
  {
    events == [] || (Enabled(s, events[0]) && IsRun(Next(s, events[0]), events[1..]))
  }

  function After(s: State, events: seq<Event>): State
    decreases |events|
  {
    if events == [] then s else After(Next(s, events[0]), events[1..])
  }

  ghost predicate Initial(s: State) {
    s.tokens == map[] && s.calls == map[] && s.landings == [] && s.superseded == {}
  }

  // ---- What every step keeps ----

  function Landings(landings: seq<Landing>, link: Link): nat {
    if landings == [] then 0
    else
      var last := |landings| - 1;
      Landings(landings[..last], link) + (if landings[last].link == link then 1 else 0)
  }

  /** How often a link has been used up: by resets that landed, and by a newer link. */
  function Spent(s: State, link: Link): nat {
    Landings(s.landings, link) + (if link in s.superseded then 1 else 0)
  }

  ghost predicate CallOk(s: State, call: Call) {
    match call
    case Cleared(link, _, _) => link in s.tokens
    case Minting(user) => user in s.accounts
    case _ => true
  }

  /** A token is stamped exactly if it has been used up, and belongs to an account. */
  ghost predicate Inv(s: State) {
    && (forall call: CallId :: call in s.calls ==> CallOk(s, s.calls[call]))
    && (forall link: Link :: link in s.tokens ==>
          s.tokens[link].userId in s.accounts && (s.tokens[link].consumedAt.Some? <==> Spent(s, link) > 0))
    && (forall link: Link :: link !in s.tokens ==> Spent(s, link) == 0)
  }

  lemma OneLandingMore(landings: seq<Landing>, landing: Landing, link: Link)
    ensures Landings(landings + [landing], link) == Landings(landings, link) + (if landing.link == link then 1 else 0)
  {
    assert (landings + [landing])[..|landings|] == landings;
  }

  /** What a step does to one link's count: only a landing or a first superseding adds to it. */
  lemma SpentStep(s: State, e: Event, link: Link)
    requires Inv(s) && Enabled(s, e)
    ensures
      Spent(Next(s, e), link) ==
      Spent(s, link) + (if Lands(s, e, link) || Supersedes(s, e, link) then 1 else 0)
  {
    if e.Advance? && s.calls[e.call].Cleared? {
      assert CallOk(s, s.calls[e.call]);
      OneLandingMore(s.landings, Landing(e.call, s.calls[e.call].link), link);
    }
  }

  ghost predicate Lands(s: State, e: Event, link: Link) {
    e.Advance? && e.call in s.calls && s.calls[e.call].Cleared? && s.calls[e.call].link == link
  }

  ghost predicate Supersedes(s: State, e: Event, link: Link) {
    && e.Advance? && e.call in s.calls && s.calls[e.call].Forgot? && s.calls[e.call].user in s.accounts
    && link in s.tokens && s.tokens[link].userId == s.calls[e.call].user && s.tokens[link].consumedAt.None?
  }

  /** The new link of a request that has superseded the old ones. */
  ghost predicate Mints(s: State, e: Event, link: Link) {
    e.Advance? && e.call in s.calls && s.calls[e.call].Minting? && e.newLink == link
  }

  /**
   * Tokens and accounts stay, and only a request for a link adds one. A landing or a
   * superseding stamps the token with the time of day; nothing else touches it.
   */
  lemma TokenStep(s: State, e: Event, link: Link)
    requires Inv(s) && Enabled(s, e)
    ensures s.accounts.Keys <= Next(s, e).accounts.Keys
    ensures link in s.tokens ==>
      && link in Next(s, e).tokens
      && var stamped := Lands(s, e, link) || Supersedes(s, e, link);
         Next(s, e).tokens[link] == if stamped then s.tokens[link].(consumedAt := Some(s.now)) else s.tokens[link]
    ensures link !in s.tokens ==> (link in Next(s, e).tokens <==> Mints(s, e, link))
    ensures Mints(s, e, link) ==> Next(s, e).tokens[link] == ResetToken(s.calls[e.call].user, e.expiresAt, None)
    ensures Mints(s, e, link) ==> s.calls[e.call].user in s.accounts
  {
    hide Spent;
    assert e.Advance? ==> CallOk(s, s.calls[e.call]);
  }

  /** A landing writes its user's password, and the address as verified now if it was read as unverified. */
  lemma AccountStep(s: State, e: Event)
    requires Inv(s) && Enabled(s, e)
    ensures
      if e.Advance? && s.calls[e.call].Cleared? then
        && s.calls[e.call].link in s.tokens
        && var held, user := s.calls[e.call], s.tokens[s.calls[e.call].link].userId;
        && user in s.accounts
        && var verified := if held.verified then s.accounts[user].emailVerifiedAt else Some(s.now);
           Next(s, e).accounts == s.accounts[user := Account(held.password, verified)]
      else Next(s, e).accounts == s.accounts
    ensures Next(s, e).now == if e.Tick? then s.now + e.ms else s.now
  {
    hide Spent;
    assert e.Advance? ==> CallOk(s, s.calls[e.call]);
  }

  lemma NextKeeps(s: State, e: Event)
    requires Inv(s) && Enabled(s, e)
    ensures Inv(Next(s, e))
  {
    hide Next, Enabled, Spent, CallOk;
    var next := Next(s, e);
    forall link: Link
      ensures link in next.tokens ==>
        next.tokens[link].userId in next.accounts && (next.tokens[link].consumedAt.Some? <==> Spent(next, link) > 0)
      ensures link !in next.tokens ==> Spent(next, link) == 0
    {
      SpentStep(s, e, link);
      TokenStep(s, e, link);
      OnlyKnownLinks(s, e, link);
    }
    forall call: CallId | call in next.calls
      ensures CallOk(next, next.calls[call])
    {
      CallsStayOk(s, e, call);
    }
  }

  lemma OnlyKnownLinks(s: State, e: Event, link: Link)
    requires Inv(s) && Enabled(s, e)
    ensures Lands(s, e, link) || Supersedes(s, e, link) ==> link in s.tokens
  {
    hide Spent;
    assert e.Advance? && e.call in s.calls ==> CallOk(s, s.calls[e.call]);
  }

  lemma CallsStayOk(s: State, e: Event, call: CallId)
    requires Inv(s) && Enabled(s, e) && call in Next(s, e).calls
    ensures CallOk(Next(s, e), Next(s, e).calls[call])
  {
    hide Spent;
    assert call in s.calls ==> CallOk(s, s.calls[call]);
    forall link: Link | link in s.tokens
      ensures link in Next(s, e).tokens
    {
      TokenStep(s, e, link);
    }
  }

  lemma {:induction false} RunKeeps(s: State, events: seq<Event>)
    requires Inv(s) && IsRun(s, events)
    ensures Inv(After(s, events))
    decreases |events|
  {
    hide Inv, Next, Enabled;
    if events != [] {
      NextKeeps(s, events[0]);
      RunKeeps(Next(s, events[0]), events[1..]);
    }
  }

  // ---- When a link is used up twice ----

  /** The guard the transaction leaves out: it lands on a token that is consumed by now. */
  ghost predicate Overwrites(s: State, e: Event, link: Link) {
    Lands(s, e, link) && link in s.tokens && s.tokens[link].consumedAt.Some?
  }

  ghost predicate Overwritten(s: State, events: seq<Event>, link: Link)
    decreases |events|
  {
    events != [] && (Overwrites(s, events[0], link) || Overwritten(Next(s, events[0]), events[1..], link))
  }

  lemma SpentTwiceStep(s: State, e: Event, link: Link)
    requires Inv(s) && Enabled(s, e)
    ensures Spent(Next(s, e), link) > 1 <==> Spent(s, link) > 1 || Overwrites(s, e, link)
  {
    hide Next, Spent, Enabled, CallOk;
    SpentStep(s, e, link);
    OnlyKnownLinks(s, e, link);
    assert Supersedes(s, e, link) ==> s.tokens[link].consumedAt.None?;
  }

  /** Along every run a link is used up more than once exactly if it was before, or some reset lands on a consumed token. */
  lemma {:induction false} SpentTwiceIffOverwritten(s: State, events: seq<Event>, link: Link)
    requires Inv(s) && IsRun(s, events)
    ensures Spent(After(s, events), link) > 1 <==> Spent(s, link) > 1 || Overwritten(s, events, link)
    decreases |events|
  {
    hide Inv, Next, Enabled, Spent, Overwrites;
    if events != [] {
      NextKeeps(s, events[0]);
      SpentTwiceStep(s, events[0], link);
      SpentTwiceIffOverwritten(Next(s, events[0]), events[1..], link);
    }
  }

  lemma InitialIsOk(s: State)
    requires Initial(s)
    ensures Inv(s)
  {
  }

  /** For a link no newer one has superseded: two resets land exactly if some reset lands on the consumed token. */
  lemma LandsTwiceIffOverwritten(s: State, events: seq<Event>, link: Link)
    requires Initial(s) && IsRun(s, events) && link !in After(s, events).superseded
    ensures Landings(After(s, events).landings, link) > 1 <==> Overwritten(s, events, link)
  {
    InitialIsOk(s);
    SpentTwiceIffOverwritten(s, events, link);
  }

  // ---- Who may still land ----

  ghost predicate Consumed(s: State, link: Link) {
    link in s.tokens && s.tokens[link].consumedAt.Some?
  }

  /** The call holds a check of the link. */
  ghost predicate Holds(s: State, call: CallId, link: Link) {
    call in s.calls && s.calls[call].Cleared? && s.calls[call].link == link
  }

  /** Once the link is consumed no further call clears it, and what lands had cleared it. */
  lemma ConsumedStep(s: State, e: Event, link: Link)
    requires Inv(s) && Enabled(s, e) && Consumed(s, link)
    ensures Consumed(Next(s, e), link)
    ensures forall call: CallId :: Holds(Next(s, e), call, link) ==> Holds(s, call, link)
    ensures Next(s, e).landings == s.landings
            || exists l :: Next(s, e).landings == s.landings + [l] && (l.link == link ==> Holds(s, l.call, link))
  {
    hide Spent, ResetRefusal;
    TokenStep(s, e, link);
    if e.Advance? && s.calls[e.call].Asked? {
      var request := s.calls[e.call];
      ConsumedLinkIsRefused(s.tokens, link, request.common, s.now);
    }
    if e.Advance? && s.calls[e.call].Cleared? {
      assert CallOk(s, s.calls[e.call]);
      var l := Landing(e.call, s.calls[e.call].link);
      assert Next(s, e).landings == s.landings + [l] || Next(s, e).landings == s.landings;
      assert l.link == link ==> Holds(s, l.call, link);
    }
  }

  /**
   * In every run, a reset that reads its link after it was consumed never lands:
   * whatever still lands with it had cleared it before.
   */
  lemma {:induction false} LateReadersNeverLand(s: State, events: seq<Event>, link: Link)
    requires Inv(s) && IsRun(s, events) && Consumed(s, link)
    ensures Consumed(After(s, events), link)
    ensures |s.landings| <= |After(s, events).landings|
    ensures After(s, events).landings[..|s.landings|] == s.landings
    ensures forall l :: l in After(s, events).landings[|s.landings|..] && l.link == link ==> Holds(s, l.call, link)
    decreases |events|
  {
    hide Inv, Next, Enabled, Consumed, Holds;
    if events != [] {
      var next, end := Next(s, events[0]), After(s, events);
      NextKeeps(s, events[0]);
      ConsumedStep(s, events[0], link);
      LateReadersNeverLand(next, events[1..], link);
      LandingsGrow(s, next, end, link);
    }
  }

  lemma LandingsGrow(s: State, next: State, end: State, link: Link)
    requires next.landings == s.landings
             || exists l :: next.landings == s.landings + [l] && (l.link == link ==> Holds(s, l.call, link))
    requires |next.landings| <= |end.landings| && end.landings[..|next.landings|] == next.landings
    requires forall l :: l in end.landings[|next.landings|..] && l.link == link ==> Holds(s, l.call, link)
    ensures |s.landings| <= |end.landings| && end.landings[..|s.landings|] == s.landings
    ensures forall l :: l in end.landings[|s.landings|..] && l.link == link ==> Holds(s, l.call, link)
  {
    hide Holds;
    var n, k := |s.landings|, |next.landings|;
    assert end.landings[..n] == end.landings[..k][..n];
    assert end.landings[n..] == end.landings[..k][n..] + end.landings[k..];
    if next.landings != s.landings {
      var l :| next.landings == s.landings + [l] && (l.link == link ==> Holds(s, l.call, link));
      assert end.landings[..k][n..] == [l];
    }
  }

  // ---- It happens ----

  lemma RunStep(s: State, e: Event, t: State, rest: seq<Event>)
    requires Enabled(s, e) && Next(s, e) == t && IsRun(t, rest)
    ensures IsRun(s, [e] + rest) && After(s, [e] + rest) == After(t, rest)
  {
    assert ([e] + rest)[1..] == rest;
  }

  lemma NoMore(s: State)
    ensures IsRun(s, []) && After(s, []) == s
  {
  }

  /** Two resets with link 5 have read it unconsumed; passwords 11 and 12 are being hashed. */
  function BothCleared(account: Account): State {
    var verified := account.emailVerifiedAt.Some?;
    State(0, map[7 := account], map[5 := ResetToken(7, 10, None)],
          map[0 := Done, 1 := Cleared(5, verified, 11), 2 := Cleared(5, verified, 12)], [], {})
  }

  /** Both have landed, and the last password stands. */
  function BothLanded(account: Account): State {
    var verified := account.emailVerifiedAt.Some?;
    var first := ResetAccount(account, verified, 11, 0);
    State(0, map[7 := ResetAccount(first, verified, 12, 0)], map[5 := ResetToken(7, 10, Some(0))],
          map[0 := Done, 1 := Done, 2 := Done], [Landing(1, 5), Landing(2, 5)], {})
  }

  /** The first has landed, and the second still holds its check. */
  function OneLanded(account: Account): State {
    var verified := account.emailVerifiedAt.Some?;
    State(0, map[7 := ResetAccount(account, verified, 11, 0)], map[5 := ResetToken(7, 10, Some(0))],
          map[0 := Done, 1 := Done, 2 := Cleared(5, verified, 12)], [Landing(1, 5)], {})
  }

  lemma FirstLands(account: Account)
    ensures Enabled(BothCleared(account), Advance(1, 0, 0))
    ensures Next(BothCleared(account), Advance(1, 0, 0)) == OneLanded(account)
  {
  }

  lemma SecondLands(account: Account)
    ensures Enabled(OneLanded(account), Advance(2, 0, 0))
    ensures Next(OneLanded(account), Advance(2, 0, 0)) == BothLanded(account)
  {
  }

  lemma BothLand(account: Account) returns (events: seq<Event>)
    ensures IsRun(BothCleared(account), events) && After(BothCleared(account), events) == BothLanded(account)
  {
    hide IsRun, After, Next, Enabled, BothCleared, OneLanded, BothLanded;
    NoMore(BothLanded(account));
    SecondLands(account);
    RunStep(OneLanded(account), Advance(2, 0, 0), BothLanded(account), []);
    var later := [Advance(2, 0, 0)] + [];
    FirstLands(account);
    RunStep(BothCleared(account), Advance(1, 0, 0), OneLanded(account), later);
    events := [Advance(1, 0, 0)] + later;
  }

  /** The link is mailed. */
  function Mailed(account: Account): State {
    State(0, map[7 := account], map[5 := ResetToken(7, 10, None)], map[0 := Done], [], {})
  }

  lemma BothRead(account: Account, rest: seq<Event>) returns (events: seq<Event>)
    requires IsRun(BothCleared(account), rest)
    ensures IsRun(Mailed(account), events) && After(Mailed(account), events) == After(BothCleared(account), rest)
  {
    hide IsRun, After;
    var verified := account.emailVerifiedAt.Some?;
    var s := Mailed(account);
    var first, second := Asked(5, false, 11), Asked(5, false, 12);
    var s1 := s.(calls := map[0 := Done, 1 := first]);
    var s2 := s.(calls := map[0 := Done, 1 := first, 2 := second]);
    var s3 := s.(calls := map[0 := Done, 1 := Cleared(5, verified, 11), 2 := second]);
    RunStep(s3, Advance(2, 0, 0), BothCleared(account), rest);
    var e3 := [Advance(2, 0, 0)] + rest;
    RunStep(s2, Advance(1, 0, 0), s3, e3);
    var e2 := [Advance(1, 0, 0)] + e3;
    RunStep(s1, Begin(2, second), s2, e2);
    var e1 := [Begin(2, second)] + e2;
    RunStep(s, Begin(1, first), s1, e1);
    events := [Begin(1, first)] + e1;
  }

  lemma LinkIsMailed(account: Account, rest: seq<Event>) returns (events: seq<Event>)
    requires IsRun(Mailed(account), rest)
    ensures
      var s := State(0, map[7 := account], map[], map[], [], {});
      IsRun(s, events) && After(s, events) == After(Mailed(account), rest)
  {
    hide IsRun, After;
    var s := State(0, map[7 := account], map[], map[], [], {});
    var s1 := s.(calls := map[0 := Forgot(7)]);
    var s2 := s.(calls := map[0 := Minting(7)]);
    RunStep(s2, Advance(0, 5, 10), Mailed(account), rest);
    var e2 := [Advance(0, 5, 10)] + rest;
    RunStep(s1, Advance(0, 0, 0), s2, e2);
    var e1 := [Advance(0, 0, 0)] + e2;
    RunStep(s, Begin(0, Forgot(7)), s1, e1);
    events := [Begin(0, Forgot(7))] + e1;
  }

  /** Two overlapping resets with one link both land: it is used twice, and the second password stands. */
  lemma OneLinkMayLandTwice(account: Account)
    ensures
      var s := State(0, map[7 := account], map[], map[], [], {});
      Initial(s) && exists events ::
        && IsRun(s, events)
        && Landings(After(s, events).landings, 5) == 2
        && 7 in After(s, events).accounts && After(s, events).accounts[7].passwordHash == 12
  {
    hide IsRun, After, Landings;
    var landed := BothLand(account);
    var read := BothRead(account, landed);
    var events := LinkIsMailed(account, read);
    TwoLandings(account);
    assert After(State(0, map[7 := account], map[], map[], [], {}), events) == BothLanded(account);
  }

  lemma TwoLandings(account: Account)
    ensures Landings(BothLanded(account).landings, 5) == 2
  {
    var landings := [Landing(1, 5), Landing(2, 5)];
    assert landings[..1] == [Landing(1, 5)];
    assert [Landing(1, 5)][..0] == [];
  }

  // ---- A reset that nothing interrupts ----

  /** The account and the token a reset lands on, or why it is refused, in terms of the stored token alone. */
  lemma ResetAlone(s: State, call: CallId, link: Link, common: bool, password: Hash)
    requires Inv(s) && call !in s.calls
    ensures
      var s0 := Next(s, Begin(call, Asked(link, common, password)));
      var s1 := Next(s0, Advance(call, 0, 0));
      if common then s1 == s.(calls := s.calls[call := Refused(WeakPassword)])
      else if link !in s.tokens || s.tokens[link].consumedAt.Some? then
        s1 == s.(calls := s.calls[call := Refused(TokenInvalid)])
      else if s.tokens[link].expiresAt <= s.now then s1 == s.(calls := s.calls[call := Refused(TokenExpired)])
      else
        && s.tokens[link].userId in s.accounts
        && var token := s.tokens[link];
           var account := s.accounts[token.userId];
           var verified := if account.emailVerifiedAt.Some? then account.emailVerifiedAt else Some(s.now);
        Next(s1, Advance(call, 0, 0)) ==
          State(s.now, s.accounts[token.userId := Account(password, verified)],
                s.tokens[link := token.(consumedAt := Some(s.now))], s.calls[call := Done],
                s.landings + [Landing(call, link)], s.superseded)
  {
    hide Spent;
  }

  /** A request for a link that nothing interrupts leaves the user exactly one live link, the new one. */
  lemma ForgotAlone(s: State, call: CallId, user: UserId, link: Link, expiresAt: int)
    requires Inv(s) && call !in s.calls && link !in s.tokens && user in s.accounts
    ensures
      var s0 := Next(s, Begin(call, Forgot(user)));
      var end := Next(Next(s0, Advance(call, link, expiresAt)), Advance(call, link, expiresAt));
      && end.tokens.Keys == s.tokens.Keys + {link} && end.tokens[link] == ResetToken(user, expiresAt, None)
      && (forall other :: other in end.tokens && end.tokens[other].userId == user && end.tokens[other].consumedAt.None? ==>
            other == link)
      && (forall other :: other in s.tokens && (s.tokens[other].userId != user || s.tokens[other].consumedAt.Some?) ==>
            end.tokens[other] == s.tokens[other])
      && end.calls == s.calls[call := Done] && end.accounts == s.accounts && end.landings == s.landings
  {
    hide Spent;
    var s0 := Next(s, Begin(call, Forgot(user)));
    var s1 := Next(s0, Advance(call, link, expiresAt));
    assert s1.calls[call] == Minting(user) && s1.tokens.Keys == s.tokens.Keys;
  }

  /** No account, no link: the request ends, and nothing else changes. */
  lemma UnknownIsSilent(s: State, call: CallId, user: UserId, link: Link, expiresAt: int)
    requires call !in s.calls && user !in s.accounts
    ensures Next(Next(s, Begin(call, Forgot(user))), Advance(call, link, expiresAt)) == s.(calls := s.calls[call := Done])
  {
  }

  /** In every interleaving, what a reset holds after its checks is a link that was live and in time when it was read. */
  lemma ClearedWhileLive(s: State, e: Event, call: CallId, link: Link)
    requires Inv(s) && Enabled(s, e) && !Holds(s, call, link) && Holds(Next(s, e), call, link)
    ensures link in s.tokens && s.tokens[link].consumedAt.None? && s.now < s.tokens[link].expiresAt
  {
    hide Spent;
  }
}
