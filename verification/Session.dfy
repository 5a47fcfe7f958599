/** Access and refresh tokens, and the store of refresh ids that may still be redeemed, under any
    interleaving of logins, refreshes and logouts. */
module Session {
  import opened Options

  /** Ids drawn from the uuid supply, each only once. */
  type Uuid = nat

  // ----- Tokens -----

  datatype Grant = Access | Refresh

  /** A signed token, as its claims. `id` is the token's own jti; `sessionId` is the jti of the
      refresh token it belongs with. */
  datatype Claims = Claims(grant: Grant, userId: int, username: string, sessionId: Uuid, id: Uuid)

  datatype TokenPair = TokenPair(access: Claims, refresh: Claims)

  datatype TokenError = InvalidToken | InvalidTokenType

  function GenerateAccessToken(userId: int, username: string, refreshJti: Uuid, fresh_: Uuid): Claims {
    Claims(Access, userId, username, refreshJti, fresh_)
  }

  function GenerateRefreshToken(userId: int, username: string, fresh_: Uuid): Claims {
    Claims(Refresh, userId, username, fresh_, fresh_)
  }

  function GenerateTokens(userId: int, username: string, fresh0: Uuid, fresh1: Uuid): TokenPair {
    var refresh := GenerateRefreshToken(userId, username, fresh0);
    TokenPair(GenerateAccessToken(userId, username, refresh.id, fresh1), refresh)
  }

  /** `parsed` is what parsing the presented token gave. */
  function RefreshTokens(parsed: Option<Claims>, fresh0: Uuid, fresh1: Uuid): Result<TokenPair, TokenError> {
    match parsed
    case None => Err(InvalidToken)
    case Some(claims) =>
      if claims.grant != Refresh then Err(InvalidTokenType)
      else Ok(GenerateTokens(claims.userId, claims.username, fresh0, fresh1))
  }

  /** Both tokens of a pair name the same user and the same session, which is the refresh token's own
      id and never the access token's. */
  ghost predicate WellPaired(t: TokenPair) {
    && t.access.grant == Access && t.refresh.grant == Refresh
    && t.access.sessionId == t.refresh.sessionId == t.refresh.id != t.access.id
    && t.access.userId == t.refresh.userId && t.access.username == t.refresh.username
  }

  /** Refreshing keeps the user, and makes a new session of its own. */
  lemma RefreshKeepsTheUser(claims: Claims, fresh0: Uuid, fresh1: Uuid)
    requires fresh0 != fresh1
    ensures RefreshTokens(Some(claims), fresh0, fresh1).Ok? <==> claims.grant == Refresh
    ensures RefreshTokens(Some(claims), fresh0, fresh1).Ok? ==>
              var t := RefreshTokens(Some(claims), fresh0, fresh1).value;
              WellPaired(t) && t.refresh.userId == claims.userId && t.refresh.username == claims.username
              && t.refresh.id == fresh0
  {
  }

  // ----- The protocol -----

  type Rid = nat

  datatype Answer = Tokens(pair: TokenPair) | Unauthorized | TokenUsed | ServerError

  /** Where a request stands. A login stores and answers; a refresh deletes, reissues, stores and
      answers. `chain` is the login the tokens descend from, named by its first refresh id. */
  datatype Req =
    | Deleting(claims: Claims)
    | Reissuing(claims: Claims)
    | Storing(pair: TokenPair, chain: Uuid, login: bool)
    | Finished(answer: Answer)

  /** Who may yet extend a chain: its live refresh id, a request, or nobody any more. */
  datatype Place = Live(jti: Uuid) | With(rid: Rid) | Ended

  /** `live` is the store. `issued` and `used` are what the world outside has: the tokens signed, of which
      a client can present any, and the uuids drawn. `chains`, `place` and `redeemed` only record history
      and decide nothing: the chain of each refresh id, where each chain stands, and the ids redeemed. */
  datatype World = World(
    live: set<Uuid>,
    reqs: map<Rid, Req>,
    issued: set<Claims>,
    used: set<Uuid>,
    chains: map<Uuid, Uuid>,
    place: map<Uuid, Place>,
    redeemed: multiset<Uuid>)

  const START := World({}, map[], {}, {}, map[], map[], multiset{})

  /** `parsed` tells whether the token was still valid when it was parsed. A call of the store may fail
      before or after it took effect: `removed` whether the deletion removed the id, `reported` whether it
      reported a deleted key; `stored` whether the id was stored, `failed` whether an error was reported. */
  datatype Event =
    | LoginOk(r: Rid, userId: int, username: string, fresh0: Uuid, fresh1: Uuid)
    | Present(r: Rid, claims: Claims, parsed: bool)
    | Delete(r: Rid, removed: bool, reported: bool)
    | Reissue(r: Rid, parsed: bool, fresh0: Uuid, fresh1: Uuid)
    | Store(r: Rid, stored: bool, failed: bool)
    | Logout(claims: Claims, removed: bool)
    | Expire(jti: Uuid)

  predicate Fresh(s: World, fresh0: Uuid, fresh1: Uuid) {
    fresh0 !in s.used && fresh1 !in s.used && fresh0 != fresh1
  }

  predicate Enabled(s: World, e: Event) {
    match e
    case LoginOk(r, _, _, f0, f1) => r !in s.reqs && Fresh(s, f0, f1)
    case Present(r, claims, parsed) => r !in s.reqs && (parsed ==> claims in s.issued)
    case Delete(r, removed, reported) =>
      r in s.reqs && s.reqs[r].Deleting? && (reported ==> removed && s.reqs[r].claims.id in s.live)
    case Reissue(r, _, f0, f1) => r in s.reqs && s.reqs[r].Reissuing? && Fresh(s, f0, f1)
    case Store(r, stored, failed) => r in s.reqs && s.reqs[r].Storing? && (!failed ==> stored)
    case Logout(claims, _) => claims in s.issued && claims.grant == Access
    case Expire(_) => true
  }

  /** An id leaves the store for good. */
  function Remove(s: World, jti: Uuid): World {
    if jti in s.live && jti in s.chains then s.(live := s.live - {jti}, place := s.place[s.chains[jti] := Ended])
    else s.(live := s.live - {jti})
  }

  function Finish(s: World, r: Rid, answer: Answer): World {
    s.(reqs := s.reqs[r := Finished(answer)])
  }

  /** New tokens, whose refresh id belongs to the chain and is yet to be stored. */
  function Issue(s: World, r: Rid, pair: TokenPair, chain: Uuid, login: bool): World {
    s.(reqs := s.reqs[r := Storing(pair, chain, login)],
       issued := s.issued + {pair.access, pair.refresh},
       used := s.used + {pair.access.id, pair.refresh.id},
       chains := s.chains[pair.refresh.id := chain],
       place := s.place[chain := With(r)])
  }

  function RemoveIf(s: World, jti: Uuid, removed: bool): World {
    if removed then Remove(s, jti) else s
  }

  function ChainOf(s: World, jti: Uuid): Uuid {
    if jti in s.chains then s.chains[jti] else jti
  }

  function ApplyDelete(s: World, r: Rid, removed: bool, reported: bool): World
    requires Enabled(s, Delete(r, removed, reported))
  {
    var claims := s.reqs[r].claims;
    if reported then
      var t := Remove(s, claims.id);
      t.(reqs := t.reqs[r := Reissuing(claims)], redeemed := t.redeemed + multiset{claims.id},
         place := t.place[ChainOf(s, claims.id) := With(r)])
    else Finish(RemoveIf(s, claims.id, removed), r, TokenUsed)
  }

  function ApplyReissue(s: World, r: Rid, parsed: bool, f0: Uuid, f1: Uuid): World
    requires Enabled(s, Reissue(r, parsed, f0, f1))
  {
    var claims := s.reqs[r].claims;
    var chain := ChainOf(s, claims.id);
    match RefreshTokens(if parsed then Some(claims) else None, f0, f1)
    case Err(_) => Finish(s, r, ServerError).(place := s.place[chain := Ended])
    case Ok(pair) => Issue(s, r, pair, chain, false)
  }

  /** A failed store is only logged by a login, but refuses a refresh. */
  function ApplyStore(s: World, r: Rid, stored: bool, failed: bool): World
    requires Enabled(s, Store(r, stored, failed))
  {
    var Storing(pair, chain, login) := s.reqs[r];
    var t := Finish(s, r, if failed && !login then ServerError else Tokens(pair));
    if stored then t.(live := t.live + {pair.refresh.id}, place := t.place[chain := Live(pair.refresh.id)])
    else t.(place := t.place[chain := Ended])
  }

  function Apply(s: World, e: Event): World
    requires Enabled(s, e)
  {
    match e
    case LoginOk(r, userId, username, f0, f1) => Issue(s, r, GenerateTokens(userId, username, f0, f1), f0, true)
    case Present(r, claims, parsed) =>
      s.(reqs := s.reqs[r := if parsed then Deleting(claims) else Finished(Unauthorized)])
    case Delete(r, removed, reported) => ApplyDelete(s, r, removed, reported)
    case Reissue(r, parsed, f0, f1) => ApplyReissue(s, r, parsed, f0, f1)
    case Store(r, stored, failed) => ApplyStore(s, r, stored, failed)
    case Logout(claims, removed) => RemoveIf(s, claims.sessionId, removed)
    case Expire(jti) => Remove(s, jti)
  }

  ghost function Run(s: World, es: seq<Event>): World {
    if es == [] then s
    else
      var t := Run(s, es[..|es|-1]);
      if Enabled(t, es[|es|-1]) then Apply(t, es[|es|-1]) else t
  }

  ghost predicate ValidRun(s: World, es: seq<Event>) {
    es == [] || (ValidRun(s, es[..|es|-1]) && Enabled(Run(s, es[..|es|-1]), es[|es|-1]))
  }

  // ----- The invariant -----

  /** A refresh token's id is its session and has a chain; an access token's id never has one. */
  ghost predicate TokenFits(c: Claims, used: set<Uuid>, chains: map<Uuid, Uuid>) {
    && c.id in used
    && (c.grant == Refresh ==> c.id == c.sessionId && c.id in chains)
    && (c.grant == Access ==> c.id !in chains && c.sessionId in chains)
  }

  /** A request in the middle of a refresh has its chain in hand. */
  ghost predicate ReqFits(r: Rid, req: Req, s: World) {
    match req
    case Deleting(claims) => claims in s.issued
    case Reissuing(claims) =>
      && claims in s.issued && claims.grant == Refresh && claims.id in s.chains && s.chains[claims.id] in s.place
      && s.place[s.chains[claims.id]] == With(r)
    case Storing(pair, chain, _) =>
      && WellPaired(pair) && pair.access in s.issued && pair.refresh in s.issued
      && pair.refresh.id in s.chains && s.chains[pair.refresh.id] == chain
      && chain in s.place && s.place[chain] == With(r)
      && s.redeemed[pair.refresh.id] == 0
    case Finished(_) => true
  }

  ghost predicate LiveFits(j: Uuid, s: World) {
    j in s.chains && s.chains[j] in s.place && s.place[s.chains[j]] == Live(j) && s.redeemed[j] == 0
  }

  ghost predicate SessionInv(s: World) {
    && (forall c :: c in s.issued ==> TokenFits(c, s.used, s.chains))
    && (forall j :: j in s.chains ==> j in s.used && s.chains[j] in s.place)
    && (forall c :: c in s.place ==> c in s.used)
    && (forall r :: r in s.reqs ==> ReqFits(r, s.reqs[r], s))
    && (forall j :: j in s.live ==> LiveFits(j, s))
    && (forall j :: s.redeemed[j] <= 1)
    && (forall j :: j in s.redeemed ==> j in s.used)
  }

  lemma RemoveKeepsInv(s: World, jti: Uuid)
    requires SessionInv(s)
    ensures SessionInv(Remove(s, jti))
  {
    var t := Remove(s, jti);
    if jti in s.live {
      assert LiveFits(jti, s);
    }
    forall r | r in t.reqs ensures ReqFits(r, t.reqs[r], t) {
      assert ReqFits(r, s.reqs[r], s);
    }
    forall j | j in t.live ensures LiveFits(j, t) {
      assert LiveFits(j, s);
    }
  }

  lemma IssueKeepsInv(s: World, r: Rid, pair: TokenPair, chain: Uuid, login: bool)
    requires SessionInv(s) && WellPaired(pair) && pair.refresh.id !in s.used && pair.access.id !in s.used
    requires if chain in s.place then s.place[chain] == With(r) else chain == pair.refresh.id && r !in s.reqs
    ensures SessionInv(Issue(s, r, pair, chain, login))
  {
    var t := Issue(s, r, pair, chain, login);
    assert s.redeemed[pair.refresh.id] == 0;
    forall c | c in t.issued ensures TokenFits(c, t.used, t.chains) {
      assert c in s.issued ==> TokenFits(c, s.used, s.chains);
    }
    forall q | q in t.reqs ensures ReqFits(q, t.reqs[q], t) {
      if q != r {
        assert ReqFits(q, s.reqs[q], s);
      }
    }
    forall j | j in t.live ensures LiveFits(j, t) {
      assert LiveFits(j, s);
    }
  }

  /** A request ends, or moves on with what it has in hand. */
  lemma FinishKeepsInv(s: World, r: Rid, answer: Answer)
    requires SessionInv(s)
    ensures SessionInv(Finish(s, r, answer))
  {
    var t := Finish(s, r, answer);
    forall q | q in t.reqs ensures ReqFits(q, t.reqs[q], t) {
      if q != r {
        assert ReqFits(q, s.reqs[q], s);
      }
    }
    forall j | j in t.live ensures LiveFits(j, t) {
      assert LiveFits(j, s);
    }
  }

  lemma DeleteKeepsInv(s: World, r: Rid, removed: bool, reported: bool)
    requires SessionInv(s) && Enabled(s, Delete(r, removed, reported))
    ensures SessionInv(ApplyDelete(s, r, removed, reported))
  {
    var claims := s.reqs[r].claims;
    if reported {
      RedeemKeepsInv(s, r, claims);
    } else {
      RemoveKeepsInv(s, claims.id);
      FinishKeepsInv(RemoveIf(s, claims.id, removed), r, TokenUsed);
    }
  }

  lemma RedeemKeepsInv(s: World, r: Rid, claims: Claims)
    requires SessionInv(s) && Enabled(s, Delete(r, true, true)) && s.reqs[r] == Deleting(claims)
    ensures SessionInv(ApplyDelete(s, r, true, true))
  {
    var t := ApplyDelete(s, r, true, true);
    assert LiveFits(claims.id, s) && ReqFits(r, s.reqs[r], s) && TokenFits(claims, s.used, s.chains);
    forall q | q in t.reqs ensures ReqFits(q, t.reqs[q], t) {
      if q != r {
        assert ReqFits(q, s.reqs[q], s);
      }
    }
    forall j | j in t.live ensures LiveFits(j, t) {
      assert LiveFits(j, s);
    }
  }

  lemma ReissueKeepsInv(s: World, r: Rid, parsed: bool, f0: Uuid, f1: Uuid)
    requires SessionInv(s) && Enabled(s, Reissue(r, parsed, f0, f1))
    ensures SessionInv(ApplyReissue(s, r, parsed, f0, f1))
  {
    var claims := s.reqs[r].claims;
    var chain := ChainOf(s, claims.id);
    assert ReqFits(r, s.reqs[r], s);
    if parsed {
      IssueKeepsInv(s, r, GenerateTokens(claims.userId, claims.username, f0, f1), chain, false);
    } else {
      EndKeepsInv(s, r, chain, ServerError);
    }
  }

  /** A request that had a chain in hand lets it end. */
  lemma EndKeepsInv(s: World, r: Rid, chain: Uuid, answer: Answer)
    requires SessionInv(s) && chain in s.place && s.place[chain] == With(r)
    ensures SessionInv(Finish(s, r, answer).(place := s.place[chain := Ended]))
  {
    var t := Finish(s, r, answer).(place := s.place[chain := Ended]);
    forall q | q in t.reqs ensures ReqFits(q, t.reqs[q], t) {
      if q != r {
        assert ReqFits(q, s.reqs[q], s);
      }
    }
    forall j | j in t.live ensures LiveFits(j, t) {
      assert LiveFits(j, s);
    }
  }

  lemma StoreKeepsInv(s: World, r: Rid, stored: bool, failed: bool)
    requires SessionInv(s) && Enabled(s, Store(r, stored, failed))
    ensures SessionInv(ApplyStore(s, r, stored, failed))
  {
    var Storing(pair, chain, login) := s.reqs[r];
    var answer := if failed && !login then ServerError else Tokens(pair);
    assert ReqFits(r, s.reqs[r], s);
    if stored {
      var t := ApplyStore(s, r, stored, failed);
      forall q | q in t.reqs ensures ReqFits(q, t.reqs[q], t) {
        if q != r {
          assert ReqFits(q, s.reqs[q], s);
        }
      }
      forall j | j in t.live ensures LiveFits(j, t) {
        assert j in s.live ==> LiveFits(j, s);
      }
    } else {
      EndKeepsInv(s, r, chain, answer);
    }
  }

  lemma PresentKeepsInv(s: World, r: Rid, claims: Claims, parsed: bool)
    requires SessionInv(s) && Enabled(s, Present(r, claims, parsed))
    ensures SessionInv(Apply(s, Present(r, claims, parsed)))
  {
    var t := Apply(s, Present(r, claims, parsed));
    forall q | q in t.reqs ensures ReqFits(q, t.reqs[q], t) {
      if q != r {
        assert ReqFits(q, s.reqs[q], s);
      }
    }
    forall j | j in t.live ensures LiveFits(j, t) {
      assert LiveFits(j, s);
    }
  }

  lemma {:induction false} StepKeepsInv(s: World, e: Event)
    requires SessionInv(s) && Enabled(s, e)
    ensures SessionInv(Apply(s, e))
  {
    match e {
      case LoginOk(r, userId, username, f0, f1) =>
        assert f0 !in s.place;
        IssueKeepsInv(s, r, GenerateTokens(userId, username, f0, f1), f0, true);
      case Present(r, claims, parsed) => PresentKeepsInv(s, r, claims, parsed);
      case Delete(r, removed, reported) => DeleteKeepsInv(s, r, removed, reported);
      case Reissue(r, parsed, f0, f1) => ReissueKeepsInv(s, r, parsed, f0, f1);
      case Store(r, stored, failed) => StoreKeepsInv(s, r, stored, failed);
      case Logout(claims, _) => RemoveKeepsInv(s, claims.sessionId);
      case Expire(jti) => RemoveKeepsInv(s, jti);
    }
  }

  lemma {:induction false} RunKeepsInv(es: seq<Event>)
    requires ValidRun(START, es)
    ensures SessionInv(Run(START, es))
  {
    if es == [] {
    } else {
      RunKeepsInv(es[..|es|-1]);
      StepKeepsInv(Run(START, es[..|es|-1]), es[|es|-1]);
    }
  }

  // ----- What every run promises -----

  /** Each refresh id is redeemed at most once, and once redeemed it is never live again. */
  lemma EachIdIsRedeemedAtMostOnce(es: seq<Event>, jti: Uuid)
    requires ValidRun(START, es)
    ensures Run(START, es).redeemed[jti] <= 1
    ensures Run(START, es).redeemed[jti] == 1 ==> jti !in Run(START, es).live
  {
    RunKeepsInv(es);
    assert jti in Run(START, es).live ==> LiveFits(jti, Run(START, es));
  }

  /** Each login's chain has at most one live refresh id, and none while a request has the chain in
      hand, even when storing fails or reports an error after storing. */
  lemma ChainsHaveOneLiveId(es: seq<Event>, a: Uuid, b: Uuid)
    requires ValidRun(START, es)
    ensures var s := Run(START, es);
            && (a in s.live ==> a in s.chains) && (b in s.live ==> b in s.chains)
            && (a in s.live && b in s.live && s.chains[a] == s.chains[b] ==> a == b)
            && (forall r :: r in s.reqs && a in s.live && a in s.chains ==>
                  (s.reqs[r].Storing? ==> s.reqs[r].chain != s.chains[a])
                  && (s.reqs[r].Reissuing? && s.reqs[r].claims.id in s.chains ==>
                        s.chains[s.reqs[r].claims.id] != s.chains[a]))
  {
    RunKeepsInv(es);
    var s := Run(START, es);
    assert a in s.live ==> LiveFits(a, s);
    assert b in s.live ==> LiveFits(b, s);
    forall r | r in s.reqs && a in s.live
      ensures (s.reqs[r].Storing? ==> s.reqs[r].chain != s.chains[a])
           && (s.reqs[r].Reissuing? && s.reqs[r].claims.id in s.chains ==>
                 s.chains[s.reqs[r].claims.id] != s.chains[a])
    {
      assert ReqFits(r, s.reqs[r], s);
    }
  }

  /** An access token presented for refreshing is refused and consumes nothing. */
  lemma AccessTokensConsumeNothing(es: seq<Event>, r: Rid, removed: bool, reported: bool)
    requires ValidRun(START, es)
    requires var s := Run(START, es);
             Enabled(s, Delete(r, removed, reported)) && s.reqs[r].claims.grant == Access
    ensures var s := Run(START, es);
            !reported && Apply(s, Delete(r, removed, reported)) == Finish(s, r, TokenUsed)
  {
    RunKeepsInv(es);
    var s := Run(START, es);
    assert ReqFits(r, s.reqs[r], s);
    assert TokenFits(s.reqs[r].claims, s.used, s.chains);
    assert s.reqs[r].claims.id in s.live ==> LiveFits(s.reqs[r].claims.id, s);
    assert s.live - {s.reqs[r].claims.id} == s.live;
  }

  /** Once a chain has ended, by logout, expiry or a failure, it has no live refresh id ever again. */
  lemma {:induction false} EndedChainsStayEnded(es: seq<Event>, k: nat, chain: Uuid)
    requires k <= |es| && ValidRun(START, es)
    requires chain in Run(START, es[..k]).place && Run(START, es[..k]).place[chain] == Ended
    ensures chain in Run(START, es).place && Run(START, es).place[chain] == Ended
    ensures forall j :: j in Run(START, es).live ==> j in Run(START, es).chains && Run(START, es).chains[j] != chain
  {
    if k < |es| {
      var init := es[..|es|-1];
      assert init[..k] == es[..k];
      EndedChainsStayEnded(init, k, chain);
      RunKeepsInv(init);
      EndedStaysEnded(Run(START, init), es[|es|-1], chain);
    } else {
      assert es[..k] == es;
    }
    RunKeepsInv(es);
    var s := Run(START, es);
    forall j | j in s.live ensures j in s.chains && s.chains[j] != chain {
      assert LiveFits(j, s);
    }
  }

  lemma EndedStaysEnded(s: World, e: Event, chain: Uuid)
    requires SessionInv(s) && Enabled(s, e) && chain in s.place && s.place[chain] == Ended
    ensures chain in Apply(s, e).place && Apply(s, e).place[chain] == Ended
  {
    if e.Delete? || e.Reissue? || e.Store? {
      assert ReqFits(e.r, s.reqs[e.r], s);
      if e.Delete? && s.reqs[e.r].claims.id in s.live {
        assert LiveFits(s.reqs[e.r].claims.id, s);
      }
    }
  }

  // ----- What logging out ends -----

  /** Logging out ends the session it names exactly when that session's refresh id is in the store and
      is removed, or when the session had ended before. It touches no other id. */
  lemma LogoutEndsTheChainIff(es: seq<Event>, claims: Claims, removed: bool)
    requires ValidRun(START, es) && Enabled(Run(START, es), Logout(claims, removed))
    ensures var s := Run(START, es);
            var t := Apply(s, Logout(claims, removed));
            && claims.sessionId in s.chains
            && var chain := s.chains[claims.sessionId];
               && chain in s.place && chain in t.place
               && (t.place[chain] == Ended <==> (removed && claims.sessionId in s.live) || s.place[chain] == Ended)
               && t.live == if removed then s.live - {claims.sessionId} else s.live
  {
    RunKeepsInv(es);
    var s := Run(START, es);
    assert TokenFits(claims, s.used, s.chains);
    assert claims.sessionId in s.live ==> LiveFits(claims.sessionId, s);
  }

  lemma RunNext(s: World, es: seq<Event>, e: Event)
    requires ValidRun(s, es) && Enabled(Run(s, es), e)
    ensures ValidRun(s, es + [e]) && Run(s, es + [e]) == Apply(Run(s, es), e)
  {
    assert (es + [e])[..|es|] == es;
  }

  /** One login, whose refresh token is then presented and redeemed. */
  function RefreshBegins(userId: int, username: string): seq<Event> {
    [LoginOk(0, userId, username, 1, 2)] + [Store(0, true, false)] +
    [Present(1, GenerateRefreshToken(userId, username, 1), true)] + [Delete(1, true, true)]
  }

  /** The world in which that request has yet to reissue. */
  function UnderWay(userId: int, username: string): World {
    var pair := GenerateTokens(userId, username, 1, 2);
    World({}, map[0 := Finished(Tokens(pair)), 1 := Reissuing(pair.refresh)], {pair.access, pair.refresh}, {1, 2},
          map[1 := 1], map[1 := With(1)], multiset{1})
  }

  lemma RefreshUnderWay(userId: int, username: string)
    ensures var es := RefreshBegins(userId, username);
            ValidRun(START, es) && Run(START, es) == UnderWay(userId, username)
  {
    var pair := GenerateTokens(userId, username, 1, 2);
    var e0, e1, e2 := LoginOk(0, userId, username, 1, 2), Store(0, true, false), Present(1, pair.refresh, true);
    RunNext(START, [], e0);
    RunNext(START, [e0], e1);
    RunNext(START, [e0] + [e1], e2);
    RunNext(START, [e0] + [e1] + [e2], Delete(1, true, true));
  }

  /** The session goes on although its user logged out: it has a live id. */
  ghost predicate GoesOn(es: seq<Event>, claims: Claims) {
    && ValidRun(START, es)
    && claims.sessionId in Run(START, es).chains
    && exists j :: j in Run(START, es).live && j in Run(START, es).chains &&
                   Run(START, es).chains[j] == Run(START, es).chains[claims.sessionId]
  }

  /** It goes on when a refresh is under way, even after logging out with the newest access token. */
  lemma LogoutDuringARefresh(userId: int, username: string) returns (es: seq<Event>, claims: Claims)
    ensures es == RefreshBegins(userId, username) +
                  [Logout(claims, true)] + [Reissue(1, true, 3, 4)] + [Store(1, true, false)]
    ensures GoesOn(es, claims)
  {
    hide Run;
    hide ValidRun;
    es, claims := RefreshBegins(userId, username), GenerateAccessToken(userId, username, 1, 2);
    RefreshUnderWay(userId, username);
    RunNext(START, es, Logout(claims, true));
    es := es + [Logout(claims, true)];
    RunNext(START, es, Reissue(1, true, 3, 4));
    es := es + [Reissue(1, true, 3, 4)];
    RunNext(START, es, Store(1, true, false));
    es := es + [Store(1, true, false)];
    assert 3 in Run(START, es).live && Run(START, es).chains[3] == 1;
  }

  /** And it goes on after logging out with an access token from before the last refresh. */
  lemma LogoutWithAnOldToken(userId: int, username: string) returns (es: seq<Event>, claims: Claims)
    ensures es == RefreshBegins(userId, username) +
                  [Reissue(1, true, 3, 4)] + [Store(1, true, false)] + [Logout(claims, true)]
    ensures GoesOn(es, claims)
  {
    hide Run;
    hide ValidRun;
    es, claims := RefreshBegins(userId, username), GenerateAccessToken(userId, username, 1, 2);
    RefreshUnderWay(userId, username);
    RunNext(START, es, Reissue(1, true, 3, 4));
    es := es + [Reissue(1, true, 3, 4)];
    RunNext(START, es, Store(1, true, false));
    es := es + [Store(1, true, false)];
    RunNext(START, es, Logout(claims, true));
    es := es + [Logout(claims, true)];
    assert 3 in Run(START, es).live && Run(START, es).chains[3] == 1;
  }
}
