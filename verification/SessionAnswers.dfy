/** What every answer to a login or a refresh means, and whom its tokens are for, over every run. */
module SessionAnswers {
  import opened Options
  import opened Session

  /** What ends a request: its token does not parse, no deleted id is reported, reissuing fails, or the call
      that stores the new id returns, with an error or without. */
  datatype Ending = NotParsed | NotDeleted | NotReissued | StoreReturned(failed: bool)

  function Ends(e: Event, r: Rid): seq<Ending> {
    match e
    case Present(q, _, false) => if q == r then [NotParsed] else []
    case Delete(q, _, false) => if q == r then [NotDeleted] else []
    case Reissue(q, false, _, _) => if q == r then [NotReissued] else []
    case Store(q, _, failed) => if q == r then [StoreReturned(failed)] else []
    case _ => []
  }

  function Ended(es: seq<Event>, r: Rid): seq<Ending> {
    if es == [] then [] else Ended(es[..|es|-1], r) + Ends(es[|es|-1], r)
  }

  /** Who asks: with a password, or with a token. */
  datatype Asking = Asking(userId: int, username: string, login: bool)

  function Asks(e: Event, r: Rid): Option<Asking> {
    match e
    case LoginOk(q, userId, username, _, _) => if q == r then Some(Asking(userId, username, true)) else None
    case Present(q, claims, _) => if q == r then Some(Asking(claims.userId, claims.username, false)) else None
    case _ => None
  }

  function Asked(es: seq<Event>, r: Rid): Option<Asking> {
    if es == [] then None
    else if Asks(es[|es|-1], r).Some? then Asks(es[|es|-1], r)
    else Asked(es[..|es|-1], r)
  }

  predicate IsFor(pair: TokenPair, who: Asking) {
    && pair.refresh.userId == pair.access.userId == who.userId
    && pair.refresh.username == pair.access.username == who.username
  }

  ghost predicate Explains(answer: Answer, ending: Ending, who: Asking) {
    match ending
    case NotParsed => answer == Unauthorized
    case NotDeleted => answer == TokenUsed
    case NotReissued => answer == ServerError
    case StoreReturned(failed) =>
      if failed && !who.login then answer == ServerError else answer.Tokens? && IsFor(answer.pair, who)
  }

  /** A request under way has not ended, and has in hand what belongs to the one who asked. */
  ghost predicate Explained(s: World, r: Rid, ended: seq<Ending>, asked: Option<Asking>) {
    if r !in s.reqs then ended == [] && asked == None
    else
      asked.Some? &&
      match s.reqs[r]
      case Deleting(claims) => ended == [] && asked.value == Asking(claims.userId, claims.username, false)
      case Reissuing(claims) => ended == [] && asked.value == Asking(claims.userId, claims.username, false)
      case Storing(pair, _, login) => ended == [] && IsFor(pair, asked.value) && login == asked.value.login
      case Finished(answer) => |ended| == 1 && Explains(answer, ended[0], asked.value)
  }

  predicate ByRequest(e: Event) {
    !e.Logout? && !e.Expire?
  }

  /** A step moves the request it belongs to, and no other. */
  lemma StepMovesOnly(s: World, e: Event, r: Rid)
    requires Enabled(s, e) && (ByRequest(e) ==> e.r != r)
    ensures r in Apply(s, e).reqs <==> r in s.reqs
    ensures r in s.reqs ==> Apply(s, e).reqs[r] == s.reqs[r]
    ensures Ends(e, r) == [] && Asks(e, r) == None
  {
  }

  lemma StartExplains(s: World, e: Event)
    requires Enabled(s, e) && (e.LoginOk? || e.Present?)
    ensures Explained(Apply(s, e), e.r, Ends(e, e.r), Asks(e, e.r))
  {
  }

  lemma DeleteExplains(s: World, e: Event, ended: seq<Ending>, asked: Option<Asking>)
    requires Enabled(s, e) && e.Delete? && Explained(s, e.r, ended, asked)
    ensures Explained(Apply(s, e), e.r, Ends(e, e.r), asked) && ended == [] && Asks(e, e.r) == None
  {
    hide Remove;
  }

  lemma ReissueExplains(s: World, e: Event, ended: seq<Ending>, asked: Option<Asking>)
    requires Enabled(s, e) && e.Reissue? && Explained(s, e.r, ended, asked) && s.reqs[e.r].claims.grant == Refresh
    ensures Explained(Apply(s, e), e.r, Ends(e, e.r), asked) && ended == [] && Asks(e, e.r) == None
  {
  }

  lemma StoreExplains(s: World, e: Event, ended: seq<Ending>, asked: Option<Asking>)
    requires Enabled(s, e) && e.Store? && Explained(s, e.r, ended, asked)
    ensures Explained(Apply(s, e), e.r, Ends(e, e.r), asked) && ended == [] && Asks(e, e.r) == None
  {
  }

  lemma RedeemedIsRefresh(s: World, r: Rid)
    requires SessionInv(s) && r in s.reqs && s.reqs[r].Reissuing?
    ensures s.reqs[r].claims.grant == Refresh
  {
    assert ReqFits(r, s.reqs[r], s);
  }

  lemma StepExplains(s: World, e: Event, r: Rid, ended: seq<Ending>, asked: Option<Asking>)
    requires SessionInv(s) && Enabled(s, e) && Explained(s, r, ended, asked)
    ensures Explained(Apply(s, e), r, ended + Ends(e, r), if Asks(e, r).Some? then Asks(e, r) else asked)
  {
    assert ended + [] == ended;
    if !ByRequest(e) || e.r != r {
      StepMovesOnly(s, e, r);
      hide Apply;
    } else if e.Delete? {
      DeleteExplains(s, e, ended, asked);
      hide Explained;
      hide Apply;
      assert [] + Ends(e, r) == Ends(e, r);
    } else if e.Reissue? {
      RedeemedIsRefresh(s, r);
      ReissueExplains(s, e, ended, asked);
      hide Explained;
      hide Apply;
      assert [] + Ends(e, r) == Ends(e, r);
    } else if e.Store? {
      StoreExplains(s, e, ended, asked);
      hide Explained;
      hide Apply;
      assert [] + Ends(e, r) == Ends(e, r);
    } else {
      StartExplains(s, e);
      NewRequest(s, e, ended, asked);
      hide Explained;
      hide Apply;
      assert [] + Ends(e, r) == Ends(e, r);
    }
  }

  lemma NewRequest(s: World, e: Event, ended: seq<Ending>, asked: Option<Asking>)
    requires Enabled(s, e) && (e.LoginOk? || e.Present?) && Explained(s, e.r, ended, asked)
    ensures ended == [] && Asks(e, e.r).Some?
  {
  }

  lemma {:induction false} RunExplains(es: seq<Event>, r: Rid)
    requires ValidRun(START, es)
    ensures Explained(Run(START, es), r, Ended(es, r), Asked(es, r))
  {
    hide Explained;
    hide Apply;
    hide Enabled;
    if es == [] {
      NothingExplained(r);
    } else {
      var pre := es[..|es|-1];
      RunExplains(pre, r);
      RunKeepsInv(pre);
      StepExplains(Run(START, pre), es[|es|-1], r, Ended(pre, r), Asked(pre, r));
    }
  }

  lemma NothingExplained(r: Rid)
    ensures Explained(START, r, [], None)
  {
  }

  lemma OneOfFour(ended: seq<Ending>)
    requires |ended| == 1
    ensures ended == [ended[0]]
  {
  }

  /** A finished request ended exactly once, its answer is the one of that ending, and the tokens it answers
      are for the user that asked. Only a login overlooks that its new id could not be stored. */
  lemma {:induction false} EveryAnswerIsExplained(es: seq<Event>, r: Rid)
    requires ValidRun(START, es) && r in Run(START, es).reqs && Run(START, es).reqs[r].Finished?
    ensures var (answer, ended, asked) := (Run(START, es).reqs[r].answer, Ended(es, r), Asked(es, r));
            && |ended| == 1 && asked.Some?
            && (answer == Unauthorized <==> ended == [NotParsed])
            && (answer == TokenUsed <==> ended == [NotDeleted])
            && (answer == ServerError <==>
                  ended == [NotReissued] || (ended == [StoreReturned(true)] && !asked.value.login))
            && (answer.Tokens? <==>
                  ended == [StoreReturned(false)] || (ended == [StoreReturned(true)] && asked.value.login))
            && (answer.Tokens? ==> IsFor(answer.pair, asked.value))
  {
    hide Run;
    hide ValidRun;
    hide Ended;
    hide Asked;
    RunExplains(es, r);
    OneOfFour(Ended(es, r));
  }

  /** A token that does not parse is refused and changes nothing else. */
  lemma {:induction false} UnparsedConsumesNothing(es: seq<Event>, r: Rid, claims: Claims)
    requires ValidRun(START, es) && Enabled(Run(START, es), Present(r, claims, false))
    ensures var (s, t) := (Run(START, es), Apply(Run(START, es), Present(r, claims, false)));
            && r in t.reqs && t.reqs[r] == Finished(Unauthorized)
            && t.live == s.live && t.redeemed == s.redeemed && t.place == s.place && t.issued == s.issued
            && t.reqs - {r} == s.reqs
  {
    var s := Run(START, es);
    assert r !in s.reqs;
  }

  /** An id that expires is gone, with its chain if it was live, and no other id is. */
  lemma {:induction false} ExpiryEndsTheChain(es: seq<Event>, jti: Uuid)
    requires ValidRun(START, es)
    ensures var (s, t) := (Run(START, es), Apply(Run(START, es), Expire(jti)));
            && t.live == s.live - {jti} && t.reqs == s.reqs
            && (jti in s.live ==>
                  jti in s.chains && s.chains[jti] in t.place && t.place[s.chains[jti]] == Place.Ended)
  {
    RunKeepsInv(es);
    var s := Run(START, es);
    assert jti in s.live ==> LiveFits(jti, s);
  }
}
