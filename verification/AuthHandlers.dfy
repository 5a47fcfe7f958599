/** Login, refresh and logout as sequences of steps on the shared store: the attempt counters and the
    refresh ids that may still be redeemed. */
module AuthHandlers {
  import opened Options
  import opened Session
  import opened FixedWindow
  import Logins = LoginRuns

  datatype AuthError = LoginLocked | AuthFailed | BadToken | UsedToken | ServerFailed

  /** What one attempt to store a refresh id does: it may report an error and have stored it. */
  datatype SetResult = SetResult(stored: bool, failed: bool)

  /** What one attempt to delete a refresh id does: it may fail before or after it took effect. */
  datatype DeleteResult = DeleteResult(removed: bool, failed: bool)

  function Keep(live: set<Uuid>, jti: Uuid, set_: SetResult): set<Uuid> {
    if set_.stored || !set_.failed then live + {jti} else live
  }

  function Drop(live: set<Uuid>, jti: Uuid, del: DeleteResult): set<Uuid> {
    if del.removed || !del.failed then live - {jti} else live
  }

  class AuthServer {
    const store: Store
    var live: set<Uuid>

    constructor (store: Store)
      ensures this.store == store && live == {}
    {
      this.store := store;
      live := {};
    }

    /** `user` is what checking the password gives. The attempt is counted first; the password is
        looked at only when the count allows it, and only a success clears the count, unless clearing
        fails. A failed store of the refresh id is not reported. */
    method Login(username: string, user: Option<int>, cleared: bool, fresh0: Uuid, fresh1: Uuid, set_: SetResult)
      returns (r: Result<TokenPair, AuthError>)
      modifies this`live, store`keys
      ensures var w := Logins.World(old(store.keys), map[]);
              var es := Logins.LoginEvents(w, 0, username, user.Some?, cleared, store.now);
              && Logins.Valid(w, es) && store.keys == Logins.Run(w, es).keys
              && (if Logins.Admitted(w, es[0]) && user.Some? then
                    r == Ok(GenerateTokens(user.value, username, fresh0, fresh1))
                    && live == Keep(old(live), fresh0, set_)
                  else
                    r == Err(if Logins.Admitted(w, es[0]) then AuthFailed else LoginLocked)
                    && live == old(live))
    {
      var key := Logins.KeyOf(username);
      ghost var w := Logins.World(store.keys, map[]);
      Logins.LoginIsARun(w, 0, username, user.Some?, cleared, store.now);
      var created := FixedWindowLimiter.Create(store, key, Logins.LOGIN_WINDOW, Logins.LOGIN_MAX);
      var limiter := created.value;
      var allowed, _, _ := limiter.Add();
      if !allowed {
        return Err(LoginLocked);
      }
      if user.None? {
        return Err(AuthFailed);
      }
      if cleared {
        limiter.Reset();
        assert store.keys == old(store.keys) - {key};
      }
      var pair := GenerateTokens(user.value, username, fresh0, fresh1);
      if set_.stored || !set_.failed {
        live := live + {pair.refresh.id};
      }
      return Ok(pair);
    }

    /** `parsed` and `again` are what parsing the presented token gives first and when reissuing. The
        old id is deleted before anything else, so a failure later ends the chain. */
    method RefreshToken(parsed: Option<Claims>, del: DeleteResult, again: bool, fresh0: Uuid, fresh1: Uuid,
            set_: SetResult)
      returns (r: Result<TokenPair, AuthError>)
      modifies this`live
      ensures parsed.None? ==> r == Err(BadToken) && live == old(live)
      ensures parsed.Some? && (parsed.value.id !in old(live) || del.failed) ==>
                r == Err(UsedToken) && live == Drop(old(live), parsed.value.id, del)
      ensures parsed.Some? && parsed.value.id in old(live) && !del.failed ==>
                var pair := RefreshTokens(if again then parsed else None, fresh0, fresh1);
                if pair.Err? then r == Err(ServerFailed) && live == old(live) - {parsed.value.id}
                else
                  && r == (if set_.failed then Err(ServerFailed) else Ok(pair.value))
                  && live == Keep(old(live) - {parsed.value.id}, fresh0, set_)
    {
      if parsed.None? {
        return Err(BadToken);
      }
      var deleted := parsed.value.id in live && !del.failed;
      if del.removed || !del.failed {
        live := live - {parsed.value.id};
      }
      if !deleted {
        return Err(UsedToken);
      }
      var pair := RefreshTokens(if again then parsed else None, fresh0, fresh1);
      if pair.Err? {
        return Err(ServerFailed);
      }
      if set_.stored || !set_.failed {
        live := live + {pair.value.refresh.id};
      }
      if set_.failed {
        return Err(ServerFailed);
      }
      return Ok(pair.value);
    }

    /** Whether the deletion fails is not looked at. */
    method Logout(claims: Claims, del: DeleteResult)
      modifies this`live
      ensures live == Drop(old(live), claims.sessionId, del)
    {
      if del.removed || !del.failed {
        live := live - {claims.sessionId};
      }
    }
  }

  /** A token is good for one refresh only: once its first presentation removed its id, whatever came of
      that otherwise, presenting it again is refused and the id stays gone. */
  method PresentTwice(server: AuthServer, claims: Claims, f: seq<Uuid>, dels: seq<DeleteResult>, sets: seq<SetResult>)
    returns (first: Result<TokenPair, AuthError>, second: Result<TokenPair, AuthError>)
    requires |f| == 4 && |dels| == 2 && |sets| == 2 && claims.id !in f
    modifies server`live
    ensures first.Ok? ==> second == Err(UsedToken)
    ensures dels[0].removed || !dels[0].failed ==> second == Err(UsedToken) && claims.id !in server.live
  {
    first := server.RefreshToken(Some(claims), dels[0], true, f[0], f[1], sets[0]);
    second := server.RefreshToken(Some(claims), dels[1], true, f[2], f[3], sets[1]);
  }

  /** The events of a refresh of which nothing comes between the steps. */
  function RefreshEvents(live: set<Uuid>, r: Rid, claims: Claims, del: DeleteResult, f0: Uuid, f1: Uuid,
          set_: SetResult): seq<Session.Event> {
    var removed := del.removed || !del.failed;
    var reported := claims.id in live && !del.failed;
    [Present(r, claims, true)] + [Delete(r, removed, reported)] +
    if !reported then [] else [Reissue(r, true, f0, f1)] + [Store(r, set_.stored || !set_.failed, set_.failed)]
  }

  lemma RedeemedGoesOn(s: World, es: seq<Session.Event>, r: Rid, claims: Claims, f0: Uuid, f1: Uuid, set_: SetResult)
    requires ValidRun(s, es) && r in Run(s, es).reqs && Run(s, es).reqs[r] == Reissuing(claims)
    requires claims.grant == Refresh && Fresh(Run(s, es), f0, f1)
    ensures var all := es + [Reissue(r, true, f0, f1)] + [Store(r, set_.stored || !set_.failed, set_.failed)];
            && ValidRun(s, all) && r in Run(s, all).reqs
            && Run(s, all).live == Keep(Run(s, es).live, f0, set_)
            && Run(s, all).reqs[r] == Finished(if set_.failed then ServerError
                                               else Tokens(GenerateTokens(claims.userId, claims.username, f0, f1)))
  {
    hide Run;
    hide ValidRun;
    RunNext(s, es, Reissue(r, true, f0, f1));
    RunNext(s, es + [Reissue(r, true, f0, f1)], Store(r, set_.stored || !set_.failed, set_.failed));
  }

  /** A refresh run alone is one of the interleavings. */
  lemma RefreshIsARun(s: World, r: Rid, claims: Claims, del: DeleteResult, f0: Uuid, f1: Uuid, set_: SetResult)
    requires SessionInv(s) && r !in s.reqs && claims in s.issued && Fresh(s, f0, f1)
    ensures var es := RefreshEvents(s.live, r, claims, del, f0, f1, set_);
            && ValidRun(s, es) && r in Run(s, es).reqs
            && (if claims.id in s.live && !del.failed then
                  && Run(s, es).live == Keep(s.live - {claims.id}, f0, set_)
                  && Run(s, es).reqs[r] == Finished(if set_.failed then ServerError
                                                    else Tokens(GenerateTokens(claims.userId, claims.username, f0, f1)))
                else
                  Run(s, es).live == Drop(s.live, claims.id, del) && Run(s, es).reqs[r] == Finished(TokenUsed))
  {
    var reported := claims.id in s.live && !del.failed;
    assert claims.id in s.live ==> LiveFits(claims.id, s) && TokenFits(claims, s.used, s.chains);
    var (e0, e1) := (Present(r, claims, true), Delete(r, del.removed || !del.failed, reported));
    RunNext(s, [], e0);
    hide SessionInv;
    hide Run;
    hide ValidRun;
    RunNext(s, [e0], e1);
    if reported {
      RedeemedGoesOn(s, [e0] + [e1], r, claims, f0, f1, set_);
      var (e2, e3) := (Reissue(r, true, f0, f1), Store(r, set_.stored || !set_.failed, set_.failed));
      assert RefreshEvents(s.live, r, claims, del, f0, f1, set_) == [e0] + [e1] + [e2] + [e3];
    } else {
      assert RefreshEvents(s.live, r, claims, del, f0, f1, set_) == [e0] + [e1];
    }
  }
}
