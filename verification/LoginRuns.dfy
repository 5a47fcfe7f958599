/** Logins of many users on one store: each attempt is counted before its password is looked at, and
    only a login that succeeds clears the count of its user. */
module LoginRuns {
  import FixedWindow

  type Rid = nat

  const LOGIN_FAIL_PREFIX := "login:fail:"
  const LOGIN_WINDOW := 180
  const LOGIN_MAX: nat := 5

  /** The store's keys, and the users of the requests that got past the limiter and whose password is
      being checked. */
  datatype World = World(keys: map<string, FixedWindow.Key>, checking: map<Rid, string>)

  /** `cleared` tells whether clearing the count took effect; its error is ignored. */
  datatype Event =
    | Begin(r: Rid, username: string, time: real)
    | Succeed(r: Rid, cleared: bool, time: real)
    | Refuse(r: Rid, time: real)

  function KeyOf(username: string): string {
    LOGIN_FAIL_PREFIX + username
  }

  function Held(keys: map<string, FixedWindow.Key>, username: string): FixedWindow.Key {
    if KeyOf(username) in keys then keys[KeyOf(username)] else FixedWindow.Absent
  }

  predicate Enabled(w: World, e: Event) {
    match e
    case Begin(r, _, _) => r !in w.checking
    case Succeed(r, _, _) => r in w.checking
    case Refuse(r, _) => r in w.checking
  }

  predicate Admitted(w: World, e: Event) {
    e.Begin? && FixedWindow.AddStep(Held(w.keys, e.username), e.time, LOGIN_WINDOW, LOGIN_MAX).1.allowed
  }

  function Apply(w: World, e: Event): World
    requires Enabled(w, e)
  {
    match e
    case Begin(r, username, now) =>
      var (k, outcome) := FixedWindow.AddStep(Held(w.keys, username), now, LOGIN_WINDOW, LOGIN_MAX);
      World(w.keys[KeyOf(username) := k], if outcome.allowed then w.checking[r := username] else w.checking)
    case Succeed(r, cleared, _) =>
      World(if cleared then w.keys - {KeyOf(w.checking[r])} else w.keys, w.checking - {r})
    case Refuse(r, _) => w.(checking := w.checking - {r})
  }

  predicate Valid(w: World, es: seq<Event>)
    decreases |es|
  {
    es == [] || (Enabled(w, es[0]) && Valid(Apply(w, es[0]), es[1..]))
  }

  function Run(w: World, es: seq<Event>): World
    requires Valid(w, es)
    decreases |es|
  {
    if es == [] then w else Run(Apply(w, es[0]), es[1..])
  }

  /** Events in the order of their times, from `now` on. */
  predicate Timed(now: real, es: seq<Event>)
    decreases |es|
  {
    es == [] || (now <= es[0].time && Timed(es[0].time, es[1..]))
  }

  predicate During(e: Event, from: real, to: real) {
    from <= e.time < to
  }

  predicate SucceedsFor(w: World, e: Event, username: string)
    requires Enabled(w, e)
  {
    e.Succeed? && w.checking[e.r] == username
  }

  /** How many attempts of one user get past the limiter in the half-open interval. */
  function AdmittedIn(w: World, es: seq<Event>, username: string, from: real, to: real): nat
    requires Valid(w, es)
    decreases |es|
  {
    if es == [] then 0
    else
      (if Admitted(w, es[0]) && es[0].username == username && During(es[0], from, to) then 1 else 0)
      + AdmittedIn(Apply(w, es[0]), es[1..], username, from, to)
  }

  /** How many logins of one user succeed in it. */
  function SuccessesIn(w: World, es: seq<Event>, username: string, from: real, to: real): nat
    requires Valid(w, es)
    decreases |es|
  {
    if es == [] then 0
    else
      (if SucceedsFor(w, es[0], username) && During(es[0], from, to) then 1 else 0)
      + SuccessesIn(Apply(w, es[0]), es[1..], username, from, to)
  }

  // ----- What one user's counter sees of a run -----

  function Seen(w: World, e: Event, username: string): seq<FixedWindow.Event>
    requires Enabled(w, e)
  {
    match e
    case Begin(_, u, now) => if u == username then [FixedWindow.Add(now)] else []
    case Succeed(r, cleared, now) => if cleared && w.checking[r] == username then [FixedWindow.Reset(now)] else []
    case Refuse(_, _) => []
  }

  function Projected(w: World, es: seq<Event>, username: string): seq<FixedWindow.Event>
    requires Valid(w, es)
    decreases |es|
  {
    if es == [] then [] else Seen(w, es[0], username) + Projected(Apply(w, es[0]), es[1..], username)
  }

  lemma KeysDiffer(a: string, b: string)
    ensures KeyOf(a) == KeyOf(b) <==> a == b
  {
    assert KeyOf(a)[|LOGIN_FAIL_PREFIX|..] == a && KeyOf(b)[|LOGIN_FAIL_PREFIX|..] == b;
  }

  /** A step moves a user's counter as the limiter does what is seen of it. */
  lemma StepMovesCounter(w: World, e: Event, username: string)
    requires Enabled(w, e)
    ensures var (k, seen) := (Held(w.keys, username), Seen(w, e, username));
            Held(Apply(w, e).keys, username) ==
            if seen == [] then k else FixedWindow.Next(k, seen[0], LOGIN_WINDOW, LOGIN_MAX)
  {
    hide FixedWindow.AddStep;
    hide KeyOf;
    match e {
      case Begin(_, u, _) => KeysDiffer(u, username);
      case Succeed(r, _, _) => KeysDiffer(w.checking[r], username);
      case Refuse(_, _) =>
    }
  }

  lemma {:induction false} ProjectionIsTimed(w: World, es: seq<Event>, username: string, now: real)
    requires Valid(w, es) && Timed(now, es)
    ensures FixedWindow.Timed(now, Projected(w, es, username))
    decreases |es|
  {
    if es == [] {
    } else {
      var rest := Projected(Apply(w, es[0]), es[1..], username);
      ProjectionIsTimed(Apply(w, es[0]), es[1..], username, es[0].time);
      EarlierIsTimed(rest, now, es[0].time);
      if Seen(w, es[0], username) != [] {
        assert Projected(w, es, username)[1..] == rest;
      } else {
        assert Projected(w, es, username) == rest;
      }
    }
  }

  lemma EarlierIsTimed(es: seq<FixedWindow.Event>, now: real, later: real)
    requires FixedWindow.Timed(later, es) && now <= later
    ensures FixedWindow.Timed(now, es)
  {
  }

  /** Of one user, the limiter admits in the run what it allows in what the counter sees, and only a
      successful login is a reset there. */
  lemma {:induction false} RunIsProjected(w: World, es: seq<Event>, username: string, from: real, to: real)
    requires Valid(w, es)
    ensures var seen := Projected(w, es, username);
            && AdmittedIn(w, es, username, from, to) ==
               FixedWindow.AllowedIn(Held(w.keys, username), seen, LOGIN_WINDOW, LOGIN_MAX, from, to)
            && FixedWindow.ResetsIn(seen, from, to) <= SuccessesIn(w, es, username, from, to)
    decreases |es|
  {
    hide FixedWindow.AddStep;
    hide KeyOf;
    if es == [] {
    } else {
      var rest := Projected(Apply(w, es[0]), es[1..], username);
      RunIsProjected(Apply(w, es[0]), es[1..], username, from, to);
      StepMovesCounter(w, es[0], username);
      if Seen(w, es[0], username) != [] {
        assert Projected(w, es, username)[1..] == rest;
      } else {
        assert Projected(w, es, username) == rest;
      }
    }
  }

  /** In any 180 seconds at most 9 attempts of one user get past the limiter, and 5 more for each of
      its logins that succeeds, whatever the other users do. */
  lemma LoginAttemptsAreBounded(w: World, es: seq<Event>, username: string, now: real, from: real)
    requires Valid(w, es) && Timed(now, es) && FixedWindow.Sane(Held(w.keys, username))
    ensures AdmittedIn(w, es, username, from, from + 180.0) <=
            9 + 5 * SuccessesIn(w, es, username, from, from + 180.0)
  {
    var to := from + 180.0;
    var seen := Projected(w, es, username);
    ProjectionIsTimed(w, es, username, now);
    RunIsProjected(w, es, username, from, to);
    FixedWindow.AnyIntervalIsBounded(Held(w.keys, username), seen, LOGIN_WINDOW, LOGIN_MAX, now, from);
  }

  // ----- One login -----

  /** What a login adds to the run when nothing comes between its steps. */
  function LoginEvents(w: World, r: Rid, username: string, success: bool, cleared: bool, now: real): seq<Event> {
    [Begin(r, username, now)] +
    if !Admitted(w, Begin(r, username, now)) then []
    else if success then [Succeed(r, cleared, now)] else [Refuse(r, now)]
  }

  lemma RunOne(w: World, e: Event)
    requires Enabled(w, e)
    ensures Valid(w, [e]) && Run(w, [e]) == Apply(w, e)
  {
    assert [e][1..] == [];
  }

  lemma LoginIsARun(w: World, r: Rid, username: string, success: bool, cleared: bool, now: real)
    requires r !in w.checking
    ensures var es := LoginEvents(w, r, username, success, cleared, now);
            && Valid(w, es) && Run(w, es).checking == w.checking
            && var k := FixedWindow.AddStep(Held(w.keys, username), now, LOGIN_WINDOW, LOGIN_MAX).0;
               Run(w, es).keys ==
               if Admitted(w, es[0]) && success && cleared then w.keys - {KeyOf(username)}
               else w.keys[KeyOf(username) := k]
  {
    hide FixedWindow.AddStep;
    hide KeyOf;
    var (e, es) := (Begin(r, username, now), LoginEvents(w, r, username, success, cleared, now));
    if Admitted(w, e) {
      var v := Apply(w, e);
      assert es[1..] == [es[1]];
      RunOne(v, es[1]);
      assert v.checking - {r} == w.checking;
      assert w.keys[KeyOf(username) := v.keys[KeyOf(username)]] - {KeyOf(username)} == w.keys - {KeyOf(username)};
    } else {
      assert es[1..] == [];
    }
  }
}
