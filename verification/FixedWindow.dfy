/** The fixed-window limiter over a store whose keys expire. Time is real; an expiry deadline may be
    missing. */
module FixedWindow {
  import opened Options

  /** What the store holds under the key. */
  datatype Key = Absent | Counter(count: int, deadline: Option<real>)

  /** A key is gone once its deadline has come. */
  function At(k: Key, now: real): Key {
    if k.Counter? && k.deadline.Some? && k.deadline.value <= now then Absent else k
  }

  datatype Outcome = Outcome(allowed: bool, count: int, deadline: real)

  function Deadline(now: real, window: int): real {
    now + window as real
  }

  /** The script, run at once: count up, arm the window on the first count or when there is no
      deadline, and allow while the count is within the maximum. */
  function AddStep(k: Key, now: real, window: int, maxFails: int): (Key, Outcome) {
    var count := (match At(k, now) case Absent => 0 case Counter(c, _) => c) + 1;
    var deadline := match At(k, now) case Absent => None case Counter(_, d) => d;
    var armed := if count == 1 || deadline == None then Deadline(now, window) else deadline.value;
    (Counter(count, Some(armed)), Outcome(count <= maxFails, count, armed))
  }

  /** After an attempt the counter has a deadline: a new one if the counter is new or had none, and else the
      one it had, so that attempts never put off the end of a window. It has counted one more, and the
      attempt passes exactly when that is within the maximum. */
  lemma AttemptsCountUp(k: Key, now: real, window: int, maxFails: int)
    requires window > 0 && Sane(k)
    ensures var (next, outcome) := AddStep(k, now, window, maxFails);
            var was := At(k, now);
            && next == Counter(outcome.count, Some(outcome.deadline)) && now < outcome.deadline
            && (outcome.allowed <==> outcome.count <= maxFails)
            && (if was == Absent || was.count == 0 then outcome.count == 1 && outcome.deadline == now + window as real
                else
                  && outcome.count == was.count + 1
                  && outcome.deadline == (if was.deadline == None then now + window as real else was.deadline.value))
  {
  }

  // ----- Runs -----

  datatype Event = Add(time: real) | Reset(time: real)

  function Next(k: Key, e: Event, window: int, maxFails: int): Key {
    match e
    case Add(now) => AddStep(k, now, window, maxFails).0
    case Reset(_) => Absent
  }

  predicate Allowed(k: Key, e: Event, window: int, maxFails: int) {
    e.Add? && AddStep(k, e.time, window, maxFails).1.allowed
  }

  /** Events in the order of their times, from `now` on. */
  predicate Timed(now: real, es: seq<Event>)
    decreases |es|
  {
    es == [] || (now <= es[0].time && Timed(es[0].time, es[1..]))
  }

  predicate During(e: Event, from: real, to: real) {
    from <= e.time < to
  }

  /** How many attempts are allowed in the half-open interval. */
  function AllowedIn(k: Key, es: seq<Event>, window: int, maxFails: int, from: real, to: real): nat
    decreases |es|
  {
    if es == [] then 0
    else
      (if Allowed(k, es[0], window, maxFails) && During(es[0], from, to) then 1 else 0)
      + AllowedIn(Next(k, es[0], window, maxFails), es[1..], window, maxFails, from, to)
  }

  function AddsIn(es: seq<Event>, from: real, to: real): nat {
    if es == [] then 0 else (if es[0].Add? && During(es[0], from, to) then 1 else 0) + AddsIn(es[1..], from, to)
  }

  function ResetsIn(es: seq<Event>, from: real, to: real): nat {
    if es == [] then 0 else (if es[0].Reset? && During(es[0], from, to) then 1 else 0) + ResetsIn(es[1..], from, to)
  }

  function Min(a: nat, b: nat): nat {
    if a <= b then a else b
  }

  /** What a counter that was there before the interval still allows. One whose window would be armed
      anew by the next attempt counts as none. */
  function Left(k: Key, now: real, maxFails: nat): nat {
    match At(k, now)
    case Counter(c, Some(_)) => if 1 <= c <= maxFails then maxFails - c else 0
    case _ => 0
  }

  /** `n` full allowances. */
  function Full(n: nat, maxFails: nat): nat {
    if n == 0 then 0 else maxFails + Full(n - 1, maxFails)
  }

  predicate Sane(k: Key) {
    k.Counter? ==> k.count >= 0
  }

  /** A counter that outlives the interval: its deadline is not before the end. */
  predicate Outlives(k: Key, to: real) {
    k.Counter? && k.count >= 1 && k.deadline.Some? && to <= k.deadline.value
  }

  lemma {:induction false} NothingAfterTheEnd(k: Key, es: seq<Event>, window: int, maxFails: int, now: real,
          from: real, to: real)
    requires Timed(now, es) && to <= now
    ensures AllowedIn(k, es, window, maxFails, from, to) == 0
    ensures AddsIn(es, from, to) == 0 && ResetsIn(es, from, to) == 0
    decreases |es|
  {
    if es == [] {
    } else {
      NothingAfterTheEnd(Next(k, es[0], window, maxFails), es[1..], window, maxFails, es[0].time, from, to);
    }
  }

  /** Within one window and without a reset, exactly the first attempts are allowed, until the count
      reaches the maximum. */
  lemma {:induction false} OneWindowAllowsExactly(k: Key, es: seq<Event>, window: int, maxFails: nat,
          now: real, from: real, to: real)
    requires Timed(now, es) && from <= now && Outlives(k, to) && ResetsIn(es, from, to) == 0
    ensures AllowedIn(k, es, window, maxFails, from, to)
         == Min(AddsIn(es, from, to), if k.count <= maxFails then maxFails - k.count else 0)
    decreases |es|
  {
    if es == [] {
    } else {
      var e := es[0];
      if e.time < to {
        OneWindowAllowsExactly(Next(k, e, window, maxFails), es[1..], window, maxFails, e.time, from, to);
      } else {
        NothingAfterTheEnd(k, es, window, maxFails, e.time, from, to);
      }
    }
  }

  /** The first attempt that finds no counter opens a window of `window` seconds, in which exactly the
      first `maxFails` attempts are allowed, itself included. */
  lemma FreshWindowAllowsExactly(k: Key, es: seq<Event>, window: int, maxFails: nat)
    requires window > 0 && maxFails > 0 && es != [] && es[0].Add? && At(k, es[0].time) == Absent
    requires Timed(es[0].time, es)
    requires ResetsIn(es, es[0].time, Deadline(es[0].time, window)) == 0
    ensures var (from, to) := (es[0].time, Deadline(es[0].time, window));
            AllowedIn(k, es, window, maxFails, from, to) == Min(AddsIn(es, from, to), maxFails)
  {
    var (from, to) := (es[0].time, Deadline(es[0].time, window));
    OneWindowAllowsExactly(Next(k, es[0], window, maxFails), es[1..], window, maxFails, from, from, to);
  }

  /** While the counter outlives the interval, only a reset can give a new allowance. */
  lemma {:induction false} OneWindowBound(k: Key, es: seq<Event>, window: int, maxFails: nat, now: real,
          from: real, to: real)
    requires Timed(now, es) && from <= now && to <= Deadline(from, window) && (Outlives(k, to) || k == Absent)
    ensures AllowedIn(k, es, window, maxFails, from, to) <=
            (if k == Absent then maxFails else if k.count <= maxFails then maxFails - k.count else 0)
            + Full(ResetsIn(es, from, to), maxFails)
    decreases |es|
  {
    if es == [] {
    } else {
      var e := es[0];
      if e.time < to {
        OneWindowBound(Next(k, e, window, maxFails), es[1..], window, maxFails, e.time, from, to);
      } else {
        NothingAfterTheEnd(k, es, window, maxFails, e.time, from, to);
      }
    }
  }

  /** From inside the interval: what the present counter still allows, one new window, and one
      allowance for each reset. */
  lemma {:induction false} FromInside(k: Key, es: seq<Event>, window: int, maxFails: nat, now: real,
          from: real, to: real)
    requires window > 0 && Timed(now, es) && from <= now && to <= Deadline(from, window) && Sane(k)
    ensures AllowedIn(k, es, window, maxFails, from, to) <=
            Left(k, now, maxFails) + maxFails + Full(ResetsIn(es, from, to), maxFails)
    decreases |es|
  {
    if es == [] {
    } else {
      var e := es[0];
      if e.time >= to {
        NothingAfterTheEnd(k, es, window, maxFails, e.time, from, to);
      } else {
        var next := Next(k, e, window, maxFails);
        if Outlives(next, to) || next == Absent {
          OneWindowBound(next, es[1..], window, maxFails, e.time, from, to);
        } else {
          FromInside(next, es[1..], window, maxFails, e.time, from, to);
        }
      }
    }
  }

  lemma {:induction false} FullIsProduct(n: nat, maxFails: nat)
    ensures Full(n, maxFails) == n * maxFails
  {
    if n == 0 {
    } else {
      FullIsProduct(n - 1, maxFails);
    }
  }

  lemma {:induction false} AnyIntervalIsBoundedByFull(k: Key, es: seq<Event>, window: int, maxFails: nat,
          now: real, from: real)
    requires window > 0 && maxFails > 0 && Timed(now, es) && Sane(k)
    ensures AllowedIn(k, es, window, maxFails, from, Deadline(from, window)) <=
            maxFails + maxFails - 1 + Full(ResetsIn(es, from, Deadline(from, window)), maxFails)
    decreases |es|
  {
    if es == [] {
    } else {
      if es[0].time < from {
        AnyIntervalIsBoundedByFull(Next(k, es[0], window, maxFails), es[1..], window, maxFails, es[0].time, from);
      } else {
        FromInside(k, es, window, maxFails, es[0].time, from, Deadline(from, window));
      }
    }
  }

  /** Any half-open interval as long as the window holds one attempt less than two allowances, plus
      one allowance for each reset in it, from any start, even one whose counter has no deadline. */
  lemma AnyIntervalIsBounded(k: Key, es: seq<Event>, window: int, maxFails: nat, now: real, from: real)
    requires window > 0 && maxFails > 0 && Timed(now, es) && Sane(k)
    ensures AllowedIn(k, es, window, maxFails, from, Deadline(from, window)) <=
            (2 + ResetsIn(es, from, Deadline(from, window))) * maxFails - 1
  {
    var resets := ResetsIn(es, from, Deadline(from, window));
    AnyIntervalIsBoundedByFull(k, es, window, maxFails, now, from);
    FullIsProduct(resets, maxFails);
    assert (2 + resets) * maxFails == maxFails + maxFails + resets * maxFails;
  }

  function Burst(n: nat, time: real): seq<Event> {
    if n == 0 then [] else [Add(time)] + Burst(n - 1, time)
  }

  /** Attempts at one moment of an open window that still has room for them are all allowed. */
  lemma {:induction false} BurstIsAllowed(c: int, d: real, n: nat, t: real, rest: seq<Event>, window: int,
          maxFails: nat, from: real, to: real)
    requires 1 <= c && c + n <= maxFails && t < d && from <= t < to
    ensures AllowedIn(Counter(c, Some(d)), Burst(n, t) + rest, window, maxFails, from, to)
         == n + AllowedIn(Counter(c + n, Some(d)), rest, window, maxFails, from, to)
    decreases n
  {
    if n > 0 {
      assert (Burst(n, t) + rest)[1..] == Burst(n - 1, t) + rest;
      BurstIsAllowed(c + 1, d, n - 1, t, rest, window, maxFails, from, to);
    } else {
      assert Burst(n, t) + rest == rest;
    }
  }

  /** The bound is attained, for every window and maximum: one attempt opens a window, the rest of its
      allowance goes at its end, and a full one at the start of the next. */
  lemma TheBoundIsAttained(window: int, maxFails: nat)
    requires window > 0 && maxFails > 0
    ensures var es := [Add(0.0)] + (Burst(maxFails - 1, window as real - 0.5) + Burst(maxFails, window as real));
            Timed(0.0, es) && ResetsIn(es, 0.5, Deadline(0.5, window)) == 0
            && AllowedIn(Absent, es, window, maxFails, 0.5, Deadline(0.5, window)) == 2 * maxFails - 1
  {
    var (w, to) := (window as real, Deadline(0.5, window));
    var late, next := Burst(maxFails - 1, w - 0.5), Burst(maxFails, w);
    var es := [Add(0.0)] + (late + next);
    assert es[1..] == late + next;
    BurstIsAllowed(1, w, maxFails - 1, w - 0.5, next, window, maxFails, 0.5, to);
    assert next[1..] == Burst(maxFails - 1, w) + [];
    BurstIsAllowed(1, w + w, maxFails - 1, w, [], window, maxFails, 0.5, to);
    BurstsDoNotReset(maxFails - 1, w - 0.5, next, 0.5, to);
    BurstsDoNotReset(maxFails, w, [], 0.5, to);
    assert next + [] == next && next[0].time == w;
    assert Timed(w - 0.5, next);
    assert late + next != [] && 0.0 <= (late + next)[0].time;
  }

  lemma {:induction false} BurstsDoNotReset(n: nat, t: real, rest: seq<Event>, from: real, to: real)
    ensures ResetsIn(Burst(n, t) + rest, from, to) == ResetsIn(rest, from, to)
    ensures Timed(t, rest) ==> Timed(t, Burst(n, t) + rest)
  {
    if n > 0 {
      assert (Burst(n, t) + rest)[1..] == Burst(n - 1, t) + rest;
      BurstsDoNotReset(n - 1, t, rest, from, to);
    } else {
      assert Burst(n, t) + rest == rest;
    }
  }

  // ----- The store and the limiter as classes -----

  /** The keys of the store, some of them past their deadline, and the time. */
  class Store {
    var keys: map<string, Key>
    var now: real

    constructor (now: real)
      ensures keys == map[] && this.now == now
    {
      keys := map[];
      this.now := now;
    }

    function Get(key: string): Key
      reads this
    {
      At(if key in keys then keys[key] else Absent, now)
    }

    method Incr(key: string) returns (count: int)
      modifies this`keys
      ensures count == (match old(Get(key)) case Absent => 0 case Counter(c, _) => c) + 1
      ensures keys == old(keys)[key := Counter(count, match old(Get(key)) case Absent => None case Counter(_, d) => d)]
    {
      match Get(key)
      case Absent =>
        count := 1;
        keys := keys[key := Counter(1, None)];
      case Counter(c, d) =>
        count := c + 1;
        keys := keys[key := Counter(count, d)];
    }

    /** Whole seconds to the deadline, to the nearest; -1 without one, -2 without a key. */
    method Ttl(key: string) returns (t: int)
      ensures match Get(key)
              case Absent => t == -2
              case Counter(_, None) => t == -1
              case Counter(_, Some(d)) => t == (d - now + 0.5).Floor >= 0
    {
      match Get(key)
      case Absent => t := -2;
      case Counter(_, None) => t := -1;
      case Counter(_, Some(d)) => t := (d - now + 0.5).Floor;
    }

    method Expire(key: string, seconds: int)
      requires Get(key).Counter?
      modifies this`keys
      ensures keys == old(keys)[key := Counter(old(Get(key)).count, Some(Deadline(now, seconds)))]
    {
      keys := keys[key := keys[key].(deadline := Some(Deadline(now, seconds)))];
    }

    method Delete(key: string)
      modifies this`keys
      ensures keys == old(keys) - {key}
    {
      keys := keys - {key};
    }
  }

  class FixedWindowLimiter {
    const store: Store
    const windowSec: int
    const maxFails: int
    const key: string

    constructor (store: Store, key: string, windowSec: int, maxFails: int)
      ensures this.store == store && this.key == key && this.windowSec == windowSec && this.maxFails == maxFails
    {
      this.store := store;
      this.key := key;
      this.windowSec := windowSec;
      this.maxFails := maxFails;
    }

    /** Refuses a missing store, and replaces a window or a maximum that is not positive. */
    static method Create(store: Store?, key: string, windowSecond: int, maxFails: int)
      returns (r: Result<FixedWindowLimiter, ()>)
      ensures r.Err? <==> store == null
      ensures r.Ok? ==>
                && fresh(r.value) && r.value.store == store && r.value.key == key
                && r.value.windowSec == (if windowSecond <= 0 then 60 else windowSecond)
                && r.value.maxFails == (if maxFails <= 0 then 1 else maxFails)
    {
      if store == null {
        return Err(());
      }
      var w, m := windowSecond, maxFails;
      if w <= 0 {
        w := 60;
      }
      if m <= 0 {
        m := 1;
      }
      var limiter := new FixedWindowLimiter(store, key, w, m);
      return Ok(limiter);
    }

    /** The script: other keys are left alone. */
    method Add() returns (allowed: bool, count: int, ttl: int)
      requires windowSec > 0
      modifies store`keys
      ensures var (k, outcome) := AddStep(old(store.Get(key)), store.now, windowSec, maxFails);
              && store.keys == old(store.keys)[key := k]
              && allowed == outcome.allowed && count == outcome.count
              && ttl == (outcome.deadline - store.now + 0.5).Floor >= 0
    {
      count := store.Incr(key);
      ttl := store.Ttl(key);
      if count == 1 || ttl < 0 {
        store.Expire(key, windowSec);
        ttl := windowSec;
      }
      allowed := count <= maxFails;
    }

    method Reset()
      modifies store`keys
      ensures store.keys == old(store.keys) - {key}
    {
      store.Delete(key);
    }
  }
}
