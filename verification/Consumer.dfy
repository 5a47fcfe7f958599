/** The receiving half: registering consumers, and handling each delivery in process. */
module Consumer {
  import opened Options

  datatype Outcome = Succeeds | Fails | Panics

  /** One call of `Ack(false)`, or of `Nack(false, requeue)`. */
  datatype Settlement = Acked | Nacked(requeue: bool)

  type DeliveryId = nat

  /** What the handler does on each attempt at each delivery. */
  type Handler = (DeliveryId, nat) -> Outcome

  // ----- What becomes of one delivery -----

  /** The handler calls made for one delivery, and the Ack and Nack calls. */
  datatype Record = Record(calls: seq<Outcome>, settled: seq<Settlement>)

  /** At most `limit` calls, and all but the last failed. */
  predicate Attempts(calls: seq<Outcome>, limit: nat) {
    |calls| <= limit && forall i :: 0 <= i < |calls| - 1 ==> calls[i] == Fails
  }

  /** Settled exactly once: by an Ack if and only if the last call succeeded; and no attempt was
      left unused after failures alone. */
  predicate SettledRightly(rec: Record, limit: nat) {
    && Attempts(rec.calls, limit)
    && (rec.calls == [] || rec.calls[|rec.calls|-1] == Fails ==> |rec.calls| == limit)
    && rec.settled == [if rec.calls != [] && rec.calls[|rec.calls|-1] == Succeeds then Acked else Nacked(false)]
  }

  /** The first attempt that does not fail succeeds, and comes in time. */
  ghost predicate SucceedsWithin(handler: Handler, id: DeliveryId, limit: nat) {
    exists k :: 0 <= k < limit && FirstSuccess(handler, id, k)
  }

  ghost predicate FirstSuccess(handler: Handler, id: DeliveryId, k: nat) {
    handler(id, k) == Succeeds && forall j :: 0 <= j < k ==> handler(id, j) == Fails
  }

  /** So what is done with a delivery is a property of its handler alone: acknowledged exactly when
      a success comes before any panic and within the limit. */
  lemma AckedIffSucceedsWithin(rec: Record, handler: Handler, id: DeliveryId, limit: nat)
    requires SettledRightly(rec, limit)
    requires forall i :: 0 <= i < |rec.calls| ==> rec.calls[i] == handler(id, i)
    ensures rec.settled == [if SucceedsWithin(handler, id, limit) then Acked else Nacked(false)]
  {
    var n := |rec.calls|;
    forall k | 0 <= k < limit && FirstSuccess(handler, id, k)
      ensures k == n - 1 && rec.calls[n-1] == Succeeds
    {
      assert forall i :: 0 <= i < n && i < k ==> rec.calls[i] == Fails;
    }
    if n > 0 && rec.calls[n-1] == Succeeds {
      assert FirstSuccess(handler, id, n - 1);
    }
  }

  // ----- Registering -----

  /** Shared with the caller, who may register it for several queues. */
  class ConsumerMeta {
    var prefetch: int
    var workerNum: int
    var retryLimit: int
    var handlerTimeout: int

    constructor (prefetch: int, workerNum: int, retryLimit: int, handlerTimeout: int)
      ensures this.prefetch == prefetch && this.workerNum == workerNum
      ensures this.retryLimit == retryLimit && this.handlerTimeout == handlerTimeout
    {
      this.prefetch := prefetch;
      this.workerNum := workerNum;
      this.retryLimit := retryLimit;
      this.handlerTimeout := handlerTimeout;
    }

    /** Every setting usable. */
    predicate Usable()
      reads this
    {
      prefetch > 0 && workerNum > 0 && retryLimit > 0 && handlerTimeout > 0
    }

    /** Replaces what is not positive by its default, and nothing else. */
    method ApplyDefaults()
      modifies this
      ensures Usable()
      ensures prefetch == (if old(prefetch) > 0 then old(prefetch) else 1)
      ensures workerNum == (if old(workerNum) > 0 then old(workerNum) else 1)
      ensures retryLimit == (if old(retryLimit) > 0 then old(retryLimit) else 1)
      ensures handlerTimeout == (if old(handlerTimeout) > 0 then old(handlerTimeout) else 60)
    {
      if prefetch <= 0 { prefetch := 1; }
      if workerNum <= 0 { workerNum := 1; }
      if retryLimit <= 0 { retryLimit := 1; }
      if handlerTimeout <= 0 { handlerTimeout := 60; }
    }
  }

  class ConsumerUnit {
    const queue: string
    const handler: Handler
    const meta: ConsumerMeta

    constructor (queue: string, handler: Handler, meta: ConsumerMeta)
      ensures this.queue == queue && this.handler == handler && this.meta == meta
    {
      this.queue := queue;
      this.handler := handler;
      this.meta := meta;
    }
  }

  datatype RegisterError = MissingQueueOrHandler | DuplicateQueue

  class Delivery {
    const id: DeliveryId
    var calls: seq<Outcome>
    var settled: seq<Settlement>

    constructor (id: DeliveryId)
      ensures this.id == id && calls == [] && settled == []
    {
      this.id := id;
      calls := [];
      settled := [];
    }

    method Ack()
      modifies this`settled
      ensures settled == old(settled) + [Acked]
    {
      settled := settled + [Acked];
    }

    method Nack(requeue: bool)
      modifies this`settled
      ensures settled == old(settled) + [Nacked(requeue)]
    {
      settled := settled + [Nacked(requeue)];
    }
  }

  class Client {
    var units: map<string, ConsumerUnit>

    /** A unit is filed under its own queue, and its settings are usable. */
    ghost predicate Valid()
      reads this, set q | q in units :: units[q].meta
    {
      forall q :: q in units ==> q != "" && units[q].queue == q && units[q].meta.Usable()
    }

    constructor ()
      ensures Valid() && units == map[]
    {
      units := map[];
    }

    /** A refused registration changes no unit, though a duplicate one has by then completed the
        caller's settings; even shared settings of units already registered stay usable. */
    method Register(queue: string, handler: Option<Handler>, meta: ConsumerMeta?) returns (r: Result<(), RegisterError>)
      requires Valid()
      modifies this
      modifies if meta == null then {} else {meta}
      ensures Valid()
      ensures r == Err(MissingQueueOrHandler) <==> queue == "" || handler.None?
      ensures r == Err(DuplicateQueue) <==> queue != "" && handler.Some? && queue in old(units)
      ensures r.Err? ==> units == old(units)
      ensures r.Ok? ==>
                && queue in units && units == old(units)[queue := units[queue]] && units[queue].handler == handler.value
                && (if meta == null then fresh(units[queue].meta) else units[queue].meta == meta)
      ensures r.Ok? && meta == null ==>
                var m := units[queue].meta;
                m.prefetch == 4 && m.workerNum == 4 && m.retryLimit == 2 && m.handlerTimeout == 60
      ensures r == Err(MissingQueueOrHandler) && meta != null ==> unchanged(meta)
      ensures r != Err(MissingQueueOrHandler) && meta != null ==>
                && meta.prefetch == (if old(meta.prefetch) > 0 then old(meta.prefetch) else 1)
                && meta.workerNum == (if old(meta.workerNum) > 0 then old(meta.workerNum) else 1)
                && meta.retryLimit == (if old(meta.retryLimit) > 0 then old(meta.retryLimit) else 1)
                && meta.handlerTimeout == (if old(meta.handlerTimeout) > 0 then old(meta.handlerTimeout) else 60)
    {
      if queue == "" || handler.None? {
        return Err(MissingQueueOrHandler);
      }
      var m := meta;
      if m == null {
        m := new ConsumerMeta(4, 4, 2, 60);
      } else {
        m.ApplyDefaults();
      }
      if queue in units {
        return Err(DuplicateQueue);
      }
      var u := new ConsumerUnit(queue, handler.value, m);
      units := units[queue := u];
      return Ok(());
    }
  }

  // ----- Handling one delivery -----

  /** The retry loop. A panic of the handler leaves the delivery unsettled and is passed on. */
  method HandleInProcess(unit: ConsumerUnit, d: Delivery) returns (panicked: bool)
    requires d.calls == [] && d.settled == []
    modifies d
    ensures Attempts(d.calls, if unit.meta.retryLimit < 0 then 0 else unit.meta.retryLimit)
    ensures forall i :: 0 <= i < |d.calls| ==> d.calls[i] == unit.handler(d.id, i)
    ensures panicked <==> d.calls != [] && d.calls[|d.calls|-1] == Panics
    ensures panicked ==> d.settled == []
    ensures !panicked ==>
              SettledRightly(Record(d.calls, d.settled), if unit.meta.retryLimit < 0 then 0 else unit.meta.retryLimit)
  {
    var attempt := 0;
    while attempt < unit.meta.retryLimit
      invariant 0 <= attempt == |d.calls| && (attempt <= unit.meta.retryLimit || attempt == 0)
      invariant forall i :: 0 <= i < attempt ==> d.calls[i] == Fails == unit.handler(d.id, i)
      invariant d.settled == []
    {
      var outcome := unit.handler(d.id, attempt);
      d.calls := d.calls + [outcome];
      if outcome == Panics {
        return true;
      }
      if outcome == Succeeds {
        d.Ack();
        return false;
      }
      attempt := attempt + 1;
    }
    d.Nack(false);
    return false;
  }

  /** What the worker does with a delivery it has taken: a panic is recovered and refused. */
  method Process(unit: ConsumerUnit, d: Delivery)
    requires d.calls == [] && d.settled == []
    modifies d
    ensures SettledRightly(Record(d.calls, d.settled), if unit.meta.retryLimit < 0 then 0 else unit.meta.retryLimit)
    ensures forall i :: 0 <= i < |d.calls| ==> d.calls[i] == unit.handler(d.id, i)
  {
    var panicked := HandleInProcess(unit, d);
    if panicked {
      d.Nack(false);
    }
  }

  // ----- Many workers at once -----

  type WorkerId = nat

  datatype Work =
    | Down
    | Idle
    | Handling(id: DeliveryId, limit: nat)
    | Settling(id: DeliveryId, limit: nat, how: Settlement)
    | Exited

  /** `taken` records what was done with every delivery ever taken, and `terms` by which worker it
      was taken and under which limit. */
  datatype Terms = Terms(taker: WorkerId, limit: nat)

  datatype Workers = Workers(work: map<WorkerId, Work>, taken: map<DeliveryId, Record>, terms: map<DeliveryId, Terms>)

  /** `Consume` and `Lose` open and lose the worker's channel; `limit` is the setting read when the
      retry loop starts. */
  datatype Event =
    | Consume(w: WorkerId)
    | Lose(w: WorkerId)
    | Stop(w: WorkerId)
    | Take(w: WorkerId, id: DeliveryId, limit: nat)
    | Call(w: WorkerId, outcome: Outcome)
    | GiveUp(w: WorkerId)
    | Settle(w: WorkerId)

  const NOBODY := Workers(map[], map[], map[])

  predicate Enabled(s: Workers, e: Event) {
    match e
    case Consume(w) => w !in s.work || s.work[w].Down?
    case Lose(w) => w in s.work && s.work[w].Idle?
    case Stop(w) => w in s.work && (s.work[w].Idle? || s.work[w].Down?)
    case Take(w, id, _) => w in s.work && s.work[w].Idle? && id !in s.taken
    case Call(w, _) =>
      && w in s.work && s.work[w].Handling? && s.work[w].id in s.taken
      && |s.taken[s.work[w].id].calls| < s.work[w].limit
    case GiveUp(w) =>
      && w in s.work && s.work[w].Handling? && s.work[w].id in s.taken
      && |s.taken[s.work[w].id].calls| == s.work[w].limit
    case Settle(w) => w in s.work && s.work[w].Settling? && s.work[w].id in s.taken
  }

  function AfterCall(id: DeliveryId, limit: nat, outcome: Outcome): Work {
    match outcome
    case Succeeds => Settling(id, limit, Acked)
    case Fails => Handling(id, limit)
    case Panics => Settling(id, limit, Nacked(false))
  }

  function Apply(s: Workers, e: Event): Workers
    requires Enabled(s, e)
  {
    match e
    case Consume(w) => s.(work := s.work[w := Idle])
    case Lose(w) => s.(work := s.work[w := Down])
    case Stop(w) => s.(work := s.work[w := Exited])
    case Take(w, id, limit) =>
      Workers(s.work[w := Handling(id, limit)], s.taken[id := Record([], [])], s.terms[id := Terms(w, limit)])
    case Call(w, outcome) =>
      var Handling(id, limit) := s.work[w];
      var rec := s.taken[id];
      s.(work := s.work[w := AfterCall(id, limit, outcome)],
         taken := s.taken[id := rec.(calls := rec.calls + [outcome])])
    case GiveUp(w) =>
      s.(work := s.work[w := Settling(s.work[w].id, s.work[w].limit, Nacked(false))])
    case Settle(w) =>
      var Settling(id, _, how) := s.work[w];
      var rec := s.taken[id];
      s.(work := s.work[w := Idle], taken := s.taken[id := rec.(settled := rec.settled + [how])])
  }

  ghost function Run(s: Workers, es: seq<Event>): Workers {
    if es == [] then s
    else
      var t := Run(s, es[..|es|-1]);
      if Enabled(t, es[|es|-1]) then Apply(t, es[|es|-1]) else t
  }

  ghost predicate ValidRun(s: Workers, es: seq<Event>) {
    es == [] || (ValidRun(s, es[..|es|-1]) && Enabled(Run(s, es[..|es|-1]), es[|es|-1]))
  }

  ghost predicate HasInHand(work: Work, id: DeliveryId) {
    (work.Handling? || work.Settling?) && work.id == id
  }

  /** What a worker knows of the delivery in its hands. */
  ghost predicate WorkMatches(w: WorkerId, work: Work, taken: map<DeliveryId, Record>, terms: map<DeliveryId, Terms>) {
    match work
    case Handling(id, limit) =>
      && id in taken && id in terms && terms[id] == Terms(w, limit) && taken[id].settled == []
      && |taken[id].calls| <= limit && (forall i :: 0 <= i < |taken[id].calls| ==> taken[id].calls[i] == Fails)
    case Settling(id, limit, how) =>
      && id in taken && id in terms && terms[id] == Terms(w, limit) && taken[id].settled == []
      && SettledRightly(taken[id].(settled := [how]), limit)
    case _ => true
  }

  /** A delivery once taken is in its taker's hands, or was settled once and rightly. */
  ghost predicate HeldOrSettled(id: DeliveryId, rec: Record, terms: Terms, work: map<WorkerId, Work>) {
    terms.taker in work && (HasInHand(work[terms.taker], id) || SettledRightly(rec, terms.limit))
  }

  ghost predicate WorkersInv(s: Workers) {
    && s.taken.Keys == s.terms.Keys
    && (forall w :: w in s.work ==> WorkMatches(w, s.work[w], s.taken, s.terms))
    && (forall id :: id in s.taken ==> HeldOrSettled(id, s.taken[id], s.terms[id], s.work))
  }

  lemma ApplyKeepsInv(s: Workers, e: Event)
    requires WorkersInv(s) && Enabled(s, e)
    ensures WorkersInv(Apply(s, e))
  {
    var t := Apply(s, e);
    forall w | w in t.work ensures WorkMatches(w, t.work[w], t.taken, t.terms) {
      if w != e.w {
        OthersUntouched(s, e, w);
      } else {
        ActorStillMatches(s, e);
      }
    }
    forall id | id in t.taken ensures HeldOrSettled(id, t.taken[id], t.terms[id], t.work) {
      if id in s.taken {
        assert HeldOrSettled(id, s.taken[id], s.terms[id], s.work);
      }
      HeldOrSettledStays(s, e, id);
    }
  }

  lemma ActorStillMatches(s: Workers, e: Event)
    requires WorkersInv(s) && Enabled(s, e)
    ensures var t := Apply(s, e);
            e.w in t.work && WorkMatches(e.w, t.work[e.w], t.taken, t.terms)
  {
    assert e.w in s.work ==> WorkMatches(e.w, s.work[e.w], s.taken, s.terms);
  }

  lemma OthersUntouched(s: Workers, e: Event, w: WorkerId)
    requires WorkersInv(s) && Enabled(s, e) && w != e.w && w in Apply(s, e).work
    ensures WorkMatches(w, Apply(s, e).work[w], Apply(s, e).taken, Apply(s, e).terms)
  {
    assert WorkMatches(w, s.work[w], s.taken, s.terms);
    assert e.w in s.work ==> WorkMatches(e.w, s.work[e.w], s.taken, s.terms);
  }

  lemma HeldOrSettledStays(s: Workers, e: Event, id: DeliveryId)
    requires WorkersInv(s) && Enabled(s, e) && id in Apply(s, e).taken
    requires id in s.taken ==> HeldOrSettled(id, s.taken[id], s.terms[id], s.work)
    ensures id in Apply(s, e).terms
    ensures HeldOrSettled(id, Apply(s, e).taken[id], Apply(s, e).terms[id], Apply(s, e).work)
  {
    assert e.w in s.work ==> WorkMatches(e.w, s.work[e.w], s.taken, s.terms);
  }

  lemma {:induction false} RunKeepsInv(es: seq<Event>)
    requires ValidRun(NOBODY, es)
    ensures WorkersInv(Run(NOBODY, es))
  {
    if es == [] {
    } else {
      RunKeepsInv(es[..|es|-1]);
      ApplyKeepsInv(Run(NOBODY, es[..|es|-1]), es[|es|-1]);
    }
  }

  /** Conservation: after any interleaving of workers, failures, panics and lost channels, a
      delivery once taken is either still in its taker's hands alone and not settled, or was
      settled exactly once and rightly. */
  lemma EveryDeliveryIsSettledOnce(es: seq<Event>, id: DeliveryId)
    requires ValidRun(NOBODY, es) && id in Run(NOBODY, es).taken
    ensures var s := Run(NOBODY, es);
            && id in s.terms && s.terms[id].taker in s.work
            && Attempts(s.taken[id].calls, s.terms[id].limit)
            && (forall w :: w in s.work && HasInHand(s.work[w], id) ==> w == s.terms[id].taker)
            && (if HasInHand(s.work[s.terms[id].taker], id) then s.taken[id].settled == []
                else SettledRightly(s.taken[id], s.terms[id].limit))
  {
    RunKeepsInv(es);
    var s := Run(NOBODY, es);
    assert HeldOrSettled(id, s.taken[id], s.terms[id], s.work);
    assert WorkMatches(s.terms[id].taker, s.work[s.terms[id].taker], s.taken, s.terms);
  }

  // ----- Whatever is right can happen -----

  lemma RunNext(s: Workers, es: seq<Event>, e: Event)
    requires ValidRun(s, es) && Enabled(Run(s, es), e)
    ensures ValidRun(s, es + [e]) && Run(s, es + [e]) == Apply(Run(s, es), e)
  {
    assert (es + [e])[..|es|] == es;
  }

  /** A worker that opens its channel is ready, and one that loses it and opens it again is as before. */
  lemma WorkersStartAndRestart(s: Workers, w: WorkerId)
    ensures w !in s.work ==>
              ValidRun(s, [Consume(w)]) && Run(s, [Consume(w)]) == s.(work := s.work[w := Idle])
    ensures w in s.work && s.work[w] == Idle ==>
              ValidRun(s, [Lose(w)] + [Consume(w)]) && Run(s, [Lose(w)] + [Consume(w)]) == s
  {
    if w !in s.work {
      RunNext(s, [], Consume(w));
    } else if s.work[w] == Idle {
      RunNext(s, [], Lose(w));
      RunNext(s, [Lose(w)], Consume(w));
      assert s.work[w := Down][w := Idle] == s.work;
    }
  }

  function Failed(n: nat): seq<Outcome> {
    if n == 0 then [] else Failed(n - 1) + [Fails]
  }

  lemma {:induction false} FailedAre(n: nat)
    ensures |Failed(n)| == n && forall i :: 0 <= i < n ==> Failed(n)[i] == Fails
  {
    if n == 0 {
    } else {
      FailedAre(n - 1);
    }
  }

  /** The worker has called the handler `n` times in vain. */
  function InVain(s: Workers, w: WorkerId, id: DeliveryId, limit: nat, n: nat): Workers {
    Workers(s.work[w := Handling(id, limit)], s.taken[id := Record(Failed(n), [])], s.terms[id := Terms(w, limit)])
  }

  /** It has made these calls, and knows how to settle. */
  function Concluded(s: Workers, w: WorkerId, id: DeliveryId, limit: nat, calls: seq<Outcome>,
          how: Settlement): Workers {
    Workers(s.work[w := Settling(id, limit, how)], s.taken[id := Record(calls, [])], s.terms[id := Terms(w, limit)])
  }

  lemma CallsInVain(s: Workers, w: WorkerId, id: DeliveryId, limit: nat, n: nat)
    requires n < limit
    ensures var t := InVain(s, w, id, limit, n);
            Enabled(t, Call(w, Fails)) && Apply(t, Call(w, Fails)) == InVain(s, w, id, limit, n + 1)
  {
    FailedAre(n);
  }

  lemma GivesUp(s: Workers, w: WorkerId, id: DeliveryId, limit: nat)
    ensures var t := InVain(s, w, id, limit, limit);
            && Enabled(t, GiveUp(w))
            && Apply(t, GiveUp(w)) == Concluded(s, w, id, limit, Failed(limit), Nacked(false))
  {
    FailedAre(limit);
  }

  lemma Concludes(s: Workers, w: WorkerId, id: DeliveryId, limit: nat, n: nat, last: Outcome)
    requires n < limit && last != Fails
    ensures var t := InVain(s, w, id, limit, n);
            && Enabled(t, Call(w, last))
            && Apply(t, Call(w, last)) ==
               Concluded(s, w, id, limit, Failed(n) + [last], if last == Succeeds then Acked else Nacked(false))
  {
    FailedAre(n);
  }

  lemma Settles(s: Workers, w: WorkerId, id: DeliveryId, limit: nat, calls: seq<Outcome>, how: Settlement)
    requires w in s.work && s.work[w] == Idle
    ensures var t := Concluded(s, w, id, limit, calls, how);
            && Enabled(t, Settle(w))
            && Apply(t, Settle(w)) ==
               Workers(s.work, s.taken[id := Record(calls, [how])], s.terms[id := Terms(w, limit)])
  {
    assert Record(calls, []).settled + [how] == [how];
    assert s.work[w := Settling(id, limit, how)][w := Idle] == s.work;
    assert s.taken[id := Record(calls, [])][id := Record(calls, [how])] == s.taken[id := Record(calls, [how])];
  }

  lemma {:induction false} FailsSoOften(s: Workers, w: WorkerId, id: DeliveryId, limit: nat, n: nat)
    returns (es: seq<Event>)
    requires w in s.work && s.work[w] == Idle && id !in s.taken && n <= limit
    ensures ValidRun(s, es) && Run(s, es) == InVain(s, w, id, limit, n)
  {
    if n == 0 {
      RunNext(s, [], Take(w, id, limit));
      es := [] + [Take(w, id, limit)];
    } else {
      es := FailsSoOften(s, w, id, limit, n - 1);
      hide Run;
      hide ValidRun;
      hide InVain;
      CallsInVain(s, w, id, limit, n - 1);
      RunNext(s, es, Call(w, Fails));
      es := es + [Call(w, Fails)];
    }
  }

  /** A right record is `n` failures, then a last call unless the limit was reached. */
  lemma RightRecordIs(rec: Record, limit: nat)
    requires SettledRightly(rec, limit)
    ensures var n := |rec.calls|;
            if n == 0 || rec.calls[n-1] == Fails then n == limit && rec == Record(Failed(n), [Nacked(false)])
            else
              && n <= limit
              && rec == Record(Failed(n - 1) + [rec.calls[n-1]],
                               [if rec.calls[n-1] == Succeeds then Acked else Nacked(false)])
  {
    var n := |rec.calls|;
    FailedAre(n);
    if n > 0 {
      FailedAre(n - 1);
    }
  }

  /** A worker that is idle can take a new delivery and do with it anything that is right, after which it is
      idle again and nothing else has changed: what `Process` does is a run of one worker. */
  lemma EveryRightRecordIsReached(s: Workers, w: WorkerId, id: DeliveryId, limit: nat, rec: Record)
    returns (es: seq<Event>)
    requires w in s.work && s.work[w] == Idle && id !in s.taken && SettledRightly(rec, limit)
    ensures ValidRun(s, es)
    ensures Run(s, es) == Workers(s.work, s.taken[id := rec], s.terms[id := Terms(w, limit)])
  {
    hide Run;
    hide ValidRun;
    hide InVain;
    hide Concluded;
    var n := |rec.calls|;
    RightRecordIs(rec, limit);
    Settles(s, w, id, limit, rec.calls, rec.settled[0]);
    if n == 0 || rec.calls[n-1] == Fails {
      es := FailsSoOften(s, w, id, limit, n);
      GivesUp(s, w, id, limit);
      RunNext(s, es, GiveUp(w));
      es := es + [GiveUp(w)];
    } else {
      es := FailsSoOften(s, w, id, limit, n - 1);
      Concludes(s, w, id, limit, n - 1, rec.calls[n-1]);
      RunNext(s, es, Call(w, rec.calls[n-1]));
      es := es + [Call(w, rec.calls[n-1])];
    }
    RunNext(s, es, Settle(w));
    es := es + [Settle(w)];
  }
}
