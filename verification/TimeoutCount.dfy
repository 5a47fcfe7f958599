/** The count of consecutive confirm timeouts, and the retirement of a channel that it causes. */
module TimeoutCount {
  import opened Options
  import opened PendingSpec
  import opened ConfirmChannel

  /** The channel serves one publisher at a time, as it does when taken from the pool. */
  ghost predicate OneAtATime(c: Chan, ev: Event) {
    ev.Enter? ==> forall q :: q in c.core.pubs ==> c.core.pubs[q].Returned?
  }

  ghost predicate ExclusiveRun(threshold: nat, evs: seq<Event>) {
    evs == [] ||
    (&& ExclusiveRun(threshold, evs[..|evs|-1])
     && Enabled(Run(Init(threshold), evs[..|evs|-1]), evs[|evs|-1])
     && OneAtATime(Run(Init(threshold), evs[..|evs|-1]), evs[|evs|-1]))
  }

  /** The router resets the count in the same step that handles an Ack. */
  ghost predicate ResetsAtOnce(evs: seq<Event>) {
    forall i :: 0 <= i < |evs| && evs[i].Route? ==> evs[i].fused
  }

  ghost predicate Alone(pubs: map<Pid, Pc>) {
    forall q, r :: q in pubs && r in pubs && !pubs[q].Returned? && !pubs[r].Returned? ==> q == r
  }

  ghost predicate Reads(pc: Pc, n: nat) {
    pc.Cleaning? && pc.cause.TimedOut? ==> pc.cause.count <= n
  }

  /** The count never exceeds the timeouts since the last nil return, nor does the reading a timed
      out publisher carries; a retirement for timeouts had at least `threshold` of them. */
  ghost predicate CountInv(c: Chan) {
    && c.consecTO <= c.sinceNil
    && (forall q :: q in c.core.pubs ==> Reads(c.core.pubs[q], c.sinceNil))
    && (c.retiredAt.Some? ==> c.threshold > 0 && c.retiredAt.value >= c.threshold)
  }

  lemma MoveKeepsAlone(pubs: map<Pid, Pc>, pid: Pid, pc: Pc)
    requires Alone(pubs)
    requires if pid in pubs && !pubs[pid].Returned? then true else forall q :: q in pubs ==> pubs[q].Returned?
    ensures Alone(pubs[pid := pc])
  {
  }

  lemma {:induction false} StepKeepsAlone(c: Chan, ev: Event)
    requires Alone(c.core.pubs) && Enabled(c, ev) && OneAtATime(c, ev)
    ensures Alone(Apply(c, ev).core.pubs)
  {
    StepMoves(c, ev);
    if ByPublisher(ev) {
      MoveKeepsAlone(c.core.pubs, ev.pid, Apply(c, ev).core.pubs[ev.pid]);
    }
  }

  lemma CleanKeepsCount(c: Chan, pid: Pid)
    requires CountInv(c) && pid in c.core.pubs && c.core.pubs[pid].Cleaning?
    ensures CountInv(ApplyClean(c, pid))
  {
    assert Reads(c.core.pubs[pid], c.sinceNil);
    assert Reads(ApplyClean(c, pid).core.pubs[pid], c.sinceNil);
  }

  lemma ReceiveKeepsCount(c: Chan, pid: Pid)
    requires Alone(c.core.pubs) && CountInv(c) && Enabled(c, Receive(pid))
    ensures CountInv(ApplyReceive(c, pid))
  {
    var d := ApplyReceive(c, pid);
    forall q | q in d.core.pubs ensures Reads(d.core.pubs[q], d.sinceNil) {
      assert Reads(c.core.pubs[q], c.sinceNil);
      assert q != pid ==> c.core.pubs[q].Returned?;
    }
  }

  lemma ExpireKeepsCount(c: Chan, ev: Event)
    requires CountInv(c) && Enabled(c, ev) && ev.Expire?
    ensures CountInv(Apply(c, ev))
  {
    var d := Apply(c, ev);
    forall q | q in d.core.pubs ensures Reads(d.core.pubs[q], d.sinceNil) {
      assert q != ev.pid ==> Reads(c.core.pubs[q], c.sinceNil);
    }
  }

  lemma QuietKeepsCount(c: Chan, ev: Event)
    requires CountInv(c) && Enabled(c, ev) && !ev.Clean? && !ev.Receive? && !ev.Expire?
    ensures CountInv(Apply(c, ev))
  {
    hide CleanCore;
    hide TakeCore;
    hide AckCore;
    StepMoves(c, ev);
    var d := Apply(c, ev);
    forall q | q in d.core.pubs ensures Reads(d.core.pubs[q], d.sinceNil) {
      assert q in c.core.pubs ==> Reads(c.core.pubs[q], c.sinceNil);
    }
  }

  lemma {:induction false} StepKeepsCount(c: Chan, ev: Event)
    requires Alone(c.core.pubs) && CountInv(c) && Enabled(c, ev)
    ensures CountInv(Apply(c, ev))
  {
    if ev.Clean? {
      CleanKeepsCount(c, ev.pid);
    } else if ev.Receive? {
      ReceiveKeepsCount(c, ev.pid);
    } else if ev.Expire? {
      ExpireKeepsCount(c, ev);
    } else {
      QuietKeepsCount(c, ev);
    }
  }

  lemma ThresholdStays(c: Chan, ev: Event)
    requires Enabled(c, ev)
    ensures Apply(c, ev).threshold == c.threshold
  {
    hide AppendCore;
    hide SendCore;
    hide CleanCore;
    hide AckCore;
  }

  lemma {:induction false} ExclusiveRunKeepsCount(threshold: nat, evs: seq<Event>)
    requires ExclusiveRun(threshold, evs)
    ensures ValidRun(Init(threshold), evs)
    ensures Alone(Run(Init(threshold), evs).core.pubs) && CountInv(Run(Init(threshold), evs))
    ensures Run(Init(threshold), evs).threshold == threshold
  {
    if evs == [] {
    } else {
      var pre := evs[..|evs|-1];
      ExclusiveRunKeepsCount(threshold, pre);
      StepKeepsAlone(Run(Init(threshold), pre), evs[|evs|-1]);
      StepKeepsCount(Run(Init(threshold), pre), evs[|evs|-1]);
      ThresholdStays(Run(Init(threshold), pre), evs[|evs|-1]);
    }
  }

  /** Used by one publisher at a time, a channel is retired for timeouts only with a positive
      threshold and after at least that many timeouts since its last nil return. */
  lemma {:induction false} RetiredOnlyAtThreshold(threshold: nat, evs: seq<Event>)
    requires ExclusiveRun(threshold, evs) && Run(Init(threshold), evs).retiredAt.Some?
    ensures 0 < threshold <= Run(Init(threshold), evs).retiredAt.value
  {
    ExclusiveRunKeepsCount(threshold, evs);
  }

  // ----- Retirement comes in time -----

  ghost predicate ReadAtLeast(pc: Pc, n: nat) {
    pc.Cleaning? && pc.cause.TimedOut? && pc.cause.count >= n
  }

  ghost predicate SomebodyRead(pubs: map<Pid, Pc>, n: nat) {
    exists q :: q in pubs && ReadAtLeast(pubs[q], n)
  }

  /** A channel whose count has reached the threshold is broken, or somebody who read that count is still
      cleaning up and will retire it. */
  ghost predicate RetireInv(c: Chan) {
    c.threshold > 0 && !c.broken && c.consecTO >= c.threshold ==> SomebodyRead(c.core.pubs, c.consecTO)
  }

  lemma ReadStays(pubs: map<Pid, Pc>, pid: Pid, pc: Pc, n: nat)
    requires SomebodyRead(pubs, n) && pid in pubs
    requires ReadAtLeast(pubs[pid], n) ==> ReadAtLeast(pc, n)
    ensures SomebodyRead(pubs[pid := pc], n)
  {
    var q :| q in pubs && ReadAtLeast(pubs[q], n);
    assert ReadAtLeast(pubs[pid := pc][q], n);
  }

  lemma NewcomerChangesNothing(pubs: map<Pid, Pc>, pid: Pid, pc: Pc, n: nat)
    requires SomebodyRead(pubs, n) && (pid in pubs ==> !ReadAtLeast(pubs[pid], n))
    ensures SomebodyRead(pubs[pid := pc], n)
  {
    var q :| q in pubs && ReadAtLeast(pubs[q], n);
    assert ReadAtLeast(pubs[pid := pc][q], n);
  }

  lemma ExpireKeepsRetire(c: Chan, pid: Pid)
    requires Enabled(c, Expire(pid))
    ensures RetireInv(Apply(c, Expire(pid)))
  {
    var d := Apply(c, Expire(pid));
    assert ReadAtLeast(d.core.pubs[pid], d.consecTO);
  }

  lemma CleanKeepsRetire(c: Chan, pid: Pid)
    requires RetireInv(c) && Enabled(c, Clean(pid))
    ensures RetireInv(Apply(c, Clean(pid)))
  {
    hide Removal;
    var d := Apply(c, Clean(pid));
    if d.threshold > 0 && !d.broken && d.consecTO >= d.threshold {
      ReadStays(c.core.pubs, pid, d.core.pubs[pid], c.consecTO);
    }
  }

  lemma ReceiveKeepsRetire(c: Chan, pid: Pid)
    requires RetireInv(c) && Enabled(c, Receive(pid))
    ensures RetireInv(ApplyReceive(c, pid))
  {
    var d := ApplyReceive(c, pid);
    if d.threshold > 0 && !d.broken && d.consecTO >= d.threshold {
      ReadStays(c.core.pubs, pid, d.core.pubs[pid], c.consecTO);
    }
  }

  lemma OthersKeepRetire(c: Chan, ev: Event)
    requires RetireInv(c) && Enabled(c, ev) && !ev.Expire? && !ev.Clean? && !ev.Receive?
    ensures RetireInv(Apply(c, ev))
  {
    hide AckCore;
    hide TakeCore;
    hide SomebodyRead;
    StepMoves(c, ev);
    var d := Apply(c, ev);
    if d.threshold > 0 && !d.broken && d.consecTO >= d.threshold && ByPublisher(ev) {
      NewcomerChangesNothing(c.core.pubs, ev.pid, d.core.pubs[ev.pid], c.consecTO);
    }
  }

  lemma {:induction false} StepKeepsRetire(c: Chan, ev: Event)
    requires RetireInv(c) && Enabled(c, ev)
    ensures RetireInv(Apply(c, ev))
  {
    hide RetireInv;
    if ev.Expire? {
      ExpireKeepsRetire(c, ev.pid);
    } else if ev.Clean? {
      CleanKeepsRetire(c, ev.pid);
    } else if ev.Receive? {
      ReceiveKeepsRetire(c, ev.pid);
    } else {
      OthersKeepRetire(c, ev);
    }
  }

  lemma {:induction false} RunKeepsRetire(threshold: nat, evs: seq<Event>)
    requires ValidRun(Init(threshold), evs)
    ensures RetireInv(Run(Init(threshold), evs)) && Run(Init(threshold), evs).threshold == threshold
  {
    hide Apply;
    hide Enabled;
    if evs == [] {
    } else {
      var pre := evs[..|evs|-1];
      RunKeepsRetire(threshold, pre);
      StepKeepsRetire(Run(Init(threshold), pre), evs[|evs|-1]);
      ThresholdStays(Run(Init(threshold), pre), evs[|evs|-1]);
    }
  }

  ghost predicate NobodyTimedOut(pubs: map<Pid, Pc>) {
    forall q :: q in pubs ==> !(pubs[q].Cleaning? && pubs[q].cause.TimedOut?)
  }

  /** With a positive threshold, a channel that is not broken, and in which nobody is cleaning up after a
      timeout, has counted fewer timeouts than the threshold: at the threshold it is retired. This needs
      neither one publisher at a time nor any order of confirmations. */
  lemma {:induction false} UnbrokenIsBelowThreshold(threshold: nat, evs: seq<Event>)
    requires ValidRun(Init(threshold), evs) && threshold > 0 && !Run(Init(threshold), evs).broken
    requires NobodyTimedOut(Run(Init(threshold), evs).core.pubs)
    ensures Run(Init(threshold), evs).consecTO < threshold
  {
    RunKeepsRetire(threshold, evs);
  }

  /** One timeout retires a channel whose threshold is 1. */
  lemma ATimeoutRetires(pid: Pid)
    ensures var evs := [Enter(pid)] + [Append(pid, 1)] + [Send(pid, true)] + [Expire(pid)] + [Clean(pid)];
            && ValidRun(Init(1), evs)
            && var c := Run(Init(1), evs);
               && pid in c.core.pubs && c.core.pubs[pid] == Returned(Some(1), ErrTimeout)
               && c.broken && c.closed && c.closeSig && c.retiredAt == Some(1)
  {
    var c := Init(1);
    var evs := [Enter(pid)];
    RunNext(c, [], Enter(pid));
    hide Run;
    hide ValidRun;
    RunNext(c, evs, Append(pid, 1));
    evs := evs + [Append(pid, 1)];
    RunNext(c, evs, Send(pid, true));
    evs := evs + [Send(pid, true)];
    RunNext(c, evs, Expire(pid));
    evs := evs + [Expire(pid)];
    RunNext(c, evs, Clean(pid));
  }

  // ----- Resets -----

  /** Unless a reset is owed, the count is at most the timeouts since the last handled Ack, also when the
      reset comes later than the Ack. */
  ghost predicate SlackInv(c: Chan) {
    c.router != ResetOwed ==> c.consecTO <= c.sinceAck
  }

  lemma StepKeepsSlack(c: Chan, ev: Event)
    requires SlackInv(c) && Enabled(c, ev)
    ensures SlackInv(Apply(c, ev))
  {
    hide CleanCore;
    hide TakeCore;
    hide AckCore;
    hide AppendCore;
    hide SendCore;
  }

  lemma {:induction false} CountIsAtMostTimeoutsSinceAck(threshold: nat, evs: seq<Event>)
    requires ValidRun(Init(threshold), evs)
    ensures SlackInv(Run(Init(threshold), evs))
  {
    hide Apply;
    hide Enabled;
    if evs == [] {
    } else {
      CountIsAtMostTimeoutsSinceAck(threshold, evs[..|evs|-1]);
      StepKeepsSlack(Run(Init(threshold), evs[..|evs|-1]), evs[|evs|-1]);
    }
  }

  /** A confirmation that settles nothing leaves the count alone and owes no reset. */
  lemma LateConfirmsDoNotReset(c: Chan, fused: bool)
    requires Enabled(c, Route(fused))
    requires forall t :: t in c.core.p.list ==> t > c.core.transit[0].deliveryTag
    ensures Apply(c, Route(fused)).consecTO == c.consecTO
    ensures Apply(c, Route(fused)).router == Routing
    ensures Apply(c, Route(fused)).core.p == c.core.p
  {
    forall i | 0 <= i < |c.core.p.list| ensures c.core.p.list[i] > c.core.transit[0].deliveryTag {
      assert c.core.p.list[i] in c.core.p.list;
    }
    assert PrefixLE(c.core.p.list, c.core.transit[0].deliveryTag) == 0;
    assert c.core.p.list[..0] == [] && c.core.p.list[0..] == c.core.p.list;
  }

  /** Handling a confirmation clears the count, at once or later, exactly when it is an Ack that wakes
      somebody; a Nack, or a confirmation that comes too late, leaves the count alone. */
  lemma {:induction false} RouteResetsIff(threshold: nat, evs: seq<Event>, fused: bool)
    requires ValidRun(Init(threshold), evs) && Enabled(Run(Init(threshold), evs), Route(fused))
    ensures var (c, d) := (Run(Init(threshold), evs), Apply(Run(Init(threshold), evs), Route(fused)));
            var m := c.core.transit[0];
            if m.ack && exists t :: t in c.core.p.list && t <= m.deliveryTag then
              if fused then d.consecTO == 0 && d.router == Routing
              else d.consecTO == c.consecTO && d.router == ResetOwed
            else d.consecTO == c.consecTO && d.router == Routing
  {
    RunKeepsInv(threshold, evs);
    var c := Run(Init(threshold), evs);
    var m := c.core.transit[0];
    WakesIff(c.core.p.list, m.deliveryTag);
    hide CoreInv;
  }

  lemma WakesIff(list: seq<nat>, tag: nat)
    requires Sorted(list)
    ensures PrefixLE(list, tag) > 0 <==> exists t :: t in list && t <= tag
  {
    SortedIsRising(list);
    if PrefixLE(list, tag) > 0 {
      assert list[0] in list;
    }
    if t :| t in list && t <= tag {
      var i :| 0 <= i < |list| && list[i] == t;
    }
  }

  /** An answer from the broker, an Ack or a Nack, clears the count when its publisher reads it; a record that
      was closed without one does not. */
  lemma {:induction false} AnswersClearTheCount(threshold: nat, evs: seq<Event>, pid: Pid)
    requires ValidRun(Init(threshold), evs) && Enabled(Run(Init(threshold), evs), Receive(pid))
    ensures var c := Run(Init(threshold), evs);
            Apply(c, Receive(pid)).consecTO ==
            if c.core.p.fates[c.core.pubs[pid].seq_] == Withdrawn then c.consecTO else 0
  {
  }

  // ----- The exact count -----

  ghost predicate Acked(fates: map<nat, Fate>, s: nat) {
    s in fates && fates[s].Confirmed? && fates[s].ack
  }

  /** A publisher that has not yet read its answer. */
  predicate Unread(k: Core, q: Pid) {
    q in k.pubs && (k.pubs[q].Appended? || k.pubs[q].Waiting?)
  }

  /** Until the channel breaks, the count is the timeouts since the last handled Ack; it is zero
      while an acknowledged publisher has yet to read its answer. */
  ghost predicate ExactInv(c: Chan) {
    && c.router != ResetOwed
    && (!c.broken ==>
          && c.consecTO == c.sinceAck
          && forall q :: Unread(c.core, q) && Acked(c.core.p.fates, c.core.pubs[q].seq_) ==> c.sinceAck == 0)
  }

  lemma SendKeepsExact(c: Chan, ev: Event)
    requires ExactInv(c) && Enabled(c, ev) && ev.Send?
    ensures ExactInv(Apply(c, ev))
  {
    var d := Apply(c, ev);
    forall q | !d.broken && Unread(d.core, q) && Acked(d.core.p.fates, d.core.pubs[q].seq_) ensures d.sinceAck == 0 {
      assert Unread(c.core, q) && Acked(c.core.p.fates, c.core.pubs[q].seq_);
    }
  }

  /** A tag just appended has met no fate. */
  lemma AppendKeepsExact(c: Chan, ev: Event)
    requires ChanInv(c) && ExactInv(c) && Enabled(c, ev) && ev.Append?
    ensures ExactInv(Apply(c, ev))
  {
    var d := Apply(c, ev);
    assert ev.next > c.core.lastSeq ==> ev.next !in Issued(c.core.p);
    forall q | !d.broken && Unread(d.core, q) && Acked(d.core.p.fates, d.core.pubs[q].seq_) ensures d.sinceAck == 0 {
      assert q != ev.pid ==> Unread(c.core, q);
    }
  }

  lemma RouteKeepsExact(c: Chan, ev: Event)
    requires ChanInv(c) && ExactInv(c) && Enabled(c, ev) && ev.Route? && ev.fused
    ensures ExactInv(Apply(c, ev))
  {
    var k, d := c.core, Apply(c, ev);
    var m := k.transit[0];
    AckLEEffect(k.p, m.deliveryTag, m.ack);
    forall q | !d.broken && Unread(d.core, q) && Acked(d.core.p.fates, d.core.pubs[q].seq_) ensures d.sinceAck == 0 {
      var s := d.core.pubs[q].seq_;
      if s in k.p.fates {
        assert Unread(c.core, q) && Acked(k.p.fates, s);
      } else {
        SettledMeansHandled(k.p, m.deliveryTag, s);
      }
    }
  }

  lemma SettledMeansHandled(p: Pending, tag: nat, s: nat)
    requires Inv(p) && s in p.list && s <= tag
    ensures PrefixLE(p.list, tag) > 0
  {
    SortedIsRising(p.list);
    var i :| 0 <= i < |p.list| && p.list[i] == s;
  }

  /** A step that leaves the counters alone and acknowledges nothing. */
  lemma QuietKeepsExact(c: Chan, d: Chan)
    requires ExactInv(c)
    requires d.router != ResetOwed && (c.broken ==> d.broken)
    requires !d.broken ==> d.consecTO == c.consecTO && d.sinceAck == c.sinceAck
    requires forall q :: Unread(d.core, q) ==> Unread(c.core, q) && d.core.pubs[q] == c.core.pubs[q]
    requires forall t :: Acked(d.core.p.fates, t) ==> Acked(c.core.p.fates, t)
    ensures ExactInv(d)
  {
    forall q | !d.broken && Unread(d.core, q) && Acked(d.core.p.fates, d.core.pubs[q].seq_) ensures d.sinceAck == 0 {
      assert Unread(c.core, q) && Acked(c.core.p.fates, c.core.pubs[q].seq_);
    }
  }

  lemma CleanAcksNothing(k: Core, pid: Pid, t: nat)
    requires CoreInv(k) && StagesInOrder(k.pubs) && pid in k.pubs && k.pubs[pid].Cleaning?
    ensures Acked(CleanCore(k, pid).p.fates, t) ==> Acked(k.p.fates, t)
  {
    var Cleaning(s, cause, stage) := k.pubs[pid];
    RemovalEffect(k, s, cause, stage);
  }

  lemma CleanFrame(c: Chan, pid: Pid)
    requires pid in c.core.pubs && c.core.pubs[pid].Cleaning?
    ensures var d := ApplyClean(c, pid);
            && d.core == CleanCore(c.core, pid) && d.router == c.router && (c.broken ==> d.broken)
            && d.consecTO == c.consecTO && d.sinceAck == c.sinceAck
            && (forall q :: Unread(d.core, q) ==> Unread(c.core, q) && d.core.pubs[q] == c.core.pubs[q])
  {
  }

  lemma CleanKeepsExact(c: Chan, pid: Pid)
    requires ChanInv(c) && ExactInv(c) && pid in c.core.pubs && c.core.pubs[pid].Cleaning?
    ensures ExactInv(ApplyClean(c, pid))
  {
    CleanFrame(c, pid);
    var d := ApplyClean(c, pid);
    forall t ensures Acked(d.core.p.fates, t) ==> Acked(c.core.p.fates, t) {
      CleanAcksNothing(c.core, pid, t);
    }
    QuietKeepsExact(c, d);
  }

  lemma DrainKeepsExact(c: Chan, ev: Event)
    requires ChanInv(c) && ExactInv(c) && Enabled(c, ev) && ev.Drain?
    ensures ExactInv(Apply(c, ev))
  {
    AckLEEffect(c.core.p, MAX_TAG, false);
    QuietKeepsExact(c, Apply(c, ev));
  }

  lemma ReceiveKeepsExact(c: Chan, ev: Event)
    requires Alone(c.core.pubs) && ExactInv(c) && Enabled(c, ev) && ev.Receive?
    ensures ExactInv(Apply(c, ev))
  {
    if !c.broken && Acked(c.core.p.fates, c.core.pubs[ev.pid].seq_) {
      assert Unread(c.core, ev.pid);
    }
    QuietKeepsExact(c, Apply(c, ev));
  }

  lemma ExpireKeepsExact(c: Chan, ev: Event)
    requires Alone(c.core.pubs) && ExactInv(c) && Enabled(c, ev) && ev.Expire?
    ensures ExactInv(Apply(c, ev))
  {
    var d := Apply(c, ev);
    forall q ensures !Unread(d.core, q) {
      assert q in c.core.pubs && q != ev.pid ==> c.core.pubs[q].Returned?;
    }
  }

  lemma ArrivalKeepsExact(c: Chan, ev: Event)
    requires ExactInv(c) && Enabled(c, ev)
    requires ev.Enter? || ev.Cancel? || ev.NoticeClose?
    ensures ExactInv(Apply(c, ev))
  {
    QuietKeepsExact(c, Apply(c, ev));
  }

  lemma StepKeepsExact(c: Chan, ev: Event)
    requires ChanInv(c) && Alone(c.core.pubs) && ExactInv(c) && Enabled(c, ev)
    requires ev.Route? ==> ev.fused
    ensures ExactInv(Apply(c, ev))
  {
    if ev.Route? {
      RouteKeepsExact(c, ev);
    } else if ev.Send? {
      SendKeepsExact(c, ev);
    } else if ev.Append? {
      AppendKeepsExact(c, ev);
    } else if ev.Clean? {
      CleanKeepsExact(c, ev.pid);
    } else if ev.Drain? {
      DrainKeepsExact(c, ev);
    } else if ev.Receive? {
      ReceiveKeepsExact(c, ev);
    } else if ev.Expire? {
      ExpireKeepsExact(c, ev);
    } else if ByPublisher(ev) {
      ArrivalKeepsExact(c, ev);
    } else {
      QuietKeepsExact(c, Apply(c, ev));
    }
  }

  /** Used by one publisher at a time, with the reset taken as part of handling an Ack, the count
      of an unbroken channel is exactly the timeouts since the last handled Ack. */
  lemma {:induction false} CountIsTimeoutsSinceAck(threshold: nat, evs: seq<Event>)
    requires ExclusiveRun(threshold, evs) && ResetsAtOnce(evs)
    ensures ExactInv(Run(Init(threshold), evs))
    ensures !Run(Init(threshold), evs).broken ==>
              Run(Init(threshold), evs).consecTO == Run(Init(threshold), evs).sinceAck
  {
    if evs == [] {
    } else {
      var pre := evs[..|evs|-1];
      assert forall i :: 0 <= i < |pre| ==> pre[i] == evs[i];
      CountIsTimeoutsSinceAck(threshold, pre);
      ExclusiveRunKeepsCount(threshold, pre);
      RunKeepsInv(threshold, pre);
      StepKeepsExact(Run(Init(threshold), pre), evs[|evs|-1]);
    }
  }
}
