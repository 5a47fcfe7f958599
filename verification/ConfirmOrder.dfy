/** Runs of one confirm channel in which the broker confirms every published tag once, in order:
    there a nil return means the publisher's own tag was acknowledged. */
module ConfirmOrder {
  import opened Options
  import opened PendingSpec
  import opened ConfirmChannel

  /** The broker confirms the least published tag it has not confirmed yet. */
  ghost predicate InOrder(c: Chan, ev: Event) {
    ev.Emit? ==>
      && ev.tag !in c.core.emitted
      && forall t :: t in c.core.sent && t < ev.tag ==> t in c.core.emitted
  }

  ghost predicate OrderedRun(threshold: nat, evs: seq<Event>) {
    evs == [] ||
    (&& OrderedRun(threshold, evs[..|evs|-1])
     && Enabled(Run(Init(threshold), evs[..|evs|-1]), evs[|evs|-1])
     && InOrder(Run(Init(threshold), evs[..|evs|-1]), evs[|evs|-1]))
  }

  /** Confirmations travel in tag order and skip no published tag. */
  ghost predicate TransitOrder(transit: seq<Confirmation>, emitted: set<nat>, sent: set<nat>) {
    && (forall i, j :: 0 <= i < j < |transit| ==> transit[i].deliveryTag < transit[j].deliveryTag)
    && (forall i :: 0 <= i < |transit| ==> transit[i].deliveryTag in emitted)
    && emitted <= sent
    && (forall t, e :: t in sent && e in emitted && t <= e ==> t in emitted)
  }

  /** A confirmed tag that still waits has its confirmation on the way. */
  ghost predicate Covered(fates: map<nat, Fate>, transit: seq<Confirmation>, emitted: set<nat>) {
    forall t :: t in emitted && t !in fates ==> OnItsWay(transit, t)
  }

  ghost predicate OrderInv(k: Core) {
    TransitOrder(k.transit, k.emitted, k.sent) && Covered(k.p.fates, k.transit, k.emitted)
  }

  ghost predicate OnItsWay(transit: seq<Confirmation>, t: nat) {
    exists i :: 0 <= i < |transit| && transit[i].deliveryTag == t
  }

  ghost predicate OwnAck(k: Core) {
    forall t :: t in k.sent && t in k.p.fates ==> OwnFate(t, k.p.fates[t])
  }

  /** An Ack that settled `t` carried the tag `t` itself. */
  ghost predicate OwnFate(t: nat, f: Fate) {
    f.Confirmed? && f.ack ==> f.via == t
  }

  /** Taking the oldest confirmation: of the published records it settles, only its own. */
  lemma RouteSettlesOneTag(k: Core, t: nat)
    requires CoreInv(k) && OrderInv(k) && k.transit != []
    requires t in k.sent && t in k.p.list && t <= k.transit[0].deliveryTag
    ensures t == k.transit[0].deliveryTag
  {
    assert t !in k.p.fates;
    assert OnItsWay(k.transit, t);
  }

  lemma RouteKeepsOrder(k: Core)
    requires CoreInv(k) && OrderInv(k) && OwnAck(k) && k.transit != []
    ensures OrderInv(TakeCore(k)) && OwnAck(TakeCore(k))
  {
    var m := k.transit[0];
    var d := TakeCore(k);
    AckLEEffect(k.p, m.deliveryTag, m.ack);
    forall t | t in d.emitted && t !in d.p.fates ensures OnItsWay(d.transit, t) {
      assert OnItsWay(k.transit, t);
      var i :| 0 <= i < |k.transit| && k.transit[i].deliveryTag == t;
      assert t in k.owner;
      assert i != 0;
      assert d.transit[i-1].deliveryTag == t;
    }
    forall t | t in d.sent && t in d.p.fates ensures OwnFate(t, d.p.fates[t]) {
      if t in k.p.list {
        RouteSettlesOneTag(k, t);
      }
    }
  }

  lemma EmitKeepsOrder(fates: map<nat, Fate>, transit: seq<Confirmation>, emitted: set<nat>, sent: set<nat>,
                       tag: nat, ack: bool)
    requires TransitOrder(transit, emitted, sent) && Covered(fates, transit, emitted)
    requires tag in sent && tag !in emitted && forall t :: t in sent && t < tag ==> t in emitted
    ensures TransitOrder(transit + [Confirmation(tag, ack)], emitted + {tag}, sent)
    ensures Covered(fates, transit + [Confirmation(tag, ack)], emitted + {tag})
  {
    var more := transit + [Confirmation(tag, ack)];
    forall t | t in emitted + {tag} && t !in fates ensures OnItsWay(more, t) {
      if t == tag {
        assert more[|transit|].deliveryTag == tag;
      } else {
        var i :| 0 <= i < |transit| && transit[i].deliveryTag == t;
        assert more[i].deliveryTag == t;
      }
    }
  }

  /** A tag that has just reached the broker is above every confirmed tag and has not been acked. */
  lemma ReachKeepsOrder(k: Core, pid: Pid)
    requires CoreInv(k) && OrderInv(k) && OwnAck(k) && pid in k.pubs && k.pubs[pid].Appended?
    ensures OrderInv(ReachCore(k, pid)) && OwnAck(ReachCore(k, pid))
  {
    var s := k.pubs[pid].seq_;
    if s !in k.sent {
      assert s == k.lastSeq;
      assert forall e :: e in k.emitted ==> e < s;
      if s in k.p.fates {
        assert HonestFate(s, k.p.fates[s], k.sent);
      }
    } else {
      assert k.sent + {s} == k.sent;
    }
  }

  lemma SendKeepsOrder(k: Core, pid: Pid, ok: bool)
    requires CoreInv(k) && OrderInv(k) && OwnAck(k) && pid in k.pubs && k.pubs[pid].Appended?
    ensures OrderInv(SendCore(k, pid, ok)) && OwnAck(SendCore(k, pid, ok))
  {
    ReachKeepsOrder(k, pid);
    if ok {
      QuietKeepsOrder(ReachCore(k, pid), SendCore(k, pid, ok));
    } else {
      QuietKeepsOrder(k, SendCore(k, pid, ok));
    }
  }

  /** Steps that publish nothing, emit nothing and acknowledge nothing. */
  lemma QuietKeepsOrder(k: Core, d: Core)
    requires OrderInv(k) && OwnAck(k)
    requires d.transit == k.transit && d.emitted == k.emitted && d.sent == k.sent
    requires forall t :: t in k.p.fates ==> t in d.p.fates
    requires forall t :: t in d.p.fates ==>
               (t in k.p.fates && d.p.fates[t] == k.p.fates[t]) || d.p.fates[t].Withdrawn? || !d.p.fates[t].ack
    ensures OrderInv(d) && OwnAck(d)
  {
    forall t | t in d.emitted && t !in d.p.fates ensures OnItsWay(d.transit, t) {
      assert OnItsWay(k.transit, t);
    }
    forall t | t in d.sent && t in d.p.fates ensures OwnFate(t, d.p.fates[t]) {
      if t in k.p.fates {
        assert OwnFate(t, k.p.fates[t]);
      }
    }
  }

  lemma CleanKeepsOrder(k: Core, pid: Pid)
    requires CoreInv(k) && StagesInOrder(k.pubs) && OrderInv(k) && OwnAck(k)
    requires pid in k.pubs && k.pubs[pid].Cleaning?
    ensures OrderInv(CleanCore(k, pid)) && OwnAck(CleanCore(k, pid))
  {
    var Cleaning(s, cause, stage) := k.pubs[pid];
    RemovalEffect(k, s, cause, stage);
    QuietKeepsOrder(k, CleanCore(k, pid));
  }

  lemma DrainKeepsOrder(k: Core)
    requires CoreInv(k) && OrderInv(k) && OwnAck(k)
    ensures OrderInv(AckCore(k, MAX_TAG, false)) && OwnAck(AckCore(k, MAX_TAG, false))
  {
    AckLEEffect(k.p, MAX_TAG, false);
    QuietKeepsOrder(k, AckCore(k, MAX_TAG, false));
  }

  predicate Moves(ev: Event) {
    ev.Route? || ev.Emit? || ev.Reach? || ev.Send? || ev.Clean? || ev.Drain?
  }

  /** Nothing that has to do with confirmations changes. */
  ghost predicate SameTraffic(k: Core, d: Core) {
    d.transit == k.transit && d.emitted == k.emitted && d.sent == k.sent && d.p.fates == k.p.fates
  }

  lemma ReceiveIsQuiet(c: Chan, pid: Pid)
    requires Enabled(c, Receive(pid))
    ensures SameTraffic(c.core, ApplyReceive(c, pid).core)
  {
  }

  lemma OtherStepsAreQuiet(c: Chan, ev: Event)
    requires Enabled(c, ev) && !Moves(ev)
    ensures SameTraffic(c.core, Apply(c, ev).core)
  {
    hide CleanCore;
    hide AckCore;
    hide SendCore;
    hide ReachCore;
    hide ApplyReceive;
    if ev.Receive? {
      ReceiveIsQuiet(c, ev.pid);
    }
  }

  lemma OtherStepsKeepOrder(c: Chan, ev: Event)
    requires OrderInv(c.core) && OwnAck(c.core) && Enabled(c, ev) && !Moves(ev)
    ensures OrderInv(Apply(c, ev).core) && OwnAck(Apply(c, ev).core)
  {
    hide Apply;
    OtherStepsAreQuiet(c, ev);
    QuietKeepsOrder(c.core, Apply(c, ev).core);
  }

  lemma EmitStepKeepsOrder(c: Chan, ev: Event)
    requires OrderInv(c.core) && OwnAck(c.core) && Enabled(c, ev) && ev.Emit? && InOrder(c, ev)
    ensures OrderInv(Apply(c, ev).core) && OwnAck(Apply(c, ev).core)
  {
    var k := c.core;
    EmitKeepsOrder(k.p.fates, k.transit, k.emitted, k.sent, ev.tag, ev.ack);
  }

  lemma StepKeepsOrder(c: Chan, ev: Event)
    requires ChanInv(c) && OrderInv(c.core) && OwnAck(c.core)
    requires Enabled(c, ev) && InOrder(c, ev)
    ensures OrderInv(Apply(c, ev).core) && OwnAck(Apply(c, ev).core)
  {
    hide OrderInv;
    hide OwnAck;
    hide CoreInv;
    hide Apply;
    hide ReachCore;
    hide SendCore;
    hide CleanCore;
    hide TakeCore;
    hide AckCore;
    var k := c.core;
    StepCore(c, ev);
    if ev.Route? {
      RouteKeepsOrder(k);
    } else if ev.Emit? {
      EmitStepKeepsOrder(c, ev);
    } else if ev.Reach? {
      ReachKeepsOrder(k, ev.pid);
    } else if ev.Send? {
      SendKeepsOrder(k, ev.pid, ev.ok);
    } else if ev.Clean? {
      CleanKeepsOrder(k, ev.pid);
    } else if ev.Drain? {
      DrainKeepsOrder(k);
    } else {
      OtherStepsKeepOrder(c, ev);
    }
  }

  lemma {:induction false} OrderedRunKeepsOrder(threshold: nat, evs: seq<Event>)
    requires OrderedRun(threshold, evs)
    ensures ValidRun(Init(threshold), evs)
    ensures OrderInv(Run(Init(threshold), evs).core) && OwnAck(Run(Init(threshold), evs).core)
  {
    if evs == [] {
    } else {
      var pre := evs[..|evs|-1];
      OrderedRunKeepsOrder(threshold, pre);
      RunKeepsInv(threshold, pre);
      StepKeepsOrder(Run(Init(threshold), pre), evs[|evs|-1]);
    }
  }

  /** With confirmations once per tag and in order, a nil return means the broker acknowledged
      this very publish. */
  lemma {:induction false} NilMeansOwnTagAcknowledged(threshold: nat, evs: seq<Event>, pid: Pid)
    requires OrderedRun(threshold, evs)
    requires pid in Run(Init(threshold), evs).core.pubs
    requires Run(Init(threshold), evs).core.pubs[pid].Returned?
    requires Run(Init(threshold), evs).core.pubs[pid].outcome == NilError
    ensures var k := Run(Init(threshold), evs).core;
            && k.pubs[pid].tag.Some?
            && k.pubs[pid].tag.value in k.p.fates
            && k.p.fates[k.pubs[pid].tag.value] == Confirmed(true, k.pubs[pid].tag.value)
  {
    OrderedRunKeepsOrder(threshold, evs);
    NilMeansAcknowledged(threshold, evs, pid);
    var k := Run(Init(threshold), evs).core;
    assert OwnFate(k.pubs[pid].tag.value, k.p.fates[k.pubs[pid].tag.value]);
  }
}
