/** One confirm channel that one publisher at a time uses, as every channel of the pool is. */
module SoloChannel {
  import opened Options
  import opened PendingSpec
  import opened ConfirmChannel
  import opened TimeoutCount
  import opened ConfirmOrder

  /** No publisher but the one using the channel is inside it, and nobody left a record behind; whoever
      was acknowledged was acknowledged for its own tag. */
  ghost predicate SoloInv(c: Chan) {
    && ChanInv(c) && Alone(c.core.pubs) && CountInv(c) && RetireInv(c)
    && c.core.orphans == {} && OwnTagInv(c.core)
  }

  /** The one inside has the last tag, and no Ack settled another tag than its own. */
  ghost predicate OwnTagInv(k: Core) {
    && (forall q :: q in k.pubs ==> LastIfInside(k.pubs[q], k.lastSeq))
    && (forall t :: t in k.p.fates ==> OwnFate(t, k.p.fates[t]))
  }

  ghost predicate LastIfInside(pc: Pc, lastSeq: nat) {
    !pc.Returned? && TagOf(pc).Some? ==> TagOf(pc).value == lastSeq
  }

  /** Then at most one record waits, and none once every publisher has returned. */
  lemma SoloMeansAtMostOne(k: Core)
    requires CoreInv(k) && Alone(k.pubs) && k.orphans == {}
    ensures |k.p.list| <= 1
    ensures (forall q :: q in k.pubs ==> k.pubs[q].Returned?) ==> k.p.list == []
  {
    forall t | t in k.p.list
      ensures t in k.owner && k.owner[t] in k.pubs && !k.pubs[k.owner[t]].Returned?
      ensures TagOf(k.pubs[k.owner[t]]) == Some(t)
    {
      assert t in k.owner;
      assert PlaceHonest(k.pubs[k.owner[t]], k.p, k.sent, k.orphans);
    }
    AllEqualMeansOne(k.p.list);
  }

  lemma AllEqualMeansOne(s: seq<nat>)
    requires Sorted(s) && forall a, b :: a in s && b in s ==> a == b
    ensures |s| <= 1
    ensures (forall a :: a !in s) ==> s == []
  {
    assert forall i :: 0 <= i < |s| ==> s[i] in s;
    if s != [] {
      assert s[0] in s;
    }
  }

  /** The bounded scan never misses when a single record waits. */
  lemma SoloScanHits(p: Pending, s: nat)
    requires Inv(p) && |p.list| <= 1 && s in p.list
    ensures var (q, hit) := RemoveTailNearby(p, s, TAIL_SCAN_LIMIT);
            hit && s !in q.list
  {
    assert p.list[0] == s;
    NearbyFindsIff(p, 0, TAIL_SCAN_LIMIT);
  }

  lemma SoloLeavesNoOrphan(k: Core, pid: Pid)
    requires CoreInv(k) && StagesInOrder(k.pubs) && Alone(k.pubs) && k.orphans == {}
    requires pid in k.pubs && k.pubs[pid].Cleaning?
    ensures CleanCore(k, pid).orphans == {}
  {
    var Cleaning(s, cause, stage) := k.pubs[pid];
    RemovalEffect(k, s, cause, stage);
    SoloMeansAtMostOne(k);
    if stage == 1 && s in k.p.list {
      SoloScanHits(k.p, s);
    }
  }

  /** Whatever waits belongs to the one inside, so it is the last tag, and no published tag is above it. */
  lemma TakeKeepsOwnFates(k: Core)
    requires CoreInv(k) && k.orphans == {} && OwnTagInv(k) && k.transit != []
    ensures forall t :: t in TakeCore(k).p.fates ==> OwnFate(t, TakeCore(k).p.fates[t])
  {
    var m := k.transit[0];
    AckLEEffect(k.p, m.deliveryTag, m.ack);
    forall t | t in k.p.list && t <= m.deliveryTag ensures t == m.deliveryTag {
      assert t in k.owner;
      assert PlaceHonest(k.pubs[k.owner[t]], k.p, k.sent, k.orphans);
      assert LastIfInside(k.pubs[k.owner[t]], k.lastSeq);
      assert m.deliveryTag in k.owner;
    }
  }

  /** Between the two nothing was acknowledged. */
  ghost predicate AcksNothing(p: Pending, q: Pending) {
    forall t :: t in q.fates ==> (t in p.fates && q.fates[t] == p.fates[t]) || q.fates[t].Withdrawn? || !q.fates[t].ack
  }

  lemma QuietKeepsOwnFates(k: Core, d: Core)
    requires OwnTagInv(k) && AcksNothing(k.p, d.p)
    ensures forall t :: t in d.p.fates ==> OwnFate(t, d.p.fates[t])
  {
    forall t | t in d.p.fates ensures OwnFate(t, d.p.fates[t]) {
      assert t in k.p.fates ==> OwnFate(t, k.p.fates[t]);
    }
  }

  lemma StepKeepsOwnFates(c: Chan, ev: Event)
    requires ChanInv(c) && c.core.orphans == {} && OwnTagInv(c.core) && Enabled(c, ev)
    ensures forall t :: t in Apply(c, ev).core.p.fates ==> OwnFate(t, Apply(c, ev).core.p.fates[t])
  {
    hide Apply;
    hide TakeCore;
    hide CleanCore;
    hide OwnTagInv;
    StepCore(c, ev);
    if ev.Route? {
      TakeKeepsOwnFates(c.core);
    } else {
      FatesMoveQuietly(c, ev);
      QuietKeepsOwnFates(c.core, Apply(c, ev).core);
    }
  }

  lemma FatesMoveQuietly(c: Chan, ev: Event)
    requires ChanInv(c) && Enabled(c, ev) && !ev.Route?
    ensures AcksNothing(c.core.p, Apply(c, ev).core.p)
  {
    hide Apply;
    hide CleanCore;
    hide SendCore;
    hide ReachCore;
    StepCore(c, ev);
    if ev.Clean? {
      CleanWithdraws(c.core, ev.pid);
    } else if ev.Drain? {
      AckLEEffect(c.core.p, MAX_TAG, false);
    } else {
      FatesStay(c, ev);
    }
  }

  lemma CleanWithdraws(k: Core, pid: Pid)
    requires CoreInv(k) && StagesInOrder(k.pubs) && pid in k.pubs && k.pubs[pid].Cleaning?
    ensures OnlyWithdraws(k.p, CleanCore(k, pid).p)
  {
    RemovalEffect(k, k.pubs[pid].seq_, k.pubs[pid].cause, k.pubs[pid].stage);
  }

  lemma FatesStay(c: Chan, ev: Event)
    requires Enabled(c, ev) && !ev.Route? && !ev.Clean? && !ev.Drain?
    ensures Apply(c, ev).core.p.fates == c.core.p.fates
  {
    hide TakeCore;
    hide CleanCore;
    hide AckCore;
    hide ApplyReceive;
    if ev.Receive? {
      ReceiveIsQuiet(c, ev.pid);
    }
  }

  /** The one that appends is alone inside, and everybody else keeps its place. */
  lemma StepKeepsLast(c: Chan, ev: Event)
    requires Alone(c.core.pubs) && OwnTagInv(c.core) && Enabled(c, ev)
    ensures forall q :: q in Apply(c, ev).core.pubs ==>
              LastIfInside(Apply(c, ev).core.pubs[q], Apply(c, ev).core.lastSeq)
  {
    StepMoves(c, ev);
    var d := Apply(c, ev).core;
    if ev.Append? {
      forall q | q in d.pubs ensures LastIfInside(d.pubs[q], d.lastSeq) {
        assert q != ev.pid ==> c.core.pubs[q].Returned?;
      }
    } else {
      LastStays(c, ev);
      forall q | q in d.pubs ensures LastIfInside(d.pubs[q], d.lastSeq) {
        assert q in c.core.pubs ==> LastIfInside(c.core.pubs[q], c.core.lastSeq);
      }
    }
  }

  /** The publisher that moves has not returned, and keeps its tag. */
  ghost predicate KeepsTag(k: Core, d: Core, pid: Pid) {
    pid in d.pubs ==>
      if pid in k.pubs then !k.pubs[pid].Returned? && TagOf(d.pubs[pid]) == TagOf(k.pubs[pid])
      else TagOf(d.pubs[pid]) == None
  }

  lemma CleanKeepsTag(k: Core, pid: Pid)
    requires pid in k.pubs && k.pubs[pid].Cleaning?
    ensures KeepsTag(k, CleanCore(k, pid), pid) && CleanCore(k, pid).lastSeq == k.lastSeq
  {
    hide Removal;
  }

  lemma ReceiveKeepsTag(c: Chan, pid: Pid)
    requires Enabled(c, Receive(pid))
    ensures ApplyReceive(c, pid).core.orphans == c.core.orphans
    ensures KeepsTag(c.core, ApplyReceive(c, pid).core, pid) && ApplyReceive(c, pid).core.lastSeq == c.core.lastSeq
  {
  }

  lemma LastStays(c: Chan, ev: Event)
    requires Enabled(c, ev) && !ev.Append?
    ensures Apply(c, ev).core.lastSeq == c.core.lastSeq
    ensures ByPublisher(ev) ==> KeepsTag(c.core, Apply(c, ev).core, ev.pid)
  {
    hide CleanCore;
    hide ApplyReceive;
    hide AckLE;
    if ev.Clean? {
      CleanKeepsTag(c.core, ev.pid);
      StepCore(c, ev);
    } else if ev.Receive? {
      ReceiveKeepsTag(c, ev.pid);
    }
  }

  lemma StepKeepsOrphans(c: Chan, ev: Event)
    requires Enabled(c, ev) && !ev.Clean?
    ensures Apply(c, ev).core.orphans == c.core.orphans
  {
    hide AckLE;
    hide Add;
    hide ApplyReceive;
    hide CleanCore;
    if ev.Receive? {
      ReceiveKeepsTag(c, ev.pid);
    }
  }

  lemma {:induction false} StepKeepsSolo(c: Chan, ev: Event)
    requires SoloInv(c) && Enabled(c, ev) && OneAtATime(c, ev)
    ensures SoloInv(Apply(c, ev))
  {
    StepKeepsInv(c, ev);
    StepKeepsAlone(c, ev);
    StepKeepsCount(c, ev);
    StepKeepsRetire(c, ev);
    StepKeepsOwnFates(c, ev);
    StepKeepsLast(c, ev);
    if ev.Clean? {
      SoloLeavesNoOrphan(c.core, ev.pid);
      CleanFrame(c, ev.pid);
    } else {
      StepKeepsOrphans(c, ev);
    }
  }

  lemma SoloNilMeansOwnTag(c: Chan, pid: Pid)
    requires SoloInv(c) && pid in c.core.pubs && c.core.pubs[pid].Returned? && c.core.pubs[pid].outcome == NilError
    ensures c.core.pubs[pid].tag.Some?
    ensures var s := c.core.pubs[pid].tag.value;
            s in c.core.sent && s in c.core.p.fates && c.core.p.fates[s] == Confirmed(true, s)
  {
    var k := c.core;
    assert PlaceHonest(k.pubs[pid], k.p, k.sent, k.orphans);
    assert OwnFate(k.pubs[pid].tag.value, k.p.fates[k.pubs[pid].tag.value]);
  }
}
