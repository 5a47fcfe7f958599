/** The pool that hands confirm channels to publishers: taking, returning, refreshing and closing,
    interleaved with every step of every channel. */
module ChannelPool {
  import opened Options
  import opened Counting
  import opened PendingSpec
  import opened Channel = ConfirmChannel
  import opened SoloChannel
  import opened PublishOutcome
  import opened TimeoutCount

  type Cid = nat

  /** Where one call of `Publish` stands; `waited` once it has found the pool full. */
  datatype Call = Getting | Holding(cid: Cid) | Returning(cid: Cid, waited: bool) | Finished

  datatype Refill = Idle | Emptying(thenFill: bool) | Creating | Filling

  /** `place` only records history: where each channel ever created is now. */
  datatype Place = Queued | Installing | HeldBy(pid: Pid) | Dropped

  /** Who has which channel: the buffered pool, the refresh in progress, and the calls. */
  datatype Own = Own(queue: seq<Cid>, installing: seq<Cid>, calls: map<Pid, Call>, place: map<Cid, Place>)

  datatype Pool = Pool(
    chans: map<Cid, Chan>,
    own: Own,
    refill: Refill,
    closed: bool,
    size: nat,
    threshold: nat)

  function Empty(size: nat, threshold: nat): Pool {
    Pool(map[], Own([], [], map[], map[]), Idle, false, size, threshold)
  }

  datatype PoolEvent =
    | Begin(pid: Pid)
    | Take(pid: Pid)
    | GiveUp(pid: Pid)
    | Within(cid: Cid, ev: Event)
    | PutBack(pid: Pid)
    | TryPush(pid: Pid)
    | Discard(pid: Pid)
    | Refresh
    | CloseManager
    | DrainForClose
    | DrainOne
    | DrainDone
    | Create(cid: Cid)
    | CreateFail
    | CreateDone
    | FillOne
    | FillDone

  function CloseOne(chans: map<Cid, Chan>, cid: Cid): map<Cid, Chan>
    requires cid in chans
  {
    chans[cid := Close(chans[cid])]
  }

  function CloseAll(chans: map<Cid, Chan>, cids: seq<Cid>): (r: map<Cid, Chan>)
    requires forall i :: 0 <= i < |cids| ==> cids[i] in chans
    ensures r.Keys == chans.Keys
    decreases |cids|
  {
    if cids == [] then chans else CloseAll(CloseOne(chans, cids[0]), cids[1..])
  }

  function SetCall(o: Own, pid: Pid, call: Call): Own {
    o.(calls := o.calls[pid := call])
  }

  /** A call gets the head of the queue. */
  function HandOver(o: Own, pid: Pid): Own
    requires o.queue != []
  {
    Own(o.queue[1..], o.installing, o.calls[pid := Holding(o.queue[0])], o.place[o.queue[0] := HeldBy(pid)])
  }

  /** The head of the queue is let go of. */
  function DropHead(o: Own): Own
    requires o.queue != []
  {
    o.(queue := o.queue[1..], place := o.place[o.queue[0] := Dropped])
  }

  /** A call ends by letting go of its channel. */
  function LetGo(o: Own, pid: Pid, cid: Cid): Own {
    o.(calls := o.calls[pid := Finished], place := o.place[cid := Dropped])
  }

  /** A call ends by putting its channel back. */
  function GiveBack(o: Own, pid: Pid, cid: Cid): Own {
    o.(queue := o.queue + [cid], calls := o.calls[pid := Finished], place := o.place[cid := Queued])
  }

  function AddNew(o: Own, cid: Cid): Own {
    o.(installing := o.installing + [cid], place := o.place[cid := Installing])
  }

  function DropNew(o: Own): Own {
    o.(installing := [], place := map c | c in o.place :: if o.place[c] == Installing then Dropped else o.place[c])
  }

  function InstallOne(o: Own): Own
    requires o.installing != []
  {
    var cid := o.installing[0];
    Own(o.queue + [cid], o.installing[1..], o.calls, o.place[cid := Queued])
  }

  predicate IsHolding(s: Pool, pid: Pid) {
    pid in s.own.calls && s.own.calls[pid].Holding? && s.own.calls[pid].cid in s.chans
  }

  predicate IsReturning(s: Pool, pid: Pid) {
    pid in s.own.calls && s.own.calls[pid].Returning? && s.own.calls[pid].cid in s.chans
  }

  predicate CanStep(s: Pool, pe: PoolEvent) {
    var o := s.own;
    match pe
    case Begin(pid) => pid !in o.calls
    case Take(pid) => pid in o.calls && o.calls[pid].Getting? && o.queue != [] && o.queue[0] in s.chans
    case GiveUp(pid) => pid in o.calls && o.calls[pid].Getting?
    case Within(cid, ev) =>
      && cid in s.chans && Enabled(s.chans[cid], ev)
      && (ev.Enter? ==> ev.pid in o.calls && o.calls[ev.pid] == Holding(cid))
    case PutBack(pid) =>
      IsHolding(s, pid) &&
      pid in s.chans[o.calls[pid].cid].core.pubs && s.chans[o.calls[pid].cid].core.pubs[pid].Returned?
    case TryPush(pid) => IsReturning(s, pid) && (o.calls[pid].waited ==> |o.queue| < s.size)
    case Discard(pid) => IsReturning(s, pid) && o.calls[pid].waited
    case Refresh => s.refill == Idle
    case CloseManager => true
    case DrainForClose => s.refill == Idle && s.closed
    case DrainOne => s.refill.Emptying? && o.queue != [] && o.queue[0] in s.chans
    case DrainDone => s.refill.Emptying? && o.queue == []
    case Create(cid) => s.refill == Creating && cid !in s.chans && |o.installing| < s.size
    case CreateFail => s.refill == Creating && forall i :: 0 <= i < |o.installing| ==> o.installing[i] in s.chans
    case CreateDone => s.refill == Creating && |o.installing| == s.size
    case FillOne => s.refill == Filling && o.installing != [] && |o.queue| < s.size
    case FillDone => s.refill == Filling && o.installing == []
  }

  function Step(s: Pool, pe: PoolEvent): Pool
    requires CanStep(s, pe)
  {
    var o := s.own;
    match pe
    case Begin(pid) => s.(own := SetCall(o, pid, if s.closed then Finished else Getting))
    case Take(pid) =>
      if Usable(s.chans[o.queue[0]]) then s.(own := HandOver(o, pid))
      else s.(own := DropHead(o), chans := CloseOne(s.chans, o.queue[0]))
    case GiveUp(pid) => s.(own := SetCall(o, pid, Finished))
    case Within(cid, ev) => s.(chans := s.chans[cid := Apply(s.chans[cid], ev)])
    case PutBack(pid) =>
      var cid := o.calls[pid].cid;
      if s.closed || !Usable(s.chans[cid]) then s.(own := LetGo(o, pid, cid), chans := CloseOne(s.chans, cid))
      else s.(own := SetCall(o, pid, Returning(cid, false)))
    case TryPush(pid) =>
      var cid := o.calls[pid].cid;
      if |o.queue| < s.size then s.(own := GiveBack(o, pid, cid))
      else s.(own := SetCall(o, pid, Returning(cid, true)))
    case Discard(pid) =>
      var cid := o.calls[pid].cid;
      s.(own := LetGo(o, pid, cid), chans := CloseOne(s.chans, cid))
    case Refresh => s.(refill := Emptying(true))
    case CloseManager => s.(closed := true)
    case DrainForClose => s.(refill := Emptying(false))
    case DrainOne => s.(own := DropHead(o), chans := CloseOne(s.chans, o.queue[0]))
    case DrainDone => s.(refill := if s.refill.thenFill then Creating else Idle)
    case Create(cid) => s.(own := AddNew(o, cid), chans := s.chans[cid := Init(s.threshold)])
    case CreateFail => s.(own := DropNew(o), chans := CloseAll(s.chans, o.installing), refill := Idle)
    case CreateDone => s.(refill := Filling)
    case FillOne => s.(own := InstallOne(o))
    case FillDone => s.(refill := Idle)
  }

  ghost function RunPool(s: Pool, pes: seq<PoolEvent>): Pool {
    if pes == [] then s
    else
      var t := RunPool(s, pes[..|pes|-1]);
      if CanStep(t, pes[|pes|-1]) then Step(t, pes[|pes|-1]) else t
  }

  ghost predicate ValidPoolRun(s: Pool, pes: seq<PoolEvent>) {
    pes == [] || (ValidPoolRun(s, pes[..|pes|-1]) && CanStep(RunPool(s, pes[..|pes|-1]), pes[|pes|-1]))
  }

  // ----- Ownership -----

  /** The sequence holds exactly the channels whose place is `p`, each once. */
  ghost predicate Holds(s: seq<Cid>, place: map<Cid, Place>, p: Place) {
    && Distinct(s)
    && (forall i :: 0 <= i < |s| ==> s[i] in place && place[s[i]] == p)
    && (forall c :: c in place && place[c] == p ==> c in s)
  }

  ghost predicate Carries(call: Call, cid: Cid) {
    (call.Holding? || call.Returning?) && call.cid == cid
  }

  /** A call carries the channels placed with it, and no others. */
  ghost predicate CallsMatch(calls: map<Pid, Call>, place: map<Cid, Place>) {
    && (forall pid :: pid in calls && (calls[pid].Holding? || calls[pid].Returning?) ==>
          calls[pid].cid in place && place[calls[pid].cid] == HeldBy(pid))
    && (forall c :: c in place && place[c].HeldBy? ==>
          place[c].pid in calls && Carries(calls[place[c].pid], c))
  }

  ghost predicate OwnInv(o: Own) {
    Holds(o.queue, o.place, Queued) && Holds(o.installing, o.place, Installing) && CallsMatch(o.calls, o.place)
  }

  /** The publishers inside a channel. */
  ghost function Inside(c: Chan): set<Pid> {
    set q | q in c.core.pubs && !c.core.pubs[q].Returned?
  }

  /** Only the call holding a channel is inside it; a dropped channel is closed. */
  ghost predicate ChanMatch(inside: set<Pid>, closed: bool, p: Place, calls: map<Pid, Call>, cid: Cid) {
    && (p == Dropped ==> closed)
    && (forall q :: q in inside ==> p == HeldBy(q) && q in calls && calls[q] == Holding(cid))
  }

  ghost predicate Matches(s: Pool, cid: Cid)
    requires cid in s.chans && cid in s.own.place
  {
    ChanMatch(Inside(s.chans[cid]), s.chans[cid].closed, s.own.place[cid], s.own.calls, cid)
  }

  ghost predicate AllSolo(chans: map<Cid, Chan>) {
    forall c :: c in chans ==> SoloInv(chans[c])
  }

  ghost predicate PoolInv(s: Pool) {
    && s.own.place.Keys == s.chans.Keys
    && OwnInv(s.own)
    && (forall c :: c in s.chans ==> Matches(s, c))
    && AllSolo(s.chans)
    && |s.own.queue| <= s.size
    && (s.own.installing != [] ==> s.refill == Creating || s.refill == Filling)
  }

  // ----- Ownership steps -----

  lemma PopKeepsHolds(s: seq<Cid>, place: map<Cid, Place>, p: Place, other: Place)
    requires Holds(s, place, p) && s != [] && other != p
    ensures Holds(s[1..], place[s[0] := other], p)
  {
    forall c | c in place && place[c] == p && c != s[0] ensures c in s[1..] {
      var i :| 0 <= i < |s| && s[i] == c;
      assert s[1..][i-1] == c;
    }
  }

  lemma PushKeepsHolds(s: seq<Cid>, place: map<Cid, Place>, p: Place, c: Cid)
    requires Holds(s, place, p) && (c in place ==> place[c] != p)
    ensures Holds(s + [c], place[c := p], p)
  {
    assert forall d :: d in s ==> d in s + [c];
    assert (s + [c])[|s|] == c;
  }

  lemma ElsewhereKeepsHolds(s: seq<Cid>, place: map<Cid, Place>, p: Place, c: Cid, other: Place)
    requires Holds(s, place, p) && other != p && (c in place ==> place[c] != p)
    ensures Holds(s, place[c := other], p)
  {
  }

  lemma CallsKeepMatch(calls: map<Pid, Call>, place: map<Cid, Place>, c: Cid, p: Place)
    requires CallsMatch(calls, place) && (c in place ==> !place[c].HeldBy?) && !p.HeldBy?
    ensures CallsMatch(calls, place[c := p])
  {
  }

  /** A call that carries nothing changes to one that carries nothing. */
  lemma IdleCallKeepsOwn(o: Own, pid: Pid, call: Call)
    requires OwnInv(o) && (pid in o.calls ==> o.calls[pid].Getting?) && (call.Getting? || call.Finished?)
    ensures OwnInv(SetCall(o, pid, call))
  {
  }

  lemma CarryingCallKeepsOwn(o: Own, pid: Pid, call: Call, cid: Cid)
    requires OwnInv(o) && pid in o.calls && Carries(o.calls[pid], cid) && Carries(call, cid)
    ensures OwnInv(SetCall(o, pid, call))
  {
  }

  lemma HandOverKeepsOwn(o: Own, pid: Pid)
    requires OwnInv(o) && o.queue != [] && pid in o.calls && o.calls[pid].Getting?
    ensures OwnInv(HandOver(o, pid))
  {
    PopKeepsHolds(o.queue, o.place, Queued, HeldBy(pid));
    ElsewhereKeepsHolds(o.installing, o.place, Installing, o.queue[0], HeldBy(pid));
  }

  lemma DropHeadKeepsOwn(o: Own)
    requires OwnInv(o) && o.queue != []
    ensures OwnInv(DropHead(o))
  {
    PopKeepsHolds(o.queue, o.place, Queued, Dropped);
    ElsewhereKeepsHolds(o.installing, o.place, Installing, o.queue[0], Dropped);
    CallsKeepMatch(o.calls, o.place, o.queue[0], Dropped);
  }

  lemma EndKeepsCalls(calls: map<Pid, Call>, place: map<Cid, Place>, pid: Pid, cid: Cid, p: Place)
    requires CallsMatch(calls, place) && pid in calls && Carries(calls[pid], cid) && !p.HeldBy?
    ensures CallsMatch(calls[pid := Finished], place[cid := p])
  {
  }

  lemma LetGoKeepsOwn(o: Own, pid: Pid, cid: Cid)
    requires OwnInv(o) && pid in o.calls && Carries(o.calls[pid], cid)
    ensures OwnInv(LetGo(o, pid, cid))
  {
    ElsewhereKeepsHolds(o.queue, o.place, Queued, cid, Dropped);
    ElsewhereKeepsHolds(o.installing, o.place, Installing, cid, Dropped);
    EndKeepsCalls(o.calls, o.place, pid, cid, Dropped);
  }

  lemma GiveBackKeepsOwn(o: Own, pid: Pid, cid: Cid)
    requires OwnInv(o) && pid in o.calls && Carries(o.calls[pid], cid)
    ensures OwnInv(GiveBack(o, pid, cid))
  {
    PushKeepsHolds(o.queue, o.place, Queued, cid);
    ElsewhereKeepsHolds(o.installing, o.place, Installing, cid, Queued);
    EndKeepsCalls(o.calls, o.place, pid, cid, Queued);
  }

  lemma AddNewKeepsOwn(o: Own, cid: Cid)
    requires OwnInv(o) && cid !in o.place
    ensures OwnInv(AddNew(o, cid))
  {
    ElsewhereKeepsHolds(o.queue, o.place, Queued, cid, Installing);
    PushKeepsHolds(o.installing, o.place, Installing, cid);
    CallsKeepMatch(o.calls, o.place, cid, Installing);
  }

  lemma DropNewKeepsOwn(o: Own)
    requires OwnInv(o)
    ensures OwnInv(DropNew(o))
    ensures var q := DropNew(o);
            q.place.Keys == o.place.Keys && q.queue == o.queue && q.calls == o.calls && q.installing == []
  {
  }

  lemma InstallKeepsOwn(o: Own)
    requires OwnInv(o) && o.installing != []
    ensures OwnInv(InstallOne(o))
  {
    PushKeepsHolds(o.queue, o.place, Queued, o.installing[0]);
    PopKeepsHolds(o.installing, o.place, Installing, Queued);
    CallsKeepMatch(o.calls, o.place, o.installing[0], Queued);
  }

  // ----- Every step of the pool keeps it -----

  /** Channels that a step does not touch still match, if the call that moved held none of them. */
  lemma OthersStillMatch(s: Pool, t: Pool, pid: Pid, touched: Cid)
    requires PoolInv(s) && s.chans.Keys <= t.chans.Keys && t.own.place.Keys == t.chans.Keys
    requires forall c :: c in s.chans && c != touched ==> t.chans[c] == s.chans[c] && t.own.place[c] == s.own.place[c]
    requires forall q :: q in s.own.calls && q != pid ==> q in t.own.calls && t.own.calls[q] == s.own.calls[q]
    requires pid in s.own.calls && s.own.calls[pid].Holding? ==>
               pid in t.own.calls && (s.own.calls[pid].cid == touched || t.own.calls[pid] == s.own.calls[pid])
    ensures forall c :: c in s.chans && c != touched ==> Matches(t, c)
  {
    forall c | c in s.chans && c != touched ensures Matches(t, c) {
      assert Matches(s, c);
    }
  }

  lemma HeadPlaced(o: Own)
    requires OwnInv(o)
    ensures o.queue != [] ==> o.queue[0] in o.place && o.place[o.queue[0]] == Queued
    ensures o.installing != [] ==> o.installing[0] in o.place && o.place[o.installing[0]] == Installing
  {
  }

  lemma CarriedPlaced(o: Own, pid: Pid, cid: Cid)
    requires OwnInv(o) && pid in o.calls && Carries(o.calls[pid], cid)
    ensures cid in o.place && o.place[cid] == HeldBy(pid)
  {
  }

  /** Nobody is inside a channel that no call holds. */
  lemma NobodyInside(s: Pool, cid: Cid)
    requires PoolInv(s) && cid in s.chans && !s.own.place[cid].HeldBy?
    ensures Inside(s.chans[cid]) == {}
  {
    assert Matches(s, cid);
  }

  /** Nor inside a channel whose holder has returned from it. */
  lemma HolderLeft(s: Pool, pid: Pid, cid: Cid)
    requires PoolInv(s) && cid in s.chans && pid in s.own.calls && Carries(s.own.calls[pid], cid)
    requires s.own.calls[pid].Returning? || pid !in Inside(s.chans[cid])
    ensures Inside(s.chans[cid]) == {}
  {
    CarriedPlaced(s.own, pid, cid);
    assert Matches(s, cid);
  }

  lemma ClosedKeepsSolo(chans: map<Cid, Chan>, cid: Cid)
    requires AllSolo(chans) && cid in chans
    ensures AllSolo(CloseOne(chans, cid))
    ensures Inside(CloseOne(chans, cid)[cid]) == Inside(chans[cid]) && CloseOne(chans, cid)[cid].closed
  {
    assert SoloInv(chans[cid]);
  }

  lemma {:induction false} CloseAllEffect(chans: map<Cid, Chan>, cids: seq<Cid>)
    requires AllSolo(chans) && forall i :: 0 <= i < |cids| ==> cids[i] in chans
    ensures AllSolo(CloseAll(chans, cids))
    ensures forall c :: c in chans ==>
              && Inside(CloseAll(chans, cids)[c]) == Inside(chans[c])
              && (c in cids || chans[c].closed ==> CloseAll(chans, cids)[c].closed)
    decreases |cids|
  {
    hide SoloInv;
    hide Inside;
    if cids == [] {
    } else {
      ClosedKeepsSolo(chans, cids[0]);
      CloseAllEffect(CloseOne(chans, cids[0]), cids[1..]);
    }
  }

  lemma TakeKeepsInv(s: Pool, pid: Pid)
    requires PoolInv(s) && CanStep(s, Take(pid))
    ensures PoolInv(Step(s, Take(pid)))
  {
    hide OwnInv;
    hide SoloInv;
    hide Inside;
    hide Holds;
    hide Init;
    var cid := s.own.queue[0];
    var t := Step(s, Take(pid));
    HeadPlaced(s.own);
    NobodyInside(s, cid);
    if Usable(s.chans[cid]) {
      HandOverKeepsOwn(s.own, pid);
    } else {
      DropHeadKeepsOwn(s.own);
      ClosedKeepsSolo(s.chans, cid);
    }
    OthersStillMatch(s, t, pid, cid);
    assert Matches(t, cid);
  }

  lemma DrainOneKeepsInv(s: Pool)
    requires PoolInv(s) && CanStep(s, DrainOne)
    ensures PoolInv(Step(s, DrainOne))
  {
    hide OwnInv;
    hide SoloInv;
    hide Inside;
    var cid := s.own.queue[0];
    var t := Step(s, DrainOne);
    HeadPlaced(s.own);
    NobodyInside(s, cid);
    DropHeadKeepsOwn(s.own);
    ClosedKeepsSolo(s.chans, cid);
    OthersStillMatch(s, t, 0, cid);
    assert Matches(t, cid);
  }

  /** A call that is over, or gives up waiting, lets go of its channel. */
  lemma LetGoKeepsInv(s: Pool, pid: Pid, cid: Cid)
    requires PoolInv(s) && cid in s.chans && pid in s.own.calls && Carries(s.own.calls[pid], cid)
    requires s.own.calls[pid].Returning? || pid !in Inside(s.chans[cid])
    ensures PoolInv(s.(own := LetGo(s.own, pid, cid), chans := CloseOne(s.chans, cid)))
  {
    hide OwnInv;
    hide SoloInv;
    hide Inside;
    var t := s.(own := LetGo(s.own, pid, cid), chans := CloseOne(s.chans, cid));
    HolderLeft(s, pid, cid);
    LetGoKeepsOwn(s.own, pid, cid);
    ClosedKeepsSolo(s.chans, cid);
    OthersStillMatch(s, t, pid, cid);
    assert Matches(t, cid);
  }

  lemma CallMovesKeepsInv(s: Pool, pid: Pid, call: Call)
    requires PoolInv(s) && OwnInv(SetCall(s.own, pid, call))
    requires pid in s.own.calls && s.own.calls[pid].Holding? ==>
               call.Returning? && call.cid == s.own.calls[pid].cid && call.cid in s.chans
               && pid !in Inside(s.chans[call.cid])
    ensures PoolInv(s.(own := SetCall(s.own, pid, call)))
  {
    hide OwnInv;
    hide SoloInv;
    var t := s.(own := SetCall(s.own, pid, call));
    forall c | c in t.chans ensures Matches(t, c) {
      assert Matches(s, c);
    }
  }

  lemma PutBackKeepsInv(s: Pool, pid: Pid)
    requires PoolInv(s) && CanStep(s, PutBack(pid))
    ensures PoolInv(Step(s, PutBack(pid)))
  {
    hide OwnInv;
    hide SoloInv;
    var cid := s.own.calls[pid].cid;
    if s.closed || !Usable(s.chans[cid]) {
      LetGoKeepsInv(s, pid, cid);
    } else {
      CarryingCallKeepsOwn(s.own, pid, Returning(cid, false), cid);
      CallMovesKeepsInv(s, pid, Returning(cid, false));
    }
  }

  lemma TryPushKeepsInv(s: Pool, pid: Pid)
    requires PoolInv(s) && CanStep(s, TryPush(pid))
    ensures PoolInv(Step(s, TryPush(pid)))
  {
    hide OwnInv;
    hide SoloInv;
    hide Inside;
    var cid := s.own.calls[pid].cid;
    var t := Step(s, TryPush(pid));
    if |s.own.queue| < s.size {
      HolderLeft(s, pid, cid);
      GiveBackKeepsOwn(s.own, pid, cid);
      OthersStillMatch(s, t, pid, cid);
      assert Matches(t, cid);
    } else {
      CarryingCallKeepsOwn(s.own, pid, Returning(cid, true), cid);
      CallMovesKeepsInv(s, pid, Returning(cid, true));
    }
  }

  /** Publishers enter a channel only by the step that says so. */
  lemma OnlyEntryGoesInside(c: Chan, ev: Event)
    requires SoloInv(c) && Enabled(c, ev)
    ensures forall q :: q in Inside(Apply(c, ev)) ==> q in Inside(c) || (ev.Enter? && q == ev.pid)
  {
    hide SoloInv;
    StepMoves(c, ev);
    forall q | q in Inside(Apply(c, ev)) ensures q in Inside(c) || (ev.Enter? && q == ev.pid) {
      if !(ev.Enter? && q == ev.pid) {
        ReturnedStays(c, ev, q);
      }
    }
  }

  /** Whoever enters finds the channel empty of publishers. */
  lemma EntersAlone(s: Pool, cid: Cid, pid: Pid)
    requires PoolInv(s) && cid in s.chans && pid in s.own.calls && s.own.calls[pid] == Holding(cid)
    requires pid !in s.chans[cid].core.pubs
    ensures forall q :: q in s.chans[cid].core.pubs ==> s.chans[cid].core.pubs[q].Returned?
  {
    hide OwnInv;
    hide SoloInv;
    assert pid !in Inside(s.chans[cid]);
    HolderLeft(s, pid, cid);
    forall q | q in s.chans[cid].core.pubs ensures s.chans[cid].core.pubs[q].Returned? {
      assert q !in Inside(s.chans[cid]);
    }
  }

  lemma WithinIsSolo(s: Pool, cid: Cid, ev: Event)
    requires PoolInv(s) && CanStep(s, Within(cid, ev))
    ensures SoloInv(Apply(s.chans[cid], ev))
  {
    hide OwnInv;
    hide SoloInv;
    hide Apply;
    if ev.Enter? {
      EntersAlone(s, cid, ev.pid);
    }
    assert SoloInv(s.chans[cid]);
    StepKeepsSolo(s.chans[cid], ev);
  }

  lemma WithinKeepsInv(s: Pool, cid: Cid, ev: Event)
    requires PoolInv(s) && CanStep(s, Within(cid, ev))
    ensures PoolInv(Step(s, Within(cid, ev)))
  {
    hide OwnInv;
    hide SoloInv;
    hide Apply;
    hide Enabled;
    var t := Step(s, Within(cid, ev));
    assert Matches(s, cid) && SoloInv(s.chans[cid]);
    WithinIsSolo(s, cid, ev);
    OnlyEntryGoesInside(s.chans[cid], ev);
    RetiredStays(s.chans[cid], ev);
    if ev.Enter? {
      assert Carries(s.own.calls[ev.pid], cid);
      CarriedPlaced(s.own, ev.pid, cid);
    }
    OthersStillMatch(s, t, 0, cid);
    assert Matches(t, cid);
  }

  lemma ReturnedStays(c: Chan, ev: Event, q: Pid)
    requires Enabled(c, ev) && MovesOnly(c, ev) && q in Apply(c, ev).core.pubs
    requires !(ev.Enter? && q == ev.pid)
    ensures q in c.core.pubs && (c.core.pubs[q].Returned? ==> Apply(c, ev).core.pubs[q].Returned?)
  {
  }

  lemma InitIsSolo(threshold: nat)
    ensures SoloInv(Init(threshold)) && Inside(Init(threshold)) == {}
  {
    InitInv(threshold);
  }

  lemma CreateKeepsInv(s: Pool, cid: Cid)
    requires PoolInv(s) && CanStep(s, Create(cid))
    ensures PoolInv(Step(s, Create(cid)))
  {
    hide OwnInv;
    hide SoloInv;
    hide Inside;
    var t := Step(s, Create(cid));
    AddNewKeepsOwn(s.own, cid);
    InitIsSolo(s.threshold);
    OthersStillMatch(s, t, 0, cid);
    assert Matches(t, cid);
  }

  lemma DropNewFrees(o: Own, c: Cid)
    requires OwnInv(o) && c in o.place
    ensures c in DropNew(o).place
    ensures if o.place[c] == Installing then c in o.installing && DropNew(o).place[c] == Dropped
            else DropNew(o).place[c] == o.place[c]
  {
  }

  lemma CreateFailKeepsInv(s: Pool)
    requires PoolInv(s) && CanStep(s, CreateFail)
    ensures PoolInv(Step(s, CreateFail))
  {
    hide OwnInv;
    hide SoloInv;
    hide AllSolo;
    hide Inside;
    hide DropNew;
    hide CloseAll;
    var t := Step(s, CreateFail);
    DropNewKeepsOwn(s.own);
    CloseAllEffect(s.chans, s.own.installing);
    forall c | c in t.chans ensures Matches(t, c) {
      assert Matches(s, c);
      DropNewFrees(s.own, c);
    }
  }

  lemma FillOneKeepsInv(s: Pool)
    requires PoolInv(s) && CanStep(s, FillOne)
    ensures PoolInv(Step(s, FillOne))
  {
    hide OwnInv;
    hide SoloInv;
    var t := Step(s, FillOne);
    HeadPlaced(s.own);
    InstallKeepsOwn(s.own);
    forall c | c in t.chans ensures Matches(t, c) {
      assert Matches(s, c);
    }
  }

  lemma {:induction false} PoolStepKeepsInv(s: Pool, pe: PoolEvent)
    requires PoolInv(s) && CanStep(s, pe)
    ensures PoolInv(Step(s, pe))
  {
    hide OwnInv;
    hide SoloInv;
    match pe {
      case Begin(pid) =>
        IdleCallKeepsOwn(s.own, pid, if s.closed then Finished else Getting);
        CallMovesKeepsInv(s, pid, if s.closed then Finished else Getting);
      case Take(pid) => TakeKeepsInv(s, pid);
      case GiveUp(pid) =>
        IdleCallKeepsOwn(s.own, pid, Finished);
        CallMovesKeepsInv(s, pid, Finished);
      case Within(cid, ev) => WithinKeepsInv(s, cid, ev);
      case PutBack(pid) => PutBackKeepsInv(s, pid);
      case TryPush(pid) => TryPushKeepsInv(s, pid);
      case Discard(pid) => LetGoKeepsInv(s, pid, s.own.calls[pid].cid);
      case DrainOne => DrainOneKeepsInv(s);
      case Create(cid) => CreateKeepsInv(s, cid);
      case CreateFail => CreateFailKeepsInv(s);
      case FillOne => FillOneKeepsInv(s);
      case _ => FlagsKeepInv(s, Step(s, pe));
    }
  }

  lemma FlagsKeepInv(s: Pool, t: Pool)
    requires PoolInv(s) && t.chans == s.chans && t.own == s.own && t.size == s.size
    requires s.own.installing == [] || t.refill == Creating || t.refill == Filling
    ensures PoolInv(t)
  {
    forall c | c in t.chans ensures Matches(t, c) {
      assert Matches(s, c);
    }
  }

  lemma {:induction false} PoolRunKeepsInv(size: nat, threshold: nat, pes: seq<PoolEvent>)
    requires ValidPoolRun(Empty(size, threshold), pes)
    ensures PoolInv(RunPool(Empty(size, threshold), pes))
  {
    if pes == [] {
    } else {
      PoolRunKeepsInv(size, threshold, pes[..|pes|-1]);
      PoolStepKeepsInv(RunPool(Empty(size, threshold), pes[..|pes|-1]), pes[|pes|-1]);
    }
  }

  // ----- What every run promises -----

  function Copies(s: seq<Cid>, cid: Cid): nat {
    multiset(s)[cid]
  }

  lemma {:induction false} DistinctCopies(s: seq<Cid>, cid: Cid)
    requires Distinct(s)
    ensures Copies(s, cid) == if cid in s then 1 else 0
  {
    if s == [] {
    } else {
      DistinctCopies(s[1..], cid);
      assert s == [s[0]] + s[1..];
    }
  }

  /** Every channel ever created is in exactly one place: once in the pool, once among those being
      installed, with exactly one call, or dropped and closed. */
  lemma {:induction false} EveryChannelIsInOnePlace(size: nat, threshold: nat, pes: seq<PoolEvent>, cid: Cid)
    requires ValidPoolRun(Empty(size, threshold), pes)
    requires cid in RunPool(Empty(size, threshold), pes).chans
    ensures var s := RunPool(Empty(size, threshold), pes);
            && cid in s.own.place
            && Copies(s.own.queue, cid) == (if s.own.place[cid] == Queued then 1 else 0)
            && Copies(s.own.installing, cid) == (if s.own.place[cid] == Installing then 1 else 0)
            && (forall pid :: pid in s.own.calls && Carries(s.own.calls[pid], cid) <==> s.own.place[cid] == HeldBy(pid))
            && (s.own.place[cid] == Dropped ==> s.chans[cid].closed)
  {
    PoolRunKeepsInv(size, threshold, pes);
    var s := RunPool(Empty(size, threshold), pes);
    assert Matches(s, cid);
    DistinctCopies(s.own.queue, cid);
    DistinctCopies(s.own.installing, cid);
  }

  /** Exclusive use: at most one record waits on a channel, and none while it is not with a call. */
  lemma {:induction false} AtMostOneRecordWaits(size: nat, threshold: nat, pes: seq<PoolEvent>, cid: Cid)
    requires ValidPoolRun(Empty(size, threshold), pes)
    requires cid in RunPool(Empty(size, threshold), pes).chans
    ensures var s := RunPool(Empty(size, threshold), pes);
            && |s.chans[cid].core.p.list| <= 1
            && (cid in s.own.queue || cid in s.own.installing ==> s.chans[cid].core.p.list == [])
  {
    PoolRunKeepsInv(size, threshold, pes);
    var s := RunPool(Empty(size, threshold), pes);
    assert Matches(s, cid) && SoloInv(s.chans[cid]);
    SoloMeansAtMostOne(s.chans[cid].core);
    if cid in s.own.queue || cid in s.own.installing {
      NobodyInside(s, cid);
      forall q | q in s.chans[cid].core.pubs ensures s.chans[cid].core.pubs[q].Returned? {
        assert q !in Inside(s.chans[cid]);
      }
    }
  }

  /** The pool never holds more than its size. A call that takes a channel either gets one that is
      usable at that moment, out of the pool and its alone, or sees it closed and goes on waiting. */
  lemma {:induction false} TakenChannelsAreUsable(size: nat, threshold: nat, pes: seq<PoolEvent>, pid: Pid)
    requires ValidPoolRun(Empty(size, threshold), pes) && CanStep(RunPool(Empty(size, threshold), pes), Take(pid))
    ensures var s := RunPool(Empty(size, threshold), pes);
            var (t, cid) := (Step(s, Take(pid)), s.own.queue[0]);
            && |s.own.queue| <= size && Copies(t.own.queue, cid) == 0 && cid in t.chans
            && (if Usable(s.chans[cid]) then t.own.calls[pid] == Holding(cid) && t.chans[cid] == s.chans[cid]
                else t.own.calls[pid] == Getting && t.own.place[cid] == Dropped && t.chans[cid].closed)
  {
    PoolRunKeepsInv(size, threshold, pes);
    SizeStays(Empty(size, threshold), pes);
    var s := RunPool(Empty(size, threshold), pes);
    PoolStepKeepsInv(s, Take(pid));
    DistinctCopies(Step(s, Take(pid)).own.queue, s.own.queue[0]);
  }

  // ----- What goes back into the pool -----

  /** What a call that puts its channel back decides: the flags are read once, before it tries to push. */
  lemma PutBackChecksTheFlags(s: Pool, pid: Pid)
    requires PoolInv(s) && CanStep(s, PutBack(pid))
    ensures var (t, cid) := (Step(s, PutBack(pid)), s.own.calls[pid].cid);
            && cid in s.own.place && cid in t.own.place && cid in t.chans
            && (if !s.closed && Usable(s.chans[cid])
                then t.own.calls[pid] == Returning(cid, false) && t.own.place[cid] == HeldBy(pid)
                else t.own.calls[pid] == Finished && t.own.place[cid] == Dropped && t.chans[cid].closed)
  {
    CarriedPlaced(s.own, pid, s.own.calls[pid].cid);
  }

  /** The channel's own failure, its router's end or the end of its context, which close it. */
  predicate Shuts(pe: PoolEvent, cid: Cid) {
    pe.Within? && pe.cid == cid && (pe.ev.Fail? || pe.ev.StopRouting?)
  }

  predicate NoneShuts(pes: seq<PoolEvent>, cid: Cid) {
    forall j :: 0 <= j < |pes| ==> !Shuts(pes[j], cid)
  }

  predicate NoneCloses(pes: seq<PoolEvent>) {
    forall j :: 0 <= j < |pes| ==> pes[j] != CloseManager
  }

  /** After the flags were read: a channel that failed the check is dropped for good; one that passed is
      as usable, and the manager as open, as what happened since allows. */
  ghost predicate SinceChecked(s: Pool, pid: Pid, cid: Cid, passed: bool, since: seq<PoolEvent>) {
    && pid in s.own.calls && cid in s.own.place && cid in s.chans
    && (!passed ==> s.own.calls[pid] == Finished && s.own.place[cid] == Dropped)
    && (passed && !s.own.calls[pid].Finished? ==> StillReturning(s, pid, cid, since))
  }

  ghost predicate StillReturning(s: Pool, pid: Pid, cid: Cid, since: seq<PoolEvent>)
    requires pid in s.own.calls && cid in s.chans
  {
    && s.own.calls[pid].Returning? && s.own.calls[pid].cid == cid
    && (Usable(s.chans[cid]) <==> NoneShuts(since, cid))
    && (!s.closed <==> NoneCloses(since))
  }

  /** With nobody inside, only a failure, the router's end or the context's end makes it unusable. */
  lemma QuietStaysUsable(c: Chan, ev: Event)
    requires (forall q :: q in c.core.pubs ==> c.core.pubs[q].Returned?) && Enabled(c, ev) && !ev.Enter?
    ensures Usable(Apply(c, ev)) <==> Usable(c) && !ev.Fail? && !ev.StopRouting?
  {
    hide AckCore;
    hide CleanCore;
    hide ApplyReceive;
  }

  lemma NobodyIsInside(c: Chan)
    requires Inside(c) == {}
    ensures forall q :: q in c.core.pubs ==> c.core.pubs[q].Returned?
  {
    forall q | q in c.core.pubs ensures c.core.pubs[q].Returned? {
      assert q !in Inside(c);
    }
  }

  lemma ReturningIsQuiet(s: Pool, ev: Event, pid: Pid, cid: Cid)
    requires PoolInv(s) && CanStep(s, Within(cid, ev)) && pid in s.own.calls
    requires s.own.calls[pid].Returning? && s.own.calls[pid].cid == cid
    ensures Usable(Apply(s.chans[cid], ev)) <==> Usable(s.chans[cid]) && !ev.Fail? && !ev.StopRouting?
  {
    hide OwnInv;
    hide SoloInv;
    hide Apply;
    hide Enabled;
    CarriedPlaced(s.own, pid, cid);
    HolderLeft(s, pid, cid);
    NobodyIsInside(s.chans[cid]);
    if ev.Enter? {
      CarriedPlaced(s.own, ev.pid, cid);
    }
    QuietStaysUsable(s.chans[cid], ev);
  }

  /** A channel that a call is putting back is touched by nobody but itself. */
  lemma ReturningIsLeftAlone(s: Pool, pe: PoolEvent, pid: Pid, cid: Cid)
    requires PoolInv(s) && CanStep(s, pe) && pid in s.own.calls && cid in s.chans
    requires s.own.calls[pid].Returning? && s.own.calls[pid].cid == cid
    requires pe != Discard(pid)
    ensures cid in Step(s, pe).chans
    ensures Usable(Step(s, pe).chans[cid]) <==> Usable(s.chans[cid]) && !Shuts(pe, cid)
  {
    hide OwnInv;
    hide AllSolo;
    hide Matches;
    hide Apply;
    hide Enabled;
    hide CloseAll;
    CarriedPlaced(s.own, pid, cid);
    match pe {
      case Within(c, ev) =>
        if c == cid {
          ReturningIsQuiet(s, ev, pid, cid);
        }
      case Take(_) => HeadPlaced(s.own);
      case DrainOne => HeadPlaced(s.own);
      case PutBack(p) => CarriedPlaced(s.own, p, s.own.calls[p].cid);
      case Discard(p) => CarriedPlaced(s.own, p, s.own.calls[p].cid);
      case CreateFail =>
        InstallingPlaced(s.own, cid);
        CloseAllLeaves(s.chans, s.own.installing, cid);
      case _ =>
    }
  }

  lemma InstallingPlaced(o: Own, cid: Cid)
    requires OwnInv(o) && cid in o.place && o.place[cid] != Installing
    ensures cid !in o.installing
  {
  }

  lemma {:induction false} CloseAllLeaves(chans: map<Cid, Chan>, cids: seq<Cid>, cid: Cid)
    requires (forall i :: 0 <= i < |cids| ==> cids[i] in chans) && cid in chans && cid !in cids
    ensures CloseAll(chans, cids)[cid] == chans[cid]
    decreases |cids|
  {
    if cids == [] {
    } else {
      CloseAllLeaves(CloseOne(chans, cids[0]), cids[1..], cid);
    }
  }

  lemma OverStaysOver(s: Pool, pe: PoolEvent, pid: Pid)
    requires CanStep(s, pe) && pid in s.own.calls
    ensures pid in Step(s, pe).own.calls
    ensures s.own.calls[pid].Finished? ==> Step(s, pe).own.calls[pid].Finished?
  {
    hide Apply;
    hide Enabled;
    hide CloseOne;
    hide CloseAll;
  }

  lemma DroppedStaysDropped(s: Pool, pe: PoolEvent, cid: Cid)
    requires PoolInv(s) && CanStep(s, pe) && cid in s.own.place
    ensures cid in Step(s, pe).own.place
    ensures s.own.place[cid] == Dropped ==> Step(s, pe).own.place[cid] == Dropped
  {
    hide OwnInv;
    hide AllSolo;
    hide Matches;
    hide Apply;
    hide Enabled;
    hide CloseOne;
    hide CloseAll;
    HeadPlaced(s.own);
    if pe.TryPush? {
      CarriedPlaced(s.own, pe.pid, s.own.calls[pe.pid].cid);
    }
  }

  lemma ReturningGoesOnOrEnds(s: Pool, pe: PoolEvent, pid: Pid)
    requires CanStep(s, pe) && pid in s.own.calls && s.own.calls[pid].Returning?
    ensures pid in Step(s, pe).own.calls
    ensures var call := Step(s, pe).own.calls[pid];
            if pe == Discard(pid) || (pe == TryPush(pid) && |s.own.queue| < s.size) then call == Finished
            else call.Returning? && call.cid == s.own.calls[pid].cid
    ensures pe == TryPush(pid) && |s.own.queue| >= s.size ==> Step(s, pe).own.calls[pid].waited
    ensures Step(s, pe).closed <==> s.closed || pe == CloseManager
  {
    hide Apply;
    hide Enabled;
  }

  lemma StepSinceChecked(s: Pool, pe: PoolEvent, pid: Pid, cid: Cid, passed: bool, since: seq<PoolEvent>)
    requires PoolInv(s) && CanStep(s, pe) && SinceChecked(s, pid, cid, passed, since)
    ensures SinceChecked(Step(s, pe), pid, cid, passed, since + [pe])
  {
    hide PoolInv;
    hide Step;
    hide CanStep;
    hide Shuts;
    PoolStepKeepsInv(s, pe);
    PlacesAreChannels(Step(s, pe));
    OverStaysOver(s, pe, pid);
    DroppedStaysDropped(s, pe, cid);
    if s.own.calls[pid].Returning? {
      ReturningGoesOnOrEnds(s, pe, pid);
      if pe != Discard(pid) {
        ReturningIsLeftAlone(s, pe, pid, cid);
        OneMoreEvent(since, pe, cid);
      }
    }
  }

  lemma PlacesAreChannels(s: Pool)
    requires PoolInv(s)
    ensures s.own.place.Keys == s.chans.Keys
  {
  }

  lemma OneMoreEvent(since: seq<PoolEvent>, pe: PoolEvent, cid: Cid)
    ensures NoneShuts(since + [pe], cid) <==> NoneShuts(since, cid) && !Shuts(pe, cid)
    ensures NoneCloses(since + [pe]) <==> NoneCloses(since) && pe != CloseManager
  {
    hide Shuts;
    var all := since + [pe];
    assert all[|since|] == pe && forall j :: 0 <= j < |since| ==> all[j] == since[j];
  }

  lemma {:induction false} RunSinceChecked(size: nat, threshold: nat, pes: seq<PoolEvent>, i: nat, pid: Pid)
    requires ValidPoolRun(Empty(size, threshold), pes) && i < |pes| && pes[i] == PutBack(pid)
    ensures var before := RunPool(Empty(size, threshold), pes[..i]);
            && CanStep(before, PutBack(pid))
            && var cid := before.own.calls[pid].cid;
               SinceChecked(RunPool(Empty(size, threshold), pes), pid, cid,
                            !before.closed && Usable(before.chans[cid]), pes[i+1..])
  {
    hide SinceChecked;
    hide PoolInv;
    hide Step;
    hide CanStep;
    var (pre, last) := (pes[..|pes|-1], pes[|pes|-1]);
    var s := RunPool(Empty(size, threshold), pre);
    PoolRunKeepsInv(size, threshold, pre);
    if i == |pes| - 1 {
      PutBackStarts(s, pid);
      assert pes[i+1..] == [];
    } else {
      assert pre[..i] == pes[..i] && pre[i+1..] + [last] == pes[i+1..];
      RunSinceChecked(size, threshold, pre, i, pid);
      var before := RunPool(Empty(size, threshold), pes[..i]);
      HoldsBefore(before, pid);
      var cid := before.own.calls[pid].cid;
      StepSinceChecked(s, last, pid, cid, !before.closed && Usable(before.chans[cid]), pre[i+1..]);
    }
  }

  lemma HoldsBefore(s: Pool, pid: Pid)
    requires CanStep(s, PutBack(pid))
    ensures IsHolding(s, pid)
  {
  }

  lemma PutBackStarts(s: Pool, pid: Pid)
    requires PoolInv(s) && CanStep(s, PutBack(pid))
    ensures SinceChecked(Step(s, PutBack(pid)), pid, s.own.calls[pid].cid,
                         !s.closed && Usable(s.chans[s.own.calls[pid].cid]), [])
  {
    hide PoolInv;
    PutBackChecksTheFlags(s, pid);
  }

  /** The flags are read at `PutBack` and not again when the channel is pushed. One that fails the check
      never comes back; one that passes is queued usable exactly when nothing shut it since, and queued
      with the manager open exactly when nobody closed the manager since. */
  lemma {:induction false} RequeuedAsUsableAs(size: nat, threshold: nat, pes: seq<PoolEvent>, i: nat, pid: Pid)
    requires ValidPoolRun(Empty(size, threshold), pes) && i < |pes| && pes[i] == PutBack(pid)
    ensures var (before, s) := (RunPool(Empty(size, threshold), pes[..i]), RunPool(Empty(size, threshold), pes));
            && IsHolding(before, pid) && pid in s.own.calls
            && var cid := before.own.calls[pid].cid;
               && cid in s.own.place && cid in s.chans
               && (before.closed || !Usable(before.chans[cid]) ==>
                     s.own.calls[pid] == Finished && s.own.place[cid] == Dropped && s.chans[cid].closed)
               && (CanStep(s, TryPush(pid)) && |s.own.queue| < s.size ==>
                     Requeued(s, Step(s, TryPush(pid)), cid, pes[i+1..]))
               && (CanStep(s, TryPush(pid)) && |s.own.queue| >= s.size ==>
                     Step(s, TryPush(pid)).own == SetCall(s.own, pid, Returning(cid, true)))
  {
    hide PoolInv;
    hide RunPool;
    hide ValidPoolRun;
    var (before, s) := (RunPool(Empty(size, threshold), pes[..i]), RunPool(Empty(size, threshold), pes));
    RunSinceChecked(size, threshold, pes, i, pid);
    PoolRunKeepsInv(size, threshold, pes);
    DroppedIsClosed(s, before.own.calls[pid].cid);
  }

  lemma DroppedIsClosed(s: Pool, cid: Cid)
    requires PoolInv(s) && cid in s.own.place && cid in s.chans
    ensures s.own.place[cid] == Dropped ==> s.chans[cid].closed
  {
    assert Matches(s, cid);
  }

  /** The channel is pushed, as it is, behind those that were queued. */
  ghost predicate Requeued(s: Pool, t: Pool, cid: Cid, since: seq<PoolEvent>) {
    && t.own.queue == s.own.queue + [cid] && t.chans == s.chans && cid in t.chans && t.closed == s.closed
    && (Usable(t.chans[cid]) <==> NoneShuts(since, cid))
    && (!t.closed <==> NoneCloses(since))
  }

  // ----- A run that pushes a broken channel into a closed pool -----

  lemma PoolRunNext(s: Pool, pes: seq<PoolEvent>, t: Pool, pe: PoolEvent) returns (more: seq<PoolEvent>)
    requires ValidPoolRun(s, pes) && RunPool(s, pes) == t && CanStep(t, pe)
    ensures ValidPoolRun(s, more) && RunPool(s, more) == Step(t, pe)
  {
    more := pes + [pe];
    assert more[..|pes|] == pes;
  }

  /** A pool of one, filled with the channel 7. */
  function PoolOfOne(threshold: nat): Pool {
    Pool(map[7 := Init(threshold)], Own([7], [], map[], map[7 := Queued]), Idle, false, 1, threshold)
  }

  lemma ChannelIsMade(threshold: nat) returns (pes: seq<PoolEvent>)
    ensures ValidPoolRun(Empty(1, threshold), pes)
    ensures RunPool(Empty(1, threshold), pes) ==
            Pool(map[7 := Init(threshold)], Own([], [7], map[], map[7 := Installing]), Creating, false, 1, threshold)
  {
    var s := Empty(1, threshold);
    pes := PoolRunNext(s, [], s, Refresh);
    hide RunPool;
    hide ValidPoolRun;
    hide Init;
    pes := PoolRunNext(s, pes, s.(refill := Emptying(true)), DrainDone);
    pes := PoolRunNext(s, pes, s.(refill := Creating), Create(7));
  }

  lemma PoolIsFilled(threshold: nat) returns (pes: seq<PoolEvent>)
    ensures ValidPoolRun(Empty(1, threshold), pes) && RunPool(Empty(1, threshold), pes) == PoolOfOne(threshold)
  {
    hide RunPool;
    hide ValidPoolRun;
    hide Init;
    var s := Empty(1, threshold);
    pes := ChannelIsMade(threshold);
    var t := Pool(map[7 := Init(threshold)], Own([], [7], map[], map[7 := Installing]), Creating, false, 1, threshold);
    pes := PoolRunNext(s, pes, t, CreateDone);
    pes := PoolRunNext(s, pes, t.(refill := Filling), FillOne);
    pes := PoolRunNext(s, pes, PoolOfOne(threshold).(refill := Filling), FillDone);
  }

  /** Call 0 holds the channel 7. */
  function HeldByCall(c: Chan, threshold: nat): Pool {
    Pool(map[7 := c], Own([], [], map[0 := Holding(7)], map[7 := HeldBy(0)]), Idle, false, 1, threshold)
  }

  lemma CallTakes(threshold: nat) returns (pes: seq<PoolEvent>)
    ensures ValidPoolRun(Empty(1, threshold), pes)
    ensures RunPool(Empty(1, threshold), pes) == HeldByCall(Init(threshold), threshold)
  {
    hide RunPool;
    hide ValidPoolRun;
    var s := Empty(1, threshold);
    var t := PoolOfOne(threshold);
    pes := PoolIsFilled(threshold);
    pes := PoolRunNext(s, pes, t, Begin(0));
    pes := PoolRunNext(s, pes, t.(own := SetCall(t.own, 0, Getting)), Take(0));
  }

  lemma OneStepInside(threshold: nat, pes: seq<PoolEvent>, c: Chan, ev: Event)
    returns (more: seq<PoolEvent>, d: Chan)
    requires ValidPoolRun(Empty(1, threshold), pes) && RunPool(Empty(1, threshold), pes) == HeldByCall(c, threshold)
    requires Enabled(c, ev) && (ev.Enter? ==> ev.pid == 0)
    ensures d == Apply(c, ev)
    ensures ValidPoolRun(Empty(1, threshold), more) && RunPool(Empty(1, threshold), more) == HeldByCall(d, threshold)
  {
    hide Apply;
    hide Enabled;
    hide RunPool;
    hide ValidPoolRun;
    d := Apply(c, ev);
    more := PoolRunNext(Empty(1, threshold), pes, HeldByCall(c, threshold), Within(7, ev));
  }

  /** The publisher has returned, acknowledged, from a channel that can still be used. */
  predicate CameBack(c: Chan) {
    Usable(c) && 0 in c.core.pubs && c.core.pubs[0] == Returned(Some(1), NilError)
  }

  lemma OneCallPublishes(threshold: nat) returns (pes: seq<PoolEvent>, c: Chan)
    ensures CameBack(c)
    ensures ValidPoolRun(Empty(1, threshold), pes) && RunPool(Empty(1, threshold), pes) == HeldByCall(c, threshold)
  {
    hide RunPool;
    hide ValidPoolRun;
    c := Init(threshold);
    pes := CallTakes(threshold);
    pes, c := OneStepInside(threshold, pes, c, Enter(0));
    pes, c := OneStepInside(threshold, pes, c, Append(0, 1));
    pes, c := OneStepInside(threshold, pes, c, Send(0, true));
    pes, c := OneStepInside(threshold, pes, c, Emit(1, true));
    pes, c := OneStepInside(threshold, pes, c, Route(true));
    SettlesTheFirst(true);
    pes, c := OneStepInside(threshold, pes, c, Receive(0));
  }

  /** It works: a publish through the pool returns nil and its channel is queued again, usable. */
  lemma ANilThroughThePool(threshold: nat) returns (pes: seq<PoolEvent>)
    ensures ValidPoolRun(Empty(1, threshold), pes)
    ensures var s := RunPool(Empty(1, threshold), pes);
            && 0 in s.own.calls && s.own.calls[0] == Finished && s.own.queue == [7]
            && 7 in s.chans && CameBack(s.chans[7])
  {
    hide RunPool;
    hide ValidPoolRun;
    var s := Empty(1, threshold);
    var c: Chan;
    pes, c := OneCallPublishes(threshold);
    var t := HeldByCall(c, threshold);
    pes := PoolRunNext(s, pes, t, PutBack(0));
    pes := PoolRunNext(s, pes, t.(own := SetCall(t.own, 0, Returning(7, false))), TryPush(0));
  }

  /** It happens: the channel breaks and the manager closes between the check and the push. */
  lemma ABrokenChannelCanGoBack(threshold: nat) returns (pes: seq<PoolEvent>)
    ensures ValidPoolRun(Empty(1, threshold), pes)
    ensures var s := RunPool(Empty(1, threshold), pes);
            s.closed && 7 in s.own.queue && 7 in s.chans && s.chans[7].broken && s.chans[7].closed
  {
    hide RunPool;
    hide ValidPoolRun;
    var s := Empty(1, threshold);
    var c: Chan;
    pes, c := OneCallPublishes(threshold);
    var t := HeldByCall(c, threshold);
    pes := PoolRunNext(s, pes, t, PutBack(0));
    t := t.(own := SetCall(t.own, 0, Returning(7, false)));
    pes := PoolRunNext(s, pes, t, Within(7, Fail(true)));
    t := t.(chans := map[7 := Retire(c)]);
    pes := PoolRunNext(s, pes, t, CloseManager);
    pes := PoolRunNext(s, pes, t.(closed := true), TryPush(0));
  }

  // ----- What a publish through the pool can rely on -----

  lemma StepKeepsSize(s: Pool, pe: PoolEvent)
    requires CanStep(s, pe)
    ensures Step(s, pe).size == s.size
  {
    hide Apply;
    hide Enabled;
    hide Close;
  }

  lemma {:induction false} SizeStays(s: Pool, pes: seq<PoolEvent>)
    ensures RunPool(s, pes).size == s.size
  {
    hide Step;
    hide CanStep;
    if pes == [] {
    } else {
      var t := RunPool(s, pes[..|pes|-1]);
      SizeStays(s, pes[..|pes|-1]);
      if CanStep(t, pes[|pes|-1]) {
        StepKeepsSize(t, pes[|pes|-1]);
      }
    }
  }

  /** Every channel of the pool counts against the pool's threshold. */
  ghost predicate SameThreshold(s: Pool) {
    forall c :: c in s.chans ==> s.chans[c].threshold == s.threshold
  }

  lemma {:induction false} CloseAllKeepsThreshold(chans: map<Cid, Chan>, cids: seq<Cid>, threshold: nat)
    requires forall i :: 0 <= i < |cids| ==> cids[i] in chans
    requires forall c :: c in chans ==> chans[c].threshold == threshold
    ensures forall c :: c in chans ==> CloseAll(chans, cids)[c].threshold == threshold
    decreases |cids|
  {
    if cids == [] {
    } else {
      CloseAllKeepsThreshold(CloseOne(chans, cids[0]), cids[1..], threshold);
    }
  }

  lemma StepKeepsThreshold(s: Pool, pe: PoolEvent)
    requires SameThreshold(s) && CanStep(s, pe)
    ensures SameThreshold(Step(s, pe)) && Step(s, pe).threshold == s.threshold
  {
    hide Apply;
    hide Enabled;
    if pe.Within? {
      ThresholdStays(s.chans[pe.cid], pe.ev);
    } else if pe.CreateFail? {
      CloseAllKeepsThreshold(s.chans, s.own.installing, s.threshold);
    }
  }

  lemma {:induction false} ThresholdIsThePools(size: nat, threshold: nat, pes: seq<PoolEvent>)
    requires ValidPoolRun(Empty(size, threshold), pes)
    ensures SameThreshold(RunPool(Empty(size, threshold), pes))
    ensures RunPool(Empty(size, threshold), pes).threshold == threshold
  {
    hide Step;
    hide CanStep;
    if pes == [] {
    } else {
      ThresholdIsThePools(size, threshold, pes[..|pes|-1]);
      StepKeepsThreshold(RunPool(Empty(size, threshold), pes[..|pes|-1]), pes[|pes|-1]);
    }
  }

  /** Through the pool every channel is used by one publisher at a time, so it is retired for
      timeouts only after at least the pool's `threshold` of them since its last nil return. */
  lemma {:induction false} PooledChannelsRetireAtThreshold(size: nat, threshold: nat, pes: seq<PoolEvent>, cid: Cid)
    requires ValidPoolRun(Empty(size, threshold), pes)
    requires cid in RunPool(Empty(size, threshold), pes).chans
    requires RunPool(Empty(size, threshold), pes).chans[cid].retiredAt.Some?
    ensures var c := RunPool(Empty(size, threshold), pes).chans[cid];
            c.threshold == threshold && 0 < threshold <= c.retiredAt.value
  {
    PoolRunKeepsInv(size, threshold, pes);
    ThresholdIsThePools(size, threshold, pes);
    assert SoloInv(RunPool(Empty(size, threshold), pes).chans[cid]);
  }

  /** Through the pool, and in whatever order and however often the broker confirms, a nil return means
      that the record was published and that an Ack of its very own tag settled it. */
  lemma {:induction false} PooledNilMeansOwnTag(size: nat, threshold: nat, pes: seq<PoolEvent>, cid: Cid, pid: Pid)
    requires ValidPoolRun(Empty(size, threshold), pes)
    requires cid in RunPool(Empty(size, threshold), pes).chans
    requires pid in RunPool(Empty(size, threshold), pes).chans[cid].core.pubs
    requires var pc := RunPool(Empty(size, threshold), pes).chans[cid].core.pubs[pid];
             pc.Returned? && pc.outcome == NilError
    ensures var k := RunPool(Empty(size, threshold), pes).chans[cid].core;
            && k.pubs[pid].tag.Some?
            && var s := k.pubs[pid].tag.value;
               s in k.sent && s in k.p.fates && k.p.fates[s] == Confirmed(true, s)
  {
    PoolRunKeepsInv(size, threshold, pes);
    assert SoloInv(RunPool(Empty(size, threshold), pes).chans[cid]);
    SoloNilMeansOwnTag(RunPool(Empty(size, threshold), pes).chans[cid], pid);
  }

  /** Through the pool, and with a positive threshold, a channel that is not broken and in which nobody is
      cleaning up after a timeout has counted fewer timeouts than the pool's threshold. */
  lemma {:induction false} PooledChannelsRetireInTime(size: nat, threshold: nat, pes: seq<PoolEvent>, cid: Cid)
    requires ValidPoolRun(Empty(size, threshold), pes) && threshold > 0
    requires cid in RunPool(Empty(size, threshold), pes).chans
    requires var c := RunPool(Empty(size, threshold), pes).chans[cid];
             !c.broken && NobodyTimedOut(c.core.pubs)
    ensures RunPool(Empty(size, threshold), pes).chans[cid].consecTO < threshold
  {
    PoolRunKeepsInv(size, threshold, pes);
    ThresholdIsThePools(size, threshold, pes);
    assert SoloInv(RunPool(Empty(size, threshold), pes).chans[cid]);
  }

  // ----- Closing and refreshing -----

  /** From the moment the manager is closed it stays so, and a call that begins is over at once. */
  lemma {:induction false} ClosedAdmitsNobody(size: nat, threshold: nat, pes: seq<PoolEvent>, k: nat, pid: Pid)
    requires k <= |pes| && ValidPoolRun(Empty(size, threshold), pes)
    requires var s := RunPool(Empty(size, threshold), pes[..k]);
             s.closed && pid !in s.own.calls
    ensures var s := RunPool(Empty(size, threshold), pes);
            s.closed && (pid in s.own.calls ==> s.own.calls[pid] == Finished)
  {
    hide Step;
    hide CanStep;
    if k == |pes| {
      assert pes[..k] == pes;
    } else {
      var (pre, pe) := (pes[..|pes|-1], pes[|pes|-1]);
      assert pre[..k] == pes[..k];
      ClosedAdmitsNobody(size, threshold, pre, k, pid);
      ClosedStepAdmitsNobody(RunPool(Empty(size, threshold), pre), pe, pid);
    }
  }

  lemma ClosedStepAdmitsNobody(s: Pool, pe: PoolEvent, pid: Pid)
    requires CanStep(s, pe) && s.closed && (pid in s.own.calls ==> s.own.calls[pid] == Finished)
    ensures Step(s, pe).closed && (pid in Step(s, pe).own.calls ==> Step(s, pe).own.calls[pid] == Finished)
  {
    hide Apply;
    hide Enabled;
    hide CloseOne;
    hide CloseAll;
  }

  /** Whether the last time the queue was drained it was for a refresh. */
  predicate LastForRefresh(pes: seq<PoolEvent>) {
    pes != [] && (pes[|pes|-1] == Refresh || (pes[|pes|-1] != DrainForClose && LastForRefresh(pes[..|pes|-1])))
  }

  /** Channels are made and put in only while refreshing, and draining for a close never turns into it. */
  lemma {:induction false} RefillsOnlyToRefresh(size: nat, threshold: nat, pes: seq<PoolEvent>)
    requires ValidPoolRun(Empty(size, threshold), pes)
    ensures var refill := RunPool(Empty(size, threshold), pes).refill;
            && (refill.Creating? || refill.Filling? ==> LastForRefresh(pes))
            && (refill.Emptying? ==> (refill.thenFill <==> LastForRefresh(pes)))
  {
    hide Step;
    hide CanStep;
    if pes == [] {
    } else {
      RefillsOnlyToRefresh(size, threshold, pes[..|pes|-1]);
      StepMovesRefill(RunPool(Empty(size, threshold), pes[..|pes|-1]), pes[|pes|-1]);
    }
  }

  lemma StepMovesRefill(s: Pool, pe: PoolEvent)
    requires CanStep(s, pe)
    ensures var refill := Step(s, pe).refill;
            if pe == Refresh then s.refill == Idle && refill == Emptying(true)
            else if pe == DrainForClose then s.refill == Idle && s.closed && refill == Emptying(false)
            else if pe == DrainDone then
              s.own.queue == [] && s.refill.Emptying? && refill == if s.refill.thenFill then Creating else Idle
            else if pe == CreateFail || pe == FillDone then refill == Idle
            else if pe == CreateDone then |s.own.installing| == s.size && s.refill == Creating && refill == Filling
            else refill == s.refill
  {
    hide Apply;
    hide Enabled;
    hide CloseOne;
    hide CloseAll;
  }

  /** The queue is first in, first out: channels leave it at the head, to a call or to be closed, and join it
      at the tail, from a call or newly made. A call that gives up is over and touches no channel. */
  lemma QueueIsFifo(s: Pool, pe: PoolEvent)
    requires CanStep(s, pe)
    ensures Step(s, pe).own.queue ==
            if pe.Take? || pe.DrainOne? then s.own.queue[1..]
            else if pe.FillOne? then s.own.queue + [s.own.installing[0]]
            else if pe.TryPush? && |s.own.queue| < s.size then s.own.queue + [s.own.calls[pe.pid].cid]
            else s.own.queue
    ensures pe.GiveUp? ==> Step(s, pe) == s.(own := s.own.(calls := s.own.calls[pe.pid := Finished]))
  {
    hide Apply;
    hide Enabled;
    hide CloseOne;
    hide CloseAll;
  }
}
