/** One confirm channel as a protocol: any number of publishers, the confirm router and the broker
    take turns, one critical section or atomic access at a time. The delivery tags, the broker's
    answers, timers and cancellations are whatever the run says they are. */
module ConfirmChannel {
  import opened Options
  import opened PendingSpec

  type Pid = nat

  /** Why a publisher is taking its own record back. */
  datatype Cause = PublishError | TimedOut(count: nat) | Cancelled | SawClose

  datatype Outcome =
    | NilError
    | ErrUnusable
    | ErrBadSeq
    | ErrPublish
    | ErrNack
    | ErrReplyClosed
    | ErrTimeout
    | ErrContext
    | ErrClosed

  /** Where a publisher stands inside `publishWithConfirm`. */
  datatype Pc =
    | Entering
    | Appended(seq_: nat)
    | Waiting(seq_: nat)
    | Cleaning(seq_: nat, cause: Cause, stage: nat)
    | Returned(tag: Option<nat>, outcome: Outcome)

  function TagOf(pc: Pc): Option<nat> {
    match pc
    case Entering => None
    case Appended(s) => Some(s)
    case Waiting(s) => Some(s)
    case Cleaning(s, _, _) => Some(s)
    case Returned(t, _) => t
  }

  datatype RouterPc = Routing | ResetOwed | Draining | Exited

  /** The records and who stands where, and `sent`, the tags that have reached the broker. `owner`,
      `emitted` and `orphans` only record history: who appended a tag, which tags the broker has
      confirmed, and which records a failed publish left behind. */
  datatype Core = Core(
    p: Pending,
    lastSeq: nat,
    mu: Option<Pid>,
    pubs: map<Pid, Pc>,
    transit: seq<Confirmation>,
    owner: map<nat, Pid>,
    sent: set<nat>,
    emitted: set<nat>,
    orphans: set<nat>)

  /** `sinceNil`, `sinceAck` and `retiredAt` only record history: the timeouts since the last nil
      return, since the last handled Ack, and since the last nil return when the channel was
      retired for timeouts. */
  datatype Chan = Chan(
    core: Core,
    router: RouterPc,
    closed: bool,
    broken: bool,
    closeSig: bool,
    consecTO: nat,
    threshold: nat,
    sinceNil: nat,
    sinceAck: nat,
    retiredAt: Option<nat>)

  function Init(threshold: nat): Chan {
    Chan(Core(EMPTY, 0, None, map[], [], map[], {}, {}, {}), Routing, false, false, false, 0, threshold, 0, 0, None)
  }

  /** `Reach` is the publish arriving at the broker while the call is still under way, which it may do
      even if the call fails in the end; `Fail` closes the channel and, unless it is only the context
      that was cancelled, `marks` it broken. */
  datatype Event =
    | Enter(pid: Pid)
    | Append(pid: Pid, next: nat)
    | Reach(pid: Pid)
    | Send(pid: Pid, ok: bool)
    | Receive(pid: Pid)
    | Expire(pid: Pid)
    | Cancel(pid: Pid)
    | NoticeClose(pid: Pid)
    | Clean(pid: Pid)
    | Emit(tag: nat, ack: bool)
    | Route(fused: bool)
    | ResetCount
    | StopRouting
    | Drain
    | Fail(marks: bool)

  function Usable(c: Chan): bool {
    !c.closed && !c.broken
  }

  /** The once-guarded close, together with the flag stores that go with it. */
  function Close(c: Chan): Chan {
    c.(closed := true, closeSig := true)
  }

  function Retire(c: Chan): Chan {
    Close(c.(broken := true))
  }

  function Move(k: Core, pid: Pid, pc: Pc): Core {
    k.(pubs := k.pubs[pid := pc])
  }

  function Return(c: Chan, pid: Pid, tag: Option<nat>, outcome: Outcome): Chan {
    c.(core := Move(c.core, pid, Returned(tag, outcome)))
  }

  predicate IsWaiting(k: Core, pid: Pid) {
    pid in k.pubs && k.pubs[pid].Waiting?
  }

  predicate Enabled(c: Chan, ev: Event) {
    var k := c.core;
    match ev
    case Enter(pid) => pid !in k.pubs
    case Append(pid, next) => pid in k.pubs && k.pubs[pid].Entering? && k.mu == None && next <= MAX_TAG
    case Reach(pid) => pid in k.pubs && k.pubs[pid].Appended?
    case Send(pid, _) => pid in k.pubs && k.pubs[pid].Appended?
    case Receive(pid) => IsWaiting(k, pid) && k.pubs[pid].seq_ in k.p.fates
    case Expire(pid) => IsWaiting(k, pid)
    case Cancel(pid) => IsWaiting(k, pid)
    case NoticeClose(pid) => IsWaiting(k, pid) && c.closeSig
    case Clean(pid) => pid in k.pubs && k.pubs[pid].Cleaning?
    case Emit(tag, _) => tag in k.sent
    case Route(_) => c.router == Routing && k.transit != []
    case ResetCount => c.router == ResetOwed
    case StopRouting => c.router == Routing
    case Drain => c.router == Draining
    case Fail(_) => true
  }

  predicate BadSeq(k: Core, next: nat) {
    next == 0 || (k.lastSeq != 0 && next <= k.lastSeq)
  }

  /** The append under the publish lock. */
  function AppendCore(k: Core, pid: Pid, next: nat): Core {
    k.(p := Add(k.p, next), lastSeq := next, mu := Some(pid),
       pubs := k.pubs[pid := Appended(next)], owner := k.owner[next := pid])
  }

  function ReachCore(k: Core, pid: Pid): Core
    requires pid in k.pubs && k.pubs[pid].Appended?
  {
    k.(sent := k.sent + {k.pubs[pid].seq_})
  }

  /** The publish call returns, and the lock is free again. */
  function SendCore(k: Core, pid: Pid, ok: bool): Core
    requires pid in k.pubs && k.pubs[pid].Appended?
  {
    var s := k.pubs[pid].seq_;
    if ok then k.(mu := None, sent := k.sent + {s}, pubs := k.pubs[pid := Waiting(s)])
    else k.(mu := None, pubs := k.pubs[pid := Cleaning(s, PublishError, 0)])
  }

  function ApplyReceive(c: Chan, pid: Pid): Chan
    requires IsWaiting(c.core, pid) && c.core.pubs[pid].seq_ in c.core.p.fates
  {
    var s := c.core.pubs[pid].seq_;
    match c.core.p.fates[s]
    case Withdrawn => Return(c, pid, Some(s), ErrReplyClosed)
    case Confirmed(false, _) => Return(Retire(c.(consecTO := 0)), pid, Some(s), ErrNack)
    case Confirmed(true, _) => Return(c.(consecTO := 0, sinceNil := 0), pid, Some(s), NilError)
  }

  function OutcomeOf(cause: Cause): Outcome {
    match cause
    case PublishError => ErrPublish
    case TimedOut(_) => ErrTimeout
    case Cancelled => ErrContext
    case SawClose => ErrClosed
  }

  /** One removal of the chain, on the list: what is left, and whether the clean-up is over. A
      failed publish tries the tail only while its tag is the last appended, and gives up after
      the bounded scan; the others end with the unbounded one. */
  function Removal(k: Core, s: nat, cause: Cause, stage: nat): (Pending, bool) {
    if stage == 0 then
      if cause.PublishError? && k.lastSeq != s then (k.p, false) else PopTailIfMatch(k.p, s)
    else if stage == 1 then
      var (q, hit) := RemoveTailNearby(k.p, s, TAIL_SCAN_LIMIT);
      (q, hit || cause.PublishError?)
    else
      (RemoveByTag(k.p, s).0, true)
  }

  function CleanCore(k: Core, pid: Pid): Core
    requires pid in k.pubs && k.pubs[pid].Cleaning?
  {
    var Cleaning(s, cause, stage) := k.pubs[pid];
    var (q, over) := Removal(k, s, cause, stage);
    if !over then Move(k.(p := q), pid, Cleaning(s, cause, stage + 1))
    else Move(k.(p := q, orphans := if s in q.list then k.orphans + {s} else k.orphans),
              pid, Returned(Some(s), OutcomeOf(cause)))
  }

  /** One removal; when it ends the clean-up, the channel is retired if the cause asks for it. */
  function ApplyClean(c: Chan, pid: Pid): Chan
    requires pid in c.core.pubs && c.core.pubs[pid].Cleaning?
  {
    var d := c.(core := CleanCore(c.core, pid));
    if d.core.pubs[pid].Cleaning? then d
    else
      match c.core.pubs[pid].cause
      case PublishError => Retire(d)
      case TimedOut(n) =>
        if c.threshold > 0 && n >= c.threshold then Retire(d.(retiredAt := Some(c.sinceNil))) else d
      case Cancelled => d
      case SawClose => d
  }

  function AckCore(k: Core, tag: nat, ack: bool): Core {
    k.(p := AckLE(k.p, tag, ack))
  }

  /** The oldest confirmation is taken and handled. */
  function TakeCore(k: Core): Core
    requires k.transit != []
  {
    AckCore(k.(transit := k.transit[1..]), k.transit[0].deliveryTag, k.transit[0].ack)
  }

  /** Handles the oldest confirmation. The reset of the timeout count that follows a handled Ack is
      a separate atomic store, taken at once when `fused`. */
  function ApplyRoute(c: Chan, fused: bool): Chan
    requires c.core.transit != []
  {
    var m := c.core.transit[0];
    var handled := PrefixLE(c.core.p.list, m.deliveryTag);
    var d := c.(core := TakeCore(c.core));
    if handled > 0 && m.ack then
      if fused then d.(sinceAck := 0, consecTO := 0) else d.(sinceAck := 0, router := ResetOwed)
    else d
  }

  function Apply(c: Chan, ev: Event): Chan
    requires Enabled(c, ev)
  {
    var k := c.core;
    match ev
    case Enter(pid) => if Usable(c) then c.(core := Move(k, pid, Entering)) else Return(c, pid, None, ErrUnusable)
    case Append(pid, next) =>
      if BadSeq(k, next) then Return(Retire(c), pid, None, ErrBadSeq) else c.(core := AppendCore(k, pid, next))
    case Reach(pid) => c.(core := ReachCore(k, pid))
    case Send(pid, ok) => c.(core := SendCore(k, pid, ok))
    case Receive(pid) => ApplyReceive(c, pid)
    case Expire(pid) =>
      c.(consecTO := c.consecTO + 1, sinceNil := c.sinceNil + 1, sinceAck := c.sinceAck + 1,
         core := Move(k, pid, Cleaning(k.pubs[pid].seq_, TimedOut(c.consecTO + 1), 0)))
    case Cancel(pid) => c.(core := Move(k, pid, Cleaning(k.pubs[pid].seq_, Cancelled, 0)))
    case NoticeClose(pid) => c.(core := Move(k, pid, Cleaning(k.pubs[pid].seq_, SawClose, 0)))
    case Clean(pid) => ApplyClean(c, pid)
    case Emit(tag, ack) => c.(core := k.(transit := k.transit + [Confirmation(tag, ack)], emitted := k.emitted + {tag}))
    case Route(fused) => ApplyRoute(c, fused)
    case ResetCount => c.(router := Routing, consecTO := 0)
    case StopRouting => c.(router := Draining, closed := true)
    case Drain => c.(router := Exited, core := AckCore(k, MAX_TAG, false))
    case Fail(marks) => if marks then Retire(c) else Close(c)
  }

  ghost predicate ValidRun(c: Chan, evs: seq<Event>) {
    evs == [] || (ValidRun(c, evs[..|evs|-1]) && Enabled(Run(c, evs[..|evs|-1]), evs[|evs|-1]))
  }

  ghost function Run(c: Chan, evs: seq<Event>): Chan {
    if evs == [] then c
    else
      var d := Run(c, evs[..|evs|-1]);
      if Enabled(d, evs[|evs|-1]) then Apply(d, evs[|evs|-1]) else d
  }

  // ----- The invariant -----

  /** Every issued tag has its owner, who stands at that tag; tags are positive and at most the
      last one. */
  ghost predicate TagsOwned(owner: map<nat, Pid>, pubs: map<Pid, Pc>, lastSeq: nat) {
    && lastSeq <= MAX_TAG
    && (forall t :: t in owner ==> 1 <= t <= lastSeq && owner[t] in pubs && TagOf(pubs[owner[t]]) == Some(t))
    && (forall q :: q in pubs && TagOf(pubs[q]).Some? ==>
          TagOf(pubs[q]).value in owner && owner[TagOf(pubs[q]).value] == q)
  }

  /** The holder of the publish lock is the one publisher between append and send. */
  ghost predicate LockHeld(mu: Option<Pid>, pubs: map<Pid, Pc>, lastSeq: nat) {
    && (forall q :: q in pubs && pubs[q].Appended? ==> mu == Some(q) && pubs[q].seq_ == lastSeq)
    && (mu.Some? ==> mu.value in pubs && pubs[mu.value].Appended?)
  }

  /** Only published tags are confirmed, and an Ack settles a tag only through a published tag
      at least as great. */
  ghost predicate AcksHonest(fates: map<nat, Fate>, transit: seq<Confirmation>, sent: set<nat>) {
    && (forall i :: 0 <= i < |transit| ==> transit[i].deliveryTag in sent)
    && (forall t :: t in fates ==> HonestFate(t, fates[t], sent))
  }

  ghost predicate HonestFate(t: nat, f: Fate, sent: set<nat>) {
    f.Confirmed? && f.ack ==> f.via in sent && t <= f.via
  }

  /** What a publisher's place promises: a waiting record was published; a returned one is
      delisted or a known orphan; a nil return was acknowledged. */
  ghost predicate PlaceHonest(pc: Pc, p: Pending, sent: set<nat>, orphans: set<nat>) {
    match pc
    case Waiting(s) => s in sent
    case Returned(Some(s), o) =>
      && (s in p.list ==> s in orphans)
      && (o == NilError ==> s in sent && s in p.fates && p.fates[s].Confirmed? && p.fates[s].ack)
    case Returned(None, o) => o != NilError
    case _ => true
  }

  ghost predicate ReturnsHonest(k: Core) {
    && (forall q :: q in k.pubs ==> PlaceHonest(k.pubs[q], k.p, k.sent, k.orphans))
    && (forall t :: t in k.orphans ==>
          t in k.owner && k.owner[t] in k.pubs && k.pubs[k.owner[t]] == Returned(Some(t), ErrPublish))
  }

  ghost predicate CoreInv(k: Core) {
    && Inv(k.p)
    && Issued(k.p) == k.owner.Keys
    && k.sent <= k.owner.Keys
    && TagsOwned(k.owner, k.pubs, k.lastSeq)
    && LockHeld(k.mu, k.pubs, k.lastSeq)
    && AcksHonest(k.p.fates, k.transit, k.sent)
    && ReturnsHonest(k)
  }

  lemma InitInv(threshold: nat)
    ensures CoreInv(Init(threshold).core)
  {
  }

  // ----- Every step keeps it -----

  /** Records may be settled at any time, as long as an Ack comes from a published tag. */
  lemma SettlingKeepsInv(k: Core, q: Pending)
    requires CoreInv(k)
    requires Inv(q) && Issued(q) == Issued(k.p) && Extends(k.p, q)
    requires forall t :: t in q.list ==> t in k.p.list
    requires forall t :: t in q.fates ==> t in k.p.fates || HonestFate(t, q.fates[t], k.sent)
    ensures CoreInv(k.(p := q))
  {
    forall r | r in k.pubs ensures PlaceHonest(k.pubs[r], q, k.sent, k.orphans) {
      assert PlaceHonest(k.pubs[r], k.p, k.sent, k.orphans);
    }
  }

  lemma MovingKeepsOwners(owner: map<nat, Pid>, pubs: map<Pid, Pc>, lastSeq: nat, pid: Pid, pc: Pc)
    requires TagsOwned(owner, pubs, lastSeq) && pid in pubs && TagOf(pc) == TagOf(pubs[pid])
    ensures TagsOwned(owner, pubs[pid := pc], lastSeq)
  {
  }

  /** A publisher that holds no lock may move on, keeping its tag. */
  lemma MovingKeepsInv(k: Core, pid: Pid, pc: Pc)
    requires CoreInv(k) && pid in k.pubs
    requires TagOf(pc) == TagOf(k.pubs[pid]) && !pc.Appended? && !k.pubs[pid].Appended? && !k.pubs[pid].Returned?
    requires PlaceHonest(pc, k.p, k.sent, k.orphans)
    ensures CoreInv(Move(k, pid, pc))
  {
    MovingKeepsOwners(k.owner, k.pubs, k.lastSeq, pid, pc);
    forall t | t in k.orphans ensures k.owner[t] != pid {
    }
  }

  lemma ArrivingKeepsOwners(owner: map<nat, Pid>, pubs: map<Pid, Pc>, lastSeq: nat, pid: Pid, pc: Pc)
    requires TagsOwned(owner, pubs, lastSeq) && (pid in pubs ==> TagOf(pubs[pid]) == None) && TagOf(pc) == None
    ensures TagsOwned(owner, pubs[pid := pc], lastSeq)
    ensures forall t :: t in owner ==> owner[t] != pid
  {
  }

  /** A publisher arrives, or is turned away with no tag. */
  lemma ArrivingKeepsInv(k: Core, pid: Pid, pc: Pc)
    requires CoreInv(k) && (pid !in k.pubs || k.pubs[pid].Entering?)
    requires pc == Entering || (pc.Returned? && pc.tag == None && pc.outcome != NilError)
    ensures CoreInv(Move(k, pid, pc))
  {
    ArrivingKeepsOwners(k.owner, k.pubs, k.lastSeq, pid, pc);
  }

  lemma AppendKeepsOwners(owner: map<nat, Pid>, pubs: map<Pid, Pc>, lastSeq: nat, pid: Pid, next: nat)
    requires TagsOwned(owner, pubs, lastSeq) && pid in pubs && pubs[pid] == Entering && lastSeq < next <= MAX_TAG
    ensures TagsOwned(owner[next := pid], pubs[pid := Appended(next)], next)
    ensures next !in owner && forall t :: t in owner ==> t < next && owner[t] != pid
  {
  }

  lemma AppendKeepsPlaces(k: Core, pid: Pid, next: nat, q: Pid)
    requires CoreInv(k) && q in k.pubs && q != pid && k.lastSeq < next
    ensures PlaceHonest(k.pubs[q], Add(k.p, next), k.sent, k.orphans)
  {
    assert PlaceHonest(k.pubs[q], k.p, k.sent, k.orphans);
    assert TagOf(k.pubs[q]) != Some(next);
  }

  lemma AppendKeepsInv(k: Core, pid: Pid, next: nat)
    requires CoreInv(k) && pid in k.pubs && k.pubs[pid].Entering? && k.mu == None && k.lastSeq < next <= MAX_TAG
    ensures CoreInv(AppendCore(k, pid, next))
  {
    AppendKeepsOwners(k.owner, k.pubs, k.lastSeq, pid, next);
    AddKeepsInv(k.p, next);
    forall q | q in k.pubs && q != pid ensures PlaceHonest(k.pubs[q], Add(k.p, next), k.sent, k.orphans) {
      AppendKeepsPlaces(k, pid, next, q);
    }
  }

  /** More may have reached the broker than the publishers know. */
  lemma ReachKeepsInv(k: Core, pid: Pid)
    requires CoreInv(k) && pid in k.pubs && k.pubs[pid].Appended?
    ensures CoreInv(ReachCore(k, pid))
  {
    var d := ReachCore(k, pid);
    assert forall t :: t in k.p.fates ==> HonestFate(t, k.p.fates[t], k.sent);
    forall q | q in d.pubs ensures PlaceHonest(d.pubs[q], d.p, d.sent, d.orphans) {
      assert PlaceHonest(k.pubs[q], k.p, k.sent, k.orphans);
    }
  }

  lemma SendKeepsInv(k: Core, pid: Pid, ok: bool)
    requires CoreInv(k) && pid in k.pubs && k.pubs[pid].Appended?
    ensures CoreInv(SendCore(k, pid, ok))
  {
    var d := SendCore(k, pid, ok);
    MovingKeepsOwners(k.owner, k.pubs, k.lastSeq, pid, d.pubs[pid]);
    assert forall t :: t in k.p.fates ==> HonestFate(t, k.p.fates[t], k.sent);
    forall q | q in d.pubs ensures PlaceHonest(d.pubs[q], d.p, d.sent, d.orphans) {
      assert PlaceHonest(k.pubs[q], k.p, k.sent, k.orphans);
    }
    forall t | t in k.orphans ensures k.owner[t] != pid {
    }
  }

  lemma ReceivedIsHonest(c: Chan, pid: Pid)
    requires CoreInv(c.core) && Enabled(c, Receive(pid))
    ensures PlaceHonest(ApplyReceive(c, pid).core.pubs[pid], c.core.p, c.core.sent, c.core.orphans)
  {
    assert PlaceHonest(c.core.pubs[pid], c.core.p, c.core.sent, c.core.orphans);
    assert c.core.pubs[pid].seq_ !in c.core.p.list;
  }

  lemma ReceiveKeepsInv(c: Chan, pid: Pid)
    requires CoreInv(c.core) && Enabled(c, Receive(pid))
    ensures CoreInv(ApplyReceive(c, pid).core)
  {
    hide CoreInv;
    ReceivedIsHonest(c, pid);
    MovingKeepsInv(c.core, pid, ApplyReceive(c, pid).core.pubs[pid]);
  }

  /** Giving up on a record that the bounded scan missed leaves it listed, as an orphan. */
  lemma AbandonKeepsInv(k: Core, pid: Pid, s: nat)
    requires CoreInv(k) && pid in k.pubs && k.pubs[pid] == Cleaning(s, PublishError, 1)
    ensures CoreInv(Move(k.(orphans := k.orphans + {s}), pid, Returned(Some(s), ErrPublish)))
  {
    var d := Move(k.(orphans := k.orphans + {s}), pid, Returned(Some(s), ErrPublish));
    MovingKeepsOwners(k.owner, k.pubs, k.lastSeq, pid, d.pubs[pid]);
    forall q | q in d.pubs ensures PlaceHonest(d.pubs[q], d.p, d.sent, d.orphans) {
      assert PlaceHonest(k.pubs[q], k.p, k.sent, k.orphans);
    }
    forall t | t in k.orphans ensures k.owner[t] != pid {
    }
  }

  /** What any removal keeps: at most one record is withdrawn. */
  ghost predicate OnlyWithdraws(p: Pending, q: Pending) {
    && Inv(q) && Issued(q) == Issued(p) && Extends(p, q)
    && (forall t :: t in q.list ==> t in p.list)
    && (forall t :: t in q.fates ==> t in p.fates || q.fates[t] == Withdrawn)
  }

  lemma PopEffect(p: Pending, s: nat)
    requires Inv(p)
    ensures OnlyWithdraws(p, PopTailIfMatch(p, s).0)
    ensures if PopTailIfMatch(p, s).1 then s !in PopTailIfMatch(p, s).0.list else PopTailIfMatch(p, s).0 == p
  {
    RemovalKeepsInv(p, PopTailIfMatch(p, s).0, |p.list| - 1);
  }

  lemma NearbyEffect(p: Pending, s: nat)
    requires Inv(p)
    ensures OnlyWithdraws(p, RemoveTailNearby(p, s, TAIL_SCAN_LIMIT).0)
    ensures var (q, hit) := RemoveTailNearby(p, s, TAIL_SCAN_LIMIT);
            if hit then s !in q.list else q == p
  {
    RemovalKeepsInv(p, RemoveTailNearby(p, s, TAIL_SCAN_LIMIT).0, FindBack(p.list, s, TAIL_SCAN_LIMIT));
  }

  lemma ByTagEffect(p: Pending, s: nat)
    requires Inv(p)
    ensures OnlyWithdraws(p, RemoveByTag(p, s).0) && s !in RemoveByTag(p, s).0.list
  {
    RemovalKeepsInv(p, RemoveByTag(p, s).0, FindFirst(p.list, s));
  }

  /** Where the removal of this stage looks, and what it leaves. */
  lemma RemovalEffect(k: Core, s: nat, cause: Cause, stage: nat)
    requires Inv(k.p) && stage <= 2
    ensures var (q, over) := Removal(k, s, cause, stage);
            && OnlyWithdraws(k.p, q)
            && (over && s in q.list ==> cause == PublishError && stage == 1 && q == k.p)
  {
    hide RemoveTailNearby;
    hide RemoveByTag;
    hide PopTailIfMatch;
    PopEffect(k.p, s);
    NearbyEffect(k.p, s);
    ByTagEffect(k.p, s);
  }

  /** What a step does to the core, where it is one of these. */
  lemma StepCore(c: Chan, ev: Event)
    requires Enabled(c, ev)
    ensures var d := Apply(c, ev).core;
            && (ev.Reach? ==> d == ReachCore(c.core, ev.pid))
            && (ev.Send? ==> d == SendCore(c.core, ev.pid, ev.ok))
            && (ev.Clean? ==> d == CleanCore(c.core, ev.pid))
            && (ev.Drain? ==> d == AckCore(c.core, MAX_TAG, false))
            && (ev.Route? ==> d == TakeCore(c.core))
  {
    hide ReachCore;
    hide SendCore;
    hide CleanCore;
    hide AckCore;
    hide ApplyReceive;
  }

  /** Every clean-up passes through its stages in order. */
  ghost predicate StagesInOrder(pubs: map<Pid, Pc>) {
    forall q :: q in pubs && pubs[q].Cleaning? ==>
      pubs[q].stage <= 2 && (pubs[q].cause == PublishError ==> pubs[q].stage <= 1)
  }

  lemma CleanKeepsInv(k: Core, pid: Pid)
    requires CoreInv(k) && StagesInOrder(k.pubs) && pid in k.pubs && k.pubs[pid].Cleaning?
    ensures CoreInv(CleanCore(k, pid))
  {
    var Cleaning(s, cause, stage) := k.pubs[pid];
    var (q, over) := Removal(k, s, cause, stage);
    RemovalEffect(k, s, cause, stage);
    if over && s in q.list {
      AbandonKeepsInv(k, pid, s);
    } else {
      SettlingKeepsInv(k, q);
      MovingKeepsInv(k.(p := q), pid, CleanCore(k, pid).pubs[pid]);
    }
  }

  lemma AckingKeepsInv(k: Core, tag: nat, ack: bool)
    requires CoreInv(k) && (ack ==> tag in k.sent)
    ensures CoreInv(AckCore(k, tag, ack))
  {
    AckLEKeepsInv(k.p, tag, ack);
    AckLEEffect(k.p, tag, ack);
    SettlingKeepsInv(k, AckLE(k.p, tag, ack));
  }

  lemma TransitKeepsInv(k: Core, transit: seq<Confirmation>, emitted: set<nat>)
    requires CoreInv(k)
    requires forall i :: 0 <= i < |transit| ==> transit[i].deliveryTag in k.sent
    ensures CoreInv(k.(transit := transit, emitted := emitted))
  {
  }

  ghost predicate ChanInv(c: Chan) {
    CoreInv(c.core) && StagesInOrder(c.core.pubs)
  }

  predicate ByPublisher(ev: Event) {
    ev.Enter? || ev.Append? || ev.Send? || ev.Receive? || ev.Expire? || ev.Cancel? || ev.NoticeClose? || ev.Clean?
  }

  /** A step moves the publisher it belongs to, and no other. */
  ghost predicate MovesOnly(c: Chan, ev: Event)
    requires Enabled(c, ev)
  {
    if ByPublisher(ev) then
      ev.pid in Apply(c, ev).core.pubs &&
      Apply(c, ev).core.pubs == c.core.pubs[ev.pid := Apply(c, ev).core.pubs[ev.pid]]
    else Apply(c, ev).core.pubs == c.core.pubs
  }

  lemma CleanMoves(c: Chan, ev: Event)
    requires Enabled(c, ev) && ev.Clean?
    ensures MovesOnly(c, ev)
  {
  }

  lemma ReceiveMoves(c: Chan, ev: Event)
    requires Enabled(c, ev) && ev.Receive?
    ensures MovesOnly(c, ev)
  {
  }

  lemma StepMoves(c: Chan, ev: Event)
    requires Enabled(c, ev)
    ensures MovesOnly(c, ev)
  {
    if ev.Clean? {
      CleanMoves(c, ev);
    } else if ev.Receive? {
      ReceiveMoves(c, ev);
    }
  }

  lemma MovingKeepsStages(pubs: map<Pid, Pc>, pid: Pid, pc: Pc)
    requires StagesInOrder(pubs)
    requires pc.Cleaning? ==> pc.stage <= 2 && (pc.cause == PublishError ==> pc.stage <= 1)
    ensures StagesInOrder(pubs[pid := pc])
  {
  }

  lemma CleanKeepsStages(c: Chan, pid: Pid)
    requires StagesInOrder(c.core.pubs) && Enabled(c, Clean(pid))
    ensures var pc := ApplyClean(c, pid).core.pubs[pid];
            pc.Cleaning? ==> pc.stage <= 2 && (pc.cause == PublishError ==> pc.stage <= 1)
  {
  }

  lemma StepKeepsStages(c: Chan, ev: Event)
    requires StagesInOrder(c.core.pubs) && Enabled(c, ev)
    ensures StagesInOrder(Apply(c, ev).core.pubs)
  {
    StepMoves(c, ev);
    if ev.Clean? {
      CleanKeepsStages(c, ev.pid);
    }
    if ByPublisher(ev) {
      MovingKeepsStages(c.core.pubs, ev.pid, Apply(c, ev).core.pubs[ev.pid]);
    }
  }

  lemma ArrivalStepKeepsInv(c: Chan, ev: Event)
    requires ChanInv(c) && Enabled(c, ev) && (ev.Enter? || ev.Append?)
    ensures CoreInv(Apply(c, ev).core)
  {
    var k := c.core;
    if ev.Append? && !BadSeq(k, ev.next) {
      AppendKeepsInv(k, ev.pid, ev.next);
    } else {
      ArrivingKeepsInv(k, ev.pid, Apply(c, ev).core.pubs[ev.pid]);
    }
  }

  lemma PublisherStepKeepsInv(c: Chan, ev: Event)
    requires ChanInv(c) && Enabled(c, ev) && ByPublisher(ev) && !ev.Enter? && !ev.Append?
    ensures CoreInv(Apply(c, ev).core)
  {
    hide CoreInv;
    if ev.Send? {
      SendKeepsInv(c.core, ev.pid, ev.ok);
    } else if ev.Receive? {
      ReceiveKeepsInv(c, ev.pid);
    } else if ev.Clean? {
      CleanKeepsInv(c.core, ev.pid);
    } else {
      MovingKeepsInv(c.core, ev.pid, Apply(c, ev).core.pubs[ev.pid]);
    }
  }

  lemma RouteKeepsInv(c: Chan, fused: bool)
    requires CoreInv(c.core) && c.core.transit != []
    ensures CoreInv(ApplyRoute(c, fused).core)
  {
    var k := c.core;
    TransitKeepsInv(k, k.transit[1..], k.emitted);
    AckingKeepsInv(k.(transit := k.transit[1..]), k.transit[0].deliveryTag, k.transit[0].ack);
  }

  lemma StepKeepsInv(c: Chan, ev: Event)
    requires ChanInv(c) && Enabled(c, ev)
    ensures ChanInv(Apply(c, ev))
  {
    StepKeepsStages(c, ev);
    if ev.Enter? || ev.Append? {
      ArrivalStepKeepsInv(c, ev);
    } else if ByPublisher(ev) {
      PublisherStepKeepsInv(c, ev);
    } else if ev.Route? {
      RouteKeepsInv(c, ev.fused);
    } else if ev.Reach? {
      ReachKeepsInv(c.core, ev.pid);
    } else if ev.Emit? {
      TransitKeepsInv(c.core, Apply(c, ev).core.transit, Apply(c, ev).core.emitted);
    } else if ev.Drain? {
      AckingKeepsInv(c.core, MAX_TAG, false);
    }
  }

  lemma {:induction false} RunKeepsInv(threshold: nat, evs: seq<Event>)
    requires ValidRun(Init(threshold), evs)
    ensures ChanInv(Run(Init(threshold), evs))
  {
    if evs == [] {
      InitInv(threshold);
    } else {
      RunKeepsInv(threshold, evs[..|evs|-1]);
      StepKeepsInv(Run(Init(threshold), evs[..|evs|-1]), evs[|evs|-1]);
    }
  }

  // ----- What every run promises -----

  /** A publish returns nil only for a record that was published and then settled, while listed,
      by an Ack of a published tag at least as great. */
  lemma {:induction false} NilMeansAcknowledged(threshold: nat, evs: seq<Event>, pid: Pid)
    requires ValidRun(Init(threshold), evs)
    requires pid in Run(Init(threshold), evs).core.pubs
    requires Run(Init(threshold), evs).core.pubs[pid].Returned?
    requires Run(Init(threshold), evs).core.pubs[pid].outcome == NilError
    ensures var k := Run(Init(threshold), evs).core;
            && k.pubs[pid].tag.Some?
            && var s := k.pubs[pid].tag.value;
               && s in k.sent && s in k.p.fates
               && k.p.fates[s].Confirmed? && k.p.fates[s].ack
               && s <= k.p.fates[s].via && k.p.fates[s].via in k.sent
  {
    RunKeepsInv(threshold, evs);
    var k := Run(Init(threshold), evs).core;
    assert PlaceHonest(k.pubs[pid], k.p, k.sent, k.orphans);
    assert HonestFate(k.pubs[pid].tag.value, k.p.fates[k.pubs[pid].tag.value], k.sent);
  }

  /** No confirmation outruns its record: the tag of every confirmation on its way was appended
      before, and if its record still waits when the router takes it, that record is settled by it. */
  lemma {:induction false} NoConfirmIsLost(threshold: nat, evs: seq<Event>, fused: bool)
    requires ValidRun(Init(threshold), evs) && Enabled(Run(Init(threshold), evs), Route(fused))
    ensures var c := Run(Init(threshold), evs);
            var m := c.core.transit[0];
            var q := Apply(c, Route(fused)).core.p;
            && m.deliveryTag in Issued(c.core.p)
            && m.deliveryTag in q.fates
            && (m.deliveryTag in c.core.p.list ==> q.fates[m.deliveryTag] == Confirmed(m.ack, m.deliveryTag))
            && (m.deliveryTag !in c.core.p.list ==> q.fates[m.deliveryTag] == c.core.p.fates[m.deliveryTag])
  {
    RunKeepsInv(threshold, evs);
    var k := Run(Init(threshold), evs).core;
    AckLEEffect(k.p, k.transit[0].deliveryTag, k.transit[0].ack);
    assert k.transit[0].deliveryTag in k.owner;
  }

  /** After a return the record is delisted, except that a failed publish may leave an orphan. */
  lemma {:induction false} ReturnedMeansDelisted(threshold: nat, evs: seq<Event>, pid: Pid)
    requires ValidRun(Init(threshold), evs)
    requires pid in Run(Init(threshold), evs).core.pubs
    requires Run(Init(threshold), evs).core.pubs[pid].Returned?
    ensures var k := Run(Init(threshold), evs).core;
            k.pubs[pid].tag.Some? && k.pubs[pid].outcome != ErrPublish ==>
              k.pubs[pid].tag.value !in k.p.list && k.pubs[pid].tag.value in k.p.fates
  {
    RunKeepsInv(threshold, evs);
    var k := Run(Init(threshold), evs).core;
    assert PlaceHonest(k.pubs[pid], k.p, k.sent, k.orphans);
    if k.pubs[pid].tag.Some? {
      assert k.pubs[pid].tag.value in k.owner;
    }
  }

  /** When the bounded scan of a failed publish is over the publish returns, and its record is still
      listed exactly when it was, with 1024 or more later tags behind it. */
  lemma {:induction false} OrphanIffScanTooShort(threshold: nat, evs: seq<Event>, pid: Pid, s: nat)
    requires ValidRun(Init(threshold), evs)
    requires pid in Run(Init(threshold), evs).core.pubs
    requires Run(Init(threshold), evs).core.pubs[pid] == Cleaning(s, PublishError, 1)
    ensures var c := Run(Init(threshold), evs);
            var k := Apply(c, Clean(pid)).core;
            && k.pubs[pid] == Returned(Some(s), ErrPublish)
            && (s in k.p.list <==> ManyBehind(c.core.p.list, s))
  {
    hide RemoveTailNearby;
    hide CoreInv;
    RunKeepsInv(threshold, evs);
    var k := Run(Init(threshold), evs).core;
    ListIsSorted(k);
    BoundedScanLeaves(k.p, s);
  }

  lemma ListIsSorted(k: Core)
    requires CoreInv(k)
    ensures Inv(k.p)
  {
  }

  lemma BoundedScanLeaves(p: Pending, s: nat)
    requires Inv(p)
    ensures s in RemoveTailNearby(p, s, TAIL_SCAN_LIMIT).0.list <==> ManyBehind(p.list, s)
    ensures !RemoveTailNearby(p, s, TAIL_SCAN_LIMIT).1 ==> RemoveTailNearby(p, s, TAIL_SCAN_LIMIT).0 == p
  {
    SortedIsRising(p.list);
    if s in p.list {
      var i :| 0 <= i < |p.list| && p.list[i] == s;
      NearbyFindsIff(p, i, TAIL_SCAN_LIMIT);
    }
  }

  /** The tag is listed, and 1024 or more are listed behind it. */
  predicate ManyBehind(list: seq<nat>, s: nat) {
    exists i :: 0 <= i < |list| && list[i] == s && |list| - 1 - i >= 1024
  }

  // ----- A run that leaves an orphan -----

  function TagsUpTo(n: nat): seq<nat> {
    if n == 0 then [] else TagsUpTo(n - 1) + [n]
  }

  lemma {:induction false} TagsUpToAre(n: nat)
    ensures |TagsUpTo(n)| == n && forall i :: 0 <= i < n ==> TagsUpTo(n)[i] == i + 1
  {
    if n == 0 {
    } else {
      TagsUpToAre(n - 1);
    }
  }

  lemma RunNext(c: Chan, evs: seq<Event>, ev: Event)
    requires ValidRun(c, evs) && Enabled(Run(c, evs), ev)
    ensures ValidRun(c, evs + [ev]) && Run(c, evs + [ev]) == Apply(Run(c, evs), ev)
  {
    assert (evs + [ev])[..|evs|] == evs;
  }

  /** Publisher 0 has tag 1 and its publish has just failed; `n` others have published since. */
  ghost predicate Crowded(c: Chan, n: nat) {
    && Usable(c) && c.core.lastSeq == n + 1 && c.core.mu == None && c.core.p == Pending(TagsUpTo(n + 1), map[])
    && 0 in c.core.pubs && c.core.pubs[0] == Cleaning(1, PublishError, 0)
    && (forall q :: q in c.core.pubs ==> q <= n)
  }

  lemma FirstPublishFails(threshold: nat) returns (evs: seq<Event>)
    ensures ValidRun(Init(threshold), evs) && Crowded(Run(Init(threshold), evs), 0)
  {
    var c := Init(threshold);
    RunNext(c, [], Enter(0));
    RunNext(c, [] + [Enter(0)], Append(0, 1));
    RunNext(c, [] + [Enter(0)] + [Append(0, 1)], Send(0, false));
    evs := [] + [Enter(0)] + [Append(0, 1)] + [Send(0, false)];
    assert TagsUpTo(1) == [1] by { assert TagsUpTo(0) == []; }
  }

  lemma OneMorePublishes(c: Chan, evs: seq<Event>, n: nat) returns (more: seq<Event>)
    requires ValidRun(c, evs) && Crowded(Run(c, evs), n) && n + 2 <= MAX_TAG
    ensures ValidRun(c, more) && Crowded(Run(c, more), n + 1)
  {
    var pid := n + 1;
    RunNext(c, evs, Enter(pid));
    RunNext(c, evs + [Enter(pid)], Append(pid, n + 2));
    RunNext(c, evs + [Enter(pid)] + [Append(pid, n + 2)], Send(pid, true));
    more := evs + [Enter(pid)] + [Append(pid, n + 2)] + [Send(pid, true)];
  }

  lemma {:induction false} ManyPublish(threshold: nat, n: nat) returns (evs: seq<Event>)
    requires n + 1 <= MAX_TAG
    ensures ValidRun(Init(threshold), evs) && Crowded(Run(Init(threshold), evs), n)
  {
    if n == 0 {
      evs := FirstPublishFails(threshold);
    } else {
      evs := ManyPublish(threshold, n - 1);
      evs := OneMorePublishes(Init(threshold), evs, n - 1);
    }
  }

  /** It happens: with 1024 publishes behind it, a failed publish returns and its record stays. */
  lemma AnOrphanCanBeLeft(threshold: nat) returns (evs: seq<Event>)
    ensures ValidRun(Init(threshold), evs)
    ensures var k := Run(Init(threshold), evs).core;
            0 in k.pubs && k.pubs[0] == Returned(Some(1), ErrPublish) && 1 in k.p.list
  {
    var c := Init(threshold);
    evs := ManyPublish(threshold, 1024);
    TagsUpToAre(1025);
    assert Run(c, evs).core.p.list[0] == 1;
    RunNext(c, evs, Clean(0));
    evs := evs + [Clean(0)];
    OrphanIffScanTooShort(threshold, evs, 0, 1);
    RunNext(c, evs, Clean(0));
    evs := evs + [Clean(0)];
  }

  /** Whether the outcome means that the channel is of no more use. */
  predicate IsFatal(outcome: Outcome) {
    outcome == ErrNack || outcome == ErrBadSeq || outcome == ErrPublish
  }

  ghost predicate FatalMeansRetired(c: Chan) {
    forall q :: q in c.core.pubs && c.core.pubs[q].Returned? && IsFatal(c.core.pubs[q].outcome) ==> c.closed && c.broken
  }

  lemma RetiredStays(c: Chan, ev: Event)
    requires Enabled(c, ev)
    ensures c.closed ==> Apply(c, ev).closed
    ensures c.broken ==> Apply(c, ev).broken
  {
    hide AppendCore;
    hide SendCore;
    hide CleanCore;
    hide AckCore;
  }

  lemma FatalReturnRetires(c: Chan, ev: Event)
    requires Enabled(c, ev) && ByPublisher(ev)
    ensures var d := Apply(c, ev);
            && ev.pid in d.core.pubs
            && var pc := d.core.pubs[ev.pid];
               pc.Returned? && IsFatal(pc.outcome) ==> d.closed && d.broken
  {
    hide Removal;
    hide AckCore;
    StepMoves(c, ev);
  }

  /** A Nack, a sequence number that does not rise and a failed publish all retire the channel, and a
      retired channel stays retired. */
  lemma {:induction false} FailuresRetireTheChannel(threshold: nat, evs: seq<Event>)
    requires ValidRun(Init(threshold), evs)
    ensures FatalMeansRetired(Run(Init(threshold), evs))
  {
    if evs == [] {
    } else {
      var (pre, ev) := (evs[..|evs|-1], evs[|evs|-1]);
      var c := Run(Init(threshold), pre);
      FailuresRetireTheChannel(threshold, pre);
      StepMoves(c, ev);
      RetiredStays(c, ev);
      if ByPublisher(ev) {
        FatalReturnRetires(c, ev);
      }
    }
  }

  /** From the moment a channel is closed or broken, whoever comes is turned away and gets no tag. */
  lemma {:induction false} UnusableAdmitsNobody(threshold: nat, evs: seq<Event>, k: nat, pid: Pid)
    requires k <= |evs| && ValidRun(Init(threshold), evs)
    requires !Usable(Run(Init(threshold), evs[..k])) && pid !in Run(Init(threshold), evs[..k]).core.pubs
    ensures !Usable(Run(Init(threshold), evs))
    ensures var pubs := Run(Init(threshold), evs).core.pubs;
            pid in pubs ==> pubs[pid] == Returned(None, ErrUnusable)
  {
    if k < |evs| {
      var (pre, ev) := (evs[..|evs|-1], evs[|evs|-1]);
      assert pre[..k] == evs[..k];
      UnusableAdmitsNobody(threshold, pre, k, pid);
      RetiredStays(Run(Init(threshold), pre), ev);
      StepMoves(Run(Init(threshold), pre), ev);
      TurnedAway(Run(Init(threshold), pre), ev, pid);
    } else {
      assert evs[..k] == evs;
    }
  }

  lemma TurnedAway(c: Chan, ev: Event, pid: Pid)
    requires Enabled(c, ev) && !Usable(c) && MovesOnly(c, ev)
    requires pid in c.core.pubs ==> c.core.pubs[pid] == Returned(None, ErrUnusable)
    ensures pid in Apply(c, ev).core.pubs ==> Apply(c, ev).core.pubs[pid] == Returned(None, ErrUnusable)
  {
    if ByPublisher(ev) && ev.pid == pid {
      assert ev.Enter?;
    }
  }
}
