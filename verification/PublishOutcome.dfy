/** What every answer of a publish means, and what retires a channel, over every run of one channel. */
module PublishOutcome {
  import opened Options
  import opened PendingSpec
  import opened ConfirmChannel

  // ----- What a publisher's own events decide -----

  /** A failed publish, a timeout, a cancellation and a closed channel decide what the call returns,
      whatever happens while its record is taken back. */
  function Decides(ev: Event, pid: Pid): seq<Outcome> {
    match ev
    case Send(p, false) => if p == pid then [ErrPublish] else []
    case Expire(p) => if p == pid then [ErrTimeout] else []
    case Cancel(p) => if p == pid then [ErrContext] else []
    case NoticeClose(p) => if p == pid then [ErrClosed] else []
    case _ => []
  }

  function Decided(evs: seq<Event>, pid: Pid): seq<Outcome> {
    if evs == [] then [] else Decided(evs[..|evs|-1], pid) + Decides(evs[|evs|-1], pid)
  }

  predicate IsDecided(o: Outcome) {
    o == ErrPublish || o == ErrTimeout || o == ErrContext || o == ErrClosed
  }

  function ToReturn(cause: Cause): Outcome {
    match cause
    case PublishError => ErrPublish
    case TimedOut(_) => ErrTimeout
    case Cancelled => ErrContext
    case SawClose => ErrClosed
  }

  /** A publisher that cleans up, or has returned, does what was decided; for all others nothing is. */
  ghost predicate Follows(pubs: map<Pid, Pc>, pid: Pid, decided: seq<Outcome>) {
    if pid !in pubs then decided == []
    else
      match pubs[pid]
      case Cleaning(_, cause, _) => decided == [ToReturn(cause)]
      case Returned(_, o) => decided == if IsDecided(o) then [o] else []
      case _ => decided == []
  }

  lemma CleanFollows(c: Chan, pid: Pid, decided: seq<Outcome>)
    requires Enabled(c, Clean(pid)) && Follows(c.core.pubs, pid, decided)
    ensures Follows(CleanCore(c.core, pid).pubs, pid, decided)
  {
    hide Removal;
  }

  lemma ReceiveFollows(c: Chan, pid: Pid, decided: seq<Outcome>)
    requires Enabled(c, Receive(pid)) && Follows(c.core.pubs, pid, decided)
    ensures Follows(ApplyReceive(c, pid).core.pubs, pid, decided)
  {
  }

  lemma StepFollows(c: Chan, ev: Event, pid: Pid, decided: seq<Outcome>)
    requires Enabled(c, ev) && Follows(c.core.pubs, pid, decided)
    ensures Follows(Apply(c, ev).core.pubs, pid, decided + Decides(ev, pid))
  {
    hide CleanCore;
    hide ApplyReceive;
    hide AckCore;
    StepMoves(c, ev);
    assert decided + [] == decided;
    if ev.Clean? {
      StepCore(c, ev);
      CleanFollows(c, ev.pid, if ev.pid == pid then decided else [ToReturn(c.core.pubs[ev.pid].cause)]);
    } else if ev.Receive? && ev.pid == pid {
      ReceiveFollows(c, pid, decided);
    }
  }

  lemma {:induction false} RunFollows(threshold: nat, evs: seq<Event>, pid: Pid)
    requires ValidRun(Init(threshold), evs)
    ensures Follows(Run(Init(threshold), evs).core.pubs, pid, Decided(evs, pid))
  {
    hide Follows;
    hide Apply;
    hide Enabled;
    if evs == [] {
      NothingDecided(threshold, pid);
    } else {
      RunFollows(threshold, evs[..|evs|-1], pid);
      StepFollows(Run(Init(threshold), evs[..|evs|-1]), evs[|evs|-1], pid, Decided(evs[..|evs|-1], pid));
    }
  }

  lemma NothingDecided(threshold: nat, pid: Pid)
    ensures Follows(Init(threshold).core.pubs, pid, [])
  {
  }

  // ----- What an answer says about the record -----

  /** A call that returned without a decision was refused at the start, or answers what became of its
      record. `tried` tells whether it got as far as taking a sequence number. */
  ghost predicate Answers(pc: Pc, fates: map<nat, Fate>, tried: bool) {
    match pc
    case Entering => !tried
    case Returned(None, o) => o == if tried then ErrBadSeq else ErrUnusable
    case Returned(Some(s), o) => !IsDecided(o) ==> s in fates && o == AnswerTo(fates[s])
    case _ => tried
  }

  function AnswerTo(fate: Fate): Outcome {
    match fate
    case Withdrawn => ErrReplyClosed
    case Confirmed(ack, _) => if ack then NilError else ErrNack
  }

  /** The publisher took a sequence number. */
  predicate Tried(evs: seq<Event>, pid: Pid) {
    exists i :: 0 <= i < |evs| && evs[i].Append? && evs[i].pid == pid
  }

  lemma TriedNext(evs: seq<Event>, ev: Event, pid: Pid)
    ensures Tried(evs + [ev], pid) <==> Tried(evs, pid) || (ev.Append? && ev.pid == pid)
  {
    var all := evs + [ev];
    assert all[|evs|] == ev && forall i :: 0 <= i < |evs| ==> all[i] == evs[i];
  }

  /** Fates are for good. */
  lemma StepKeepsFates(c: Chan, ev: Event)
    requires ChanInv(c) && Enabled(c, ev)
    ensures Extends(c.core.p, Apply(c, ev).core.p)
  {
    hide Apply;
    hide CleanCore;
    hide SendCore;
    hide ReachCore;
    StepCore(c, ev);
    if ev.Clean? {
      CleanExtends(c.core, ev.pid);
    } else if ev.Drain? {
      AckLEEffect(c.core.p, MAX_TAG, false);
    } else if ev.Route? {
      AckLEEffect(c.core.p, c.core.transit[0].deliveryTag, c.core.transit[0].ack);
    } else {
      OthersSettleNothing(c, ev);
    }
  }

  lemma CleanExtends(k: Core, pid: Pid)
    requires CoreInv(k) && StagesInOrder(k.pubs) && pid in k.pubs && k.pubs[pid].Cleaning?
    ensures Extends(k.p, CleanCore(k, pid).p)
  {
    RemovalEffect(k, k.pubs[pid].seq_, k.pubs[pid].cause, k.pubs[pid].stage);
  }

  lemma OthersSettleNothing(c: Chan, ev: Event)
    requires Enabled(c, ev) && !ev.Route? && !ev.Clean? && !ev.Drain?
    ensures Apply(c, ev).core.p.fates == c.core.p.fates
  {
    hide TakeCore;
    hide CleanCore;
    hide AckCore;
    hide ApplyReceive;
    if ev.Receive? {
      ReceiveSettlesNothing(c, ev.pid);
    }
  }

  lemma ReceiveSettlesNothing(c: Chan, pid: Pid)
    requires Enabled(c, Receive(pid))
    ensures ApplyReceive(c, pid).core.p == c.core.p
  {
  }

  /** The answer of the one that reads its record. */
  lemma ReceiveAnswers(c: Chan, pid: Pid, tried: bool)
    requires Enabled(c, Receive(pid))
    ensures pid in ApplyReceive(c, pid).core.pubs
    ensures Answers(ApplyReceive(c, pid).core.pubs[pid], c.core.p.fates, tried)
  {
  }

  lemma CleanAnswers(k: Core, pid: Pid, fates: map<nat, Fate>, tried: bool)
    requires pid in k.pubs && k.pubs[pid].Cleaning? && Answers(k.pubs[pid], k.p.fates, tried)
    ensures Answers(CleanCore(k, pid).pubs[pid], fates, tried)
  {
    hide Removal;
  }

  lemma LaterAnswers(pc: Pc, p: Pending, q: Pending, tried: bool)
    requires Answers(pc, p.fates, tried) && Extends(p, q)
    ensures Answers(pc, q.fates, tried)
  {
  }

  lemma StepAnswers(c: Chan, ev: Event, pid: Pid, tried: bool)
    requires ChanInv(c) && Enabled(c, ev)
    requires if pid in c.core.pubs then Answers(c.core.pubs[pid], c.core.p.fates, tried) else !tried
    ensures var d := Apply(c, ev).core;
            var now := tried || (ev.Append? && ev.pid == pid);
            if pid in d.pubs then Answers(d.pubs[pid], d.p.fates, now) else !now
  {
    StepMoves(c, ev);
    StepKeepsFates(c, ev);
    if ev.Clean? && ev.pid == pid {
      StepCore(c, ev);
      CleanAnswers(c.core, pid, Apply(c, ev).core.p.fates, tried);
    } else if ev.Receive? && ev.pid == pid {
      ReceiveAnswers(c, pid, tried);
      ReceiveSettlesNothing(c, pid);
    } else if ByPublisher(ev) && ev.pid == pid {
      OwnStepAnswers(c, ev, tried);
    } else if pid in c.core.pubs {
      LaterAnswers(c.core.pubs[pid], c.core.p, Apply(c, ev).core.p, tried);
    }
  }

  lemma OwnStepAnswers(c: Chan, ev: Event, tried: bool)
    requires Enabled(c, ev) && ByPublisher(ev) && !ev.Clean? && !ev.Receive?
    requires if ev.pid in c.core.pubs then Answers(c.core.pubs[ev.pid], c.core.p.fates, tried) else !tried
    ensures ev.pid in Apply(c, ev).core.pubs
    ensures Answers(Apply(c, ev).core.pubs[ev.pid], Apply(c, ev).core.p.fates, tried || ev.Append?)
  {
  }

  lemma {:induction false} RunAnswers(threshold: nat, evs: seq<Event>, pid: Pid)
    requires ValidRun(Init(threshold), evs)
    ensures var k := Run(Init(threshold), evs).core;
            if pid in k.pubs then Answers(k.pubs[pid], k.p.fates, Tried(evs, pid)) else !Tried(evs, pid)
  {
    hide Answers;
    hide Apply;
    hide Enabled;
    hide Tried;
    if evs == [] {
      NobodyTried(pid);
    } else {
      var (pre, ev) := (evs[..|evs|-1], evs[|evs|-1]);
      RunAnswers(threshold, pre, pid);
      RunKeepsInv(threshold, pre);
      StepAnswers(Run(Init(threshold), pre), ev, pid, Tried(pre, pid));
      assert pre + [ev] == evs;
      TriedNext(pre, ev, pid);
    }
  }

  lemma NobodyTried(pid: Pid)
    ensures !Tried([], pid)
  {
  }

  /** What a publish returns is what its own publish error, timeout, cancellation or closed channel
      decided, once; without any, it is what became of its record; and without a record it is whether it
      took a sequence number. */
  lemma {:induction false} EveryAnswerIsExplained(threshold: nat, evs: seq<Event>, pid: Pid)
    requires ValidRun(Init(threshold), evs)
    requires pid in Run(Init(threshold), evs).core.pubs && Run(Init(threshold), evs).core.pubs[pid].Returned?
    ensures var (k, decided) := (Run(Init(threshold), evs).core, Decided(evs, pid));
            var Returned(tag, o) := k.pubs[pid];
            if tag.None? then o == (if Tried(evs, pid) then ErrBadSeq else ErrUnusable)
            else if decided != [] then decided == [o]
            else
              && tag.value in k.p.fates
              && (o == NilError <==> k.p.fates[tag.value].Confirmed? && k.p.fates[tag.value].ack)
              && (o == ErrNack <==> k.p.fates[tag.value].Confirmed? && !k.p.fates[tag.value].ack)
              && (o == ErrReplyClosed <==> k.p.fates[tag.value] == Withdrawn)
  {
    RunFollows(threshold, evs, pid);
    RunAnswers(threshold, evs, pid);
  }

  // ----- No record is withdrawn behind its publisher's back -----

  /** Whoever's record was withdrawn is cleaning up or has returned. */
  ghost predicate WithdrawnByOwner(k: Core) {
    forall t :: t in k.p.fates && k.p.fates[t] == Withdrawn ==> t in k.owner && IsAtEnd(k.pubs, k.owner[t])
  }

  predicate IsAtEnd(pubs: map<Pid, Pc>, pid: Pid) {
    pid in pubs && (pubs[pid].Cleaning? || pubs[pid].Returned?)
  }

  lemma RemovalTouchesOne(k: Core, s: nat, cause: Cause, stage: nat, t: nat)
    requires Inv(k.p) && t != s && t in Removal(k, s, cause, stage).0.fates
    ensures t in k.p.fates && Removal(k, s, cause, stage).0.fates[t] == k.p.fates[t]
  {
  }

  lemma CleanWithdrawsOwn(k: Core, pid: Pid)
    requires CoreInv(k) && WithdrawnByOwner(k) && pid in k.pubs && k.pubs[pid].Cleaning?
    ensures WithdrawnByOwner(CleanCore(k, pid))
  {
    hide Removal;
    var d := CleanCore(k, pid);
    var Cleaning(s, cause, stage) := k.pubs[pid];
    forall t | t in d.p.fates && d.p.fates[t] == Withdrawn ensures t in d.owner && IsAtEnd(d.pubs, d.owner[t]) {
      if t != s {
        RemovalTouchesOne(k, s, cause, stage, t);
      }
    }
  }

  lemma AckWithdrawsNobody(k: Core, tag: nat, ack: bool)
    requires CoreInv(k) && WithdrawnByOwner(k)
    ensures WithdrawnByOwner(AckCore(k, tag, ack))
  {
    AckLEEffect(k.p, tag, ack);
  }

  /** A tag that is appended has met no fate. */
  lemma AppendWithdrawsNobody(k: Core, pid: Pid, next: nat)
    requires CoreInv(k) && WithdrawnByOwner(k) && pid in k.pubs && k.pubs[pid].Entering? && next > k.lastSeq
    ensures WithdrawnByOwner(AppendCore(k, pid, next))
  {
    forall t | t in k.p.fates ensures t != next {
      assert t in Issued(k.p);
    }
  }

  lemma MovingWithdrawsNobody(k: Core, pid: Pid, pc: Pc)
    requires WithdrawnByOwner(k) && !IsAtEnd(k.pubs, pid)
    ensures WithdrawnByOwner(Move(k, pid, pc))
  {
  }

  lemma MoveWithdrawsNobody(c: Chan, ev: Event)
    requires CoreInv(c.core) && WithdrawnByOwner(c.core) && Enabled(c, ev) && ByPublisher(ev) && !ev.Clean?
    ensures WithdrawnByOwner(Apply(c, ev).core)
  {
    hide CoreInv;
    hide WithdrawnByOwner;
    hide ApplyReceive;
    hide AppendCore;
    var d := Apply(c, ev).core;
    if ev.Receive? {
      ReceiveReturns(c, ev.pid);
      MovingWithdrawsNobody(c.core, ev.pid, d.pubs[ev.pid]);
      SameFatesAndOwners(Move(c.core, ev.pid, d.pubs[ev.pid]), d);
    } else if ev.Append? && !BadSeq(c.core, ev.next) {
      AppendWithdrawsNobody(c.core, ev.pid, ev.next);
    } else {
      MovingWithdrawsNobody(c.core, ev.pid, d.pubs[ev.pid]);
      SameFatesAndOwners(Move(c.core, ev.pid, d.pubs[ev.pid]), d);
    }
  }

  lemma SameFatesAndOwners(k: Core, d: Core)
    requires WithdrawnByOwner(k) && d.p == k.p && d.owner == k.owner && d.pubs == k.pubs
    ensures WithdrawnByOwner(d)
  {
  }

  lemma ReceiveReturns(c: Chan, pid: Pid)
    requires Enabled(c, Receive(pid))
    ensures var d := ApplyReceive(c, pid).core;
            && d.p == c.core.p && d.owner == c.core.owner
            && pid in d.pubs && d.pubs == c.core.pubs[pid := d.pubs[pid]] && d.pubs[pid].Returned?
  {
  }

  lemma StepWithdrawsOwn(c: Chan, ev: Event)
    requires ChanInv(c) && WithdrawnByOwner(c.core) && Enabled(c, ev)
    ensures WithdrawnByOwner(Apply(c, ev).core)
  {
    if ByPublisher(ev) && !ev.Clean? {
      MoveWithdrawsNobody(c, ev);
    } else {
      hide CoreInv;
      hide WithdrawnByOwner;
      hide Apply;
      StepCore(c, ev);
      if ev.Clean? {
        CleanWithdrawsOwn(c.core, ev.pid);
      } else if ev.Route? {
        TakeWithdrawsNobody(c.core);
      } else if ev.Drain? {
        AckWithdrawsNobody(c.core, MAX_TAG, false);
      } else {
        QuietWithdrawsNobody(c, ev);
      }
    }
  }

  lemma TakeWithdrawsNobody(k: Core)
    requires CoreInv(k) && WithdrawnByOwner(k) && k.transit != []
    ensures WithdrawnByOwner(TakeCore(k))
  {
    AckLEEffect(k.p, k.transit[0].deliveryTag, k.transit[0].ack);
  }

  lemma QuietWithdrawsNobody(c: Chan, ev: Event)
    requires WithdrawnByOwner(c.core) && Enabled(c, ev)
    requires !ByPublisher(ev) && !ev.Route? && !ev.Drain?
    ensures WithdrawnByOwner(Apply(c, ev).core)
  {
  }

  lemma {:induction false} RunWithdrawsOwn(threshold: nat, evs: seq<Event>)
    requires ValidRun(Init(threshold), evs)
    ensures WithdrawnByOwner(Run(Init(threshold), evs).core)
  {
    hide Apply;
    hide Enabled;
    if evs == [] {
    } else {
      RunWithdrawsOwn(threshold, evs[..|evs|-1]);
      RunKeepsInv(threshold, evs[..|evs|-1]);
      StepWithdrawsOwn(Run(Init(threshold), evs[..|evs|-1]), evs[|evs|-1]);
    }
  }

  /** A publisher that still waits never finds its record closed without an answer: a record is withdrawn by
      its own publisher only. So the branch that reports a closed record is never taken. */
  lemma {:induction false} NoRecordIsClosedUnanswered(threshold: nat, evs: seq<Event>, pid: Pid)
    requires ValidRun(Init(threshold), evs) && pid in Run(Init(threshold), evs).core.pubs
    ensures var k := Run(Init(threshold), evs).core;
            match k.pubs[pid]
            case Waiting(s) => s in k.p.fates ==> k.p.fates[s].Confirmed?
            case Returned(_, o) => o != ErrReplyClosed
            case _ => true
  {
    hide Apply;
    hide Enabled;
    hide CoreInv;
    if evs == [] {
    } else {
      var (pre, ev) := (evs[..|evs|-1], evs[|evs|-1]);
      var c := Run(Init(threshold), pre);
      RunWithdrawsOwn(threshold, evs);
      RunKeepsInv(threshold, evs);
      WaitingIsOpen(Run(Init(threshold), evs).core, pid);
      if pid in c.core.pubs {
        NoRecordIsClosedUnanswered(threshold, pre, pid);
      }
      StepReportsNoClosedRecord(c, ev, pid);
    }
  }

  lemma WaitingIsOpen(k: Core, pid: Pid)
    requires CoreInv(k) && WithdrawnByOwner(k) && pid in k.pubs
    ensures k.pubs[pid].Waiting? && k.pubs[pid].seq_ in k.p.fates ==> k.p.fates[k.pubs[pid].seq_].Confirmed?
  {
  }

  lemma StepReportsNoClosedRecord(c: Chan, ev: Event, pid: Pid)
    requires Enabled(c, ev) && pid in Apply(c, ev).core.pubs
    requires pid in c.core.pubs && c.core.pubs[pid].Returned? ==> c.core.pubs[pid].outcome != ErrReplyClosed
    requires pid in c.core.pubs && c.core.pubs[pid].Waiting? && c.core.pubs[pid].seq_ in c.core.p.fates ==>
               c.core.p.fates[c.core.pubs[pid].seq_].Confirmed?
    ensures Apply(c, ev).core.pubs[pid].Returned? ==> Apply(c, ev).core.pubs[pid].outcome != ErrReplyClosed
  {
    hide Removal;
    hide AckCore;
    StepMoves(c, ev);
  }

  // ----- Who is let in -----

  /** A newcomer is let in exactly when the channel is neither closed nor broken, and gets a tag exactly
      when the sequence number rises. */
  lemma {:induction false} AdmittedIff(threshold: nat, evs: seq<Event>, pid: Pid, next: nat)
    requires ValidRun(Init(threshold), evs)
    ensures var c := Run(Init(threshold), evs);
            && (Enabled(c, Enter(pid)) ==>
                  var d := Apply(c, Enter(pid));
                  pid in d.core.pubs && (d.core.pubs[pid] == Entering <==> !c.closed && !c.broken))
            && (Enabled(c, Append(pid, next)) ==>
                  var d := Apply(c, Append(pid, next));
                  pid in d.core.pubs && (d.core.pubs[pid] == Appended(next) <==> next > c.core.lastSeq)
                  && (next > c.core.lastSeq ==> d.core.p.list == c.core.p.list + [next]))
  {
  }

  // ----- What retires a channel -----

  /** A publisher has returned for a Nack, a sequence number that does not rise, or a failed publish. */
  ghost predicate FatalReturn(pubs: map<Pid, Pc>) {
    exists q :: q in pubs && IsFatalReturn(pubs[q])
  }

  predicate IsFatalReturn(pc: Pc) {
    pc.Returned? && (pc.outcome == ErrNack || pc.outcome == ErrBadSeq || pc.outcome == ErrPublish)
  }

  ghost predicate FlagsExplained(c: Chan, evs: seq<Event>) {
    && (c.broken <==> Fail(true) in evs || c.retiredAt.Some? || FatalReturn(c.core.pubs))
    && (c.closeSig <==> c.broken || Fail(false) in evs)
    && (c.closed <==> c.closeSig || StopRouting in evs)
  }

  lemma FatalNext(pubs: map<Pid, Pc>, pid: Pid, pc: Pc)
    requires pid in pubs ==> !IsFatalReturn(pubs[pid])
    ensures FatalReturn(pubs[pid := pc]) <==> FatalReturn(pubs) || IsFatalReturn(pc)
  {
    var after := pubs[pid := pc];
    if FatalReturn(pubs) {
      var q :| q in pubs && IsFatalReturn(pubs[q]);
      assert IsFatalReturn(after[q]);
    }
    if IsFatalReturn(pc) {
      assert IsFatalReturn(after[pid]);
    }
  }

  ghost predicate FlagsInOrder(c: Chan) {
    (c.retiredAt.Some? ==> c.broken) && (c.broken ==> c.closeSig) && (c.closeSig ==> c.closed)
  }

  /** How the flags follow the step and what it does to its publisher. */
  ghost predicate FlagsMove(c: Chan, ev: Event, d: Chan) {
    var fatal := ByPublisher(ev) && ev.pid in d.core.pubs && IsFatalReturn(d.core.pubs[ev.pid]);
    && (c.retiredAt.Some? ==> d.retiredAt.Some?)
    && (d.broken <==> c.broken || ev == Fail(true) || d.retiredAt.Some? || fatal)
    && (d.closeSig <==> c.closeSig || d.broken || ev == Fail(false))
    && (d.closed <==> c.closed || d.closeSig || ev == StopRouting)
  }

  lemma CleanMovesFlags(c: Chan, pid: Pid)
    requires FlagsInOrder(c) && Enabled(c, Clean(pid))
    ensures FlagsMove(c, Clean(pid), ApplyClean(c, pid))
  {
    hide Removal;
  }

  lemma ReceiveMovesFlags(c: Chan, pid: Pid)
    requires FlagsInOrder(c) && Enabled(c, Receive(pid))
    ensures FlagsMove(c, Receive(pid), ApplyReceive(c, pid))
  {
  }

  lemma StepMovesFlags(c: Chan, ev: Event)
    requires FlagsInOrder(c) && Enabled(c, ev)
    ensures FlagsMove(c, ev, Apply(c, ev))
    ensures ByPublisher(ev) && ev.pid in c.core.pubs ==> !IsFatalReturn(c.core.pubs[ev.pid])
  {
    hide ApplyClean;
    hide ApplyReceive;
    hide AckCore;
    if ev.Clean? {
      CleanMovesFlags(c, ev.pid);
    } else if ev.Receive? {
      ReceiveMovesFlags(c, ev.pid);
    }
  }

  lemma StepExplainsFlags(c: Chan, evs: seq<Event>, ev: Event)
    requires Enabled(c, ev) && FlagsExplained(c, evs)
    ensures FlagsExplained(Apply(c, ev), evs + [ev])
  {
    hide Apply;
    hide Enabled;
    var d := Apply(c, ev);
    StepMovesFlags(c, ev);
    StepMoves(c, ev);
    if ByPublisher(ev) {
      FatalNext(c.core.pubs, ev.pid, d.core.pubs[ev.pid]);
    }
  }

  /** A channel is broken exactly when its failure marked it, or timeouts retired it, or a publish returned
      for a Nack, a sequence number that does not rise or a publish error; its publishers are told to go
      exactly when it is broken or its context ended; it is closed exactly then or when its router ended. */
  lemma {:induction false} RetiredIff(threshold: nat, evs: seq<Event>)
    requires ValidRun(Init(threshold), evs)
    ensures FlagsExplained(Run(Init(threshold), evs), evs)
  {
    hide FlagsExplained;
    hide Apply;
    hide Enabled;
    if evs == [] {
      NoFlags(threshold);
    } else {
      var (pre, ev) := (evs[..|evs|-1], evs[|evs|-1]);
      RetiredIff(threshold, pre);
      StepExplainsFlags(Run(Init(threshold), pre), pre, ev);
      assert pre + [ev] == evs;
    }
  }

  lemma NoFlags(threshold: nat)
    ensures FlagsExplained(Init(threshold), [])
  {
  }

  // ----- The router -----

  /** When the router is gone, nobody that had appended before waits in vain: the list is empty, and every
      record that was listed is refused. */
  lemma {:induction false} DrainRefusesEverybody(threshold: nat, evs: seq<Event>, t: nat)
    requires ValidRun(Init(threshold), evs) && Enabled(Run(Init(threshold), evs), Drain)
    ensures var (c, d) := (Run(Init(threshold), evs), Apply(Run(Init(threshold), evs), Drain));
            && d.core.p.list == []
            && (t in c.core.p.list ==> t in d.core.p.fates && d.core.p.fates[t] == Confirmed(false, MAX_TAG))
            && (t in c.core.p.fates ==> t in d.core.p.fates && d.core.p.fates[t] == c.core.p.fates[t])
  {
    RunKeepsInv(threshold, evs);
    var k := Run(Init(threshold), evs).core;
    AckLEEffect(k.p, MAX_TAG, false);
    forall s | s in k.p.list ensures s <= MAX_TAG {
      assert s in k.owner;
    }
    assert forall i :: 0 <= i < |k.p.list| ==> k.p.list[i] in k.p.list;
  }

  // ----- Runs that return -----

  /** Publisher 0 waits for its answer, alone. */
  ghost predicate WaitsAlone(c: Chan) {
    && Usable(c) && !c.closeSig && c.router == Routing && c.consecTO == 0 && c.retiredAt == None
    && c.core.p == Pending([1], map[]) && c.core.lastSeq == 1 && c.core.mu == None
    && c.core.pubs == map[0 := Waiting(1)] && c.core.transit == [] && c.core.sent == {1}
  }

  lemma OnePublishes(threshold: nat) returns (evs: seq<Event>)
    ensures ValidRun(Init(threshold), evs) && WaitsAlone(Run(Init(threshold), evs))
  {
    var c := Init(threshold);
    RunNext(c, [], Enter(0));
    evs := [Enter(0)];
    hide Run;
    hide ValidRun;
    RunNext(c, evs, Append(0, 1));
    evs := evs + [Append(0, 1)];
    RunNext(c, evs, Send(0, true));
    evs := evs + [Send(0, true)];
  }

  ghost predicate Returns(threshold: nat, evs: seq<Event>, o: Outcome) {
    && ValidRun(Init(threshold), evs)
    && var pubs := Run(Init(threshold), evs).core.pubs;
       0 in pubs && pubs[0].Returned? && pubs[0].outcome == o
  }

  lemma AnAnswerReturns(threshold: nat, ack: bool) returns (evs: seq<Event>)
    ensures Returns(threshold, evs, if ack then NilError else ErrNack)
    ensures ack ==> Usable(Run(Init(threshold), evs)) && Run(Init(threshold), evs).core.p.list == []
  {
    var c := Init(threshold);
    evs := OnePublishes(threshold);
    hide Run;
    hide ValidRun;
    RunNext(c, evs, Emit(1, ack));
    evs := evs + [Emit(1, ack)];
    RunNext(c, evs, Route(true));
    evs := evs + [Route(true)];
    SettlesTheFirst(ack);
    RunNext(c, evs, Receive(0));
    evs := evs + [Receive(0)];
  }

  lemma SettlesTheFirst(ack: bool)
    ensures AckLE(Pending([1], map[]), 1, ack) == Pending([], map[1 := Confirmed(ack, 1)])
    ensures PrefixLE([1], 1) == 1
  {
    assert PrefixLE([], 1) == 0 && [1][1..] == [] && [1][..1] == [1];
    assert Settle(map[], [1], Confirmed(ack, 1)) == map[1 := Confirmed(ack, 1)] by {
      assert [1][..0] == [] && Settle(map[], [], Confirmed(ack, 1)) == map[];
    }
  }

  lemma ACleanUpReturns(threshold: nat, ev: Event) returns (evs: seq<Event>)
    requires ev == Expire(0) || ev == Cancel(0)
    ensures Returns(threshold, evs, if ev.Expire? then ErrTimeout else ErrContext)
  {
    var c := Init(threshold);
    evs := OnePublishes(threshold);
    hide Run;
    hide ValidRun;
    RunNext(c, evs, ev);
    evs := evs + [ev];
    RunNext(c, evs, Clean(0));
    evs := evs + [Clean(0)];
  }

  lemma AClosedChannelReturns(threshold: nat) returns (evs: seq<Event>)
    ensures Returns(threshold, evs, ErrClosed)
  {
    var c := Init(threshold);
    evs := OnePublishes(threshold);
    hide Run;
    hide ValidRun;
    RunNext(c, evs, Fail(false));
    evs := evs + [Fail(false)];
    RunNext(c, evs, NoticeClose(0));
    evs := evs + [NoticeClose(0)];
    RunNext(c, evs, Clean(0));
    evs := evs + [Clean(0)];
  }

  lemma AnEarlyEndReturns(threshold: nat, o: Outcome) returns (evs: seq<Event>)
    requires o == ErrUnusable || o == ErrBadSeq || o == ErrPublish
    ensures Returns(threshold, evs, o)
  {
    var c := Init(threshold);
    var first := if o == ErrUnusable then Fail(true) else Enter(0);
    RunNext(c, [], first);
    evs := [first];
    hide Run;
    hide ValidRun;
    if o == ErrUnusable {
      RunNext(c, evs, Enter(0));
      evs := evs + [Enter(0)];
    } else if o == ErrBadSeq {
      RunNext(c, evs, Append(0, 0));
      evs := evs + [Append(0, 0)];
    } else {
      RunNext(c, evs, Append(0, 1));
      evs := evs + [Append(0, 1)];
      RunNext(c, evs, Send(0, false));
      evs := evs + [Send(0, false)];
      RunNext(c, evs, Clean(0));
      evs := evs + [Clean(0)];
    }
  }

  /** Every outcome but the one that is never returned is returned in some run, whatever the threshold. */
  lemma EveryOtherOutcomeHappens(threshold: nat, o: Outcome) returns (evs: seq<Event>)
    requires o != ErrReplyClosed
    ensures Returns(threshold, evs, o)
  {
    hide Returns;
    match o {
      case NilError => evs := AnAnswerReturns(threshold, true);
      case ErrNack => evs := AnAnswerReturns(threshold, false);
      case ErrTimeout => evs := ACleanUpReturns(threshold, Expire(0));
      case ErrContext => evs := ACleanUpReturns(threshold, Cancel(0));
      case ErrClosed => evs := AClosedChannelReturns(threshold);
      case _ => evs := AnEarlyEndReturns(threshold, o);
    }
  }
}
