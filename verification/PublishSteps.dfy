/** The sections of `publishWithConfirm` and of the confirm router on the shared list itself, each as
    one uninterrupted method. */
module PublishSteps {
  import opened Options
  import PendingSpec
  import opened PendingList

  datatype Reply = Withdrawn | Replied(ack: bool)

  datatype PublishResult = Nil | ErrNack | ErrReplyClosed

  /** A publish that failed finds its record in the tail, or gives up: what is left then. */
  ghost function AfterBoundedScan(p: PendingSpec.Pending, seq_: nat): PendingSpec.Pending {
    if NearTail(p.list, seq_) then PendingSpec.Delete(p, seq_) else p
  }

  /** The tag waits, and fewer than 1024 wait behind it. */
  predicate NearTail(list: seq<nat>, tag: nat) {
    exists i :: 0 <= i < |list| && list[i] == tag && |list| - 1 - i < 1024
  }

  lemma BoundedScanEffect(p: PendingSpec.Pending, seq_: nat)
    requires PendingSpec.Inv(p)
    ensures var (q, hit) := PendingSpec.PopTailIfMatch(p, seq_);
            q == if hit then AfterBoundedScan(p, seq_) else p
    ensures PendingSpec.RemoveTailNearby(p, seq_, PendingSpec.TAIL_SCAN_LIMIT).0 == AfterBoundedScan(p, seq_)
  {
    PendingSpec.SortedIsRising(p.list);
    PendingSpec.RemovalChainRefinesDelete(p, seq_, PendingSpec.TAIL_SCAN_LIMIT);
    if seq_ in p.list {
      var i :| 0 <= i < |p.list| && p.list[i] == seq_;
      PendingSpec.NearbyFindsIff(p, i, PendingSpec.TAIL_SCAN_LIMIT);
    }
  }

  lemma TiedModel(pending: PendingList)
    requires pending.Valid()
    ensures PendingSpec.Inv(pending.model)
  {
  }

  class ConfirmChan {
    const pending: PendingList
    var lastSeq: Tag
    var consecTO: int
    var closed: bool
    var broken: bool
    var closeSig: bool

    constructor ()
      ensures fresh(pending) && pending.Valid() && pending.model == PendingSpec.EMPTY && pending.recs == {}
      ensures lastSeq == 0 && consecTO == 0 && !closed && !broken && !closeSig
    {
      pending := new PendingList();
      lastSeq, consecTO := 0, 0;
      closed, broken, closeSig := false, false, false;
    }

    method Close()
      modifies this`closed, this`closeSig
      ensures closed && closeSig
    {
      closed, closeSig := true, true;
    }

    method Retire()
      modifies this`closed, this`closeSig, this`broken
      ensures closed && closeSig && broken
    {
      broken := true;
      Close();
    }

    /** Under the publish lock: a sequence number that does not rise retires the channel; otherwise the
        record is in the list before anything is sent. */
    method Append(next: Tag) returns (rec: PendingRec?)
      requires pending.Valid() && forall t :: t in pending.issued ==> 1 <= t <= lastSeq
      modifies this, pending
      ensures pending.Valid()
      ensures rec == null <==> next == 0 || (old(lastSeq) != 0 && next <= old(lastSeq))
      ensures rec == null ==> broken && closed && lastSeq == old(lastSeq) && pending.model == old(pending.model)
      ensures rec != null ==>
                && broken == old(broken) && closed == old(closed) && lastSeq == next
                && fresh(rec) && rec.tag == next && next in pending.issued && pending.issued[next] == rec
                && pending.model == PendingSpec.Add(old(pending.model), next)
      ensures forall t :: t in pending.issued ==> 1 <= t <= lastSeq
    {
      if next == 0 {
        Retire();
        return null;
      }
      if lastSeq != 0 && next <= lastSeq {
        Retire();
        return null;
      }
      lastSeq := next;
      rec := new PendingRec(next);
      pending.Add(next, rec);
    }

    /** A failed publish: the exact tail if nothing was appended since, else the bounded scan; in any
        case the channel is retired. */
    method AfterPublishError(seq_: nat)
      requires pending.Valid()
      modifies this, pending, pending.recs
      ensures pending.Valid() && pending.model == AfterBoundedScan(old(pending.model), seq_)
      ensures broken && closed && closeSig && lastSeq == old(lastSeq) && consecTO == old(consecTO)
    {
      hide Tied;
      hide AfterBoundedScan;
      hide PendingSpec.PopTailIfMatch;
      hide PendingSpec.RemoveTailNearby;
      TiedModel(pending);
      BoundedScanEffect(pending.model, seq_);
      if lastSeq == seq_ {
        var popped := pending.PopTailIfMatch(seq_);
        if popped {
          Retire();
          return;
        }
      }
      var found := pending.RemoveTailNearby(seq_, PendingSpec.TAIL_SCAN_LIMIT);
      if found {
        Retire();
        return;
      }
      Retire();
    }

    /** The three removals tried in turn delete the record of this publish and no other. */
    method CleanUp(seq_: nat)
      requires pending.Valid()
      modifies pending, pending.recs
      ensures pending.Valid() && pending.model == PendingSpec.Delete(old(pending.model), seq_)
      ensures seq_ !in pending.model.list
    {
      PendingSpec.RemovalChainRefinesDelete(pending.model, seq_, PendingSpec.TAIL_SCAN_LIMIT);
      var popped := pending.PopTailIfMatch(seq_);
      if !popped {
        var found := pending.RemoveTailNearby(seq_, PendingSpec.TAIL_SCAN_LIMIT);
        if !found {
          var _ := pending.RemoveByTag(seq_);
        }
      }
    }

    /** A confirm timeout: counted first, cleaned up, and the channel retired at the threshold. */
    method AfterTimeout(seq_: nat, threshold: int)
      requires pending.Valid()
      modifies this, pending, pending.recs
      ensures pending.Valid() && pending.model == PendingSpec.Delete(old(pending.model), seq_)
      ensures consecTO == old(consecTO) + 1 && lastSeq == old(lastSeq)
      ensures broken == (old(broken) || (0 < threshold <= consecTO))
      ensures closed == (old(closed) || (0 < threshold <= consecTO))
    {
      consecTO := consecTO + 1;
      var count := consecTO;
      CleanUp(seq_);
      if threshold > 0 && count >= threshold {
        Retire();
      }
    }

    /** What the publisher makes of its own record's channel. */
    method AfterReply(reply: Reply) returns (r: PublishResult)
      modifies this
      ensures r == Nil <==> reply == Replied(true)
      ensures r == ErrNack <==> reply == Replied(false)
      ensures consecTO == (if reply.Replied? then 0 else old(consecTO)) && lastSeq == old(lastSeq)
      ensures broken == (old(broken) || r == ErrNack) && closed == (old(closed) || r == ErrNack)
    {
      match reply {
        case Withdrawn => r := ErrReplyClosed;
        case Replied(ack) =>
          consecTO := 0;
          if !ack {
            Retire();
            r := ErrNack;
          } else {
            r := Nil;
          }
      }
    }

    /** One confirmation: everything up to its tag is woken; an Ack that woke somebody clears the
        timeout count, one that comes too late does not. */
    method OnConfirm(tag: nat, ack: bool) returns (handled: nat)
      requires pending.Valid()
      modifies this`consecTO, pending, pending.recs
      ensures pending.Valid() && pending.model == PendingSpec.AckLE(old(pending.model), tag, ack)
      ensures handled == |old(pending.model).list| - |pending.model.list|
      ensures consecTO == if ack && handled > 0 then 0 else old(consecTO)
    {
      handled := pending.AckLE(tag, ack);
      if handled > 0 {
        if ack {
          consecTO := 0;
        }
      }
    }

    /** The router's exit: closed first, then nothing waits any more. */
    method OnExit()
      requires pending.Valid()
      modifies this`closed, pending, pending.recs
      ensures closed && pending.Valid()
      ensures pending.model == PendingSpec.AckLE(old(pending.model), PendingSpec.MAX_TAG, false)
      ensures pending.model.list == []
    {
      closed := true;
      var _ := pending.DrainAll();
    }
  }
}
