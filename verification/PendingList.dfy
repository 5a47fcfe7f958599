/** The list of unconfirmed publishes as the object the publisher and the confirm router share.
    Every method is one critical section of its mutex. */
module PendingList {
  import opened PendingSpec
  import opened Options

  /** A 64-bit delivery tag. */
  type Tag = t: nat | t <= MAX_TAG

  /** One waiting publish: a channel with room for one confirmation, closed at most once.
      `sent` is everything ever sent on the channel; `Send` and `Close` demand what the Go
      runtime demands of a buffered channel that nobody has read yet. */
  class PendingRec {
    var sent: seq<Confirmation>
    var closed: bool
    var once: bool
    const tag: Tag

    constructor (tag: Tag)
      ensures Shows(None) && this.tag == tag
    {
      sent, closed, once := [], false, false;
      this.tag := tag;
    }

    method Send(c: Confirmation)
      requires !closed && |sent| < 1
      modifies this`sent
      ensures sent == old(sent) + [c]
    {
      sent := sent + [c];
    }

    method Close()
      requires !closed
      modifies this`closed
      ensures closed
    {
      closed := true;
    }

    /** The guarded close: the first call closes, later calls do nothing. */
    method CloseOnce()
      requires !once ==> !closed
      modifies this`closed, this`once
      ensures once
      ensures if old(once) then closed == old(closed) else closed
    {
      if !once {
        once := true;
        Close();
      }
    }

    /** A send that does not block, then the guarded close. */
    method Deliver(ack: bool)
      requires Shows(None)
      modifies this
      ensures forall via :: Shows(Some(Confirmed(ack, via)))
    {
      if |sent| < 1 {
        Send(Confirmation(tag, ack));
        CloseOnce();
      } else {
        // The fallback that closes without sending is never reached.
        assert false;
      }
    }

    /** The channel is open and empty, or closed holding exactly what fate `f` says. */
    ghost predicate Shows(f: Option<Fate>)
      reads this
    {
      match f
      case None => sent == [] && !closed && !once
      case Some(Confirmed(ack, _)) => sent == [Confirmation(tag, ack)] && closed && once
      case Some(Withdrawn) => sent == [] && closed && once
    }
  }

  datatype PendingNode = PendingNode(tag: Tag, rec: PendingRec)

  ghost function FateIn(fates: map<nat, Fate>, t: nat): Option<Fate> {
    if t in fates then Some(fates[t]) else None
  }

  /** The list is the model's, record by record; the count is its length; a record's `tag` tells
      it apart from every other. */
  ghost predicate Tied(list: seq<PendingNode>, count: int, issued: map<nat, PendingRec>, recs: set<PendingRec>,
                       p: Pending)
  {
    && count == |list| == |p.list|
    && Inv(p)
    && (forall t :: t in p.fates ==> t in issued)
    && (forall t :: t in issued ==> issued[t] in recs && issued[t].tag == t)
    && (forall i :: 0 <= i < |list| ==> p.list[i] in issued && list[i] == PendingNode(p.list[i], issued[p.list[i]]))
  }

  lemma TiedAckLE(list: seq<PendingNode>, count: int, issued: map<nat, PendingRec>, recs: set<PendingRec>,
                  p: Pending, tag: nat, ack: bool)
    requires Tied(list, count, issued, recs, p)
    ensures var n := PrefixLE(p.list, tag);
            Tied(list[n..], count - n, issued, recs, PendingSpec.AckLE(p, tag, ack))
  {
    AckLEKeepsInv(p, tag, ack);
    AckLEEffect(p, tag, ack);
    assert forall i :: 0 <= i < |p.list| ==> p.list[i] in issued;
  }

  lemma AllAreTags(list: seq<PendingNode>, count: int, issued: map<nat, PendingRec>, recs: set<PendingRec>, p: Pending)
    requires Tied(list, count, issued, recs, p)
    ensures PrefixLE(p.list, MAX_TAG) == |p.list|
  {
    assert forall i :: 0 <= i < |list| ==> p.list[i] == list[i].tag;
  }

  lemma TiedRemoveAt(list: seq<PendingNode>, count: int, issued: map<nat, PendingRec>, recs: set<PendingRec>,
                     p: Pending, i: nat)
    requires Tied(list, count, issued, recs, p) && i < |list|
    ensures Tied(list[..i] + list[i+1..], count - 1, issued, recs, RemoveAt(p, i))
  {
    RemoveAtKeepsInv(p, i);
  }

  lemma TiedAdd(list: seq<PendingNode>, count: int, issued: map<nat, PendingRec>, recs: set<PendingRec>,
                p: Pending, tag: Tag, rec: PendingRec)
    requires Tied(list, count, issued, recs, p) && rec.tag == tag
    requires forall t :: t in issued ==> t < tag
    ensures tag !in p.fates
    ensures Tied(list + [PendingNode(tag, rec)], count + 1, issued[tag := rec], recs + {rec}, PendingSpec.Add(p, tag))
  {
    AddKeepsInv(p, tag);
  }

  lemma CutLast<T>(s: seq<T>, i: nat)
    requires i < |s|
    ensures i == |s| - 1 ==> s[..i] + s[i+1..] == s[..i]
  {
  }

  /** The next record to confirm still waits, and confirming it changes its fate alone. */
  lemma SettleStep(p: Pending, i: nat, f: Fate)
    requires Inv(p) && i < |p.list|
    ensures p.list[i] !in Settle(p.fates, p.list[..i], f)
    ensures Settle(p.fates, p.list[..i+1], f) == Settle(p.fates, p.list[..i], f)[p.list[i] := f]
  {
    SortedIsRising(p.list);
    Settled(p.fates, p.list[..i], f);
    assert p.list[i] in p.list && p.list[i] !in p.list[..i];
    assert p.list[..i+1][..i] == p.list[..i];
  }

  class PendingList {
    var list: seq<PendingNode>
    var count: int
    ghost var issued: map<nat, PendingRec>
    ghost var recs: set<PendingRec>
    ghost var model: Pending

    /** Every record ever added shows exactly the fate its tag has met: none while it is listed. */
    ghost predicate Valid()
      reads this, recs
    {
      && Tied(list, count, issued, recs, model)
      && (forall t :: t in issued ==> issued[t].Shows(FateIn(model.fates, t)))
    }

    constructor ()
      ensures Valid() && model == EMPTY && issued == map[] && recs == {}
    {
      list, count := [], 0;
      issued, recs, model := map[], {}, EMPTY;
    }

    method Add(tag: Tag, rec: PendingRec)
      requires Valid() && rec.Shows(None) && rec.tag == tag
      requires forall t :: t in issued ==> t < tag
      modifies this
      ensures Valid() && issued == old(issued)[tag := rec] && recs == old(recs) + {rec}
      ensures model == PendingSpec.Add(old(model), tag)
    {
      TiedAdd(list, count, issued, recs, model, tag, rec);
      list := list + [PendingNode(tag, rec)];
      count := count + 1;
      issued, recs, model := issued[tag := rec], recs + {rec}, PendingSpec.Add(model, tag);
    }

    /** Saturating subtraction: the count never goes below zero. */
    method DecCount(n: int)
      modifies this`count
      ensures count == if n <= 0 then old(count) else if old(count) < n then 0 else old(count) - n
    {
      if n <= 0 {
        return;
      }
      var before := count;
      if before <= 0 {
        count := 0;
        return;
      }
      var after := before - n;
      if after < 0 {
        after := 0;
      }
      count := after;
    }

    method WakeOne(i: nat, ack: bool, ghost via: nat, ghost met: map<nat, Fate>)
      requires Tied(list, count, issued, recs, model) && i < |list| && model.list[i] !in met
      requires forall t :: t in issued ==> issued[t].Shows(FateIn(met, t))
      modifies recs
      ensures forall t :: t in issued ==> issued[t].Shows(FateIn(met[model.list[i] := Confirmed(ack, via)], t))
    {
      var node := list[i];
      assert node.tag == model.list[i] && node.rec == issued[node.tag];
      node.rec.Deliver(ack);
    }

    /** Hands `ack` to every waiting publish whose tag is at most `tag`; `i` is how many. */
    method Wake(tag: nat, ack: bool) returns (i: nat)
      requires Valid()
      modifies recs
      ensures i == PrefixLE(model.list, tag)
      ensures forall t :: t in issued ==> issued[t].Shows(FateIn(PendingSpec.AckLE(model, tag, ack).fates, t))
    {
      i := 0;
      ghost var met := model.fates;
      while i < |list| && list[i].tag <= tag
        invariant 0 <= i <= PrefixLE(model.list, tag)
        invariant met == Settle(model.fates, model.list[..i], Confirmed(ack, tag))
        invariant forall t :: t in issued ==> issued[t].Shows(FateIn(met, t))
      {
        SettleStep(model, i, Confirmed(ack, tag));
        WakeOne(i, ack, tag, met);
        met := met[model.list[i] := Confirmed(ack, tag)];
        i := i + 1;
      }
    }

    /** Wakes and removes every publish whose tag is at most `tag`; `n` is how many. */
    method AckLE(tag: nat, ack: bool) returns (n: nat)
      requires Valid()
      modifies this, recs
      ensures Valid() && issued == old(issued) && recs == old(recs)
      ensures model == PendingSpec.AckLE(old(model), tag, ack)
      ensures n == PrefixLE(old(model).list, tag) == old(count) - count
    {
      n := Wake(tag, ack);
      TiedAckLE(list, count, issued, recs, model, tag, ack);
      DropPrefix(n, PendingSpec.AckLE(model, tag, ack));
    }

    /** Re-slices the list past its first `n` records, which no longer wait according to `q`. */
    method DropPrefix(n: nat, ghost q: Pending)
      requires n <= |list| && count == |list|
      requires Tied(list[n..], count - n, issued, recs, q)
      requires forall t :: t in issued ==> issued[t].Shows(FateIn(q.fates, t))
      modifies this`list, this`count, this`model
      ensures Valid() && model == q && count == old(count) - n
    {
      ghost var rest := list[n..];
      if n > 0 {
        list := list[n..];
        DecCount(n);
      }
      assert list == rest;
      model := q;
    }

    /** No tag is above the greatest one, so nothing is left and every waiting publish is refused. */
    method DrainAll() returns (n: nat)
      requires Valid()
      modifies this, recs
      ensures Valid() && issued == old(issued) && recs == old(recs)
      ensures model == PendingSpec.AckLE(old(model), MAX_TAG, false)
      ensures list == [] && model.list == [] && count == 0 && n == |old(list)|
      ensures forall i :: 0 <= i < |old(list)| ==> old(list)[i].rec.Shows(Some(Confirmed(false, MAX_TAG)))
    {
      hide Sorted;
      hide Settle;
      ghost var p := model;
      AllAreTags(list, count, issued, recs, model);
      AckLEEffect(model, MAX_TAG, false);
      assert forall i :: 0 <= i < |list| ==> p.list[i] in p.list;
      n := AckLE(MAX_TAG, false);
    }

    /** Closes the record at `i` and takes it out of the list. */
    method RemoveIndex(i: nat)
      requires Valid() && i < |list|
      modifies this, recs
      ensures Valid() && issued == old(issued) && recs == old(recs)
      ensures model == RemoveAt(old(model), i)
    {
      var found := list[i];
      assert found.tag == model.list[i] && found.rec == issued[found.tag];
      found.rec.CloseOnce();
      Splice(i);
    }

    /** Moves the tail of the list down over place `i`, whose record has just been closed. */
    method Splice(i: nat)
      requires Tied(list, count, issued, recs, model) && i < |list|
      requires forall t :: t in issued ==>
                 issued[t].Shows(if t == model.list[i] then Some(Withdrawn) else FateIn(model.fates, t))
      modifies this`list, this`count, this`model
      ensures Valid() && model == RemoveAt(old(model), i)
    {
      TiedRemoveAt(list, count, issued, recs, model, i);
      CutLast(list, i);
      if i == |list| - 1 {
        list := list[..i];
      } else {
        list := list[..i] + list[i+1..];
      }
      DecCount(1);
      model := RemoveAt(model, i);
    }

    method PopTailIfMatch(wantTag: nat) returns (hit: bool)
      requires Valid()
      modifies this, recs
      ensures Valid() && issued == old(issued) && recs == old(recs)
      ensures (model, hit) == PendingSpec.PopTailIfMatch(old(model), wantTag)
    {
      var n := |list|;
      if n == 0 {
        return false;
      }
      if list[n-1].tag == wantTag {
        RemoveIndex(n-1);
        return true;
      }
      return false;
    }

    method RemoveByTag(wantTag: nat) returns (hit: bool)
      requires Valid()
      modifies this, recs
      ensures Valid() && issued == old(issued) && recs == old(recs)
      ensures (model, hit) == PendingSpec.RemoveByTag(old(model), wantTag)
    {
      var n := |list|;
      if n == 0 {
        return false;
      }
      ghost var first := FindFirst(model.list, wantTag);
      for i := 0 to n
        invariant Valid() && unchanged(this) && issued == old(issued) && recs == old(recs) && model == old(model)
        invariant first < 0 || i <= first
      {
        if list[i].tag == wantTag {
          assert model.list[i] == wantTag;
          assert first == i;
          RemoveIndex(i);
          return true;
        }
        assert model.list[i] != wantTag;
      }
      return false;
    }

    method RemoveTailNearby(wantTag: nat, scanLimit: int) returns (hit: bool)
      requires Valid()
      modifies this, recs
      ensures Valid() && issued == old(issued) && recs == old(recs)
      ensures (model, hit) == PendingSpec.RemoveTailNearby(old(model), wantTag, scanLimit)
    {
      if scanLimit <= 0 {
        return false;
      }
      var n := |list|;
      if n == 0 {
        return false;
      }
      var scanned := 0;
      var i := n - 1;
      ghost var back := FindBack(model.list, wantTag, scanLimit);
      while i >= 0 && scanned < scanLimit
        invariant -1 <= i < n && scanned == n - 1 - i
        invariant Valid() && unchanged(this) && issued == old(issued) && recs == old(recs) && model == old(model)
        invariant back <= i
        decreases i
      {
        if list[i].tag == wantTag {
          assert model.list[i] == wantTag;
          assert back == i;
          RemoveIndex(i);
          return true;
        }
        assert model.list[i] != wantTag;
        scanned := scanned + 1;
        i := i - 1;
      }
      return false;
    }
  }
}
