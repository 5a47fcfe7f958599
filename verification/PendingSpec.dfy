/** The meaning of the ordered list of unconfirmed publishes: what each of its operations does
    to the list and to the fate of the records, and what any interleaving of them keeps. */
module PendingSpec {

  /** What the broker says about one delivery tag. */
  datatype Confirmation = Confirmation(deliveryTag: nat, ack: bool)

  /** How a record left the list: a confirmation for delivery tag `via` was handed to its publisher,
      or its channel was closed without a value. */
  datatype Fate = Confirmed(ack: bool, via: nat) | Withdrawn

  /** `list` holds the tags still waiting, in order; `fates` holds every tag that has left. */
  datatype Pending = Pending(list: seq<nat>, fates: map<nat, Fate>)

  const EMPTY := Pending([], map[])

  /** The bound of the backward scan that follows a missed tail match. */
  const TAIL_SCAN_LIMIT := 1024

  /** The greatest 64-bit delivery tag, which drains the whole list. */
  const MAX_TAG: nat := 0xFFFF_FFFF_FFFF_FFFF

  ghost predicate Rising(s: seq<nat>) {
    forall i, j :: 0 <= i < j < |s| ==> s[i] < s[j]
  }

  /** Strictly rising tags, said step by step; `SortedIsRising` says it for every two places. */
  ghost predicate Sorted(s: seq<nat>) {
    |s| < 2 || (s[0] < s[1] && Sorted(s[1..]))
  }

  lemma {:induction false} SortedIsRising(s: seq<nat>)
    ensures Sorted(s) <==> Rising(s)
  {
    if |s| < 2 {
    } else {
      var rest := s[1..];
      SortedIsRising(rest);
      assert forall i :: 0 < i < |s| ==> s[i] == rest[i-1];
      assert forall i :: 0 <= i < |rest| ==> rest[i] == s[i+1];
    }
  }

  ghost predicate Inv(p: Pending) {
    && Sorted(p.list)
    && (forall t {:trigger t in p.fates} :: t in p.fates ==> t !in p.list)
  }

  /** Every tag ever added. */
  function Issued(p: Pending): set<nat> {
    (set t | t in p.list) + p.fates.Keys
  }

  /** The length of the longest prefix whose tags are all at most `tag`. */
  function PrefixLE(s: seq<nat>, tag: nat): (n: nat)
    ensures n <= |s|
    ensures forall i :: 0 <= i < n ==> s[i] <= tag
    ensures n < |s| ==> s[n] > tag
  {
    if s == [] || s[0] > tag then 0 else 1 + PrefixLE(s[1..], tag)
  }

  /** `fates` after each of `tags`, in order, meets `fate`. */
  function Settle(fates: map<nat, Fate>, tags: seq<nat>, fate: Fate): map<nat, Fate> {
    if tags == [] then fates
    else Settle(fates, tags[..|tags|-1], fate)[tags[|tags|-1] := fate]
  }

  lemma {:induction false} Settled(fates: map<nat, Fate>, tags: seq<nat>, fate: Fate)
    ensures forall t :: t in Settle(fates, tags, fate) <==> t in fates || t in tags
    ensures forall t :: t in Settle(fates, tags, fate) ==>
              Settle(fates, tags, fate)[t] == if t in tags then fate else fates[t]
  {
    if tags == [] {
    } else {
      var pre := tags[..|tags|-1];
      Settled(fates, pre, fate);
      assert forall t :: t in tags <==> t in pre || t == tags[|tags|-1];
    }
  }

  function Add(p: Pending, tag: nat): Pending {
    p.(list := p.list + [tag])
  }

  function AckLE(p: Pending, tag: nat, ack: bool): Pending {
    var n := PrefixLE(p.list, tag);
    Pending(p.list[n..], Settle(p.fates, p.list[..n], Confirmed(ack, tag)))
  }

  function RemoveAt(p: Pending, i: nat): Pending
    requires i < |p.list|
  {
    Pending(p.list[..i] + p.list[i+1..], p.fates[p.list[i] := Withdrawn])
  }

  function PopTailIfMatch(p: Pending, want: nat): (Pending, bool) {
    if p.list != [] && p.list[|p.list|-1] == want then (RemoveAt(p, |p.list|-1), true) else (p, false)
  }

  /** The greatest index in the last `limit` places that holds `want`, or -1. */
  function FindBack(s: seq<nat>, want: nat, limit: int): (i: int)
    ensures -1 <= i < |s|
    ensures i >= 0 ==> s[i] == want && i >= |s| - limit
    ensures i >= 0 ==> forall j :: i < j < |s| ==> s[j] != want
    ensures i < 0 ==> forall j :: 0 <= j < |s| && j >= |s| - limit ==> s[j] != want
  {
    if s == [] || limit <= 0 then -1
    else if s[|s|-1] == want then |s|-1
    else FindBack(s[..|s|-1], want, limit-1)
  }

  function RemoveTailNearby(p: Pending, want: nat, limit: int): (Pending, bool) {
    var i := FindBack(p.list, want, limit);
    if i >= 0 then (RemoveAt(p, i), true) else (p, false)
  }

  /** The least index that holds `want`, or -1. */
  function FindFirst(s: seq<nat>, want: nat): (i: int)
    ensures -1 <= i < |s|
    ensures i >= 0 ==> s[i] == want && forall j :: 0 <= j < i ==> s[j] != want
    ensures i < 0 ==> want !in s
  {
    if s == [] then -1
    else if s[0] == want then 0
    else
      var k := FindFirst(s[1..], want);
      if k < 0 then -1 else k + 1
  }

  function RemoveByTag(p: Pending, want: nat): (Pending, bool) {
    var i := FindFirst(p.list, want);
    if i >= 0 then (RemoveAt(p, i), true) else (p, false)
  }

  // ----- The removal chain -----

  /** The clean-up of one publish on timeout, cancel or close, run without interference. */
  function RemovalChain(p: Pending, want: nat, limit: int): Pending {
    var (p1, hit1) := PopTailIfMatch(p, want);
    if hit1 then p1 else
      var (p2, hit2) := RemoveTailNearby(p, want, limit);
      if hit2 then p2 else RemoveByTag(p, want).0
  }

  /** `s` with every occurrence of `t` left out, the rest in order. */
  function Without(s: seq<nat>, t: nat): seq<nat> {
    if s == [] then []
    else (if s[0] == t then [] else [s[0]]) + Without(s[1..], t)
  }

  lemma {:induction false} WithoutAbsent(s: seq<nat>, t: nat)
    requires t !in s
    ensures Without(s, t) == s
  {
    if s == [] {
    } else {
      WithoutAbsent(s[1..], t);
    }
  }

  lemma {:induction false} WithoutAt(s: seq<nat>, i: nat)
    requires Sorted(s) && i < |s|
    ensures Without(s, s[i]) == s[..i] + s[i+1..]
  {
    SortedIsRising(s);
    if i == 0 {
      assert s[0] !in s[1..];
      WithoutAbsent(s[1..], s[0]);
    } else {
      var rest := s[1..];
      assert s[0] != s[i] == rest[i-1];
      WithoutAt(rest, i-1);
      assert s[..i] + s[i+1..] == [s[0]] + (rest[..i-1] + rest[i..]);
    }
  }

  /** The one thing the chain is for: drop `want` if it is there, touch nothing else. */
  function Delete(p: Pending, want: nat): Pending {
    Pending(Without(p.list, want), if want in p.list then p.fates[want := Withdrawn] else p.fates)
  }

  /** Whatever the scan limit, the three removals tried in turn delete the record of `want`
      and no other. */
  lemma RemovalChainRefinesDelete(p: Pending, want: nat, limit: int)
    requires Inv(p)
    ensures RemovalChain(p, want, limit) == Delete(p, want)
    ensures want !in RemovalChain(p, want, limit).list
  {
    if want in p.list {
      var i :| 0 <= i < |p.list| && p.list[i] == want;
      WithoutAt(p.list, i);
      RemoveAtKeepsInv(p, i);
      HitsAreTheSame(p, i, limit);
    } else {
      WithoutAbsent(p.list, want);
      assert FindBack(p.list, want, limit) < 0;
    }
  }

  /** In a sorted list a search that hits, hits the only place. */
  lemma HitsAreTheSame(p: Pending, i: nat, limit: int)
    requires Inv(p) && i < |p.list|
    ensures RemovalChain(p, p.list[i], limit) == RemoveAt(p, i)
  {
    SortedIsRising(p.list);
    var want := p.list[i];
    var last, back, first := |p.list|-1, FindBack(p.list, want, limit), FindFirst(p.list, want);
    assert p.list[last] == want ==> last == i;
    assert back >= 0 ==> back == i;
    assert first == i;
  }

  /** The bounded scan alone finds the record exactly when fewer than `limit` later tags wait. */
  lemma NearbyFindsIff(p: Pending, i: nat, limit: int)
    requires Inv(p) && i < |p.list|
    ensures RemoveTailNearby(p, p.list[i], limit).1 <==> |p.list| - 1 - i < limit
    ensures RemoveTailNearby(p, p.list[i], limit).1 ==>
              p.list[i] !in RemoveTailNearby(p, p.list[i], limit).0.list
  {
    SortedIsRising(p.list);
    var k := FindBack(p.list, p.list[i], limit);
    if k >= 0 {
      assert k == i;
      RemoveAtKeepsInv(p, i);
    }
  }

  // ----- What one operation keeps -----

  /** Every fate met in `p` stands unchanged in `q`. */
  ghost predicate Extends(p: Pending, q: Pending) {
    forall t :: t in p.fates ==> t in q.fates && q.fates[t] == p.fates[t]
  }

  lemma AddKeepsInv(p: Pending, tag: nat)
    requires Inv(p) && forall t :: t in Issued(p) ==> t < tag
    ensures Inv(Add(p, tag)) && Issued(Add(p, tag)) == Issued(p) + {tag}
    ensures forall t :: t in Add(p, tag).list <==> t in p.list || t == tag
  {
    SortedIsRising(p.list);
    SortedIsRising(p.list + [tag]);
    forall i | 0 <= i < |p.list| ensures p.list[i] < tag {
      assert p.list[i] in Issued(p);
    }
    assert tag !in Issued(p);
  }

  lemma RemoveAtKeepsInv(p: Pending, i: nat)
    requires Inv(p) && i < |p.list|
    ensures Inv(RemoveAt(p, i))
    ensures Issued(RemoveAt(p, i)) == Issued(p)
    ensures p.list[i] !in RemoveAt(p, i).list
    ensures forall t :: t in RemoveAt(p, i).list <==> t in p.list && t != p.list[i]
    ensures Extends(p, RemoveAt(p, i))
  {
    SortedIsRising(p.list);
    SortedCut(p.list, i);
    forall t ensures t in RemoveAt(p, i).list <==> t in p.list && t != p.list[i] {
      InCut(p.list, i, t);
    }
  }

  lemma {:induction false} SortedDrop(s: seq<nat>, n: nat)
    requires Sorted(s) && n <= |s|
    ensures Sorted(s[n..])
  {
    if n == 0 {
    } else {
      SortedDrop(s[1..], n-1);
      assert s[1..][n-1..] == s[n..];
    }
  }

  lemma {:induction false} SortedCut(s: seq<nat>, i: nat)
    requires Sorted(s) && i < |s|
    ensures Sorted(s[..i] + s[i+1..])
  {
    SortedIsRising(s);
    var r := s[..i] + s[i+1..];
    assert forall k :: 0 <= k < |r| ==> r[k] == s[if k < i then k else k+1];
    SortedIsRising(r);
  }

  lemma InCut<T>(s: seq<T>, i: nat, t: T)
    requires i < |s|
    ensures t in s[..i] + s[i+1..] <==> t in s[..i] || t in s[i+1..]
    ensures t in s <==> t in s[..i] || t == s[i] || t in s[i+1..]
  {
    assert s == s[..i] + [s[i]] + s[i+1..];
  }

  /** A sorted list splits at `PrefixLE` into the tags at most `tag` and the tags above it. */
  lemma PrefixSplits(s: seq<nat>, tag: nat)
    requires Sorted(s)
    ensures var n := PrefixLE(s, tag);
            && (forall t :: t in s[..n] <==> t in s && t <= tag)
            && (forall t :: t in s[n..] <==> t in s && t > tag)
  {
    SortedIsRising(s);
    var n := PrefixLE(s, tag);
    forall t ensures t in s[..n] <==> t in s && t <= tag
             ensures t in s[n..] <==> t in s && t > tag
    {
      InSplit(s, n, t);
      if t in s[n..] {
        var k :| n <= k < |s| && s[k] == t;
      }
    }
  }

  lemma InSplit<T>(s: seq<T>, n: nat, t: T)
    requires n <= |s|
    ensures t in s <==> t in s[..n] || t in s[n..]
  {
    assert s == s[..n] + s[n..];
  }

  /** Who leaves, who stays, and with what fate. */
  lemma AckLEEffect(p: Pending, tag: nat, ack: bool)
    requires Inv(p)
    ensures var q := AckLE(p, tag, ack);
            && (forall t :: t in q.list <==> t in p.list && t > tag)
            && (forall t :: t in q.fates <==> t in p.fates || (t in p.list && t <= tag))
            && (forall t :: t in q.fates ==> q.fates[t] == if t in p.fates then p.fates[t] else Confirmed(ack, tag))
  {
    PrefixSplits(p.list, tag);
    Settled(p.fates, p.list[..PrefixLE(p.list, tag)], Confirmed(ack, tag));
  }

  lemma AckLEKeepsInv(p: Pending, tag: nat, ack: bool)
    requires Inv(p)
    ensures Inv(AckLE(p, tag, ack))
    ensures Issued(AckLE(p, tag, ack)) == Issued(p)
    ensures Extends(p, AckLE(p, tag, ack))
  {
    AckLEEffect(p, tag, ack);
    SortedDrop(p.list, PrefixLE(p.list, tag));
  }

  lemma RemovalKeepsInv(p: Pending, q: Pending, i: int)
    requires Inv(p) && (q == p || (0 <= i < |p.list| && q == RemoveAt(p, i)))
    ensures Inv(q) && Issued(q) == Issued(p) && Extends(p, q)
    ensures forall t :: t in q.list ==> t in p.list
    ensures forall t :: t in q.fates ==> t in p.fates || q.fates[t] == Withdrawn
    ensures q != p ==> p.list[i] !in q.list
  {
    if q != p {
      RemoveAtKeepsInv(p, i);
    }
  }
}
