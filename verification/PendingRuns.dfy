/** Every interleaving of the operations of the list of unconfirmed publishes. */
module PendingRuns {
  import opened PendingSpec

  datatype Op =
    | AddOp(tag: nat)
    | AckOp(upTo: nat, ack: bool)
    | PopOp(tag: nat)
    | NearbyOp(tag: nat, limit: int)
    | ByTagOp(tag: nat)
    | DrainOp

  function Apply(p: Pending, op: Op): Pending {
    match op
    case AddOp(t) => Add(p, t)
    case AckOp(t, a) => AckLE(p, t, a)
    case PopOp(t) => PopTailIfMatch(p, t).0
    case NearbyOp(t, l) => RemoveTailNearby(p, t, l).0
    case ByTagOp(t) => RemoveByTag(p, t).0
    case DrainOp => AckLE(p, MAX_TAG, false)
  }

  /** The publisher adds only tags above every tag it added before. */
  ghost predicate Enabled(p: Pending, op: Op) {
    op.AddOp? ==> op.tag <= MAX_TAG && forall t :: t in Issued(p) ==> t < op.tag
  }

  /** The tags added by `ops`. */
  function Added(ops: seq<Op>): set<nat> {
    if ops == [] then {}
    else Added(ops[..|ops|-1]) + (if ops[|ops|-1].AddOp? then {ops[|ops|-1].tag} else {})
  }

  function Run(p: Pending, ops: seq<Op>): Pending {
    if ops == [] then p else Apply(Run(p, ops[..|ops|-1]), ops[|ops|-1])
  }

  ghost predicate ValidRun(p: Pending, ops: seq<Op>) {
    ops == [] ||
    (ValidRun(p, ops[..|ops|-1]) && Enabled(Run(p, ops[..|ops|-1]), ops[|ops|-1]))
  }

  lemma ApplyKeepsInv(p: Pending, op: Op)
    requires Inv(p) && Enabled(p, op)
    ensures Inv(Apply(p, op))
    ensures Issued(Apply(p, op)) == Issued(p) + (if op.AddOp? then {op.tag} else {})
    ensures Extends(p, Apply(p, op))
  {
    hide Inv;
    match op {
      case AddOp(t) => AddKeepsInv(p, t);
      case AckOp(t, a) => AckLEKeepsInv(p, t, a);
      case PopOp(t) => RemovalKeepsInv(p, Apply(p, op), |p.list|-1);
      case NearbyOp(t, l) => RemovalKeepsInv(p, Apply(p, op), FindBack(p.list, t, l));
      case ByTagOp(t) => RemovalKeepsInv(p, Apply(p, op), FindFirst(p.list, t));
      case DrainOp => AckLEKeepsInv(p, MAX_TAG, false);
    }
  }

  /** Exactly-once resolution: after any interleaving, every tag ever added either still waits
      or has met exactly one fate, never both. */
  lemma {:induction false} EveryTagWaitsOrIsSettledOnce(ops: seq<Op>)
    requires ValidRun(EMPTY, ops)
    ensures Inv(Run(EMPTY, ops))
    ensures Issued(Run(EMPTY, ops)) == Added(ops)
    ensures forall t :: t in Added(ops) ==> t <= MAX_TAG
  {
    if ops == [] {
    } else {
      var pre := ops[..|ops|-1];
      EveryTagWaitsOrIsSettledOnce(pre);
      ApplyKeepsInv(Run(EMPTY, pre), ops[|ops|-1]);
    }
  }

  /** A fate, once met, is never changed by what follows. */
  lemma {:induction false} FatesArePermanent(ops: seq<Op>, k: nat, t: nat)
    requires k <= |ops| && ValidRun(EMPTY, ops)
    requires t in Run(EMPTY, ops[..k]).fates
    ensures t in Run(EMPTY, ops).fates
    ensures Run(EMPTY, ops).fates[t] == Run(EMPTY, ops[..k]).fates[t]
  {
    if k < |ops| {
      var pre := ops[..|ops|-1];
      assert pre[..k] == ops[..k];
      FatesArePermanent(pre, k, t);
      EveryTagWaitsOrIsSettledOnce(pre);
      ApplyKeepsInv(Run(EMPTY, pre), ops[|ops|-1]);
    } else {
      assert ops[..k] == ops;
    }
  }

  /** Draining leaves nothing waiting, and refuses (never acknowledges) what it drains. */
  lemma {:induction false} DrainEmptiesTheList(ops: seq<Op>)
    requires ValidRun(EMPTY, ops)
    ensures Apply(Run(EMPTY, ops), DrainOp).list == []
    ensures forall t :: t in Run(EMPTY, ops).list ==>
              t in Apply(Run(EMPTY, ops), DrainOp).fates && !Apply(Run(EMPTY, ops), DrainOp).fates[t].Withdrawn?
              && !Apply(Run(EMPTY, ops), DrainOp).fates[t].ack
  {
    EveryTagWaitsOrIsSettledOnce(ops);
    var p := Run(EMPTY, ops);
    AckLEEffect(p, MAX_TAG, false);
    forall i | 0 <= i < |p.list| ensures p.list[i] <= MAX_TAG {
      assert p.list[i] in Issued(p);
    }
    assert PrefixLE(p.list, MAX_TAG) == |p.list|;
  }
}
