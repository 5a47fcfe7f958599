/** The channel pool as an object: a bounded queue of channels that is drained, filled, taken from and
    given back to, each operation run on its own. */
module PoolSteps {
  import opened Counting
  import opened Options
  import PendingSpec
  import opened PublishSteps

  lemma RestStart<T>(q: seq<T>)
    ensures Rest(q, 0) == q && CameIn(q, 0) == 0
  {
  }

  datatype GetError = ManagerClosed | GaveUp

  /** What is left of a queue after `n` receives, some of which may have waited for more to come. */
  function Rest<T>(q: seq<T>, n: nat): seq<T> {
    if n <= |q| then q[n..] else []
  }

  /** How many of the channels that came while waiting have been received. */
  function CameIn<T>(q: seq<T>, n: nat): nat {
    if n <= |q| then 0 else n - |q|
  }

  /** There is something to receive, or it comes while waiting. */
  lemma MoreToCome<T>(q: seq<T>, arrivals: seq<T>, n: nat)
    ensures Rest(q, n) != [] || CameIn(q, n) < |arrivals| <==> n < |q + arrivals|
  {
  }

  lemma RestNext<T>(q: seq<T>, arrivals: seq<T>, n: nat)
    ensures n < |q + arrivals| ==>
              if Rest(q, n) != [] then
                && Rest(q, n)[0] == (q + arrivals)[n] && Rest(q, n)[1..] == Rest(q, n + 1)
                && CameIn(q, n + 1) == CameIn(q, n)
              else
                && CameIn(q, n) < |arrivals| && arrivals[CameIn(q, n)] == (q + arrivals)[n] && Rest(q, n + 1) == []
                && CameIn(q, n + 1) == CameIn(q, n) + 1
    ensures n < |q + arrivals| && Distinct(q + arrivals) ==> (q + arrivals)[n] !in Rest(q, n + 1)
  {
    if n < |q + arrivals| {
      assert forall i :: n < i < |q| ==> q[i] == (q + arrivals)[i];
    }
  }

  function Least(a: nat, b: nat): nat {
    if a <= b then a else b
  }

  predicate Usable(c: ConfirmChan)
    reads c
  {
    !c.closed && !c.broken
  }

  ghost function WhichUsable(all: seq<ConfirmChan>): (good: seq<bool>)
    reads all
    ensures |good| == |all| && forall i :: 0 <= i < |all| ==> good[i] == Usable(all[i])
  {
    seq(|all|, i requires 0 <= i < |all| reads all => Usable(all[i]))
  }

  /** Of channels that were usable where `good` says, the first `n` were not and are closed, and the others
      are as they were. */
  ghost predicate Tried(all: seq<ConfirmChan>, good: seq<bool>, n: nat)
    reads all
  {
    && n <= |all| == |good|
    && (forall i :: 0 <= i < n ==> !good[i] && all[i].closed)
    && (forall i :: n <= i < |all| ==> Usable(all[i]) == good[i])
  }

  lemma TriedMeans(all: seq<ConfirmChan>, good: seq<bool>, n: nat)
    requires Tried(all, good, n)
    ensures n < |all| && good[n] ==> Usable(all[n])
  {
  }

  class ProducerPool {
    const size: nat
    var pool: seq<ConfirmChan>
    var closed: bool

    ghost predicate Valid()
      reads this
    {
      |pool| <= size && Distinct(pool)
    }

    constructor (size: nat)
      ensures Valid() && this.size == size && pool == [] && !closed
    {
      this.size := size;
      pool := [];
      closed := false;
    }

    /** Receives and closes until the queue is empty. */
    method Drain()
      requires Valid()
      modifies this`pool, pool
      ensures Valid() && pool == []
      ensures forall i :: 0 <= i < |old(pool)| ==> old(pool)[i].closed && old(pool)[i].closeSig
    {
      ghost var all := pool;
      ghost var k := 0;
      while pool != []
        invariant Valid() && k <= |all| && pool == all[k..]
        invariant forall i :: 0 <= i < k ==> all[i].closed && all[i].closeSig
        decreases |pool|
      {
        var cc := pool[0];
        pool := pool[1..];
        cc.Close();
        k := k + 1;
      }
    }

    /** Drains the queue, then makes `size` channels and puts them all in, or none: `failsAt` is where
        making one fails, if anywhere. */
    method RefreshPool(failsAt: int) returns (ok: bool, created: seq<ConfirmChan>)
      requires Valid()
      modifies this`pool, pool
      ensures Valid() && ok == !(0 <= failsAt < size)
      ensures forall i :: 0 <= i < |old(pool)| ==> old(pool)[i].closed
      ensures forall i :: 0 <= i < |created| ==> fresh(created[i])
      ensures ok ==> pool == created && |pool| == size
      ensures ok ==> forall i :: 0 <= i < |pool| ==> Usable(pool[i]) && pool[i].pending.model == PendingSpec.EMPTY
      ensures !ok ==> pool == [] && forall i :: 0 <= i < |created| ==> created[i].closed
    {
      Drain();
      created := [];
      for n := 0 to size
        invariant |created| == n && Distinct(created) && pool == [] && !(0 <= failsAt < n)
        invariant forall i :: 0 <= i < n ==>
                    fresh(created[i]) && Usable(created[i]) && created[i].pending.model == PendingSpec.EMPTY
        invariant forall i :: 0 <= i < |old(pool)| ==> old(pool)[i].closed
      {
        if n == failsAt {
          CloseEach(created);
          return false, created;
        }
        var cc := new ConfirmChan();
        created := created + [cc];
      }
      for n := 0 to |created|
        invariant pool == created[..n]
        modifies this`pool
      {
        pool := pool + [created[n]];
      }
      ok := true;
    }

    static method CloseEach(created: seq<ConfirmChan>)
      modifies created
      ensures forall i :: 0 <= i < |created| ==> created[i].closed
    {
      for n := 0 to |created|
        invariant forall i :: 0 <= i < n ==> created[i].closed
      {
        created[n].Close();
      }
    }

    /** The head of the queue, or the next that comes when it is empty. */
    method Receive(arrivals: seq<ConfirmChan>, came: nat) returns (head: ConfirmChan, next: nat)
      requires Valid() && (pool != [] || came < |arrivals|)
      modifies this`pool
      ensures Valid()
      ensures if old(pool) != [] then head == old(pool)[0] && pool == old(pool)[1..] && next == came
              else head == arrivals[came] && pool == [] && next == came + 1
    {
      if pool != [] {
        head, next := pool[0], came;
        pool := pool[1..];
      } else {
        head, next := arrivals[came], came + 1;
      }
    }

    /** The next channel: one that cannot be used is closed. */
    static method KeepOrClose(cc: ConfirmChan, ghost all: seq<ConfirmChan>, ghost good: seq<bool>, ghost n: nat)
      returns (ok: bool)
      requires n < |all| && cc == all[n] && Distinct(all) && Tried(all, good, n)
      modifies cc
      ensures ok == good[n] && Tried(all, good, if ok then n else n + 1)
    {
      if !cc.closed && !cc.broken {
        return true;
      }
      cc.Close();
      return false;
    }

    /** The next receive of a call that has made `n` of them since the queue was `q`. */
    method TryNext(arrivals: seq<ConfirmChan>, came: nat, ghost q: seq<ConfirmChan>, ghost good: seq<bool>,
            ghost n: nat)
      returns (head: ConfirmChan, next: nat, ok: bool)
      requires Valid() && pool == Rest(q, n) && came == CameIn(q, n) && n < |q + arrivals|
      requires Distinct(q + arrivals) && Tried(q + arrivals, good, n)
      modifies this`pool, (q + arrivals)[n]
      ensures Valid() && head == (q + arrivals)[n] && head !in pool
      ensures pool == Rest(q, n + 1) && next == CameIn(q, n + 1)
      ensures ok == good[n] && Tried(q + arrivals, good, if ok then n else n + 1)
    {
      hide Rest;
      hide CameIn;
      hide Tried;
      RestNext(q, arrivals, n);
      head, next := Receive(arrivals, came);
      ok := KeepOrClose(head, q + arrivals, good, n);
    }

    /** Receives one channel after the other, those queued and then those that `arrivals` brings while the
        call waits, and closes every unusable one, until it has a usable one, or nothing more comes, or
        the timer or the context ends the call, after `patience` receives. */
    method GetProducerChannel(arrivals: seq<ConfirmChan>, patience: nat)
      returns (r: Result<ConfirmChan, GetError>, ghost skipped: nat)
      requires Valid() && Distinct(pool + arrivals)
      modifies this`pool, pool + arrivals
      ensures Valid() && (r == Err(ManagerClosed) <==> closed)
      ensures skipped <= Least(patience, |old(pool) + arrivals|)
      ensures Tried(old(pool) + arrivals, old(WhichUsable(pool + arrivals)), skipped)
      ensures r.Ok? ==>
                && skipped < Least(patience, |old(pool) + arrivals|) && r.value == old(pool + arrivals)[skipped]
                && old(WhichUsable(pool + arrivals))[skipped] && Usable(r.value) && r.value !in pool
                && pool == Rest(old(pool), skipped + 1)
      ensures closed ==> skipped == 0 && pool == old(pool)
      ensures r == Err(GaveUp) ==>
                skipped == Least(patience, |old(pool) + arrivals|) && pool == Rest(old(pool), skipped)
    {
      skipped := 0;
      if closed {
        return Err(ManagerClosed), 0;
      }
      ghost var all := pool + arrivals;
      ghost var good := WhichUsable(all);
      hide Tried;
      hide Distinct;
      hide Rest;
      hide CameIn;
      RestStart(pool);
      var came, received := 0, 0;
      while received < patience && (pool != [] || came < |arrivals|)
        invariant Valid() && !closed && skipped == received <= Least(patience, |all|)
        invariant pool == Rest(old(pool), skipped)
        invariant came == CameIn(old(pool), skipped)
        invariant Tried(all, good, skipped)
        decreases patience - received
      {
        MoreToCome(old(pool), arrivals, skipped);
        var head, ok;
        head, came, ok := TryNext(arrivals, came, old(pool), good, skipped);
        received := received + 1;
        if ok {
          TriedMeans(all, good, skipped);
          return Ok(head), skipped;
        }
        skipped := skipped + 1;
      }
      MoreToCome(old(pool), arrivals, skipped);
      return Err(GaveUp), skipped;
    }

    /** Gives a channel back to the tail of the queue if the manager is open, the channel usable and
        the queue not full, also not after the wait; else closes it. */
    method PutProducerChannel(cc: ConfirmChan)
      requires Valid() && cc !in pool
      modifies this`pool, cc
      ensures Valid()
      ensures if !closed && old(Usable(cc)) && |old(pool)| < size then pool == old(pool) + [cc] && Usable(cc)
              else pool == old(pool) && cc.closed
    {
      if closed || cc.closed || cc.broken {
        cc.Close();
        return;
      }
      if |pool| < size {
        pool := pool + [cc];
        return;
      }
      cc.Close();
    }

    /** One publish run alone, of which it matters here whether it `retires` the channel: then the channel
        is closed and gone, and otherwise it is the last in the queue. The others keep their order. */
    method Publish(arrivals: seq<ConfirmChan>, patience: nat, retires: bool)
      returns (r: Result<ConfirmChan, GetError>, ghost skipped: nat)
      requires Valid() && Distinct(pool + arrivals)
      modifies this`pool, pool + arrivals
      ensures Valid() && (r == Err(ManagerClosed) <==> closed) && (closed ==> pool == old(pool))
      ensures r.Ok? ==>
                && skipped < |old(pool) + arrivals| && r.value == old(pool + arrivals)[skipped]
                && old(WhichUsable(pool + arrivals))[skipped]
                && (forall i :: 0 <= i < skipped ==> !old(WhichUsable(pool + arrivals))[i])
                && var rest := Rest(old(pool), skipped + 1);
                   if retires || size == 0 then pool == rest && r.value.closed
                   else pool == rest + [r.value] && Usable(r.value)
    {
      if closed {
        return Err(ManagerClosed), 0;
      }
      r, skipped := GetProducerChannel(arrivals, patience);
      if r.Err? {
        return;
      }
      if retires {
        r.value.Retire();
      }
      PutProducerChannel(r.value);
    }

    /** Closing: no call gets a channel any more, and all that were in the queue are closed. */
    method Close()
      requires Valid()
      modifies this`pool, this`closed, pool
      ensures Valid() && closed
      ensures if old(closed) then pool == old(pool)
              else pool == [] && forall i :: 0 <= i < |old(pool)| ==> old(pool)[i].closed
    {
      if closed {
        return;
      }
      closed := true;
      Drain();
    }
  }
}
