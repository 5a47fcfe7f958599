/** Rows that name their parent by id: climbing to a root, and what inserting, removing and moving a
    row does to it. */
module Hierarchy {
  /** The parent id of every row. */
  type Parents = map<int, int>

  /** A row is a root when its parent id is 0 or names no row. */
  predicate IsRoot(p: Parents, x: int)
    requires x in p
  {
    p[x] == 0 || p[x] !in p
  }

  /** Climbing `k` parents from `x`, through rows that are not roots, ends at `y`. */
  predicate Above(p: Parents, x: int, y: int, k: nat)
    decreases k
  {
    x in p && if k == 0 then x == y else !IsRoot(p, x) && Above(p, p[x], y, k - 1)
  }

  /** Climbing exactly `d` parents from `x` ends at a root. */
  predicate RootedAt(p: Parents, x: int, d: nat)
    decreases d
  {
    x in p && if d == 0 then IsRoot(p, x) else !IsRoot(p, x) && RootedAt(p, p[x], d - 1)
  }

  /** Following parent ids from `x` reaches 0 or an absent id. */
  ghost predicate Rooted(p: Parents, x: int) {
    exists d: nat :: RootedAt(p, x, d)
  }

  ghost predicate Acyclic(p: Parents) {
    forall x :: x in p ==> Rooted(p, x)
  }

  /** `x` is `y` or lies somewhere below it. */
  ghost predicate Descends(p: Parents, x: int, y: int) {
    exists k: nat :: Above(p, x, y, k)
  }

  // ----- Depth -----

  lemma {:induction false} DepthIsUnique(p: Parents, x: int, d: nat, e: nat)
    requires RootedAt(p, x, d) && RootedAt(p, x, e)
    ensures d == e
    decreases d
  {
    if d == 0 {
    } else {
      DepthIsUnique(p, p[x], d - 1, e - 1);
    }
  }

  /** The rows met on the way up, which are all different. */
  ghost function Climbed(p: Parents, x: int, d: nat): set<int>
    requires RootedAt(p, x, d)
    decreases d
  {
    if d == 0 then {x} else {x} + Climbed(p, p[x], d - 1)
  }

  lemma {:induction false} ClimbedAreAbove(p: Parents, x: int, d: nat, y: int)
    requires RootedAt(p, x, d) && y in Climbed(p, x, d)
    ensures exists e: nat :: e <= d && RootedAt(p, y, e)
    decreases d
  {
    if x == y {
    } else {
      ClimbedAreAbove(p, p[x], d - 1, y);
    }
  }

  lemma {:induction false} ClimbedEffect(p: Parents, x: int, d: nat)
    requires RootedAt(p, x, d)
    ensures |Climbed(p, x, d)| == d + 1 && Climbed(p, x, d) <= p.Keys
    decreases d
  {
    if d == 0 {
    } else {
      ClimbedEffect(p, p[x], d - 1);
      if x in Climbed(p, p[x], d - 1) {
        ClimbedAreAbove(p, p[x], d - 1, x);
        var e: nat :| e <= d - 1 && RootedAt(p, x, e);
        DepthIsUnique(p, x, d, e);
        assert false;
      }
    }
  }

  lemma SubsetIsSmaller(a: set<int>, b: set<int>)
    requires a <= b
    ensures |a| <= |b|
  {
    assert b == a + (b - a);
  }

  /** A rooted row is less deep than there are rows. */
  lemma DepthIsBounded(p: Parents, x: int, d: nat)
    requires RootedAt(p, x, d)
    ensures d < |p|
  {
    ClimbedEffect(p, x, d);
    SubsetIsSmaller(Climbed(p, x, d), p.Keys);
  }

  // ----- Inserting and removing a row -----

  lemma {:induction false} InsertKeepsDepth(p: Parents, n: int, q: int, x: int, d: nat)
    requires n !in p && RootedAt(p, x, d) && forall y :: y in p ==> p[y] != n
    ensures RootedAt(p[n := q], x, d)
    decreases d
  {
    if d == 0 {
    } else {
      InsertKeepsDepth(p, n, q, p[x], d - 1);
    }
  }

  /** A new row under an existing row, or under none, makes no cycle. */
  lemma InsertKeepsAcyclic(p: Parents, n: int, q: int)
    requires Acyclic(p) && n !in p && q != n && forall y :: y in p ==> p[y] != n
    ensures Acyclic(p[n := q])
  {
    var r := p[n := q];
    forall x | x in p ensures Rooted(r, x) {
      var d: nat :| RootedAt(p, x, d);
      InsertKeepsDepth(p, n, q, x, d);
    }
    if IsRoot(r, n) {
      assert RootedAt(r, n, 0);
    } else {
      var d: nat :| RootedAt(r, q, d);
      assert RootedAt(r, n, d + 1);
    }
  }

  lemma {:induction false} RemoveKeepsDepth(p: Parents, n: int, x: int, d: nat)
    requires x != n && RootedAt(p, x, d) && forall y :: y in p ==> p[y] != n
    ensures RootedAt(p - {n}, x, d)
    decreases d
  {
    if d == 0 {
    } else {
      RemoveKeepsDepth(p, n, p[x], d - 1);
    }
  }

  /** Removing a row that has no children makes no cycle. */
  lemma RemoveKeepsAcyclic(p: Parents, n: int)
    requires Acyclic(p) && forall y :: y in p ==> p[y] != n
    ensures Acyclic(p - {n})
  {
    forall x | x in p - {n} ensures Rooted(p - {n}, x) {
      var d: nat :| RootedAt(p, x, d);
      RemoveKeepsDepth(p, n, x, d);
    }
  }

  // ----- Moving a row -----

  /** Above `x`, nothing changes until the moved row is met. */
  lemma {:induction false} MoveElsewhere(p: Parents, n: int, q: int, x: int, d: nat)
    requires n in p && RootedAt(p, x, d) && forall k: nat :: !Above(p, x, n, k)
    ensures RootedAt(p[n := q], x, d)
    decreases d
  {
    assert !Above(p, x, n, 0);
    if d == 0 {
    } else {
      forall k: nat ensures !Above(p, p[x], n, k) {
        assert !Above(p, x, n, k + 1);
      }
      MoveElsewhere(p, n, q, p[x], d - 1);
    }
  }

  lemma {:induction false} MoveKeepsRooted(p: Parents, n: int, q: int, x: int, d: nat)
    requires n in p && RootedAt(p, x, d) && Rooted(p[n := q], n)
    ensures Rooted(p[n := q], x)
    decreases d
  {
    var r := p[n := q];
    if x == n {
    } else {
      if d == 0 {
        assert RootedAt(r, x, 0);
      } else {
        MoveKeepsRooted(p, n, q, p[x], d - 1);
        var e: nat :| RootedAt(r, p[x], e);
        assert RootedAt(r, x, e + 1);
      }
    }
  }

  /** Once the row has been moved below itself, no climb from there ends. */
  lemma {:induction false} MovedBelowItselfNeverEnds(p: Parents, n: int, q: int, x: int, k: nat, up: nat, d: nat)
    requires q != 0 && Above(p, q, n, up) && Above(p, x, n, k)
    ensures !RootedAt(p[n := q], x, d)
    decreases d
  {
    var r := p[n := q];
    if x == n {
      assert q in p;
      if d == 0 {
      } else {
        MovedBelowItselfNeverEnds(p, n, q, q, up, up, d - 1);
      }
    } else if d > 0 {
      MovedBelowItselfNeverEnds(p, n, q, p[x], k - 1, up, d - 1);
    }
  }

  /** Moving a row keeps the hierarchy acyclic exactly when the new parent does not lie below it. */
  lemma MoveKeepsAcyclicIff(p: Parents, n: int, q: int)
    requires Acyclic(p) && n in p
    ensures Acyclic(p[n := q]) <==> q == 0 || !Descends(p, q, n)
  {
    var r := p[n := q];
    assert r.Keys == p.Keys;
    if q == 0 || q !in p {
      assert RootedAt(r, n, 0);
    } else if !Descends(p, q, n) {
      var d: nat :| RootedAt(p, q, d);
      MoveElsewhere(p, n, q, q, d);
      assert RootedAt(r, n, d + 1);
    } else {
      var up: nat :| Above(p, q, n, up);
      forall d: nat ensures !RootedAt(r, n, d) {
        MovedBelowItselfNeverEnds(p, n, q, n, 0, up, d);
      }
    }
    if q == 0 || !Descends(p, q, n) {
      forall x | x in r ensures Rooted(r, x) {
        var d: nat :| RootedAt(p, x, d);
        MoveKeepsRooted(p, n, q, x, d);
      }
    }
  }
}
