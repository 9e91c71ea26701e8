/** What a ring of links must agree with: a set of finished, pairwise disjoint operations.

    The facts here hold for the state between any two atomic accesses of `Link_buf`, so the
    sequential class (LinkBuf.dfy) and the interleaving machine (LinkBufThreads.dfy) share them. */
module LinkTracking {
  import opened Basics
  import opened Modular

  /** A set of operations, each an interval [start, end) of the total order, keyed by its start. */
  type Operations = map<nat, nat>

  /** Intervals are non-empty, pairwise disjoint, and end below the largest Position. */
  ghost predicate Disjoint(ops: Operations) {
    && (forall f :: f in ops ==> f < ops[f] < TWO_64 - 1)
    && (forall f, g :: f in ops && g in ops && f < g ==> ops[f] <= g)
  }

  ghost predicate Covered(ops: Operations, x: nat) {
    exists f :: f in ops && f <= x < ops[f]
  }

  /** The bitwise AND of two unsigned numbers. */
  function BitAnd(a: nat, b: nat): nat {
    if a == 0 || b == 0 then 0 else (a % 2) * (b % 2) + 2 * BitAnd(a / 2, b / 2)
  }

  predicate IsPowerOfTwo(n: nat) {
    n == 1 || (n > 1 && n % 2 == 0 && IsPowerOfTwo(n / 2))
  }

  /** Masking with capacity - 1 is reduction modulo the capacity. */
  lemma {:induction false} MaskIsModulo(p: nat, capacity: nat)
    requires IsPowerOfTwo(capacity)
    ensures BitAnd(p, capacity - 1) == p % capacity
    decreases capacity
  {
    if capacity > 1 {
      var half, q := capacity / 2, p / 2;
      MaskIsModulo(q, half);
      assert BitAnd(p, capacity - 1) == p % 2 + 2 * (q % half);
      HalveRemainder(p, half);
    }
  }

  lemma HalveRemainder(p: nat, half: nat)
    requires half > 0
    ensures p % (2 * half) == p % 2 + 2 * (p / 2 % half)
  {
    var q := p / 2 / half;
    assert p / 2 == q * half + p / 2 % half;
    assert 2 * (q * half) == q * (2 * half);
    RemainderUnique(p, 2 * half, q, p % 2 + 2 * (p / 2 % half));
  }

  /** The ring slot of a position. */
  function Slot(position: nat, capacity: nat): (i: nat)
    requires capacity > 0
    ensures i < capacity
  {
    position % capacity
  }

  /** The ring `links`, whose published tail is `tail` and whose reader has followed links up to
      `pos`, stores exactly the finished operations that start at or after `pos`; those before `pos`
      fill everything below it. */
  ghost predicate Tracks(finished: Operations, links: seq<nat>, tail: nat, pos: nat) {
    && |links| > 0
    && tail <= pos
    && (forall x: nat :: x < pos ==> Covered(finished, x))
    && (forall f :: f in finished && f < pos ==> finished[f] <= pos)
    && (forall f :: f in finished && pos <= f ==> f < tail + |links| && links[Slot(f, |links|)] == finished[f] - f)
    && (forall i :: 0 <= i < |links| && links[i] != 0 ==>
          exists f :: f in finished && pos <= f && Slot(f, |links|) == i)
  }

  /** An operation not yet reported cannot start below a covered position. */
  lemma UnreportedIsAhead(finished: Operations, pos: nat, f: nat, t: nat)
    requires f !in finished && Disjoint(finished[f := t])
    requires forall x: nat :: x < pos ==> Covered(finished, x)
    ensures pos <= f
  {
    var all := finished[f := t];
    forall g | g in finished
      ensures !(g <= f < finished[g])
    {
      assert f in all && g in all && all[g] == finished[g];
    }
    assert !Covered(finished, f);
  }

  /** The slot of an admitted, unreported operation is free. */
  lemma SlotIsFree(finished: Operations, links: seq<nat>, tail: nat, pos: nat, f: nat, t: nat)
    requires Tracks(finished, links, tail, pos)
    requires f !in finished && Disjoint(finished[f := t]) && f < tail + |links|
    ensures pos <= f && links[Slot(f, |links|)] == 0
  {
    UnreportedIsAhead(finished, pos, f, t);
    if links[Slot(f, |links|)] != 0 {
      var g :| g in finished && pos <= g && Slot(g, |links|) == Slot(f, |links|);
      SameRemainder(f, g, |links|);
    }
  }

  /** Storing its link reports the operation and disturbs no other. */
  lemma TracksStore(finished: Operations, links: seq<nat>, tail: nat, pos: nat, f: nat, t: nat,
                    all: Operations, ls: seq<nat>)
    requires Tracks(finished, links, tail, pos)
    requires f !in finished && Disjoint(finished[f := t]) && f < t && f < tail + |links|
    requires all == finished[f := t] && ls == links[Slot(f, |links|) := t - f]
    ensures Tracks(all, ls, tail, pos)
  {
    SlotIsFree(finished, links, tail, pos, f, t);
    var n := |links|;
    forall x: nat | x < pos
      ensures Covered(all, x)
    {
      assert Covered(finished, x);
      var g :| g in finished && g <= x < finished[g];
      assert g in all && all[g] == finished[g];
    }
    forall g | g in all && pos <= g
      ensures g < tail + n && ls[Slot(g, n)] == all[g] - g
    {
      SameRemainder(f, g, n);
    }
    forall i | 0 <= i < n && ls[i] != 0
      ensures exists g :: g in all && pos <= g && Slot(g, n) == i
    {
      if i == Slot(f, n) {
        assert f in all;
      } else {
        var g :| g in finished && pos <= g && Slot(g, n) == i;
        assert g in all;
      }
    }
  }

  /** A non-zero slot read at the reader's position belongs to the operation starting there. */
  lemma LinkIsGenuine(finished: Operations, links: seq<nat>, tail: nat, pos: nat)
    requires Tracks(finished, links, tail, pos) && links[Slot(pos, |links|)] != 0
    ensures pos in finished && finished[pos] == pos + links[Slot(pos, |links|)] && pos < tail + |links|
  {
    var g :| g in finished && pos <= g && Slot(g, |links|) == Slot(pos, |links|);
    SameRemainder(pos, g, |links|);
  }

  lemma CoveredThrough(finished: Operations, pos: nat)
    requires pos in finished && forall x: nat :: x < pos ==> Covered(finished, x)
    ensures forall x: nat :: x < finished[pos] ==> Covered(finished, x)
  {
    forall x: nat | pos <= x < finished[pos]
      ensures Covered(finished, x)
    {
      assert pos in finished && pos <= x < finished[pos];
    }
  }

  /** The other links stay where they are. */
  lemma LinksStay(finished: Operations, links: seq<nat>, tail: nat, pos: nat)
    requires Disjoint(finished) && Tracks(finished, links, tail, pos) && pos in finished
    ensures var n, ls := |links|, links[Slot(pos, |links|) := 0];
            forall f :: f in finished && finished[pos] <= f ==>
              f < tail + n && ls[Slot(f, n)] == finished[f] - f
  {
    forall f | f in finished && finished[pos] <= f
      ensures Slot(f, |links|) != Slot(pos, |links|)
    {
      SameRemainder(f, pos, |links|);
    }
  }

  lemma ClaimedEnd(finished: Operations, pos: nat, f: nat)
    requires Disjoint(finished) && pos in finished && f in finished && f < finished[pos]
    ensures finished[f] <= finished[pos]
  {
  }

  /** What is still in a slot belongs to an operation further on. */
  lemma LinksAreAhead(finished: Operations, links: seq<nat>, tail: nat, pos: nat, i: nat)
    requires Disjoint(finished) && Tracks(finished, links, tail, pos) && pos in finished
    requires i < |links| && i != Slot(pos, |links|) && links[i] != 0
    ensures exists f :: f in finished && finished[pos] <= f && Slot(f, |links|) == i
  {
    var f :| f in finished && pos <= f && Slot(f, |links|) == i;
    assert f != pos;
  }

  /** Zeroing that slot and moving past the operation keeps the agreement: the tail is unpublished. */
  lemma TracksClaim(finished: Operations, links: seq<nat>, tail: nat, pos: nat)
    requires Disjoint(finished) && Tracks(finished, links, tail, pos) && pos in finished
    ensures Tracks(finished, links[Slot(pos, |links|) := 0], tail, finished[pos])
  {
    var n, next := |links|, finished[pos];
    var ls := links[Slot(pos, n) := 0];
    CoveredThrough(finished, pos);
    LinksStay(finished, links, tail, pos);
    forall f | f in finished && f < next
      ensures finished[f] <= next
    {
      ClaimedEnd(finished, pos, f);
    }
    forall i | 0 <= i < n && ls[i] != 0
      ensures exists f :: f in finished && next <= f && Slot(f, n) == i
    {
      LinksAreAhead(finished, links, tail, pos, i);
    }
  }

  /** Publishing the reader's position as the tail keeps the agreement. */
  lemma TracksPublish(finished: Operations, links: seq<nat>, tail: nat, pos: nat)
    requires Tracks(finished, links, tail, pos)
    ensures Tracks(finished, links, pos, pos)
  {
  }

  /** At an empty slot the reader stands on the first point no finished operation covers. */
  lemma EmptySlotIsHole(finished: Operations, links: seq<nat>, tail: nat, pos: nat)
    requires Disjoint(finished) && Tracks(finished, links, tail, pos) && links[Slot(pos, |links|)] == 0
    ensures !Covered(finished, pos)
  {
    assert pos !in finished;
  }
}
