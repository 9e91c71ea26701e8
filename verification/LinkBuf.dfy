/** The ring buffer of links used by one thread (src/include/link_buf.h). */
module LinkBuf {
  import opened Basics
  import opened LinkTracking
  import opened Modular

  function SlotIndex(position: nat, capacity: nat): (i: nat)
    requires IsPowerOfTwo(capacity)
    ensures i == Slot(position, capacity) && i < capacity
  {
    MaskIsModulo(position, capacity);
    BitAnd(position, capacity - 1)
  }

  /** `tail() + m_capacity > position`, with the sum taken in 64 bits. */
  predicate HasSpaceAt(tail: nat, capacity: nat, position: nat) {
    (tail + capacity) % TWO_64 > position
  }

  /** No link between `low` and `high` met the stop condition. */
  ghost predicate Followed(finished: Operations, stopCondition: (nat, nat) -> bool, low: nat, high: nat) {
    forall f :: f in finished && low <= f < high ==> !stopCondition(f, finished[f])
  }

  lemma FollowOne(finished: Operations, stopCondition: (nat, nat) -> bool, low: nat, high: nat)
    requires Disjoint(finished) && Followed(finished, stopCondition, low, high)
    requires high in finished && !stopCondition(high, finished[high])
    ensures Followed(finished, stopCondition, low, finished[high])
  {
  }

  ghost predicate NoLinks(links: seq<nat>, begin: nat, end: nat)
    requires |links| > 0
  {
    forall p :: begin <= p < end ==> links[Slot(p, |links|)] == 0
  }

  /** Once round the ring, every later position falls on a slot already seen. */
  lemma OneRingDecides(links: seq<nat>, begin: nat, end: nat)
    requires 0 < |links| && begin + |links| <= end
    ensures NoLinks(links, begin, end) <==> NoLinks(links, begin, begin + |links|)
  {
    var n := |links|;
    if NoLinks(links, begin, begin + n) {
      forall q | begin <= q < end
        ensures links[Slot(q, n)] == 0
      {
        ReduceSummand(begin, q - begin, n);
        assert Slot(begin + (q - begin) % n, n) == Slot(q, n);
      }
    }
  }

  class LinkBuf {
    const capacity: nat
    const links: array<nat>
    var tail: nat
    ghost var finished: Operations

    ghost predicate Valid()
      reads this, links
    {
      && links.Length == capacity
      && IsPowerOfTwo(capacity)
      && Disjoint(finished)
      && Tracks(finished, links[..], tail, tail)
    }

    constructor (capacity: nat)
      requires IsPowerOfTwo(capacity)
      ensures Valid() && fresh(links)
      ensures this.capacity == capacity && tail == 0 && finished == map[]
    {
      this.capacity := capacity;
      links := new nat[capacity];
      tail := 0;
      finished := map[];
      new;
      for i := 0 to capacity
        modifies links
        invariant links.Length == capacity && fresh(links)
        invariant forall k :: 0 <= k < i ==> links[k] == 0
      {
        links[i] := 0;
      }
    }

    method HasSpace(position: nat) returns (free: bool)
      requires Valid()
      ensures free ==> position < tail + capacity
      ensures tail + capacity < TWO_64 ==> (free <==> position < tail + capacity)
    {
      free := HasSpaceAt(tail, capacity, position);
    }

    /** The source's `assert(slot.load() == 0)` is the assert here: the caller has seen free space. */
    method AddLink(from: nat, to: nat)
      requires Valid()
      requires from < to && from !in finished && Disjoint(finished[from := to])
      requires HasSpaceAt(tail, capacity, from)
      modifies links, this`finished
      ensures Valid()
      ensures finished == old(finished)[from := to]
      ensures links[..] == old(links[..])[Slot(from, capacity) := to - from]
    {
      SlotIsFree(finished, links[..], tail, tail, from, to);
      ghost var before: seq<nat>, was := links[..], finished;
      var index := SlotIndex(from, capacity);
      assert links[index] == 0;
      links[index] := to - from;
      finished := finished[from := to];
      TracksStore(was, before, tail, tail, from, to, finished, links[..]);
    }

    /** Reads the link at `position`, which must be where a reader of this ring stands. */
    method NextPosition(position: nat) returns (stop: bool, next: nat)
      requires links.Length == capacity && IsPowerOfTwo(capacity)
      requires Disjoint(finished) && Tracks(finished, links[..], tail, position)
      ensures stop ==> !Covered(finished, position)
      ensures !stop ==> position in finished && next == finished[position] && position < tail + capacity
    {
      var distance := links[SlotIndex(position, capacity)];
      if distance != 0 {
        LinkIsGenuine(finished, links[..], tail, position);
        assert position < TWO_64 - 1 - distance;
      } else {
        EmptySlotIsHole(finished, links[..], tail, position);
      }
      next := position + distance;
      stop := distance == 0;
    }

    method ClaimPosition(position: nat)
      requires links.Length == capacity && IsPowerOfTwo(capacity)
      modifies links
      ensures links[..] == old(links[..])[Slot(position, capacity) := 0]
    {
      links[SlotIndex(position, capacity)] := 0;
    }

    /** One round of the loop below: read the link, ask the stop condition, claim the slot. */
    method FollowLink(position: nat, stopCondition: (nat, nat) -> bool) returns (stop: bool, next: nat)
      requires links.Length == capacity && IsPowerOfTwo(capacity)
      requires Disjoint(finished) && Tracks(finished, links[..], tail, position)
      modifies links
      ensures stop ==> links[..] == old(links[..])
      ensures stop && Covered(finished, position) ==>
                position in finished && stopCondition(position, finished[position])
      ensures !stop ==> position in finished && position < next == finished[position] && position < tail + capacity
      ensures !stop ==> !stopCondition(position, next) && Tracks(finished, links[..], tail, next)
    {
      stop, next := NextPosition(position);
      if stop || stopCondition(position, next) {
        return true, next;
      }
      TracksClaim(finished, links[..], tail, position);
      ClaimPosition(position);
    }

    /** The store behind the loop; returns whether the tail has moved. */
    method Publish(position: nat) returns (advanced: bool)
      requires links.Length == capacity && IsPowerOfTwo(capacity)
      requires Disjoint(finished) && Tracks(finished, links[..], tail, position)
      modifies this`tail
      ensures Valid() && tail == position && (advanced <==> old(tail) < tail)
    {
      TracksPublish(finished, links[..], tail, position);
      advanced := position > tail;
      if advanced {
        tail := position;
      }
    }

    /** Lands on the first hole, or earlier on the first link the stop condition refuses. */
    method AdvanceTailUntil(stopCondition: (nat, nat) -> bool) returns (advanced: bool)
      requires Valid()
      modifies links, this`tail
      ensures Valid() && finished == old(finished)
      ensures forall x: nat :: x < tail ==> Covered(finished, x)
      ensures old(tail) <= tail && (advanced <==> old(tail) < tail)
      ensures Followed(finished, stopCondition, old(tail), tail)
      ensures Covered(finished, tail) ==> tail in finished && stopCondition(tail, finished[tail])
    {
      var position := tail;
      while true
        invariant tail == old(tail)
        invariant Tracks(finished, links[..], tail, position)
        invariant Followed(finished, stopCondition, tail, position)
        decreases tail + capacity - position
      {
        var stop, next := FollowLink(position, stopCondition);
        if stop {
          break;
        }
        FollowOne(finished, stopCondition, tail, position);
        position := next;
      }
      advanced := Publish(position);
    }

    method AdvanceTail() returns (advanced: bool)
      requires Valid()
      modifies links, this`tail
      ensures Valid() && finished == old(finished)
      ensures forall x: nat :: x < tail ==> Covered(finished, x)
      ensures !Covered(finished, tail)
      ensures old(tail) <= tail && (advanced <==> old(tail) < tail)
    {
      advanced := AdvanceTailUntil((from, to) => to == from);
    }

    /** The loop looks at no more than `capacity` slots, yet decides the whole range. */
    method ValidateNoLinks(begin: nat, end: nat) returns (ok: bool)
      requires links.Length == capacity && IsPowerOfTwo(capacity)
      ensures ok <==> NoLinks(links[..], begin, end)
    {
      var stop := if end < begin + capacity then end else begin + capacity;
      var p := begin;
      ok := true;
      while p < stop && ok
        invariant begin <= p && (p <= stop || stop < begin)
        invariant ok ==> NoLinks(links[..], begin, p)
        invariant !ok ==> !NoLinks(links[..], begin, stop)
      {
        ok := links[SlotIndex(p, capacity)] == 0;
        p := p + 1;
      }
      if begin + capacity <= end {
        OneRingDecides(links[..], begin, end);
      }
    }
  }
}
