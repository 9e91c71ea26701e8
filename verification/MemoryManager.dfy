/** The fixed-block pinned memory allocator (src/mem_mag.cc, src/include/mem_mag.h): first as one
    thread sees it, then with any number of threads in `allocate_next_block` at once. */
module MemoryManager {
  import opened Basics
  import opened Modular
  import Runs

  datatype Block = Block(virtualOffset: nat, length: nat)

  /** Exactly the first `granted` blocks exist, each at its own offset. */
  ghost predicate HoldsFirst(len: nat, blocks: seq<Option<Block>>, granted: nat) {
    && granted <= |blocks|
    && forall i :: 0 <= i < |blocks| ==> blocks[i] == if i < granted then Some(Block(i * len, len)) else None
  }

  /** One more block fits exactly when fewer than `max / len` are granted. */
  lemma FitsIff(len: nat, max: nat, granted: nat)
    requires len > 0
    ensures granted * len + len <= max <==> granted < max / len
    ensures (granted * len) / len == granted && (granted * len) % len == 0
  {
    DivideExactly(max, len);
    AddMultiple(0, granted, len);
    assert (granted + 1) * len == granted * len + len;
    if granted < max / len {
      MultiplyMonotone(granted + 1, max / len, len);
    } else {
      MultiplyMonotone(max / len, granted, len);
    }
  }

  /** Neither adding a block's length nor taking it back wraps the counter. */
  lemma NoWrap(len: nat, max: nat, granted: nat)
    requires len > 0 && max + len < TWO_64 && granted <= max / len
    ensures granted * len + len <= max <==> granted < max / len
    ensures (granted * len) / len == granted && (granted + 1) * len == granted * len + len
    ensures (granted * len + len) % TWO_64 == granted * len + len
    ensures (granted * len + len - len) % TWO_64 == granted * len
  {
    FitsIff(len, max, granted);
    MultiplyMonotone(granted, max / len, len);
    DivideExactly(max, len);
  }

  class PinnedFixMemory {
    const maxSize: nat
    const blockLength: nat
    var nextOffset: nat
    var blocks: seq<Option<Block>>
    ghost var granted: nat

    ghost predicate Valid()
      reads this
    {
      && 0 < blockLength && maxSize + blockLength < TWO_64
      && |blocks| == maxSize / blockLength
      && HoldsFirst(blockLength, blocks, granted)
      && nextOffset == granted * blockLength
    }

    constructor (blockLen: nat, max: nat)
      requires 0 < blockLen && max + blockLen < TWO_64
      ensures Valid() && granted == 0 && maxSize == max && blockLength == blockLen
    {
      granted, nextOffset, maxSize, blockLength := 0, 0, max, blockLen;
      blocks := seq(max / blockLen, _ => None);
    }

    method AllocateNextBlock() returns (ok: bool)
      requires Valid()
      modifies this
      ensures Valid()
      ensures ok <==> old(granted) < |blocks|
      ensures granted == if ok then old(granted) + 1 else old(granted)
    {
      NoWrap(blockLength, maxSize, granted);
      var start := nextOffset;
      nextOffset := (nextOffset + blockLength) % TWO_64;
      if start + blockLength <= maxSize {
        var b := Block(start, blockLength);
        var idx := start / blockLength;
        assert blocks[idx] == None;
        blocks := blocks[idx := Some(b)];
        granted := granted + 1;
        ok := true;
      } else {
        nextOffset := (nextOffset - blockLength) % TWO_64;
        ok := false;
      }
    }

    /** The lookup of `get_pinned_mr` and `get_mr`: every offset below the granted blocks, and no other, finds
        the block it lies in. */
    method GetPinnedMr(voff: nat) returns (b: Option<Block>)
      requires Valid()
      ensures b == if voff < granted * blockLength then Some(Block(voff - voff % blockLength, blockLength)) else None
    {
      b := None;
      if voff < nextOffset {
        DivideExactly(voff, blockLength);
        OffsetIndex(voff, blockLength, granted);
        b := blocks[voff / blockLength];
      }
    }
  }

  lemma OffsetIndex(voff: nat, len: nat, n: nat)
    requires len > 0
    ensures voff < n * len <==> voff / len < n
    ensures (voff / len) * len == voff - voff % len
  {
    DivideExactly(voff, len);
    if voff / len < n {
      MultiplyMonotone(voff / len + 1, n, len);
    } else {
      MultiplyMonotone(n, voff / len, len);
    }
  }

  // ---- any number of threads

  /** `holding` maps a thread whose `fetch_add` returned a fitting offset to its block number, until it
      has stored the block; the threads in `undoing` still have to subtract again. `grants` lists the
      block numbers handed out, in order. */
  datatype State = State(
    threads: set<nat>,
    len: nat,
    max: nat,
    nextOffset: nat,
    blocks: seq<Option<Block>>,
    holding: map<nat, nat>,
    undoing: set<nat>,
    grants: seq<nat>)
  {
    function Granted(): nat {
      |grants|
    }
  }

  datatype Step = FetchAdd(t: nat) | StoreBlock(t: nat) | FetchSub(t: nat)

  /** The counter cannot wrap: even with every thread past the end it stays below 2^64. */
  ghost predicate Init(s: State) {
    && 0 < s.len && s.max + |s.threads| * s.len + s.len < TWO_64
    && s.nextOffset == 0 && s.holding == map[] && s.undoing == {} && s.grants == []
    && |s.blocks| == s.max / s.len && HoldsFirst(s.len, s.blocks, 0)
  }

  ghost predicate NextStep(s: State, u: State, step: Step)
    requires s.len > 0
  {
    match step
    case FetchAdd(t) =>
      && t in s.threads && t !in s.holding && t !in s.undoing
      && var start, next := s.nextOffset, (s.nextOffset + s.len) % TWO_64;
         u == if start + s.len <= s.max
              then s.(nextOffset := next, holding := s.holding[t := start / s.len],
                      grants := s.grants + [start / s.len])
              else s.(nextOffset := next, undoing := s.undoing + {t})
    case StoreBlock(t) =>
      && t in s.holding && s.holding[t] < |s.blocks|
      && u == s.(blocks := s.blocks[s.holding[t] := Some(Block(s.holding[t] * s.len, s.len))],
                 holding := s.holding - {t})
    case FetchSub(t) =>
      && t in s.undoing
      && u == s.(nextOffset := (s.nextOffset - s.len) % TWO_64, undoing := s.undoing - {t})
  }

  ghost predicate Next(s: State, u: State) {
    s.len > 0 && exists step :: NextStep(s, u, step)
  }

  ghost predicate IsRun(run: seq<State>) {
    Runs.IsRun(Init, Next, run)
  }

  ghost predicate CounterInv(s: State) {
    && 0 < s.len && s.max + |s.threads| * s.len + s.len < TWO_64
    && |s.blocks| == s.max / s.len
    && s.undoing <= s.threads
    && s.nextOffset == (s.Granted() + |s.undoing|) * s.len
    && s.Granted() <= |s.blocks|
    && (s.undoing != {} ==> s.Granted() == |s.blocks|)
    && forall i :: 0 <= i < |s.grants| ==> s.grants[i] == i
  }

  ghost predicate BlocksInv(s: State) {
    && (forall t :: t in s.holding ==> s.holding[t] < s.Granted() <= |s.blocks| && s.blocks[s.holding[t]] == None)
    && (forall t, u :: t in s.holding && u in s.holding && t != u ==> s.holding[t] != s.holding[u])
    && (forall i :: 0 <= i < |s.blocks| ==>
          match s.blocks[i]
          case Some(b) => i < s.Granted() && b == Block(i * s.len, s.len)
          case None => i < s.Granted() ==> i in s.holding.Values)
  }

  ghost predicate Inv(s: State) {
    CounterInv(s) && BlocksInv(s)
  }

  /** No step wraps the counter. */
  lemma CounterBound(s: State)
    requires CounterInv(s)
    ensures s.nextOffset + s.len < TWO_64
    ensures s.nextOffset + s.len <= s.max <==> s.Granted() < |s.blocks|
    ensures s.Granted() < |s.blocks| ==> s.nextOffset / s.len == s.Granted()
    ensures s.nextOffset + s.len == (s.Granted() + |s.undoing| + 1) * s.len
  {
    SubsetCount(s.undoing, s.threads);
    var g, u, n := s.Granted(), |s.undoing|, |s.threads|;
    FitsIff(s.len, s.max, g + u);
    DivideExactly(s.max, s.len);
    MultiplyMonotone(g, |s.blocks|, s.len);
    MultiplyMonotone(u, n, s.len);
    assert (g + u) * s.len == g * s.len + u * s.len;
    assert s.undoing == {} ==> u == 0;
  }

  lemma FetchAddCounter(s: State, u: State, t: nat)
    requires CounterInv(s) && NextStep(s, u, FetchAdd(t))
    ensures CounterInv(u)
    ensures if s.Granted() < |s.blocks|
            then u == s.(nextOffset := u.nextOffset, holding := s.holding[t := s.Granted()],
                         grants := s.grants + [s.Granted()])
            else u == s.(nextOffset := u.nextOffset, undoing := s.undoing + {t})
  {
    CounterBound(s);
    assert s.undoing == {} ==> |s.undoing| == 0;
  }

  lemma GrantKeepsBlocks(s: State, u: State, t: nat)
    requires BlocksInv(s) && t !in s.holding && s.Granted() < |s.blocks|
    requires u == s.(nextOffset := u.nextOffset, holding := s.holding[t := s.Granted()],
                     grants := s.grants + [s.Granted()])
    ensures BlocksInv(u)
  {
    assert s.blocks[s.Granted()] == None;
    ValuesGrow(s.holding, t, s.Granted());
  }

  lemma FetchAddInv(s: State, u: State, t: nat)
    requires Inv(s) && NextStep(s, u, FetchAdd(t))
    ensures Inv(u)
  {
    FetchAddCounter(s, u, t);
    if s.Granted() < |s.blocks| {
      GrantKeepsBlocks(s, u, t);
    }
  }

  lemma ValuesGrow(m: map<nat, nat>, t: nat, v: nat)
    requires t !in m
    ensures m[t := v].Values == m.Values + {v}
  {
    var n := m[t := v];
    forall x | x in m.Values
      ensures x in n.Values
    {
      var k :| k in m && m[k] == x;
      assert n[k] == x;
    }
    assert n[t] == v;
  }

  lemma StoreInv(s: State, u: State, t: nat)
    requires Inv(s) && NextStep(s, u, StoreBlock(t))
    ensures Inv(u)
  {
    var idx := s.holding[t];
    forall i | i in s.holding.Values && i != idx
      ensures i in u.holding.Values
    {
      var k :| k in s.holding && s.holding[k] == i;
      assert k in u.holding && u.holding[k] == i;
    }
  }

  lemma UndoExactly(g: nat, u: nat, len: nat)
    requires (g + (u + 1)) * len < TWO_64
    ensures ((g + (u + 1)) * len - len) % TWO_64 == (g + u) * len
  {
    assert (g + (u + 1)) * len == (g + u) * len + len;
  }

  lemma FetchSubInv(s: State, u: State, t: nat)
    requires Inv(s) && NextStep(s, u, FetchSub(t))
    ensures Inv(u)
  {
    CounterBound(s);
    assert |s.undoing| == |u.undoing| + 1;
    UndoExactly(s.Granted(), |u.undoing|, s.len);
  }

  lemma RunInv(run: seq<State>, i: nat)
    requires IsRun(run) && i < |run|
    ensures Inv(run[i])
  {
    forall s, u | Inv(s) && Next(s, u)
      ensures Inv(u)
    {
      var step :| NextStep(s, u, step);
      match step
      case FetchAdd(t) => FetchAddInv(s, u, t);
      case StoreBlock(t) => StoreInv(s, u, t);
      case FetchSub(t) => FetchSubInv(s, u, t);
    }
    Runs.Holds(Init, Next, Inv, run, i);
  }

  /** Block numbers are handed out once each and in order, and the slot of a block about to be stored
      is empty: the assertion in `allocate_next_block` never fires. */
  lemma GrantsAreSequential(run: seq<State>, i: nat)
    requires IsRun(run) && i < |run|
    ensures forall k :: 0 <= k < |run[i].grants| ==> run[i].grants[k] == k
    ensures forall t :: t in run[i].holding ==>
              run[i].holding[t] < |run[i].blocks| && run[i].blocks[run[i].holding[t]] == None
  {
    RunInv(run, i);
  }

  /** A call fails only when every block has been granted, and none is granted beyond the end. */
  lemma FailuresAreJustified(run: seq<State>, i: nat, t: nat)
    requires IsRun(run) && i < |run|
    ensures run[i].len > 0 && run[i].Granted() <= run[i].max / run[i].len
    ensures t in run[i].undoing ==> run[i].Granted() == run[i].max / run[i].len
  {
    RunInv(run, i);
  }

  /** With no call in progress the shared state is that of the sequential allocator. */
  lemma QuiescentIsSequential(run: seq<State>, i: nat)
    requires IsRun(run) && i < |run| && run[i].holding == map[] && run[i].undoing == {}
    ensures run[i].nextOffset == run[i].Granted() * run[i].len
    ensures HoldsFirst(run[i].len, run[i].blocks, run[i].Granted())
  {
    RunInv(run, i);
  }

  /** Every aligned offset below the counter names a block number inside the vector. */
  ghost predicate LookupsInRange(s: State)
    requires s.len > 0
  {
    forall voff: nat :: voff % s.len == 0 && voff < s.nextOffset ==> voff / s.len < |s.blocks|
  }

  /** Lookups index inside the vector exactly when no rollback is pending. */
  lemma LookupsInRangeIff(run: seq<State>, i: nat)
    requires IsRun(run) && i < |run|
    ensures run[i].len > 0
    ensures LookupsInRange(run[i]) <==> run[i].undoing == {}
  {
    RunInv(run, i);
    var s := run[i];
    if s.undoing == {} {
      forall voff: nat | voff % s.len == 0 && voff < s.nextOffset
        ensures voff / s.len < |s.blocks|
      {
        OffsetIndex(voff, s.len, s.Granted());
      }
    } else {
      var voff := |s.blocks| * s.len;
      FitsIff(s.len, s.max, |s.blocks|);
      assert |s.undoing| >= 1;
      OffsetIndex(voff, s.len, s.Granted() + |s.undoing|);
      assert voff < s.nextOffset && voff / s.len == |s.blocks|;
    }
  }

  /** Whatever a lookup finds is the block at the offset asked for. */
  lemma LookupFindsItsBlock(run: seq<State>, i: nat, voff: nat)
    requires IsRun(run) && i < |run| && run[i].len > 0 && voff % run[i].len == 0
    requires voff / run[i].len < |run[i].blocks| && run[i].blocks[voff / run[i].len].Some?
    ensures run[i].blocks[voff / run[i].len].value == Block(voff, run[i].len)
    ensures voff < run[i].nextOffset
  {
    RunInv(run, i);
    var s := run[i];
    OffsetIndex(voff, s.len, s.Granted() + |s.undoing|);
  }

  /** Two threads and room for one block: the second one's addition is pending a rollback, and an offset below
      the counter names a block number outside the vector. */
  lemma RollbackMayBePending() returns (run: seq<State>)
    ensures IsRun(run) && run[|run| - 1].undoing != {} && run[|run| - 1].len > 0
    ensures !LookupsInRange(run[|run| - 1])
  {
    var s0 := State({1, 2}, 1, 1, 0, [None], map[], {}, []);
    var s1 := s0.(nextOffset := 1, holding := map[1 := 0], grants := [0]);
    var s2 := s1.(nextOffset := 2, undoing := {2});
    run := [s0, s1, s2];
    assert |s0.threads| == 2;
    assert NextStep(s0, s1, FetchAdd(1));
    assert NextStep(s1, s2, FetchAdd(2));
    assert Init(s0) && Next(s0, s1) && Next(s1, s2);
    LookupsInRangeIff(run, 2);
  }
}
