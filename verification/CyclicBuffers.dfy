/** Cyclic addressing inside a queue pair's buffer and the layout of all buffers in one memory region
    (macros of lib/perf/perftest_resources.h; alloc_ctx, create_mr and the work-request builders of
    lib/perf/perftest_resources.c). */
module CyclicBuffers {
  import opened Modular

  const UD_ADDITION: nat := 40

  function BuffSize(size: nat, cycleBuffer: nat): nat {
    if size < cycleBuffer then cycleBuffer else size
  }

  function RoundUp(value: nat, alignment: nat): (r: nat)
    requires alignment > 0
    ensures r % alignment == 0 && value <= r < value + alignment
  {
    if value % alignment == 0 then value
    else
      DivideExactly(value, alignment);
      OneMore(alignment, value / alignment);
      AddMultiple(0, value / alignment + 1, alignment);
      alignment * (value / alignment + 1)
  }

  function Inc(size: nat, cacheLine: nat): (inc: nat)
    requires cacheLine > 0
    ensures inc % cacheLine == 0 && size <= inc && cacheLine <= inc
    ensures inc < size + cacheLine || inc == cacheLine
  {
    if size > cacheLine then RoundUp(size, cacheLine) else cacheLine
  }

  /** What `increase_loc_addr` and `increase_rem_addr` make of an address. */
  function NextAddr(addr: nat, prim: nat, inc: nat, slots: nat, counter: nat): nat
    requires slots > 0
  {
    if (counter + 1) % slots == 0 then prim else addr + inc
  }

  function SlotAddr(prim: nat, inc: nat, slot: nat): nat {
    prim + slot * inc
  }

  /** Driven by a counter in step with it, the address visits the slots in turn. */
  lemma InStep(prim: nat, inc: nat, slots: nat, k: nat)
    requires slots > 0
    ensures NextAddr(SlotAddr(prim, inc, k % slots), prim, inc, slots, k) == SlotAddr(prim, inc, (k + 1) % slots)
  {
    Successor(k, slots);
    OneMore(inc, k % slots);
  }

  /** The address after t advances from `prim`, driven by a counter that starts at any phase. */
  function Walk(prim: nat, inc: nat, slots: nat, phase: nat, t: nat): nat
    requires slots > 0
  {
    if t == 0 then prim else NextAddr(Walk(prim, inc, slots, phase, t - 1), prim, inc, slots, phase + t - 1)
  }

  /** The slot it is then in: counting from the start until the counter first wraps, and in step with
      the counter from there on. */
  function WalkSlot(slots: nat, phase: nat, t: nat): (slot: nat)
    requires slots > 0
    ensures slot < slots
  {
    if phase % slots + t < slots then t else (phase + t) % slots
  }

  lemma NextSlot(prim: nat, inc: nat, slots: nat, slot: nat, counter: nat)
    requires slots > 0
    ensures NextAddr(SlotAddr(prim, inc, slot), prim, inc, slots, counter)
         == SlotAddr(prim, inc, if (counter + 1) % slots == 0 then 0 else slot + 1)
  {
    OneMore(inc, slot);
    assert slot * inc == inc * slot && (slot + 1) * inc == inc * (slot + 1);
  }

  lemma {:induction false} WalkStaysInside(prim: nat, inc: nat, slots: nat, phase: nat, t: nat)
    requires slots > 0
    ensures Walk(prim, inc, slots, phase, t) == SlotAddr(prim, inc, WalkSlot(slots, phase, t))
  {
    if t > 0 {
      WalkStaysInside(prim, inc, slots, phase, t - 1);
      WalkSlotStep(slots, phase, t - 1);
      NextSlot(prim, inc, slots, WalkSlot(slots, phase, t - 1), phase + t - 1);
    }
  }

  lemma WalkSlotStep(slots: nat, phase: nat, t: nat)
    requires slots > 0
    ensures WalkSlot(slots, phase, t + 1) == if (phase + t + 1) % slots == 0 then 0 else WalkSlot(slots, phase, t) + 1
  {
    Successor(phase + t, slots);
    if phase % slots + t + 1 <= slots {
      DivideExactly(phase, slots);
      if phase % slots + t + 1 < slots {
        RemainderUnique(phase + t + 1, slots, phase / slots, phase % slots + t + 1);
      } else {
        OneMore(slots, phase / slots);
        RemainderUnique(phase + t + 1, slots, phase / slots + 1, 0);
      }
    }
  }

  /** The sizes of one context: one flow, all queue pairs in one memory region. */
  datatype Layout = Layout(base: nat, size: nat, cacheLine: nat, cycleBuffer: nat, qps: nat, ud: bool) {
    predicate Valid() {
      0 < size && UD_ADDITION <= cacheLine <= cycleBuffer && 0 < qps
    }

    function Stride(): nat
      requires Valid()
    {
      Inc(size, cacheLine)
    }

    /** Slots in use: messages larger than half the cycle buffer stay at its start. */
    function Slots(): (n: nat)
      requires Valid()
      ensures n > 0
    {
      StrideFits();
      if size <= cycleBuffer / 2 then cycleBuffer / Stride() else 1
    }

    lemma StrideFits()
      requires Valid()
      ensures size <= cycleBuffer / 2 ==> Stride() <= cycleBuffer && cycleBuffer / Stride() > 0
    {
      if size <= cycleBuffer / 2 {
        DivideExactly(cycleBuffer, Stride());
      }
    }

    // alloc_ctx, for flows == 1 and !mr_per_qp
    function BufSize(): nat
      requires Valid()
    {
      Inc(BuffSize(size, cycleBuffer), cacheLine) * 2 * qps
    }

    function SendQpBuffSize(): nat
      requires Valid()
    {
      BufSize() / qps / 2
    }

    /** The region's length, which is a cache line longer for UD. */
    function Total(): nat
      requires Valid()
    {
      BufSize() + if ud then cacheLine else 0
    }

    /** `ctx->buf[qp]`. */
    function SendBase(qp: nat): nat {
      base + qp * BuffSize(size, cycleBuffer)
    }

    /** `ctx->rx_buffer_addr[qp]`. */
    function RecvBase(qp: nat): nat
      requires Valid()
    {
      Multiples(qps + qp, SendQpBuffSize());
      base + (qps + qp) * SendQpBuffSize() + if ud then cacheLine - UD_ADDITION else 0
    }

    /** Where a message in the last slot ends, measured from the start of the buffer. */
    function Extent(): nat
      requires Valid()
    {
      SlotAddr(size, Stride(), Slots() - 1)
    }
  }

  /** One use of a buffer: send k of a queue pair, or the receive posted after t advances driven by a
      counter of any phase. */
  datatype Access = Send(qp: nat, k: nat) | Recv(qp: nat, phase: nat, t: nat)

  function Start(l: Layout, a: Access): nat
    requires l.Valid()
  {
    match a
    case Send(qp, k) => SlotAddr(l.SendBase(qp), l.Stride(), k % l.Slots())
    case Recv(qp, phase, t) => Walk(l.RecvBase(qp), l.Stride(), l.Slots(), phase, t)
  }

  function Length(l: Layout, a: Access): nat {
    if a.Recv? && l.ud then l.size + UD_ADDITION else l.size
  }

  /** The first byte of the buffer an access belongs to. */
  function Buffer(l: Layout, a: Access): nat
    requires l.Valid()
  {
    if a.Send? then l.SendBase(a.qp) else l.RecvBase(a.qp)
  }

  predicate Apart(l: Layout, a: Access, b: Access)
    requires l.Valid()
  {
    Start(l, a) + Length(l, a) <= Start(l, b) || Start(l, b) + Length(l, b) <= Start(l, a)
  }

  predicate InDifferentBuffers(l: Layout, a: Access, b: Access) {
    a.qp < l.qps && b.qp < l.qps && (a.Send? != b.Send? || a.qp != b.qp)
  }

  lemma SlotsFit(l: Layout)
    requires l.Valid()
    ensures l.size <= l.Extent() <= BuffSize(l.size, l.cycleBuffer)
  {
    l.StrideFits();
    if l.size <= l.cycleBuffer / 2 {
      DivideExactly(l.cycleBuffer, l.Stride());
      PackedFit(l.size, l.Stride(), l.Slots(), l.cycleBuffer);
    }
  }

  /** Messages of up to half the cycle buffer use as many slots as fit it, larger ones a single slot. */
  lemma SlotsAreMost(l: Layout)
    requires l.Valid()
    ensures 2 * l.size <= l.cycleBuffer ==>
              l.Stride() * l.Slots() <= l.cycleBuffer < l.Stride() * (l.Slots() + 1)
    ensures 2 * l.size > l.cycleBuffer ==> l.Slots() == 1
  {
    if 2 * l.size <= l.cycleBuffer {
      DivideExactly(l.cycleBuffer, l.Stride());
      OneMore(l.Stride(), l.Slots());
    }
  }

  lemma PackedFit(size: nat, inc: nat, slots: nat, total: nat)
    requires slots > 0 && inc * slots <= total && size <= inc
    ensures size <= SlotAddr(size, inc, slots - 1) <= total
  {
    OneMore(inc, slots - 1);
    assert inc * (slots - 1) == (slots - 1) * inc;
  }

  lemma SlotWithin(prim: nat, size: nat, inc: nat, slot: nat, slots: nat)
    requires slot < slots
    ensures prim <= SlotAddr(prim, inc, slot)
    ensures SlotAddr(prim, inc, slot) + size <= prim + SlotAddr(size, inc, slots - 1)
  {
    Grow(slot, slots - 1, inc, inc);
  }

  /** An access stays in its own buffer. */
  lemma AccessInBuffer(l: Layout, a: Access)
    requires l.Valid()
    ensures Buffer(l, a) <= Start(l, a)
    ensures Start(l, a) + l.size <= Buffer(l, a) + l.Extent()
  {
    match a
    case Send(qp, k) =>
      SlotWithin(l.SendBase(qp), l.size, l.Stride(), k % l.Slots(), l.Slots());
    case Recv(qp, phase, t) =>
      WalkStaysInside(l.RecvBase(qp), l.Stride(), l.Slots(), phase, t);
      SlotWithin(l.RecvBase(qp), l.size, l.Stride(), WalkSlot(l.Slots(), phase, t), l.Slots());
  }

  /** The halved, divided size is the padded size of one buffer again. */
  lemma BufferSizes(l: Layout)
    requires l.Valid()
    ensures l.SendQpBuffSize() == Inc(BuffSize(l.size, l.cycleBuffer), l.cacheLine)
    ensures l.BufSize() == (2 * l.qps) * l.SendQpBuffSize()
    ensures l.Total() == (2 * l.qps) * l.SendQpBuffSize() + if l.ud then l.cacheLine else 0
  {
    var one := Inc(BuffSize(l.size, l.cycleBuffer), l.cacheLine);
    assert l.BufSize() == (2 * one) * l.qps + 0;
    RemainderUnique(l.BufSize(), l.qps, 2 * one, 0);
  }

  /** No access leaves the memory region. */
  lemma AccessInRegion(l: Layout, a: Access)
    requires l.Valid() && a.qp < l.qps
    ensures l.base <= Start(l, a) && Start(l, a) + Length(l, a) <= l.base + l.Total()
  {
    AccessInBuffer(l, a);
    SlotsFit(l);
    BuffersInRegion(l, a.qp);
  }

  lemma RowsInRegion(base: nat, qp: nat, qps: nat, b: nat, one: nat, shift: nat, send: nat, recv: nat, region: nat)
    requires qp < qps && b <= one && region == (2 * qps) * one
    requires send == base + qp * b && recv == base + (qps + qp) * one + shift
    ensures base <= send && send + b <= base + region
    ensures base <= recv && recv + one <= base + region + shift
  {
    Rows(qp, qps, b);
    Rows(qps + qp, 2 * qps, one);
    Grow(qps, 2 * qps, b, one);
  }

  lemma BuffersInRegion(l: Layout, qp: nat)
    requires l.Valid() && qp < l.qps
    ensures l.base <= l.SendBase(qp) && l.base <= l.RecvBase(qp)
    ensures l.SendBase(qp) + BuffSize(l.size, l.cycleBuffer) <= l.base + l.BufSize()
    ensures l.RecvBase(qp) + l.SendQpBuffSize() + (if l.ud then UD_ADDITION else 0) <= l.base + l.Total()
    ensures BuffSize(l.size, l.cycleBuffer) <= l.SendQpBuffSize()
  {
    BufferSizes(l);
    RowsInRegion(l.base, qp, l.qps, BuffSize(l.size, l.cycleBuffer), l.SendQpBuffSize(),
                 if l.ud then l.cacheLine - UD_ADDITION else 0, l.SendBase(qp), l.RecvBase(qp), l.BufSize());
  }

  /** Row i of equal rows ends where row i + 1 starts, and before any later row. */
  lemma Rows(i: nat, j: nat, width: nat)
    requires i < j
    ensures i * width + width <= j * width
  {
    Multiples(j - i, width);
    assert j * width == i * width + (j - i) * width;
  }

  lemma Grow(i: nat, j: nat, narrow: nat, wide: nat)
    requires i <= j && narrow <= wide
    ensures i * narrow <= i * wide <= j * wide
  {
    Multiples(wide - narrow, i);
    Multiples(j - i, wide);
    assert i * wide == i * narrow + (wide - narrow) * i;
    assert j * wide == i * wide + (j - i) * wide;
  }

  /** In a region that starts at a cache line, what follows the extra bytes of every receive does too. */
  lemma ReceivesAligned(l: Layout, a: Access)
    requires l.Valid() && a.Recv? && l.base % l.cacheLine == 0
    ensures (Start(l, a) + if l.ud then UD_ADDITION else 0) % l.cacheLine == 0
  {
    BufferSizes(l);
    WalkStaysInside(l.RecvBase(a.qp), l.Stride(), l.Slots(), a.phase, a.t);
    var i := WalkSlot(l.Slots(), a.phase, a.t);
    AlignedSum(l.base, l.qps + a.qp, l.SendQpBuffSize(), i, l.Stride(), l.cacheLine, if l.ud then 1 else 0);
  }

  lemma AlignedSum(base: nat, i: nat, a: nat, j: nat, b: nat, line: nat, extra: nat)
    requires line > 0 && base % line == 0 && a % line == 0 && b % line == 0
    ensures (base + i * a + j * b + extra * line) % line == 0
  {
    var q := base / line + i * (a / line) + j * (b / line) + extra;
    DivideExactly(base, line);
    DivideExactly(a, line);
    DivideExactly(b, line);
    assert i * a == (i * (a / line)) * line;
    assert j * b == (j * (b / line)) * line;
    assert base + i * a + j * b + extra * line == q * line + 0;
    RemainderUnique(base + i * a + j * b + extra * line, line, q, 0);
  }

  /** The extra bytes of a UD receive still fit behind the last slot. */
  predicate Roomy(l: Layout)
    requires l.Valid()
  {
    !l.ud || l.Extent() + UD_ADDITION <= l.SendQpBuffSize()
  }

  lemma RecvBuffersApart(l: Layout, i: nat, j: nat)
    requires l.Valid() && i < j
    ensures l.RecvBase(i) + l.SendQpBuffSize() <= l.RecvBase(j)
  {
    Rows(l.qps + i, l.qps + j, l.SendQpBuffSize());
  }

  lemma SendBuffersApart(l: Layout, i: nat, j: nat)
    requires l.Valid() && i < j
    ensures l.SendBase(i) + BuffSize(l.size, l.cycleBuffer) <= l.SendBase(j)
  {
    Rows(i, j, BuffSize(l.size, l.cycleBuffer));
  }

  lemma SendBelowRecv(l: Layout, i: nat, j: nat)
    requires l.Valid() && i < l.qps
    ensures l.SendBase(i) + BuffSize(l.size, l.cycleBuffer) <= l.RecvBase(j)
  {
    BufferSizes(l);
    var b, one := BuffSize(l.size, l.cycleBuffer), l.SendQpBuffSize();
    Rows(i, l.qps, b);
    Grow(l.qps, l.qps + j, b, one);
  }

  /** Accesses to different buffers touch different bytes, as long as UD receives have room. */
  lemma DifferentBuffersApart(l: Layout, a: Access, b: Access)
    requires l.Valid() && Roomy(l) && InDifferentBuffers(l, a, b)
    ensures Apart(l, a, b)
  {
    AccessInBuffer(l, a);
    AccessInBuffer(l, b);
    SlotsFit(l);
    BufferSizes(l);
    if a.Send? && b.Send? {
      SendBuffersApart(l, if a.qp < b.qp then a.qp else b.qp, if a.qp < b.qp then b.qp else a.qp);
    } else if a.Recv? && b.Recv? {
      RecvBuffersApart(l, if a.qp < b.qp then a.qp else b.qp, if a.qp < b.qp then b.qp else a.qp);
    } else if a.Send? {
      SendBelowRecv(l, a.qp, b.qp);
    } else {
      SendBelowRecv(l, b.qp, a.qp);
    }
  }

  ghost predicate AllApart(l: Layout)
    requires l.Valid()
  {
    forall a: Access, b: Access :: InDifferentBuffers(l, a, b) ==> Apart(l, a, b)
  }

  /** All buffers are separate exactly when UD receives have room behind the last slot, or there is
      only one receive buffer. */
  lemma BuffersApartIff(l: Layout)
    requires l.Valid()
    ensures AllApart(l) <==> Roomy(l) || l.qps == 1
  {
    if Roomy(l) {
      forall a: Access, b: Access | InDifferentBuffers(l, a, b)
        ensures Apart(l, a, b)
      {
        DifferentBuffersApart(l, a, b);
      }
    } else if l.qps == 1 {
      forall a: Access, b: Access | InDifferentBuffers(l, a, b)
        ensures Apart(l, a, b)
      {
        SinglePairApart(l, a, b);
      }
    } else {
      NeighboursOverlap(l);
    }
  }

  lemma SinglePairApart(l: Layout, a: Access, b: Access)
    requires l.Valid() && l.qps == 1 && InDifferentBuffers(l, a, b)
    ensures Apart(l, a, b)
  {
    AccessInBuffer(l, a);
    AccessInBuffer(l, b);
    SlotsFit(l);
    SendBelowRecv(l, 0, 0);
  }

  /** Otherwise the last slot of one receive buffer runs into the first slot of the next. */
  lemma NeighboursOverlap(l: Layout)
    requires l.Valid() && !Roomy(l) && l.qps >= 2
    ensures !Apart(l, Recv(0, 0, l.Slots() - 1), Recv(1, 0, 0))
  {
    var n := l.Slots();
    WalkStaysInside(l.RecvBase(0), l.Stride(), n, 0, n - 1);
    assert WalkSlot(n, 0, n - 1) == n - 1;
    NextRecvBase(l);
    SlotsFit(l);
    BuffersInRegion(l, 1);
  }

  lemma NextRecvBase(l: Layout)
    requires l.Valid()
    ensures l.RecvBase(1) == l.RecvBase(0) + l.SendQpBuffSize()
  {
    var one := l.SendQpBuffSize();
    OneMore(one, l.qps);
    assert (l.qps + 1) * one == one * (l.qps + 1);
  }

  /** A layout in which they do: small datagrams, two queue pairs. */
  lemma FullUdBuffersTouch() returns (l: Layout)
    ensures l.Valid() && !Roomy(l) && l.qps == 2 && !AllApart(l)
  {
    l := Layout(0, 64, 64, 4096, 2, true);
    NextToFull(l);
    BuffersApartIff(l);
  }

  lemma NextToFull(l: Layout)
    requires l == Layout(0, 64, 64, 4096, 2, true)
    ensures l.Valid() && l.Stride() == 64 && l.Slots() == 64 && !Roomy(l)
  {
    BufferSizes(l);
  }

  /** Two receives of one queue pair in different slots. */
  predicate InDifferentSlots(l: Layout, a: Access, b: Access)
    requires l.Valid()
  {
    && a.Recv? && b.Recv? && a.qp == b.qp < l.qps
    && WalkSlot(l.Slots(), a.phase, a.t) != WalkSlot(l.Slots(), b.phase, b.t)
  }

  ghost predicate SlotsApart(l: Layout)
    requires l.Valid()
  {
    forall a: Access, b: Access :: InDifferentSlots(l, a, b) ==> Apart(l, a, b)
  }

  /** What a receive takes, with its extra bytes for UD, fits the step from slot to slot. */
  predicate FitsStride(l: Layout)
    requires l.Valid()
  {
    l.size + (if l.ud then UD_ADDITION else 0) <= l.Stride()
  }

  lemma SlotsOrdered(l: Layout, a: Access, b: Access)
    requires l.Valid() && FitsStride(l) && InDifferentSlots(l, a, b)
    requires WalkSlot(l.Slots(), a.phase, a.t) < WalkSlot(l.Slots(), b.phase, b.t)
    ensures Apart(l, a, b)
  {
    var i, j := WalkSlot(l.Slots(), a.phase, a.t), WalkSlot(l.Slots(), b.phase, b.t);
    WalkStaysInside(l.RecvBase(a.qp), l.Stride(), l.Slots(), a.phase, a.t);
    WalkStaysInside(l.RecvBase(b.qp), l.Stride(), l.Slots(), b.phase, b.t);
    Rows(i, j, l.Stride());
  }

  /** The first two slots of a buffer. */
  lemma NextSlotOverlaps(l: Layout)
    requires l.Valid() && !FitsStride(l) && l.Slots() > 1
    ensures InDifferentSlots(l, Recv(0, 0, 0), Recv(0, 0, 1)) && !Apart(l, Recv(0, 0, 0), Recv(0, 0, 1))
  {
    WalkStaysInside(l.RecvBase(0), l.Stride(), l.Slots(), 0, 0);
    WalkStaysInside(l.RecvBase(0), l.Stride(), l.Slots(), 0, 1);
    RemainderUnique(0, l.Slots(), 0, 0);
    assert SlotAddr(l.RecvBase(0), l.Stride(), 1) == l.RecvBase(0) + l.Stride();
  }

  /** Within one queue pair receives in different slots are separate exactly if a receive fits the stride or
      there is but one slot. */
  lemma SlotsApartIff(l: Layout)
    requires l.Valid()
    ensures SlotsApart(l) <==> FitsStride(l) || l.Slots() == 1
  {
    if FitsStride(l) {
      forall a: Access, b: Access | InDifferentSlots(l, a, b)
        ensures Apart(l, a, b)
      {
        if WalkSlot(l.Slots(), a.phase, a.t) < WalkSlot(l.Slots(), b.phase, b.t) {
          SlotsOrdered(l, a, b);
        } else {
          SlotsOrdered(l, b, a);
        }
      }
    } else if l.Slots() > 1 {
      NextSlotOverlaps(l);
    }
  }
}
