/** The send work requests of one queue pair: the prebuilt list of `ctx_set_send_reg_wqes` and the
    single request that `run_iter_bw` rewrites between posts (lib/perf/perftest_resources.c). */
module SendWork {
  import opened CyclicBuffers
  import opened Moderation
  import opened Modular

  /** Sizes that govern the cycle through a queue pair's buffer. */
  datatype Cycle = Cycle(size: nat, cacheLine: nat, cycleBuffer: nat) {
    predicate Valid() {
      0 < cacheLine <= cycleBuffer
    }

    predicate Moves() {
      size <= cycleBuffer / 2
    }

    function Slots(): (n: nat)
      requires Valid() && Moves()
      ensures n > 0
    {
      DivideExactly(cycleBuffer, Inc(size, cacheLine));
      cycleBuffer / Inc(size, cacheLine)
    }

    /** Where send k of the queue pair takes its data from, or puts it. */
    function SendAddr(prim: nat, k: nat): nat
      requires Valid()
    {
      if Moves() then SlotAddr(prim, Inc(size, cacheLine), k % Slots()) else prim
    }
  }

  /** A scatter entry, or the remote address of a work request. */
  class AddressCell {
    var addr: nat

    constructor (addr: nat)
      ensures this.addr == addr
    {
      this.addr := addr;
    }

    /** `increase_loc_addr` and, on the remote address, `increase_rem_addr`. */
    method Increase(y: Cycle, count: nat, prim: nat)
      requires y.Valid() && y.Moves()
      modifies this
      ensures old(addr) == y.SendAddr(prim, count) ==> addr == y.SendAddr(prim, count + 1)
      ensures addr == NextAddr(old(addr), prim, Inc(y.size, y.cacheLine), y.Slots(), count)
    {
      InStep(prim, Inc(y.size, y.cacheLine), y.Slots(), count);
      addr := addr + Inc(y.size, y.cacheLine);
      if (count + 1) % (y.cycleBuffer / Inc(y.size, y.cacheLine)) == 0 {
        addr := prim;
      }
    }
  }

  /** One queue pair with `post_list == 1`: its only work request, changed in place. */
  class SendQueue {
    const c: Config
    const y: Cycle
    const myAddr: nat    // start of the local buffer
    const remAddr: nat   // start of the remote buffer
    const local: AddressCell
    const remote: AddressCell
    var signaled: bool   // send_flags has IBV_SEND_SIGNALED
    var scnt: nat

    /** The flag the next post will carry, after the loop has had its chance to clear it. */
    predicate FlagAtPost()
      requires c.cqMod > 0
      reads this
    {
      signaled && !(scnt % c.cqMod == 0 && c.cqMod > 1 && scnt != c.iters - 1)
    }

    ghost predicate Valid()
      reads this, local, remote
    {
      && Moderated(c) && c.postList == 1 && y.Valid() && local != remote
      && scnt <= c.iters
      && local.addr == y.SendAddr(myAddr, scnt)
      && remote.addr == y.SendAddr(remAddr, scnt)
      && (scnt < c.iters ==> FlagAtPost() == Signalled(c, scnt))
    }

    constructor (c: Config, y: Cycle, myAddr: nat, remAddr: nat)
      requires Moderated(c) && c.postList == 1 && y.Valid()
      ensures Valid() && fresh(local) && fresh(remote)
      ensures this.c == c && this.y == y && this.myAddr == myAddr && this.remAddr == remAddr && scnt == 0
    {
      this.c, this.y, this.myAddr, this.remAddr := c, y, myAddr, remAddr;
      local := new AddressCell(myAddr);
      remote := new AddressCell(remAddr);
      signaled := 1 % c.cqMod == 0;
      scnt := 0;
      new;
      Successor(0, c.cqMod);
    }

    /** One turn of the posting loop. Returns what the posted request said. */
    method PostSend() returns (usedLocal: nat, usedRemote: nat, usedFlag: bool)
      requires Valid() && scnt < c.iters
      modifies this, local, remote
      ensures Valid() && scnt == old(scnt) + 1
      ensures usedFlag <==> Signalled(c, old(scnt))
      ensures usedLocal == y.SendAddr(myAddr, old(scnt)) && usedRemote == y.SendAddr(remAddr, old(scnt))
    {
      if scnt % c.cqMod == 0 && c.cqMod > 1 && scnt != c.iters - 1 {
        signaled := false;
      }
      usedLocal, usedRemote, usedFlag := local.addr, remote.addr, signaled;
      if y.size <= y.cycleBuffer / 2 {
        local.Increase(y, scnt, myAddr);
        remote.Increase(y, scnt, remAddr);
      }
      scnt := scnt + 1;
      if scnt % c.cqMod == c.cqMod - 1 || scnt == c.iters - 1 {
        signaled := true;
      }
      FlagFollows(c, scnt - 1);
    }
  }

  /** Remainders around a post that the flag logic depends on. */
  lemma FlagFollows(c: Config, k: nat)
    requires Moderated(c)
    ensures (k + 1) % c.cqMod == if k % c.cqMod == c.cqMod - 1 then 0 else k % c.cqMod + 1
    ensures (k + 2) % c.cqMod == if (k + 1) % c.cqMod == c.cqMod - 1 then 0 else (k + 1) % c.cqMod + 1
  {
    Successor(k, c.cqMod);
    Successor(k + 1, c.cqMod);
  }

  /** The prebuilt list: entry j is addressed as the j-th send of a cycle, on both sides. */
  method BuildList(c: Config, y: Cycle, myAddr: nat, remAddr: nat)
    returns (addrs: array<nat>, remotes: array<nat>, flags: array<bool>)
    requires Moderated(c) && y.Valid()
    ensures fresh(addrs) && fresh(remotes) && fresh(flags)
    ensures addrs.Length == remotes.Length == flags.Length == c.postList
    ensures forall j :: 0 <= j < c.postList ==>
                          addrs[j] == y.SendAddr(myAddr, j) && remotes[j] == y.SendAddr(remAddr, j)
    ensures c.postList > 1 ==>
              forall k :: 0 <= k < c.iters ==> flags[k % c.postList] == Signalled(c, k)
  {
    addrs, remotes := new nat[c.postList], new nat[c.postList];
    flags := new bool[c.postList];
    addrs[0], remotes[0] := myAddr, remAddr;
    for j := 0 to c.postList
      invariant j == 0 ==> addrs[0] == myAddr && remotes[0] == remAddr
      invariant forall i :: 0 <= i < j ==> addrs[i] == y.SendAddr(myAddr, i) && remotes[i] == y.SendAddr(remAddr, i)
      invariant forall i :: 0 <= i < j ==> flags[i] == ((i + 1) % c.cqMod == 0)
    {
      if j > 0 {
        addrs[j] := NextEntry(y, addrs[j - 1], j - 1, myAddr);
      }
      flags[j] := (j + 1) % c.cqMod == 0;
      if j > 0 {
        remotes[j] := NextEntry(y, remotes[j - 1], j - 1, remAddr);
      }
    }
    if c.postList > 1 {
      forall k | 0 <= k < c.iters
        ensures flags[k % c.postList] == Signalled(c, k)
      {
        ListFlag(c, k);
      }
    }
  }

  /** An entry starts as a copy of the one before it and is then advanced. */
  method NextEntry(y: Cycle, before: nat, count: nat, prim: nat) returns (addr: nat)
    requires y.Valid() && before == y.SendAddr(prim, count)
    ensures addr == y.SendAddr(prim, count + 1)
  {
    var cell := new AddressCell(before);
    if y.size <= y.cycleBuffer / 2 {
      cell.Increase(y, count, prim);
    }
    addr := cell.addr;
  }

  /** Within lists the moderation phase repeats, and the run ends on a list boundary. */
  lemma ListFlag(c: Config, k: nat)
    requires Moderated(c) && c.postList > 1 && k < c.iters
    ensures (k % c.postList + 1) % c.cqMod == 0 <==> Signalled(c, k)
  {
    var p, m := c.postList, c.cqMod;
    DivideExactly(k, p);
    DivideExactly(p, m);
    var q := (p / m) * (k / p);
    assert k + 1 == (k % p + 1) + q * m by {
      assert p * (k / p) == (m * (p / m)) * (k / p) == q * m;
    }
    AddMultiple(k % p + 1, q, m);
    DividesTransitive(c.iters, p, m);
  }
}
