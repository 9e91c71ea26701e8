/** Credit writes of the receiving side over several queue pairs that share one send completion queue:
    the bookkeeping of `run_iter_bw_server` and `clean_scq_credit` (lib/perf/perftest_resources.c). */
module CreditServer {
  import opened Sums

  /** Every write is counted once: a queue pair's credit counter equals its writes still with the
      hardware plus its completions waiting in the queue, and the total is the sum of the counters. */
  ghost predicate Conserved(scredit: seq<nat>, total: int, pending: seq<nat>, cq: seq<nat>) {
    && |scredit| == |pending|
    && (forall id :: id in cq ==> id < |scredit|)
    && (forall i :: 0 <= i < |scredit| ==> scredit[i] == pending[i] + multiset(cq)[i])
    && total == Sum(scredit)
  }

  /** In total too. */
  lemma {:induction false} ConservedInTotal(scredit: seq<nat>, total: int, pending: seq<nat>, cq: seq<nat>)
    requires Conserved(scredit, total, pending, cq)
    ensures total == Sum(pending) + |cq|
    decreases |cq|
  {
    if cq == [] {
      assert scredit == pending;
    } else {
      var rest, id := cq[..|cq| - 1], cq[|cq| - 1];
      assert cq == rest + [id];
      assert id in cq && forall x :: x in rest ==> x in cq;
      SumUpdate(scredit, id, scredit[id] - 1);
      ConservedInTotal(scredit[id := scredit[id] - 1], total - 1, pending, rest);
    }
  }

  /** Waiting completions fit a completion queue of `tx_depth * num_of_qps` entries. */
  lemma CompletionsFit(scredit: seq<nat>, total: int, pending: seq<nat>, cq: seq<nat>, txDepth: nat)
    requires Conserved(scredit, total, pending, cq)
    requires forall i :: 0 <= i < |scredit| ==> scredit[i] <= txDepth
    ensures |cq| <= total <= txDepth * |scredit|
  {
    ConservedInTotal(scredit, total, pending, cq);
    SumAtMost(scredit, txDepth);
  }

  lemma PostConserves(scredit: seq<nat>, total: int, pending: seq<nat>, cq: seq<nat>, qp: nat)
    requires Conserved(scredit, total, pending, cq) && qp < |scredit|
    ensures Conserved(scredit[qp := scredit[qp] + 1], total + 1, pending[qp := pending[qp] + 1], cq)
  {
    SumUpdate(scredit, qp, scredit[qp] + 1);
  }

  lemma CompleteConserves(scredit: seq<nat>, total: int, pending: seq<nat>, cq: seq<nat>, qp: nat)
    requires Conserved(scredit, total, pending, cq) && qp < |pending| && pending[qp] > 0
    ensures Conserved(scredit, total, pending[qp := pending[qp] - 1], cq + [qp])
  {
  }

  lemma PollConserves(scredit: seq<nat>, total: int, pending: seq<nat>, cq: seq<nat>)
    requires Conserved(scredit, total, pending, cq) && cq != []
    ensures cq[0] < |scredit| && scredit[cq[0]] > 0
    ensures Conserved(scredit[cq[0] := scredit[cq[0]] - 1], total - 1, pending, cq[1..])
  {
    assert cq == [cq[0]] + cq[1..];
    assert cq[0] in cq && forall x :: x in cq[1..] ==> x in cq;
    SumUpdate(scredit, cq[0], scredit[cq[0]] - 1);
  }

  /** The hardware's side: writes under way by queue pair, and their completions waiting in the queue. */
  datatype Hardware = Hardware(pending: seq<nat>, cq: seq<nat>)

  function LesserOf(a: nat, b: nat): nat {
    if a < b then a else b
  }

  /** The hardware finishes writes, in any order; it can only finish what it has. */
  function Finish(h: Hardware, ids: seq<nat>): (g: Hardware)
    ensures |g.pending| == |h.pending| && h.cq <= g.cq
  {
    if ids == [] then h
    else
      var g, qp := Finish(h, ids[..|ids| - 1]), ids[|ids| - 1];
      if qp < |g.pending| && g.pending[qp] > 0 then Hardware(g.pending[qp := g.pending[qp] - 1], g.cq + [qp]) else g
  }

  /** The final drain: each round takes what waits, up to `tx_depth`, until nothing is left to wait for. */
  function Drained(h: Hardware, left: int, rounds: seq<seq<nat>>, txDepth: nat): (Hardware, int)
    decreases |rounds|
  {
    if left <= 0 || rounds == [] then (h, left)
    else
      var g := Finish(h, rounds[0]);
      var n := LesserOf(|g.cq|, txDepth);
      Drained(g.(cq := g.cq[n..]), left - n, rounds[1..], txDepth)
  }

  /** The server's credit counters and the hardware. */
  datatype Books = Books(scredit: seq<int>, hardware: Hardware)

  /** Completions polled are credited to the queue pairs they name. */
  function Credited(scredit: seq<int>, taken: seq<nat>): (s: seq<int>)
    ensures |s| == |scredit|
  {
    seq(|scredit|, i requires 0 <= i < |scredit| => scredit[i] - multiset(taken)[i])
  }

  function OneLess(scredit: seq<int>, qp: nat): seq<int>
    requires qp < |scredit|
  {
    scredit[qp := scredit[qp] - 1]
  }

  lemma CreditOneMore(scredit: seq<int>, cq: seq<nat>, k: nat)
    requires k < |cq| && cq[k] < |scredit|
    ensures Credited(scredit, cq[..k + 1]) == OneLess(Credited(scredit, cq[..k]), cq[k])
  {
    assert cq[..k + 1] == cq[..k] + [cq[k]];
  }

  lemma NoneTaken(scredit: seq<int>, cq: seq<nat>)
    ensures cq[0..] == cq && Credited(scredit, cq[..0]) == scredit
  {
  }

  lemma Following(cq: seq<nat>, k: nat)
    requires k < |cq|
    ensures cq[k..][0] == cq[k] && cq[k..][1..] == cq[k + 1..]
  {
  }

  function PollRound(b: Books, ids: seq<nat>, txDepth: nat): (p: Books)
    ensures |p.scredit| == |b.scredit| && |p.hardware.pending| == |b.hardware.pending|
  {
    var g := Finish(b.hardware, ids);
    var n := LesserOf(|g.cq|, txDepth);
    Books(Credited(b.scredit, g.cq[..n]), g.(cq := g.cq[n..]))
  }

  /** The wait loop, while the queue pair has `tx_depth` credit writes out. */
  function Waited(b: Books, qp: nat, rounds: seq<seq<nat>>, txDepth: nat): (w: Books)
    requires qp < |b.scredit|
    ensures |w.scredit| == |b.scredit| && |w.hardware.pending| == |b.hardware.pending|
    decreases |rounds|
  {
    if rounds == [] || b.scredit[qp] != txDepth then b
    else Waited(PollRound(b, rounds[0], txDepth), qp, rounds[1..], txDepth)
  }

  /** One credit write more. */
  function WithCredit(b: Books, qp: nat): Books
    requires qp < |b.scredit| == |b.hardware.pending|
  {
    Books(b.scredit[qp := b.scredit[qp] + 1],
          b.hardware.(pending := b.hardware.pending[qp := b.hardware.pending[qp] + 1]))
  }

  lemma {:induction false} FinishConserves(scredit: seq<nat>, total: int, h: Hardware, ids: seq<nat>)
    requires Conserved(scredit, total, h.pending, h.cq)
    ensures Conserved(scredit, total, Finish(h, ids).pending, Finish(h, ids).cq)
  {
    if ids != [] {
      FinishConserves(scredit, total, h, ids[..|ids| - 1]);
      var g, qp := Finish(h, ids[..|ids| - 1]), ids[|ids| - 1];
      if qp < |g.pending| && g.pending[qp] > 0 {
        CompleteConserves(scredit, total, g.pending, g.cq, qp);
      }
    }
  }

  lemma {:induction false} FinishKeepsTotal(h: Hardware, ids: seq<nat>)
    ensures Sum(Finish(h, ids).pending) + |Finish(h, ids).cq| == Sum(h.pending) + |h.cq|
  {
    if ids != [] {
      FinishKeepsTotal(h, ids[..|ids| - 1]);
      var g, qp := Finish(h, ids[..|ids| - 1]), ids[|ids| - 1];
      if qp < |g.pending| && g.pending[qp] > 0 {
        SumUpdate(g.pending, qp, g.pending[qp] - 1);
      }
    }
  }

  lemma {:induction false} NothingToFinish(h: Hardware, ids: seq<nat>)
    requires Sum(h.pending) == 0
    ensures Finish(h, ids) == h
  {
    if ids != [] {
      NothingToFinish(h, ids[..|ids| - 1]);
      if ids[|ids| - 1] < |h.pending| {
        SummandAtMost(h.pending, ids[|ids| - 1]);
      }
    }
  }

  /** With the hardware done, the drain ends as soon as the rounds can take all that waits. */
  lemma {:induction false} DrainEnds(h: Hardware, left: int, rounds: seq<seq<nat>>, txDepth: nat)
    requires Sum(h.pending) == 0 && left == |h.cq| <= txDepth * |rounds|
    ensures Drained(h, left, rounds, txDepth) == (h.(cq := []), 0)
    decreases |rounds|
  {
    if left > 0 {
      NothingToFinish(h, rounds[0]);
      var n := LesserOf(|h.cq|, txDepth);
      assert txDepth * |rounds| == txDepth * |rounds[1..]| + txDepth;
      DrainEnds(h.(cq := h.cq[n..]), left - n, rounds[1..], txDepth);
    }
  }

  /** In any case the drain loses nothing, and every round that finds a completion takes one. */
  lemma {:induction false} DrainCounts(h: Hardware, left: int, rounds: seq<seq<nat>>, txDepth: nat)
    requires left == Sum(h.pending) + |h.cq| && txDepth > 0
    ensures var (g, rest) := Drained(h, left, rounds, txDepth);
            && rest == Sum(g.pending) + |g.cq| && 0 <= rest <= left && |g.pending| == |h.pending|
            && (h.cq != [] && rounds != [] ==> rest < left)
    decreases |rounds|
  {
    if left > 0 && rounds != [] {
      FinishKeepsTotal(h, rounds[0]);
      var g := Finish(h, rounds[0]);
      var n := LesserOf(|g.cq|, txDepth);
      DrainCounts(g.(cq := g.cq[n..]), left - n, rounds[1..], txDepth);
    }
  }

  /** A queue pair with a completion waiting gets room by the time the rounds have reached it. */
  lemma {:induction false} WaitEnds(b: Books, qp: nat, x: nat, rounds: seq<seq<nat>>, txDepth: nat)
    requires qp < |b.scredit| && b.scredit[qp] <= txDepth
    requires x < |b.hardware.cq| && b.hardware.cq[x] == qp && x < txDepth * |rounds|
    ensures Waited(b, qp, rounds, txDepth).scredit[qp] < txDepth
    decreases |rounds|
  {
    if b.scredit[qp] == txDepth {
      var g := Finish(b.hardware, rounds[0]);
      var n := LesserOf(|g.cq|, txDepth);
      var next := PollRound(b, rounds[0], txDepth);
      assert g.cq[x] == qp;
      if x < n {
        assert g.cq[..n][x] == qp && qp in g.cq[..n];
        WaitStays(next, qp, rounds[1..], txDepth);
      } else {
        assert txDepth * |rounds| == txDepth * |rounds[1..]| + txDepth;
        WaitEnds(next, qp, x - n, rounds[1..], txDepth);
      }
    }
  }

  lemma WaitStays(b: Books, qp: nat, rounds: seq<seq<nat>>, txDepth: nat)
    requires qp < |b.scredit| && b.scredit[qp] < txDepth
    ensures Waited(b, qp, rounds, txDepth) == b
  {
  }

  class Server {
    const qps: nat
    const txDepth: nat
    const rxDepth: nat
    const rcnt: array<nat>
    const scredit: array<nat>
    var totScredit: int
    // the hardware: credit writes under way, and their completions
    const pending: array<nat>
    var cq: seq<nat>

    ghost predicate Valid()
      reads this, rcnt, scredit, pending
    {
      && 1 <= txDepth && 3 <= rxDepth
      && rcnt.Length == scredit.Length == pending.Length == qps
      && rcnt != scredit && rcnt != pending && scredit != pending
      && Conserved(scredit[..], totScredit, pending[..], cq)
      && forall i :: 0 <= i < qps ==> scredit[i] <= txDepth
    }

    ghost function Contents(): Books
      reads this, scredit, pending
    {
      Books(scredit[..], Hardware(pending[..], cq))
    }

    constructor (qps: nat, txDepth: nat, rxDepth: nat)
      requires 1 <= txDepth && 3 <= rxDepth
      ensures Valid() && fresh(rcnt) && fresh(scredit) && fresh(pending)
      ensures this.qps == qps && this.txDepth == txDepth && this.rxDepth == rxDepth
      ensures totScredit == 0 && cq == [] && forall i :: 0 <= i < qps ==> rcnt[i] == 0
    {
      this.qps, this.txDepth, this.rxDepth := qps, txDepth, rxDepth;
      rcnt := new nat[qps](_ => 0);
      scredit := new nat[qps](_ => 0);
      pending := new nat[qps](_ => 0);
      totScredit, cq := 0, [];
      new;
      SumZero(scredit[..]);
    }

    /** What the hardware does before a poll. */
    method FinishSome(ids: seq<nat>)
      requires pending.Length == qps
      modifies this`cq, pending
      ensures Hardware(pending[..], cq) == Finish(old(Hardware(pending[..], cq)), ids)
    {
      for i := 0 to |ids|
        invariant Hardware(pending[..], cq) == Finish(old(Hardware(pending[..], cq)), ids[..i])
      {
        assert ids[..i + 1][..i] == ids[..i];
        var qp := ids[i];
        if qp < qps && pending[qp] > 0 {
          pending[qp] := pending[qp] - 1;
          cq := cq + [qp];
        }
      }
      assert ids[..|ids|] == ids;
    }

    /** Takes completion k of those that were waiting. */
    method TakeCompletion(ghost counts: seq<nat>, ghost waiting: seq<nat>, ghost k: nat)
      requires Valid() && k < |waiting| && cq == waiting[k..] && scredit[..] == Credited(counts, waiting[..k])
      modifies this`cq, this`totScredit, scredit
      ensures Valid() && cq == waiting[k + 1..] && totScredit == old(totScredit) - 1
      ensures scredit[..] == Credited(counts, waiting[..k + 1])
    {
      PollConserves(scredit[..], totScredit, pending[..], cq);
      Following(waiting, k);
      CreditOneMore(counts, waiting, k);
      var qp := cq[0];
      cq := cq[1..];
      scredit[qp] := scredit[qp] - 1;
      totScredit := totScredit - 1;
    }

    /** Polls up to `tx_depth` completions and credits each to its queue pair. */
    method PollCredits() returns (polled: nat)
      requires Valid()
      modifies this`cq, this`totScredit, scredit
      ensures Valid()
      ensures polled == LesserOf(|old(cq)|, txDepth)
      ensures cq == old(cq)[polled..] && totScredit == old(totScredit) - polled
      ensures scredit[..] == Credited(old(scredit[..]), old(cq)[..polled])
    {
      polled := 0;
      ghost var counts, waiting := scredit[..], cq;
      NoneTaken(counts, waiting);
      while polled < txDepth && cq != []
        invariant Valid()
        invariant polled <= txDepth && polled <= |waiting| && cq == waiting[polled..]
        invariant totScredit == old(totScredit) - polled
        invariant scredit[..] == Credited(counts, waiting[..polled])
      {
        TakeCompletion(counts, waiting, polled);
        polled := polled + 1;
      }
    }

    /** The wait loop: each round lets the hardware finish some writes first; the loop is left early only if
        the rounds run out, which they do not if the queue pair's writes are finished and the rounds can poll
        all that waits. */
    method MakeRoom(qp: nat, rounds: seq<seq<nat>>) returns (room: bool)
      requires Valid() && qp < qps
      modifies this`cq, this`totScredit, scredit, pending
      ensures Valid() && (room <==> scredit[qp] < txDepth)
      ensures Contents() == Waited(old(Contents()), qp, rounds, txDepth)
      ensures totScredit == old(totScredit) - (old(Sum(pending[..]) + |cq|) - (Sum(pending[..]) + |cq|))
      ensures old(pending[qp]) == 0 && |old(cq)| <= txDepth * |rounds| ==> room
      ensures old(scredit[qp]) < txDepth ==> room && Contents() == old(Contents())
    {
      RoomComes(scredit[..], totScredit, pending[..], cq, qp, rounds, txDepth);
      ConservedInTotal(scredit[..], totScredit, pending[..], cq);
      ghost var start := Contents();
      var r := 0;
      while scredit[qp] == txDepth && r < |rounds|
        invariant r <= |rounds| && Valid()
        invariant Waited(Contents(), qp, rounds[r..], txDepth) == Waited(start, qp, rounds, txDepth)
        invariant start.scredit[qp] < txDepth ==> Contents() == start
      {
        OneRound(rounds[r]);
        assert rounds[r..][1..] == rounds[r + 1..];
        r := r + 1;
      }
      ConservedInTotal(scredit[..], totScredit, pending[..], cq);
      room := scredit[qp] != txDepth;
    }

    method OneRound(ids: seq<nat>)
      requires Valid()
      modifies this`cq, this`totScredit, scredit, pending
      ensures Valid() && Contents() == PollRound(old(Contents()), ids, txDepth)
    {
      FinishConserves(scredit[..], totScredit, Hardware(pending[..], cq), ids);
      FinishSome(ids);
      var _ := PollCredits();
    }

    method PostCredit(qp: nat)
      requires Valid() && qp < qps && scredit[qp] < txDepth
      modifies this`totScredit, scredit, pending
      ensures Valid()
      ensures Contents() == WithCredit(old(Contents()), qp) && totScredit == old(totScredit) + 1
    {
      PostConserves(scredit[..], totScredit, pending[..], cq, qp);
      scredit[qp] := scredit[qp] + 1;
      pending[qp] := pending[qp] + 1;
      totScredit := totScredit + 1;
    }

    /** A due credit waits for room and is sent. */
    method SendCredit(qp: nat, rounds: seq<seq<nat>>) returns (sent: bool)
      requires Valid() && qp < qps
      modifies this`cq, this`totScredit, scredit, pending
      ensures Valid()
      ensures var w := Waited(old(Contents()), qp, rounds, txDepth);
              && (sent <==> w.scredit[qp] < txDepth)
              && Contents() == if sent then WithCredit(w, qp) else w
      ensures old(pending[qp]) == 0 && |old(cq)| <= txDepth * |rounds| ==> sent
      ensures old(scredit[qp]) < txDepth ==> sent && totScredit == old(totScredit) + 1
    {
      ConservedInTotal(scredit[..], totScredit, pending[..], cq);
      sent := MakeRoom(qp, rounds);
      if sent {
        PostCredit(qp);
      }
    }

    /** A receive completion of one queue pair: a credit falls due every `rx_depth / 3` of them, and is sent
        once there is room. */
    method OnReceive(qp: nat, rounds: seq<seq<nat>>) returns (due: bool, sent: bool)
      requires Valid() && qp < qps
      modifies this`cq, this`totScredit, rcnt, scredit, pending
      ensures Valid()
      ensures rcnt[..] == old(rcnt[..])[qp := old(rcnt[qp]) + 1]
      ensures due <==> rcnt[qp] % rxDepth % (rxDepth / 3) == 0
      ensures !due ==> !sent && Contents() == old(Contents()) && totScredit == old(totScredit)
      ensures due ==>
                var w := Waited(old(Contents()), qp, rounds, txDepth);
                && (sent <==> w.scredit[qp] < txDepth)
                && Contents() == if sent then WithCredit(w, qp) else w
      ensures due && old(pending[qp]) == 0 && |old(cq)| <= txDepth * |rounds| ==> sent
      ensures due && old(scredit[qp]) < txDepth ==> sent && totScredit == old(totScredit) + 1
    {
      rcnt[qp] := rcnt[qp] + 1;
      var creditCnt := rcnt[qp] % rxDepth;
      due, sent := creditCnt % (rxDepth / 3) == 0, false;
      if due {
        sent := SendCredit(qp, rounds);
      }
    }

    /** The final drain, which counts completions down from the total without crediting them. */
    method CleanScqCredit(rounds: seq<seq<nat>>) returns (left: int)
      requires Valid()
      modifies this`cq, pending
      ensures (Hardware(pending[..], cq), left) == Drained(old(Hardware(pending[..], cq)), totScredit, rounds, txDepth)
      ensures left == Sum(pending[..]) + |cq| && 0 <= left <= totScredit
      ensures left == 0 ==> cq == [] && forall i :: 0 <= i < qps ==> pending[i] == 0
      ensures old(Sum(pending[..])) == 0 && |old(cq)| <= txDepth * |rounds| ==> left == 0
    {
      ConservedInTotal(scredit[..], totScredit, pending[..], cq);
      ghost var start := Hardware(pending[..], cq);
      DrainCounts(start, totScredit, rounds, txDepth);
      if Sum(start.pending) == 0 && |cq| <= txDepth * |rounds| {
        DrainEnds(start, totScredit, rounds, txDepth);
      }
      left := totScredit;
      var r := 0;
      while left > 0 && r < |rounds|
        invariant r <= |rounds| && pending.Length == qps && unchanged(this`totScredit)
        invariant Drained(Hardware(pending[..], cq), left, rounds[r..], txDepth)
               == Drained(start, totScredit, rounds, txDepth)
      {
        FinishSome(rounds[r]);
        var sne := LesserOf(|cq|, txDepth);
        cq := cq[sne..];
        left := left - sne;
        assert rounds[r..][1..] == rounds[r + 1..];
        r := r + 1;
      }
      forall i | 0 <= i < qps && left == 0
        ensures pending[i] == 0
      {
        SummandAtMost(pending[..], i);
      }
    }
  }

  /** A full queue pair whose writes are all finished has a completion waiting. */
  lemma RoomComes(scredit: seq<nat>, total: int, pending: seq<nat>, cq: seq<nat>, qp: nat,
                  rounds: seq<seq<nat>>, txDepth: nat)
    requires Conserved(scredit, total, pending, cq) && qp < |scredit| && scredit[qp] <= txDepth && txDepth > 0
    ensures pending[qp] == 0 && |cq| <= txDepth * |rounds| ==>
              Waited(Books(scredit, Hardware(pending, cq)), qp, rounds, txDepth).scredit[qp] < txDepth
  {
    var b := Books(scredit, Hardware(pending, cq));
    if scredit[qp] < txDepth {
      WaitStays(b, qp, rounds, txDepth);
    } else if pending[qp] == 0 && |cq| <= txDepth * |rounds| {
      assert qp in cq;
      var x :| 0 <= x < |cq| && cq[x] == qp;
      WaitEnds(b, qp, x, rounds, txDepth);
    }
  }
}
