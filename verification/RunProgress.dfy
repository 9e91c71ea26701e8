/** Whether the loops of a bandwidth run over several queue pairs come to an end, and whether postings are
    stamped before the completions the peak search pairs them with (lib/perf/perftest_resources.c). */
module RunProgress {
  import opened Basics
  import opened Moderation
  import opened Modular
  import opened RunLog
  import opened Stamps
  import opened Sums

  // ---- logs are bounded

  function DonesOf(qps: nat, log: seq<Event>): (s: seq<nat>)
    ensures |s| == qps && forall i :: 0 <= i < qps ==> s[i] == DoneOf(log, i)
  {
    seq(qps, i requires 0 <= i => DoneOf(log, i))
  }

  lemma {:induction false} DonesAreSum(c: Config, qps: nat, log: seq<Event>)
    requires c.cqMod > 0 && IsLog(c, qps, log)
    ensures Dones(log) == Sum(DonesOf(qps, log)) && |log| == Posts(log) + Dones(log)
  {
    if log == [] {
      SumZero(DonesOf(qps, log));
    } else {
      var rest, e := log[..|log| - 1], log[|log| - 1];
      assert log == rest + [e];
      DonesAreSum(c, qps, rest);
      forall i | 0 <= i < qps
        ensures DoneOf(log, i) == DoneOf(rest, i) + if e == Completed(i) then 1 else 0
      {
        CountEvent(rest, e, i);
      }
      assert DonesOf(qps, log) == DonesOf(qps, rest)[e.qp := DoneOf(log, e.qp)];
      SumUpdate(DonesOf(qps, rest), e.qp, DoneOf(log, e.qp));
      CountEvent(rest, e, e.qp);
    }
  }

  /** No more completions than sends, so no run has more than two events for each send. */
  lemma LogsAreBounded(c: Config, qps: nat, log: seq<Event>)
    requires Moderated(c) && IsLog(c, qps, log)
    ensures |log| <= 2 * (c.iters * qps)
  {
    DonesAreSum(c, qps, log);
    forall i: nat | i < qps
      ensures DoneOf(log, i) <= c.iters
    {
      CountsBounded(c, qps, log, i);
      SignalsAtMost(c, Scnt(c, log, i));
    }
    SumAtMost(DonesOf(qps, log), c.iters);
    SentInAll(c, qps, log);
    Multiples(c.postList, Posts(log));
  }

  lemma {:induction false} SignalsAtMost(c: Config, n: nat)
    requires c.cqMod > 0
    ensures SignalsBefore(c, n) <= n
  {
    if n > 0 {
      SignalsAtMost(c, n - 1);
    }
  }

  // ---- what can happen next

  /** An event the loops let happen: completions are polled only while there are some left to count. */
  predicate Useful(c: Config, qps: nat, log: seq<Event>, e: Event)
    requires c.cqMod > 0
  {
    Allowed(c, qps, log, e) && (e.Completed? ==> TotCcnt(c, log) < c.iters * qps)
  }

  /** No queue pair can post and none is polled any more, though sends are left. */
  predicate Stuck(c: Config, qps: nat, log: seq<Event>) {
    && TotCcnt(c, log) >= c.iters * qps
    && (exists qp: nat :: qp < qps && Scnt(c, log, qp) < c.iters)
    && forall qp: nat :: qp < qps && Scnt(c, log, qp) < c.iters ==>
                           Scnt(c, log, qp) + c.postList > Ccnt(c, log, qp) + c.txDepth
  }

  /** A queue pair that is not through can post or has a completion to be polled. */
  lemma QueueMoves(c: Config, qps: nat, log: seq<Event>, qp: nat)
    requires Moderated(c) && IsLog(c, qps, log) && qp < qps
    requires Scnt(c, log, qp) < c.iters || DoneOf(log, qp) < SignalsBefore(c, c.iters)
    ensures Allowed(c, qps, log, Posted(qp)) || Available(c, log, qp)
  {
    CountsBounded(c, qps, log, qp);
    var scnt, polled := Scnt(c, log, qp), DoneOf(log, qp);
    if scnt < c.iters {
      WindowIsExact(c, scnt, polled);
      MultiplesApart(scnt, c.iters, c.postList);
      if !WindowOpen(c, scnt, polled) {
        ClosedWindowHasSignal(c, scnt, polled);
      }
    }
  }

  lemma FitsIsAllowed(c: Config, qps: nat, log: seq<Event>, qp: nat)
    requires Moderated(c) && IsLog(c, qps, log) && qp < qps && Scnt(c, log, qp) < c.iters
    ensures Allowed(c, qps, log, Posted(qp)) <==> Scnt(c, log, qp) + c.postList <= Ccnt(c, log, qp) + c.txDepth
  {
    CountsBounded(c, qps, log, qp);
    CreditedAtMost(c, qps, log, qp);
    MultiplesApart(Scnt(c, log, qp), c.iters, c.postList);
  }

  /** What the completions of a whole queue pair count for. */
  lemma WholeQueue(c: Config)
    requires Moderated(c)
    ensures c.cqMod * SignalsBefore(c, c.iters) == c.iters + if c.iters % c.cqMod == 0 then 0 else Surplus(c)
  {
    SignalsBeforeIs(c, c.iters);
    DivideExactly(c.iters, c.cqMod);
    OneMore(c.cqMod, c.iters / c.cqMod);
  }

  /** Unless the loops have ended or are stuck, something can happen. */
  lemma StuckOrMoves(c: Config, qps: nat, log: seq<Event>) returns (e: Event)
    requires Moderated(c) && IsLog(c, qps, log) && !Ended(c, qps, log) && !Stuck(c, qps, log)
    ensures Useful(c, qps, log, e)
  {
    TotalsAreSums(c, qps, log);
    SentInAll(c, qps, log);
    if TotCcnt(c, log) < c.iters * qps {
      if forall i: nat :: i < qps ==> Ccnt(c, log, i) >= c.iters {
        SumAtLeast(Ccnts(c, qps, log), c.iters);
      }
      var qp: nat :| qp < qps && Ccnt(c, log, qp) < c.iters;
      WholeQueue(c);
      if DoneOf(log, qp) >= SignalsBefore(c, c.iters) {
        Scale(c.cqMod, SignalsBefore(c, c.iters), DoneOf(log, qp));
      }
      QueueMoves(c, qps, log, qp);
      e := if Available(c, log, qp) then Completed(qp) else Posted(qp);
    } else {
      if forall i: nat :: i < qps ==> Scnt(c, log, i) >= c.iters {
        SumAtLeast(Scnts(c, qps, log), c.iters);
      }
      var qp: nat :| qp < qps && Scnt(c, log, qp) < c.iters
                     && Scnt(c, log, qp) + c.postList <= Ccnt(c, log, qp) + c.txDepth;
      FitsIsAllowed(c, qps, log, qp);
      e := Posted(qp);
    }
  }

  // ---- stuck runs

  /** What the last completion of a queue pair counts too much. */
  function Surplus(c: Config): (d: int)
    requires c.cqMod > 0
    ensures 0 < d <= c.cqMod
  {
    c.cqMod - c.iters % c.cqMod
  }

  /** How often a queue pair can be polled at most with more sends left than its window takes. */
  function HeldBack(c: Config): int
    requires c.cqMod > 0
  {
    (c.iters - c.txDepth - 1) / c.cqMod
  }

  /** The surplus of the other queue pairs makes up for what is missing on one. */
  predicate MaySpin(c: Config, qps: nat)
    requires c.cqMod > 0
  {
    && c.iters % c.cqMod != 0
    && c.txDepth < c.iters <= (qps - 1) * Surplus(c) + c.cqMod * HeldBack(c)
  }

  /** Once stuck, no pass of the loops changes anything, whatever the peer and the hardware do. */
  lemma {:induction false} StuckForEver(c: Config, qps: nat, rounds: seq<Round>, log: seq<Event>)
    requires Moderated(c) && IsLog(c, qps, log) && Stuck(c, qps, log)
    ensures !Ended(c, qps, log) && AfterRounds(c, qps, rounds, log) == log
    decreases |rounds|
  {
    SentInAll(c, qps, log);
    if rounds != [] {
      NothingPosted(c, qps, rounds[0].open, log, qps);
      StuckForEver(c, qps, rounds[1..], log);
    }
  }

  lemma {:induction false} NothingPosted(c: Config, qps: nat, open: (nat, nat) -> bool, log: seq<Event>, n: nat)
    requires Moderated(c) && IsLog(c, qps, log) && Stuck(c, qps, log) && n <= qps
    ensures PostAll(c, open, log, n) == log
  {
    if n > 0 {
      NothingPosted(c, qps, open, log, n - 1);
      if Scnt(c, log, n - 1) < c.iters {
        FitsIsAllowed(c, qps, log, n - 1);
        MayPostIsAllowed(c, qps, open, log, n - 1);
      }
    }
  }

  /** No queue pair is credited more than its sends and the surplus. */
  lemma CreditedOne(c: Config, qps: nat, log: seq<Event>, qp: nat)
    requires Moderated(c) && IsLog(c, qps, log)
    ensures Ccnt(c, log, qp) <= c.iters + Surplus(c)
  {
    CountsBounded(c, qps, log, qp);
    SignalsMonotone(c, Scnt(c, log, qp), c.iters);
    Scale(c.cqMod, DoneOf(log, qp), SignalsBefore(c, c.iters));
    WholeQueue(c);
  }

  lemma CreditedWithout(c: Config, qps: nat, log: seq<Event>, qp: nat)
    requires Moderated(c) && IsLog(c, qps, log) && qp < qps
    ensures TotCcnt(c, log) <= Ccnt(c, log, qp) + c.iters * qps - c.iters + (qps - 1) * Surplus(c)
  {
    var most := c.iters + Surplus(c);
    forall i: nat | i < qps
      ensures Ccnt(c, log, i) <= most
    {
      CreditedOne(c, qps, log, i);
    }
    TotalsAreSums(c, qps, log);
    SumUpdate(Ccnts(c, qps, log), qp, most);
    SumAtMost(Ccnts(c, qps, log)[qp := most], most);
    Distribute(c.iters, Surplus(c), qps);
  }

  lemma Distribute(a: int, b: int, n: int)
    ensures (a + b) * n == a * n + (n - 1) * b + b
  {
  }

  /** Only with such parameters does a run get stuck. */
  lemma NeverStuck(c: Config, qps: nat, log: seq<Event>)
    requires Moderated(c) && IsLog(c, qps, log) && Stuck(c, qps, log)
    ensures MaySpin(c, qps)
  {
    SentInAll(c, qps, log);
    if c.iters % c.cqMod == 0 || qps == 1 {
      CreditedInAll(c, qps, log);
      assert false;
    }
    SinglePosts(c);
    var qp: nat :| qp < qps && Scnt(c, log, qp) < c.iters;
    WindowKept(c, qps, log, qp);
    CreditedWithout(c, qps, log, qp);
    HeldBackAtLeast(c, DoneOf(log, qp));
  }

  lemma SinglePosts(c: Config)
    requires Moderated(c) && c.iters % c.cqMod != 0
    ensures c.postList == 1
  {
    if c.postList > 1 {
      DividesTransitive(c.iters, c.postList, c.cqMod);
    }
  }

  lemma HeldBackAtLeast(c: Config, p: nat)
    requires c.cqMod > 0 && c.cqMod * p + c.txDepth < c.iters
    ensures p <= HeldBack(c) && c.cqMod * p <= c.cqMod * HeldBack(c)
  {
    DivideExactly(c.iters - c.txDepth - 1, c.cqMod);
    if p > HeldBack(c) {
      Scale(c.cqMod, HeldBack(c), p);
    } else {
      Scale(c.cqMod, p, HeldBack(c));
    }
  }
}
