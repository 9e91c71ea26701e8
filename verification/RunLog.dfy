/** The course of a bandwidth run over several queue pairs, as the order of its posts and completions: what
    the loops of `run_iter_bw` make of it, pass by pass (lib/perf/perftest_resources.c). */
module RunLog {
  import opened Moderation
  import opened Modular
  import opened Sums

  datatype Event = Posted(qp: nat) | Completed(qp: nat)

  /** Lists posted on a queue pair, and completions polled for it. */
  function PostsOf(log: seq<Event>, qp: nat): nat {
    if log == [] then 0 else PostsOf(log[..|log| - 1], qp) + if log[|log| - 1] == Posted(qp) then 1 else 0
  }

  function DoneOf(log: seq<Event>, qp: nat): nat {
    if log == [] then 0 else DoneOf(log[..|log| - 1], qp) + if log[|log| - 1] == Completed(qp) then 1 else 0
  }

  function Posts(log: seq<Event>): nat {
    if log == [] then 0 else Posts(log[..|log| - 1]) + if log[|log| - 1].Posted? then 1 else 0
  }

  function Dones(log: seq<Event>): nat {
    if log == [] then 0 else Dones(log[..|log| - 1]) + if log[|log| - 1].Completed? then 1 else 0
  }

  /** `scnt[qp]`, `ccnt[qp]`, `totscnt` and `totccnt`. */
  function Scnt(c: Config, log: seq<Event>, qp: nat): nat {
    c.postList * PostsOf(log, qp)
  }

  function Ccnt(c: Config, log: seq<Event>, qp: nat): nat {
    c.cqMod * DoneOf(log, qp)
  }

  function TotScnt(c: Config, log: seq<Event>): nat {
    c.postList * Posts(log)
  }

  function TotCcnt(c: Config, log: seq<Event>): nat {
    c.cqMod * Dones(log)
  }

  lemma CountEvent(log: seq<Event>, e: Event, qp: nat)
    ensures PostsOf(log + [e], qp) == PostsOf(log, qp) + if e == Posted(qp) then 1 else 0
    ensures DoneOf(log + [e], qp) == DoneOf(log, qp) + if e == Completed(qp) then 1 else 0
    ensures Posts(log + [e]) == Posts(log) + if e.Posted? then 1 else 0
    ensures Dones(log + [e]) == Dones(log) + if e.Completed? then 1 else 0
  {
    assert (log + [e])[..|log + [e]| - 1] == log;
  }

  /** The counters after one event more. */
  lemma CountersMove(c: Config, log: seq<Event>, e: Event, qp: nat)
    ensures Scnt(c, log + [e], qp) == Scnt(c, log, qp) + if e == Posted(qp) then c.postList else 0
    ensures Ccnt(c, log + [e], qp) == Ccnt(c, log, qp) + if e == Completed(qp) then c.cqMod else 0
    ensures TotScnt(c, log + [e]) == TotScnt(c, log) + if e.Posted? then c.postList else 0
    ensures TotCcnt(c, log + [e]) == TotCcnt(c, log) + if e.Completed? then c.cqMod else 0
  {
    CountEvent(log, e, qp);
    OneMore(c.postList, PostsOf(log, qp));
    OneMore(c.cqMod, DoneOf(log, qp));
    OneMore(c.postList, Posts(log));
    OneMore(c.cqMod, Dones(log));
  }

  // ---- what the hardware and the window allow

  /** A queue pair has a signalled send whose completion has not been polled. */
  predicate Available(c: Config, log: seq<Event>, qp: nat)
    requires c.cqMod > 0
  {
    DoneOf(log, qp) < SignalsBefore(c, Scnt(c, log, qp))
  }

  /** An event the run can have next: a list of sends that belong to it and fit the window, or a completion the
      hardware can have. */
  predicate Allowed(c: Config, qps: nat, log: seq<Event>, e: Event)
    requires c.cqMod > 0
  {
    && e.qp < qps
    && match e
       case Posted(qp) =>
         && Scnt(c, log, qp) + c.postList <= c.iters
         && Ccnt(c, log, qp) <= Scnt(c, log, qp)
         && Scnt(c, log, qp) + c.postList - Ccnt(c, log, qp) <= c.txDepth
       case Completed(qp) => Available(c, log, qp)
  }

  predicate IsLog(c: Config, qps: nat, log: seq<Event>)
    requires c.cqMod > 0
  {
    log == [] || (IsLog(c, qps, log[..|log| - 1]) && Allowed(c, qps, log[..|log| - 1], log[|log| - 1]))
  }

  lemma ExtendLog(c: Config, qps: nat, log: seq<Event>, e: Event)
    requires c.cqMod > 0 && IsLog(c, qps, log) && Allowed(c, qps, log, e)
    ensures IsLog(c, qps, log + [e])
  {
    assert (log + [e])[..|log + [e]| - 1] == log;
  }

  /** At every point of a log its next event was allowed. */
  lemma {:induction false} AllowedAt(c: Config, qps: nat, log: seq<Event>, n: nat)
    requires c.cqMod > 0 && IsLog(c, qps, log) && n < |log|
    ensures IsLog(c, qps, log[..n]) && Allowed(c, qps, log[..n], log[n])
  {
    var rest := log[..|log| - 1];
    if n < |rest| {
      AllowedAt(c, qps, rest, n);
      assert rest[..n] == log[..n];
    }
  }

  /** Sends stay within `iters` and go in whole lists, and completions within the signals. */
  lemma {:induction false} CountsBounded(c: Config, qps: nat, log: seq<Event>, qp: nat)
    requires Moderated(c) && IsLog(c, qps, log)
    ensures Scnt(c, log, qp) <= c.iters && Scnt(c, log, qp) % c.postList == 0
    ensures DoneOf(log, qp) <= SignalsBefore(c, Scnt(c, log, qp))
    ensures qp >= qps ==> PostsOf(log, qp) == 0 && DoneOf(log, qp) == 0
  {
    AddMultiple(0, PostsOf(log, qp), c.postList);
    if log != [] {
      var rest, e := log[..|log| - 1], log[|log| - 1];
      assert log == rest + [e];
      CountsBounded(c, qps, rest, qp);
      CountersMove(c, rest, e, qp);
      CountEvent(rest, e, qp);
      SignalsMonotone(c, Scnt(c, rest, qp), Scnt(c, log, qp));
    }
  }

  /** In every log each queue pair keeps to its send queue: `scnt - ccnt` never exceeds `tx_depth`. */
  lemma {:induction false} WindowKept(c: Config, qps: nat, log: seq<Event>, qp: nat)
    requires Moderated(c) && IsLog(c, qps, log)
    ensures Scnt(c, log, qp) <= Ccnt(c, log, qp) + c.txDepth
  {
    if log != [] {
      var rest, e := log[..|log| - 1], log[|log| - 1];
      assert log == rest + [e];
      WindowKept(c, qps, rest, qp);
      CountersMove(c, rest, e, qp);
    }
  }

  /** While a queue pair has sends left, or if `cq_mod` divides `iters`, it is credited no more than it sent; at
      the end by less than `cq_mod` more. */
  lemma CreditedAtMost(c: Config, qps: nat, log: seq<Event>, qp: nat)
    requires Moderated(c) && IsLog(c, qps, log)
    ensures Scnt(c, log, qp) < c.iters || c.iters % c.cqMod == 0 ==> Ccnt(c, log, qp) <= Scnt(c, log, qp)
    ensures Ccnt(c, log, qp) < Scnt(c, log, qp) + c.cqMod
  {
    CountsBounded(c, qps, log, qp);
    CompletionsCounted(c, Scnt(c, log, qp));
    Scale(c.cqMod, DoneOf(log, qp), SignalsBefore(c, Scnt(c, log, qp)));
  }

  // ---- totals

  function Scnts(c: Config, qps: nat, log: seq<Event>): (s: seq<nat>)
    ensures |s| == qps && forall i :: 0 <= i < qps ==> s[i] == Scnt(c, log, i)
  {
    seq(qps, i requires 0 <= i => Scnt(c, log, i))
  }

  function Ccnts(c: Config, qps: nat, log: seq<Event>): (s: seq<nat>)
    ensures |s| == qps && forall i :: 0 <= i < qps ==> s[i] == Ccnt(c, log, i)
  {
    seq(qps, i requires 0 <= i => Ccnt(c, log, i))
  }

  lemma {:induction false} TotalsAreSums(c: Config, qps: nat, log: seq<Event>)
    requires c.cqMod > 0 && IsLog(c, qps, log)
    ensures TotScnt(c, log) == Sum(Scnts(c, qps, log)) && TotCcnt(c, log) == Sum(Ccnts(c, qps, log))
  {
    if log == [] {
      SumZero(Scnts(c, qps, log));
      SumZero(Ccnts(c, qps, log));
    } else {
      var rest, e := log[..|log| - 1], log[|log| - 1];
      assert log == rest + [e];
      TotalsAreSums(c, qps, rest);
      CountsMove(c, qps, rest, e);
      CountersMove(c, rest, e, e.qp);
      SumUpdate(Scnts(c, qps, rest), e.qp, Scnt(c, log, e.qp));
      SumUpdate(Ccnts(c, qps, rest), e.qp, Ccnt(c, log, e.qp));
    }
  }

  lemma CountsMove(c: Config, qps: nat, log: seq<Event>, e: Event)
    requires e.qp < qps
    ensures Scnts(c, qps, log + [e]) == Scnts(c, qps, log)[e.qp := Scnt(c, log + [e], e.qp)]
    ensures Ccnts(c, qps, log + [e]) == Ccnts(c, qps, log)[e.qp := Ccnt(c, log + [e], e.qp)]
  {
    forall i | 0 <= i < qps
      ensures i != e.qp ==> Scnt(c, log + [e], i) == Scnt(c, log, i) && Ccnt(c, log + [e], i) == Ccnt(c, log, i)
    {
      CountersMove(c, log, e, i);
    }
  }

  /** No more is sent in all than `iters` on each queue pair, and less while one has sends left. */
  lemma SentInAll(c: Config, qps: nat, log: seq<Event>)
    requires Moderated(c) && IsLog(c, qps, log)
    ensures TotScnt(c, log) <= c.iters * qps
    ensures TotScnt(c, log) == c.iters * qps ==> forall i: nat :: i < qps ==> Scnt(c, log, i) == c.iters
  {
    TotalsAreSums(c, qps, log);
    forall i: nat | i < qps
      ensures Scnt(c, log, i) <= c.iters
    {
      CountsBounded(c, qps, log, i);
    }
    SumAtMost(Scnts(c, qps, log), c.iters);
    if TotScnt(c, log) == c.iters * qps {
      SumFull(Scnts(c, qps, log), c.iters);
      forall i: nat | i < qps
        ensures Scnt(c, log, i) == c.iters
      {
        assert Scnts(c, qps, log)[i] == Scnt(c, log, i);
      }
    }
  }

  /** If `cq_mod` divides `iters`, or there is one queue pair, the credited completions never run ahead of the
      sends, except at the very end. */
  lemma CreditedInAll(c: Config, qps: nat, log: seq<Event>)
    requires Moderated(c) && IsLog(c, qps, log) && (c.iters % c.cqMod == 0 || qps == 1)
    ensures TotCcnt(c, log) <= TotScnt(c, log) || TotScnt(c, log) == c.iters * qps
  {
    TotalsAreSums(c, qps, log);
    if c.iters % c.cqMod == 0 {
      forall i: nat | i < qps
        ensures Ccnts(c, qps, log)[i] <= Scnts(c, qps, log)[i]
      {
        CreditedAtMost(c, qps, log, i);
      }
      SumMonotone(Ccnts(c, qps, log), Scnts(c, qps, log));
    } else {
      CreditedAtMost(c, qps, log, 0);
      CountsBounded(c, qps, log, 0);
      SumOfOne(Scnts(c, qps, log));
      SumOfOne(Ccnts(c, qps, log));
    }
  }

  lemma SumOfOne(s: seq<nat>)
    requires |s| == 1
    ensures Sum(s) == s[0]
  {
    assert s[..0] == [];
  }

  // ---- the loops

  /** The condition of the posting loop, with the credit check inside it. */
  predicate MayPost(c: Config, open: (nat, nat) -> bool, qp: nat, scnt: nat, ccnt: nat) {
    && scnt < c.iters
    && U64(scnt - ccnt + c.postList) <= c.txDepth
    && open(qp, scnt)
  }

  /** One queue pair posts until it may post no more. */
  function PostWhile(c: Config, open: (nat, nat) -> bool, log: seq<Event>, qp: nat): (l: seq<Event>)
    requires c.postList > 0
    decreases c.iters - Scnt(c, log, qp)
  {
    CountersMove(c, log, Posted(qp), qp);
    if MayPost(c, open, qp, Scnt(c, log, qp), Ccnt(c, log, qp))
    then PostWhile(c, open, log + [Posted(qp)], qp) else log
  }

  /** One pass over the first queue pairs. */
  function PostAll(c: Config, open: (nat, nat) -> bool, log: seq<Event>, qps: nat): seq<Event>
    requires c.postList > 0
  {
    if qps == 0 then log else PostWhile(c, open, PostAll(c, open, log, qps - 1), qps - 1)
  }

  /** One poll: of the completions offered it takes those the hardware has. */
  function TakeAll(c: Config, qps: nat, log: seq<Event>, ids: seq<nat>): seq<Event>
    requires c.cqMod > 0
  {
    if ids == [] then log
    else
      var l, id := TakeAll(c, qps, log, ids[..|ids| - 1]), ids[|ids| - 1];
      if id < qps && Available(c, l, id) then l + [Completed(id)] else l
  }

  /** What the peer and the hardware do in one pass: the credit window, and the completions a poll is offered. */
  datatype Round = Round(open: (nat, nat) -> bool, completions: seq<nat>)

  function AfterRound(c: Config, qps: nat, round: Round, log: seq<Event>): seq<Event>
    requires c.postList > 0 && c.cqMod > 0
  {
    var l := PostAll(c, round.open, log, qps);
    if TotCcnt(c, l) < c.iters * qps then TakeAll(c, qps, l, round.completions) else l
  }

  /** The loop ends once as many sends and as many completions are counted as there are to be. */
  predicate Ended(c: Config, qps: nat, log: seq<Event>) {
    TotScnt(c, log) >= c.iters * qps && TotCcnt(c, log) >= c.iters * qps
  }

  function AfterRounds(c: Config, qps: nat, rounds: seq<Round>, log: seq<Event>): seq<Event>
    requires c.postList > 0 && c.cqMod > 0
    decreases |rounds|
  {
    if Ended(c, qps, log) || rounds == [] then log
    else AfterRounds(c, qps, rounds[1..], AfterRound(c, qps, rounds[0], log))
  }

  lemma MayPostIsAllowed(c: Config, qps: nat, open: (nat, nat) -> bool, log: seq<Event>, qp: nat)
    requires Moderated(c) && IsLog(c, qps, log) && qp < qps && Scnt(c, log, qp) < c.iters
    ensures MayPost(c, open, qp, Scnt(c, log, qp), Ccnt(c, log, qp)) <==>
              Allowed(c, qps, log, Posted(qp)) && open(qp, Scnt(c, log, qp))
  {
    CountsBounded(c, qps, log, qp);
    WindowIsExact(c, Scnt(c, log, qp), DoneOf(log, qp));
    MultiplesApart(Scnt(c, log, qp), c.iters, c.postList);
  }

  lemma {:induction false} PostWhileIsLog(c: Config, qps: nat, open: (nat, nat) -> bool, log: seq<Event>, qp: nat)
    requires Moderated(c) && IsLog(c, qps, log) && qp < qps
    ensures var l := PostWhile(c, open, log, qp);
            && IsLog(c, qps, l) && log <= l && Dones(l) == Dones(log)
            && !MayPost(c, open, qp, Scnt(c, l, qp), Ccnt(c, l, qp))
            && forall q: nat :: q != qp ==> Scnt(c, l, q) == Scnt(c, log, q) && Ccnt(c, l, q) == Ccnt(c, log, q)
    decreases c.iters - Scnt(c, log, qp)
  {
    if MayPost(c, open, qp, Scnt(c, log, qp), Ccnt(c, log, qp)) {
      var next := log + [Posted(qp)];
      MayPostIsAllowed(c, qps, open, log, qp);
      ExtendLog(c, qps, log, Posted(qp));
      CountersMove(c, log, Posted(qp), qp);
      CountEvent(log, Posted(qp), qp);
      PostWhileIsLog(c, qps, open, next, qp);
      forall q: nat | q != qp
        ensures Scnt(c, next, q) == Scnt(c, log, q) && Ccnt(c, next, q) == Ccnt(c, log, q)
      {
        CountersMove(c, log, Posted(qp), q);
      }
    }
  }

  /** After a pass no queue pair may post. */
  lemma {:induction false} PostAllIsLog(c: Config, qps: nat, open: (nat, nat) -> bool, log: seq<Event>, n: nat)
    requires Moderated(c) && IsLog(c, qps, log) && n <= qps
    ensures var l := PostAll(c, open, log, n);
            && IsLog(c, qps, l) && log <= l && Dones(l) == Dones(log)
            && forall q: nat :: q < n ==> !MayPost(c, open, q, Scnt(c, l, q), Ccnt(c, l, q))
  {
    if n > 0 {
      PostAllIsLog(c, qps, open, log, n - 1);
      PostWhileIsLog(c, qps, open, PostAll(c, open, log, n - 1), n - 1);
    }
  }

  lemma {:induction false} TakeAllIsLog(c: Config, qps: nat, log: seq<Event>, ids: seq<nat>)
    requires c.cqMod > 0 && IsLog(c, qps, log)
    ensures IsLog(c, qps, TakeAll(c, qps, log, ids)) && log <= TakeAll(c, qps, log, ids)
  {
    if ids != [] {
      TakeAllIsLog(c, qps, log, ids[..|ids| - 1]);
      var l, id := TakeAll(c, qps, log, ids[..|ids| - 1]), ids[|ids| - 1];
      if id < qps && Available(c, l, id) {
        ExtendLog(c, qps, l, Completed(id));
      }
    }
  }

  lemma AfterRoundIsLog(c: Config, qps: nat, round: Round, log: seq<Event>)
    requires Moderated(c) && IsLog(c, qps, log)
    ensures IsLog(c, qps, AfterRound(c, qps, round, log)) && log <= AfterRound(c, qps, round, log)
  {
    PostAllIsLog(c, qps, round.open, log, qps);
    TakeAllIsLog(c, qps, PostAll(c, round.open, log, qps), round.completions);
  }

  lemma {:induction false} AfterRoundsIsLog(c: Config, qps: nat, rounds: seq<Round>, log: seq<Event>)
    requires Moderated(c) && IsLog(c, qps, log)
    ensures IsLog(c, qps, AfterRounds(c, qps, rounds, log))
    decreases |rounds|
  {
    if !Ended(c, qps, log) && rounds != [] {
      AfterRoundIsLog(c, qps, rounds[0], log);
      AfterRoundsIsLog(c, qps, rounds[1..], AfterRound(c, qps, rounds[0], log));
    }
  }
}
