/** Schedules of the hardware and the peer: which courses of a bandwidth run they can bring about, when the
    loops spin for ever, and when time stamps get out of order (lib/perf/perftest_resources.c). */
module RunSchedules {
  import opened Basics
  import opened Moderation
  import opened Modular
  import opened RunLog
  import opened RunProgress
  import opened Stamps
  import opened Sums

  // ---- fair schedules

  /** In this pass a queue pair that could post finds its credit window open, and if completions can be polled
      at least one is offered. */
  ghost predicate Serves(c: Config, qps: nat, round: Round, log: seq<Event>)
    requires c.cqMod > 0
  {
    && (forall qp: nat :: Allowed(c, qps, log, Posted(qp)) ==> round.open(qp, Scnt(c, log, qp)))
    && forall qp: nat :: Useful(c, qps, log, Completed(qp)) ==>
                           exists id :: id in round.completions && id < qps && Available(c, log, id)
  }

  ghost predicate Fair(c: Config, qps: nat, rounds: seq<Round>, log: seq<Event>)
    requires c.cqMod > 0 && c.postList > 0
    decreases |rounds|
  {
    Ended(c, qps, log) || rounds == []
    || (Serves(c, qps, rounds[0], log) && Fair(c, qps, rounds[1..], AfterRound(c, qps, rounds[0], log)))
  }

  lemma {:induction false} TakesOffered(c: Config, qps: nat, log: seq<Event>, ids: seq<nat>, id: nat)
    requires c.cqMod > 0 && IsLog(c, qps, log) && id in ids && id < qps && Available(c, log, id)
    ensures TakeAll(c, qps, log, ids) != log
  {
    var rest := ids[..|ids| - 1];
    TakeAllIsLog(c, qps, log, rest);
    if id != ids[|ids| - 1] {
      TakesOffered(c, qps, log, rest, id);
    }
  }

  /** A pass that serves a run neither ended nor stuck adds an event. */
  lemma ServedMoves(c: Config, qps: nat, round: Round, log: seq<Event>)
    requires Moderated(c) && IsLog(c, qps, log) && Serves(c, qps, round, log)
    requires !Ended(c, qps, log) && !Stuck(c, qps, log)
    ensures |AfterRound(c, qps, round, log)| > |log|
  {
    var e := StuckOrMoves(c, qps, log);
    var l := PostAll(c, round.open, log, qps);
    PostAllIsLog(c, qps, round.open, log, qps);
    AfterRoundIsLog(c, qps, round, log);
    TakeAllIsLog(c, qps, l, round.completions);
    if e.Posted? {
      MayPostIsAllowed(c, qps, round.open, log, e.qp);
      assert l != log;
    } else if l == log {
      var id :| id in round.completions && id < qps && Available(c, log, id);
      TakesOffered(c, qps, log, round.completions, id);
    }
  }

  /** If a run cannot get stuck, the loops end under every fair schedule, after at most two passes for each
      send. */
  lemma {:induction false} FairRunsEnd(c: Config, qps: nat, rounds: seq<Round>, log: seq<Event>)
    requires Moderated(c) && !MaySpin(c, qps) && IsLog(c, qps, log) && Fair(c, qps, rounds, log)
    requires |log| + |rounds| >= 2 * (c.iters * qps)
    ensures Ended(c, qps, AfterRounds(c, qps, rounds, log))
    decreases |rounds|
  {
    if !Ended(c, qps, log) {
      if Stuck(c, qps, log) {
        NeverStuck(c, qps, log);
      } else if rounds == [] {
        var e := StuckOrMoves(c, qps, log);
        ExtendLog(c, qps, log, e);
        LogsAreBounded(c, qps, log + [e]);
        assert false;
      } else {
        AfterRoundIsLog(c, qps, rounds[0], log);
        ServedMoves(c, qps, rounds[0], log);
        FairRunsEnd(c, qps, rounds[1..], AfterRound(c, qps, rounds[0], log));
      }
    }
  }

  // ---- every course one event at a time

  /** Completions are polled only while there are some left to count. */
  predicate PolledInTime(c: Config, qps: nat, log: seq<Event>) {
    log == []
    || (PolledInTime(c, qps, log[..|log| - 1])
        && (log[|log| - 1].Completed? ==> TotCcnt(c, log[..|log| - 1]) < c.iters * qps))
  }

  lemma ExtendUseful(c: Config, qps: nat, log: seq<Event>, e: Event)
    requires c.cqMod > 0 && IsLog(c, qps, log) && PolledInTime(c, qps, log) && Useful(c, qps, log, e)
    ensures IsLog(c, qps, log + [e]) && PolledInTime(c, qps, log + [e])
  {
    assert (log + [e])[..|log + [e]| - 1] == log;
  }

  /** A pass in which just this event happens. */
  function RoundOf(c: Config, log: seq<Event>, e: Event): Round {
    match e
    case Posted(qp) => Round((q, sent) => q == qp && sent == Scnt(c, log, qp), [])
    case Completed(qp) => Round((q, sent) => false, [qp])
  }

  function RoundsOf(c: Config, log: seq<Event>): seq<Round> {
    if log == [] then []
    else RoundsOf(c, log[..|log| - 1]) + [RoundOf(c, log[..|log| - 1], log[|log| - 1])]
  }

  lemma {:induction false} OneRoundMore(c: Config, qps: nat, rounds: seq<Round>, round: Round, log: seq<Event>)
    requires c.postList > 0 && c.cqMod > 0
    ensures var l := AfterRounds(c, qps, rounds, log);
            AfterRounds(c, qps, rounds + [round], log) == if Ended(c, qps, l) then l else AfterRound(c, qps, round, l)
    decreases |rounds|
  {
    var all := rounds + [round];
    if !Ended(c, qps, log) {
      if rounds == [] {
        assert all[1..] == [];
        assert AfterRounds(c, qps, all[1..], AfterRound(c, qps, round, log)) == AfterRound(c, qps, round, log);
      } else {
        assert all[1..] == rounds[1..] + [round];
        OneRoundMore(c, qps, rounds[1..], round, AfterRound(c, qps, rounds[0], log));
      }
    }
  }

  lemma {:induction false} ClosedPostsNothing(c: Config, open: (nat, nat) -> bool, log: seq<Event>, n: nat)
    requires c.postList > 0 && forall qp: nat :: qp < n ==> !open(qp, Scnt(c, log, qp))
    ensures PostAll(c, open, log, n) == log
  {
    if n > 0 {
      ClosedPostsNothing(c, open, log, n - 1);
    }
  }

  lemma {:induction false} OnePost(c: Config, qps: nat, log: seq<Event>, qp: nat, n: nat)
    requires Moderated(c) && IsLog(c, qps, log) && Allowed(c, qps, log, Posted(qp)) && qp < n <= qps
    ensures PostAll(c, RoundOf(c, log, Posted(qp)).open, log, n) == log + [Posted(qp)]
  {
    var open, next := RoundOf(c, log, Posted(qp)).open, log + [Posted(qp)];
    if n == qp + 1 {
      ClosedPostsNothing(c, open, log, qp);
      MayPostIsAllowed(c, qps, open, log, qp);
      CountersMove(c, log, Posted(qp), qp);
      assert PostWhile(c, open, next, qp) == next;
    } else {
      OnePost(c, qps, log, qp, n - 1);
    }
  }

  lemma RoundAddsEvent(c: Config, qps: nat, log: seq<Event>, e: Event)
    requires Moderated(c) && IsLog(c, qps, log) && Useful(c, qps, log, e)
    ensures AfterRound(c, qps, RoundOf(c, log, e), log) == log + [e]
  {
    match e
    case Posted(qp) => OnePost(c, qps, log, qp, qps);
    case Completed(qp) =>
      var round := RoundOf(c, log, e);
      ClosedPostsNothing(c, round.open, log, qps);
      assert round.completions[..0] == [];
      assert TakeAll(c, qps, log, []) == log;
  }

  lemma UsefulIsNotEnded(c: Config, qps: nat, log: seq<Event>, e: Event)
    requires Moderated(c) && IsLog(c, qps, log) && Useful(c, qps, log, e)
    ensures !Ended(c, qps, log)
  {
    SentInAll(c, qps, log);
  }

  /** Every log that polls in time is the course of a run of the loops. */
  lemma {:induction false} LogIsRun(c: Config, qps: nat, log: seq<Event>)
    requires Moderated(c) && IsLog(c, qps, log) && PolledInTime(c, qps, log)
    ensures AfterRounds(c, qps, RoundsOf(c, log), []) == log
  {
    if log != [] {
      var rest, e := log[..|log| - 1], log[|log| - 1];
      assert log == rest + [e];
      LogIsRun(c, qps, rest);
      UsefulIsNotEnded(c, qps, rest, e);
      RoundAddsEvent(c, qps, rest, e);
      OneRoundMore(c, qps, RoundsOf(c, rest), RoundOf(c, rest, e), []);
    }
  }

  // ---- one queue pair ahead of the others

  /** The first n sends of queue pair 0, each completion polled as soon as it is there, up to p of them. */
  function Solo(c: Config, n: nat, p: nat): seq<Event>
    requires c.cqMod > 0
  {
    if n == 0 then []
    else
      var sent := Solo(c, n - 1, p) + [Posted(0)];
      if Signalled(c, n - 1) && SignalsBefore(c, n) <= p then sent + [Completed(0)] else sent
  }

  function Polled(c: Config, n: nat, p: nat): nat
    requires c.cqMod > 0
  {
    if SignalsBefore(c, n) <= p then SignalsBefore(c, n) else p
  }

  lemma CountTwo(log: seq<Event>, qp: nat)
    ensures var sent := log + [Posted(0)];
            && PostsOf(sent, qp) == PostsOf(sent + [Completed(0)], qp) == PostsOf(log, qp) + (if qp == 0 then 1 else 0)
            && DoneOf(sent, qp) == DoneOf(log, qp)
            && DoneOf(sent + [Completed(0)], qp) == DoneOf(log, qp) + (if qp == 0 then 1 else 0)
            && Posts(sent) == Posts(sent + [Completed(0)]) == Posts(log) + 1
            && Dones(sent) == Dones(log) && Dones(sent + [Completed(0)]) == Dones(log) + 1
  {
    CountEvent(log, Posted(0), qp);
    CountEvent(log + [Posted(0)], Completed(0), qp);
  }

  lemma PolledStep(c: Config, n: nat, p: nat)
    requires c.cqMod > 0 && n > 0
    ensures Polled(c, n, p) ==
            Polled(c, n - 1, p) + if Signalled(c, n - 1) && SignalsBefore(c, n) <= p then 1 else 0
  {
  }

  lemma {:induction false} SoloCounts(c: Config, n: nat, p: nat, qp: nat)
    requires c.cqMod > 0
    ensures PostsOf(Solo(c, n, p), qp) == (if qp == 0 then n else 0)
    ensures DoneOf(Solo(c, n, p), qp) == (if qp == 0 then Polled(c, n, p) else 0)
    ensures Posts(Solo(c, n, p)) == n && Dones(Solo(c, n, p)) == Polled(c, n, p)
  {
    if n > 0 {
      SoloCounts(c, n - 1, p, qp);
      CountTwo(Solo(c, n - 1, p), qp);
      PolledStep(c, n, p);
    }
  }

  lemma SoloFits(c: Config, n: nat, p: nat)
    requires Moderated(c) && 0 < n <= c.iters && n <= c.cqMod * p + c.txDepth
    ensures c.cqMod * Polled(c, n - 1, p) <= n - 1 && n <= c.cqMod * Polled(c, n - 1, p) + c.txDepth
  {
    CompletionsCounted(c, n - 1);
    CreditedIsSent(c, n - 1, Polled(c, n - 1, p));
  }

  lemma {:induction false} SoloIsLog(c: Config, qps: nat, n: nat, p: nat)
    requires Moderated(c) && c.postList == 1 && qps > 0 && n <= c.iters && n <= c.cqMod * p + c.txDepth
    ensures IsLog(c, qps, Solo(c, n, p)) && PolledInTime(c, qps, Solo(c, n, p))
  {
    if n > 0 {
      SoloIsLog(c, qps, n - 1, p);
      SoloCounts(c, n - 1, p, 0);
      SoloFits(c, n, p);
      Multiples(qps, c.iters);
      SoloStep(c, qps, Solo(c, n - 1, p), n, p, Polled(c, n - 1, p));
    }
  }

  lemma SoloStep(c: Config, qps: nat, log: seq<Event>, n: nat, p: nat, polled: nat)
    requires c.cqMod > 0 && c.postList == 1 && 0 < n <= c.iters <= c.iters * qps && qps > 0
    requires IsLog(c, qps, log) && PolledInTime(c, qps, log)
    requires PostsOf(log, 0) == n - 1 && DoneOf(log, 0) == Dones(log) == polled == Polled(c, n - 1, p)
    requires c.cqMod * polled <= n - 1 && n <= c.cqMod * polled + c.txDepth
    ensures var sent := log + [Posted(0)];
            && IsLog(c, qps, sent) && PolledInTime(c, qps, sent)
            && (Signalled(c, n - 1) && SignalsBefore(c, n) <= p ==>
                  IsLog(c, qps, sent + [Completed(0)]) && PolledInTime(c, qps, sent + [Completed(0)]))
  {
    CountTwo(log, 0);
    ExtendUseful(c, qps, log, Posted(0));
    if Signalled(c, n - 1) && SignalsBefore(c, n) <= p {
      ExtendUseful(c, qps, log + [Posted(0)], Completed(0));
    }
  }

  // ---- the loops may spin for ever

  /** Queue pair 0 has been polled as often as it can be with sends left that do not fit its window. */
  predicate Held(c: Config, log: seq<Event>)
    requires c.cqMod > 0
  {
    DoneOf(log, 0) == HeldBack(c) && Scnt(c, log, 0) == Ccnt(c, log, 0) + c.txDepth
  }

  lemma HeldBackFits(c: Config)
    requires Moderated(c) && c.txDepth < c.iters
    ensures HeldBack(c) >= 0 && c.cqMod * HeldBack(c) + c.txDepth < c.iters
  {
    DivideExactly(c.iters - c.txDepth - 1, c.cqMod);
  }

  /** While queue pair 0 is held another one can move, until the run is stuck. */
  lemma OthersMove(c: Config, qps: nat, log: seq<Event>) returns (e: Event)
    requires Moderated(c) && MaySpin(c, qps) && IsLog(c, qps, log) && Held(c, log) && !Stuck(c, qps, log)
    ensures Useful(c, qps, log, e) && e.qp != 0
  {
    HeldBackFits(c);
    FitsIsAllowed(c, qps, log, 0);
    if TotCcnt(c, log) < c.iters * qps {
      var qp := SomeShort(c, qps, log);
      WholeQueue(c);
      if DoneOf(log, qp) >= SignalsBefore(c, c.iters) {
        Scale(c.cqMod, SignalsBefore(c, c.iters), DoneOf(log, qp));
      }
      QueueMoves(c, qps, log, qp);
      e := if Available(c, log, qp) then Completed(qp) else Posted(qp);
    } else {
      assert Scnt(c, log, 0) < c.iters;
      var qp: nat :| qp < qps && Scnt(c, log, qp) < c.iters
                     && Scnt(c, log, qp) + c.postList <= Ccnt(c, log, qp) + c.txDepth;
      FitsIsAllowed(c, qps, log, qp);
      e := Posted(qp);
    }
  }

  /** Before the total is reached some other queue pair is short of its own. */
  lemma SomeShort(c: Config, qps: nat, log: seq<Event>) returns (qp: nat)
    requires Moderated(c) && MaySpin(c, qps) && IsLog(c, qps, log) && Held(c, log)
    requires TotCcnt(c, log) < c.iters * qps
    ensures 0 < qp < qps && Ccnt(c, log, qp) < c.iters + Surplus(c)
  {
    var most, held := c.iters + Surplus(c), Ccnt(c, log, 0);
    var ccnts := Ccnts(c, qps, log);
    assert qps > 0 by {
      HeldBackFits(c);
    }
    TotalsAreSums(c, qps, log);
    if forall i: nat :: 0 < i < qps ==> Ccnt(c, log, i) >= most {
      SumUpdate(ccnts, 0, most);
      SumAtLeast(ccnts[0 := most], most);
      Distribute(c.iters, Surplus(c), qps);
      assert false;
    }
    qp :| 0 < qp < qps && Ccnt(c, log, qp) < most;
  }

  lemma {:induction false} Starve(c: Config, qps: nat, log: seq<Event>) returns (stuck: seq<Event>)
    requires Moderated(c) && MaySpin(c, qps) && IsLog(c, qps, log) && PolledInTime(c, qps, log) && Held(c, log)
    ensures IsLog(c, qps, stuck) && PolledInTime(c, qps, stuck) && Stuck(c, qps, stuck)
    decreases 2 * (c.iters * qps) - |log|
  {
    if Stuck(c, qps, log) {
      return log;
    }
    var e := OthersMove(c, qps, log);
    ExtendUseful(c, qps, log, e);
    CountEvent(log, e, 0);
    CountersMove(c, log, e, 0);
    LogsAreBounded(c, qps, log + [e]);
    stuck := Starve(c, qps, log + [e]);
  }

  /** A schedule after which the loops spin for ever. */
  lemma SpinningRun(c: Config, qps: nat) returns (rounds: seq<Round>)
    requires Moderated(c) && MaySpin(c, qps)
    ensures Stuck(c, qps, AfterRounds(c, qps, rounds, []))
  {
    HeldBackFits(c);
    SinglePosts(c);
    var p: nat := HeldBack(c);
    var n := c.cqMod * p + c.txDepth;
    assert qps > 0 by {
      Multiples(Surplus(c), 1);
    }
    SoloIsLog(c, qps, n, p);
    SoloCounts(c, n, p, 0);
    HeldPolled(c, n, p);
    var log := Starve(c, qps, Solo(c, n, p));
    LogIsRun(c, qps, log);
    rounds := RoundsOf(c, log);
  }

  lemma HeldPolled(c: Config, n: nat, p: nat)
    requires Moderated(c) && n == c.cqMod * p + c.txDepth && n < c.iters
    ensures Polled(c, n, p) == p
  {
    CompletionsCounted(c, n);
    if SignalsBefore(c, n) < p {
      Scale(c.cqMod, SignalsBefore(c, n), p);
    }
  }

  ghost predicate GetsStuck(c: Config, qps: nat, rounds: seq<Round>)
    requires c.cqMod > 0 && c.postList > 0
  {
    Stuck(c, qps, AfterRounds(c, qps, rounds, []))
  }

  lemma NotStuckAfter(c: Config, qps: nat, rounds: seq<Round>)
    requires Moderated(c) && !MaySpin(c, qps)
    ensures !GetsStuck(c, qps, rounds)
  {
    AfterRoundsIsLog(c, qps, rounds, []);
    if GetsStuck(c, qps, rounds) {
      NeverStuck(c, qps, AfterRounds(c, qps, rounds, []));
    }
  }

  /** The loops can be brought to spin for ever exactly with these parameters. */
  lemma SpinsIff(c: Config, qps: nat)
    requires Moderated(c)
    ensures (exists rounds: seq<Round> :: GetsStuck(c, qps, rounds)) <==> MaySpin(c, qps)
  {
    if MaySpin(c, qps) {
      var rounds := SpinningRun(c, qps);
      assert GetsStuck(c, qps, rounds);
    } else {
      forall rounds: seq<Round>
        ensures !GetsStuck(c, qps, rounds)
      {
        NotStuckAfter(c, qps, rounds);
      }
    }
  }

  /** The default depths with 250 iterations over four queue pairs. */
  lemma DefaultsMaySpin()
    ensures Moderated(Config(250, 1, 100, 128, 512, 128)) && MaySpin(Config(250, 1, 100, 128, 512, 128), 4)
  {
    assert HeldBack(Config(250, 1, 100, 128, 512, 128)) == 1;
  }

  // ---- stamps out of order

  /** Queue pair 0 finishes, its last completion counts for more than it sent, and only then the next queue
      pair posts. */
  lemma OvertakingRun(c: Config, qps: nat) returns (log: seq<Event>)
    requires Moderated(c) && c.iters % c.cqMod != 0 && qps > 1
    ensures IsLog(c, qps, log) && PolledInTime(c, qps, log) && !InOrder(c, c.iters * qps, log)
  {
    var signals := SignalsBefore(c, c.iters);
    var solo := Solo(c, c.iters, signals);
    SinglePosts(c);
    CompletionsCounted(c, c.iters);
    SoloIsLog(c, qps, c.iters, signals);
    SoloCounts(c, c.iters, signals, 0);
    SoloCounts(c, c.iters, signals, 1);
    ExtendUseful(c, qps, solo, Posted(1));
    log := solo + [Posted(1)];
    MultiplyMonotone(2, qps, c.iters);
    assert c.cqMod * signals <= 2 * c.iters;
    Overtaken(c, c.iters * qps, solo, signals);
  }

  lemma Overtaken(c: Config, total: nat, solo: seq<Event>, signals: nat)
    requires c.cqMod > 0 && c.postList == 1 && 2 * c.iters <= total
    requires TotScnt(c, solo) == c.iters < TotCcnt(c, solo) == c.cqMod * signals <= total
    ensures !InOrder(c, total, solo + [Posted(1)])
  {
    var i, j, log := c.iters, c.cqMod * signals - 1, solo + [Posted(1)];
    StampEvent(c, total, solo, Posted(1), i);
    StampEvent(c, total, solo, Posted(1), j);
    AddMultiple(0, signals, c.cqMod);
    CompletionsFound(c, total, solo, j);
    CompletedAtIs(c, total, solo, j, CompletedAt(c, total, solo, j).value);
    NotInOrder(c, total, log, i, j);
  }

  lemma NotInOrder(c: Config, total: nat, log: seq<Event>, i: nat, j: nat)
    requires c.cqMod > 0 && c.postList == 1 && i <= j < total && (j + 1) % c.cqMod == 0
    requires PostedAt(c, log, i).Some? && CompletedAt(c, total, log, j).Some?
    requires PostedAt(c, log, i).value > CompletedAt(c, total, log, j).value
    ensures !InOrder(c, total, log)
  {
    assert PeakPair(c, total, i, j);
  }

  /** In every run the postings are stamped before the completions they are paired with, exactly if `cq_mod`
      divides `iters` or there is one queue pair. */
  lemma OrderHoldsIff(c: Config, qps: nat)
    requires Moderated(c) && qps > 0
    ensures c.iters * qps > 0
    ensures (forall rounds: seq<Round> :: InOrder(c, c.iters * qps, AfterRounds(c, qps, rounds, [])))
            <==> c.iters % c.cqMod == 0 || qps == 1
  {
    var total := c.iters * qps;
    Multiples(qps, c.iters);
    if c.iters % c.cqMod == 0 || qps == 1 {
      forall rounds: seq<Round>
        ensures InOrder(c, total, AfterRounds(c, qps, rounds, []))
      {
        AfterRoundsIsLog(c, qps, rounds, []);
        LogInOrder(c, qps, AfterRounds(c, qps, rounds, []));
      }
    } else {
      var log := OvertakingRun(c, qps);
      LogIsRun(c, qps, log);
    }
  }

  lemma LogInOrder(c: Config, qps: nat, log: seq<Event>)
    requires Moderated(c) && IsLog(c, qps, log) && (c.iters % c.cqMod == 0 || qps == 1) && c.iters * qps > 0
    ensures InOrder(c, c.iters * qps, log)
  {
    forall i: nat, j: nat | PeakPair(c, c.iters * qps, i, j) && PostedAt(c, log, i).Some?
                            && CompletedAt(c, c.iters * qps, log, j).Some?
      ensures PostedAt(c, log, i).value < CompletedAt(c, c.iters * qps, log, j).value
    {
      PostedBeforeCompleted(c, qps, log, i, j, PostedAt(c, log, i).value,
                            CompletedAt(c, c.iters * qps, log, j).value);
    }
  }
}
