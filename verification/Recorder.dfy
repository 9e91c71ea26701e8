/** Time stamps of a bandwidth run: what `run_iter_bw` records over several queue pairs
    (lib/perf/perftest_resources.c) and what the peak search of `print_report_bw` reads
    (lib/perf/perftest_parameters.c). */
module Recorder {
  import opened Basics
  import opened CyclicBuffers
  import opened Moderation
  import opened Modular
  import opened RunLog
  import opened Stamps
  import opened Sums

  /** Every slot a pair of the search names has been written. */
  ghost predicate Recorded(c: Config, tposted: seq<Option<nat>>, tcompleted: seq<Option<nat>>) {
    && c.cqMod > 0 && c.postList > 0
    && |tposted| == |tcompleted|
    && forall i: nat, j: nat :: PeakPair(c, |tposted|, i, j) ==> tposted[i].Some? && tcompleted[j].Some?
  }

  /** The arrays hold the readings the log says, and nothing else. */
  function Reading(cycles: nat -> nat, event: Option<nat>): Option<nat> {
    match event case None => None case Some(n) => Some(cycles(n))
  }

  ghost predicate PostingsHeld(c: Config, log: seq<Event>, cycles: nat -> nat, tposted: seq<Option<nat>>) {
    forall x :: 0 <= x < |tposted| ==> tposted[x] == Reading(cycles, PostedAt(c, log, x))
  }

  ghost predicate CompletionsHeld(c: Config, log: seq<Event>, cycles: nat -> nat, tcompleted: seq<Option<nat>>)
    requires c.cqMod > 0
  {
    forall x :: 0 <= x < |tcompleted| ==>
                  tcompleted[x] == Reading(cycles, CompletedAt(c, |tcompleted|, log, x))
  }

  /** The counters of the loops agree with the log. */
  ghost predicate Counted(c: Config, qps: nat, log: seq<Event>, scnt: seq<nat>, ccnt: seq<nat>) {
    scnt == Scnts(c, qps, log) && ccnt == Ccnts(c, qps, log)
  }

  /** The counters and both arrays are those of the log. */
  ghost predicate Kept(c: Config, qps: nat, log: seq<Event>, cycles: nat -> nat, scnt: seq<nat>, ccnt: seq<nat>,
                       tposted: seq<Option<nat>>, tcompleted: seq<Option<nat>>)
    requires c.cqMod > 0
  {
    && Counted(c, qps, log, scnt, ccnt)
    && PostingsHeld(c, log, cycles, tposted) && CompletionsHeld(c, log, cycles, tcompleted)
  }

  lemma NothingYet(c: Config, qps: nat, cycles: nat -> nat, scnt: seq<nat>, ccnt: seq<nat>,
                   tposted: seq<Option<nat>>, tcompleted: seq<Option<nat>>)
    requires c.cqMod > 0 && |scnt| == |ccnt| == qps
    requires forall i :: 0 <= i < qps ==> scnt[i] == ccnt[i] == 0
    requires forall x :: 0 <= x < |tposted| ==> tposted[x] == None
    requires forall x :: 0 <= x < |tcompleted| ==> tcompleted[x] == None
    ensures Kept(c, qps, [], cycles, scnt, ccnt, tposted, tcompleted)
  {
  }

  lemma PostingStamped(c: Config, log: seq<Event>, cycles: nat -> nat, tposted: seq<Option<nat>>, qp: nat)
    requires c.cqMod > 0 && PostingsHeld(c, log, cycles, tposted) && TotScnt(c, log) < |tposted|
    ensures PostingsHeld(c, log + [Posted(qp)], cycles, tposted[TotScnt(c, log) := Some(cycles(|log|))])
  {
    forall x: nat | x < |tposted|
      ensures PostedAt(c, log + [Posted(qp)], x) ==
                if TotScnt(c, log) == x then Some(|log|) else PostedAt(c, log, x)
    {
      StampEvent(c, |tposted|, log, Posted(qp), x);
    }
  }

  lemma CompletionStamped(c: Config, log: seq<Event>, cycles: nat -> nat, tcompleted: seq<Option<nat>>, qp: nat)
    requires c.cqMod > 0 && CompletionsHeld(c, log, cycles, tcompleted) && |tcompleted| > 0
    ensures CompletionsHeld(c, log + [Completed(qp)], cycles,
                            tcompleted[RecordAt(c, |tcompleted|, TotCcnt(c, log)) := Some(cycles(|log|))])
  {
    var total := |tcompleted|;
    forall x: nat | x < total
      ensures CompletedAt(c, total, log + [Completed(qp)], x) ==
                if RecordAt(c, total, TotCcnt(c, log)) == x then Some(|log|) else CompletedAt(c, total, log, x)
    {
      StampEvent(c, total, log, Completed(qp), x);
    }
  }

  /** A posting leaves the completion stamps alone, and the other way round. */
  lemma OtherStampsKept(c: Config, log: seq<Event>, cycles: nat -> nat, e: Event, stamps: seq<Option<nat>>)
    requires c.cqMod > 0
    ensures e.Completed? && PostingsHeld(c, log, cycles, stamps) ==> PostingsHeld(c, log + [e], cycles, stamps)
    ensures e.Posted? && CompletionsHeld(c, log, cycles, stamps) ==> CompletionsHeld(c, log + [e], cycles, stamps)
  {
    forall x: nat | x < |stamps|
      ensures e.Completed? ==> PostedAt(c, log + [e], x) == PostedAt(c, log, x)
      ensures e.Posted? ==> CompletedAt(c, |stamps|, log + [e], x) == CompletedAt(c, |stamps|, log, x)
    {
      StampEvent(c, |stamps|, log, e, x);
    }
  }

  /** A posting that is allowed has a slot for its stamp. */
  lemma RoomForStamp(c: Config, qps: nat, log: seq<Event>, qp: nat)
    requires Moderated(c) && IsLog(c, qps, log) && Allowed(c, qps, log, Posted(qp))
    ensures IsLog(c, qps, log + [Posted(qp)]) && TotScnt(c, log) < c.iters * qps
  {
    ExtendLog(c, qps, log, Posted(qp));
    CountersMove(c, log, Posted(qp), qp);
    SentInAll(c, qps, log + [Posted(qp)]);
  }

  lemma CountedMoves(c: Config, qps: nat, log: seq<Event>, scnt: seq<nat>, ccnt: seq<nat>, e: Event)
    requires e.qp < qps && Counted(c, qps, log, scnt, ccnt)
    ensures |scnt| == |ccnt| == qps
    ensures Counted(c, qps, log + [e],
                    if e.Posted? then scnt[e.qp := scnt[e.qp] + c.postList] else scnt,
                    if e.Completed? then ccnt[e.qp := ccnt[e.qp] + c.cqMod] else ccnt)
    ensures TotScnt(c, log + [e]) == TotScnt(c, log) + if e.Posted? then c.postList else 0
    ensures TotCcnt(c, log + [e]) == TotCcnt(c, log) + if e.Completed? then c.cqMod else 0
  {
    CountersMove(c, log, e, e.qp);
    CountsMove(c, qps, log, e);
  }

  lemma StampKeeps(c: Config, qps: nat, log: seq<Event>, cycles: nat -> nat, scnt: seq<nat>, ccnt: seq<nat>,
                   tposted: seq<Option<nat>>, tcompleted: seq<Option<nat>>, qp: nat)
    requires c.cqMod > 0 && qp < qps && TotScnt(c, log) < |tposted|
    requires Kept(c, qps, log, cycles, scnt, ccnt, tposted, tcompleted)
    ensures TotScnt(c, log + [Posted(qp)]) == TotScnt(c, log) + c.postList
    ensures Kept(c, qps, log + [Posted(qp)], cycles, scnt[qp := scnt[qp] + c.postList], ccnt,
                 tposted[TotScnt(c, log) := Some(cycles(|log|))], tcompleted)
  {
    CountedMoves(c, qps, log, scnt, ccnt, Posted(qp));
    PostingStamped(c, log, cycles, tposted, qp);
    OtherStampsKept(c, log, cycles, Posted(qp), tcompleted);
  }

  lemma PostKeeps(c: Config, qps: nat, log: seq<Event>, cycles: nat -> nat, scnt: seq<nat>, ccnt: seq<nat>,
                  tposted: seq<Option<nat>>, tcompleted: seq<Option<nat>>, qp: nat)
    requires Moderated(c) && IsLog(c, qps, log) && Allowed(c, qps, log, Posted(qp)) && |tposted| == c.iters * qps
    requires Kept(c, qps, log, cycles, scnt, ccnt, tposted, tcompleted)
    ensures IsLog(c, qps, log + [Posted(qp)]) && TotScnt(c, log) < |tposted|
    ensures TotScnt(c, log + [Posted(qp)]) == TotScnt(c, log) + c.postList
    ensures Kept(c, qps, log + [Posted(qp)], cycles, scnt[qp := scnt[qp] + c.postList], ccnt,
                 tposted[TotScnt(c, log) := Some(cycles(|log|))], tcompleted)
  {
    RoomForStamp(c, qps, log, qp);
    StampKeeps(c, qps, log, cycles, scnt, ccnt, tposted, tcompleted, qp);
  }

  lemma CompletionKeeps(c: Config, qps: nat, log: seq<Event>, cycles: nat -> nat, scnt: seq<nat>, ccnt: seq<nat>,
                        tposted: seq<Option<nat>>, tcompleted: seq<Option<nat>>, qp: nat)
    requires c.cqMod > 0 && qp < qps && |tcompleted| > 0
    requires Kept(c, qps, log, cycles, scnt, ccnt, tposted, tcompleted)
    ensures TotCcnt(c, log + [Completed(qp)]) == TotCcnt(c, log) + c.cqMod
    ensures TotScnt(c, log + [Completed(qp)]) == TotScnt(c, log)
    ensures Kept(c, qps, log + [Completed(qp)], cycles, scnt, ccnt[qp := ccnt[qp] + c.cqMod], tposted,
                 tcompleted[RecordAt(c, |tcompleted|, TotCcnt(c, log)) := Some(cycles(|log|))])
  {
    CountedMoves(c, qps, log, scnt, ccnt, Completed(qp));
    CompletionStamped(c, log, cycles, tcompleted, qp);
    OtherStampsKept(c, log, cycles, Completed(qp), tposted);
  }

  /** At the end every slot the search reads is written. */
  lemma AllRecorded(c: Config, qps: nat, log: seq<Event>, cycles: nat -> nat,
                    tposted: seq<Option<nat>>, tcompleted: seq<Option<nat>>)
    requires c.cqMod > 0 && c.postList > 0 && |tposted| == |tcompleted| == c.iters * qps
    requires Ended(c, qps, log)
    requires PostingsHeld(c, log, cycles, tposted) && CompletionsHeld(c, log, cycles, tcompleted)
    ensures Recorded(c, tposted, tcompleted)
  {
    forall i: nat, j: nat | PeakPair(c, |tposted|, i, j)
      ensures tposted[i].Some? && tcompleted[j].Some?
    {
      PostingsFound(c, log, i);
      CompletionsFound(c, |tcompleted|, log, j);
    }
  }

  // ---- the loops

  /** The posting and polling loops, with `noPeak` OFF. The rounds say what the hardware and the peer
      do; `cycles` gives the successive readings of the cycle counter. `done` is false if the rounds
      ran out first. */
  method RunIterBw(c: Config, qps: nat, rounds: seq<Round>, cycles: nat -> nat)
    returns (done: bool, scnt: array<nat>, tposted: array<Option<nat>>, tcompleted: array<Option<nat>>)
    requires Moderated(c) && qps > 0
    ensures tposted.Length == tcompleted.Length == c.iters * qps && scnt.Length == qps
    ensures var log := AfterRounds(c, qps, rounds, []);
            && (done <==> Ended(c, qps, log))
            && scnt[..] == Scnts(c, qps, log)
            && PostingsHeld(c, log, cycles, tposted[..]) && CompletionsHeld(c, log, cycles, tcompleted[..])
    ensures done ==> Recorded(c, tposted[..], tcompleted[..]) && forall i :: 0 <= i < qps ==> scnt[i] == c.iters
  {
    var total := c.iters * qps;
    Multiples(qps, c.iters);
    tposted := new Option<nat>[total](_ => None);
    tcompleted := new Option<nat>[total](_ => None);
    scnt := new nat[qps](_ => 0);
    var ccnt := new nat[qps](_ => 0);
    var totscnt: nat, totccnt: nat, reading: nat := 0, 0, 0;
    var round := 0;
    ghost var log: seq<Event> := [];
    NothingYet(c, qps, cycles, scnt[..], ccnt[..], tposted[..], tcompleted[..]);
    assert rounds[0..] == rounds;
    while (totscnt < total || totccnt < total) && round < |rounds|
      invariant round <= |rounds| && IsLog(c, qps, log)
      invariant AfterRounds(c, qps, rounds[round..], log) == AfterRounds(c, qps, rounds, [])
      invariant Kept(c, qps, log, cycles, scnt[..], ccnt[..], tposted[..], tcompleted[..])
      invariant totscnt == TotScnt(c, log) && totccnt == TotCcnt(c, log) && reading == |log|
      decreases |rounds| - round
    {
      ghost var posted := PostAll(c, rounds[round].open, log, qps);
      ghost var after := AfterRound(c, qps, rounds[round], log);
      PostAllIsLog(c, qps, rounds[round].open, log, qps);
      AfterRoundIsLog(c, qps, rounds[round], log);
      assert rounds[round..][1..] == rounds[round + 1..];
      totscnt, reading :=
        PostSends(c, qps, rounds[round].open, cycles, scnt, ccnt, totscnt, tposted, tcompleted, reading, log);
      assert totccnt == TotCcnt(c, posted);
      if totccnt < total {
        totccnt, reading := PollSends(c, qps, rounds[round].completions, cycles, scnt, ccnt, totccnt, tposted,
                                      tcompleted, reading, posted);
      }
      log := after;
      round := round + 1;
    }
    done := totscnt >= total && totccnt >= total;
    if done {
      AllRecorded(c, qps, log, cycles, tposted[..], tcompleted[..]);
      SentInAll(c, qps, log);
    }
  }

  /** The inner posting loop: one queue pair, until it may post no more. */
  method PostQueue(
    c: Config, qps: nat, open: (nat, nat) -> bool, cycles: nat -> nat, index: nat, scnt: array<nat>,
    ccnt: array<nat>, totscnt0: nat, tposted: array<Option<nat>>, ghost tcompleted: array<Option<nat>>,
    reading0: nat, ghost log: seq<Event>)
    returns (totscnt: nat, reading: nat)
    requires Moderated(c) && IsLog(c, qps, log) && index < qps && scnt != ccnt && tposted != tcompleted
    requires Kept(c, qps, log, cycles, scnt[..], ccnt[..], tposted[..], tcompleted[..])
    requires totscnt0 == TotScnt(c, log) && reading0 == |log|
    requires tposted.Length == c.iters * qps
    modifies scnt, tposted
    ensures var l := PostWhile(c, open, log, index);
            && Kept(c, qps, l, cycles, scnt[..], ccnt[..], tposted[..], tcompleted[..])
            && totscnt == TotScnt(c, l) && reading == |l|
  {
    totscnt, reading := totscnt0, reading0;
    ghost var l := log;
    while MayPost(c, open, index, scnt[index], ccnt[index])
      invariant IsLog(c, qps, l) && PostWhile(c, open, l, index) == PostWhile(c, open, log, index)
      invariant Kept(c, qps, l, cycles, scnt[..], ccnt[..], tposted[..], tcompleted[..])
      invariant totscnt == TotScnt(c, l) && reading == |l|
      decreases c.iters - scnt[index]
    {
      MayPostIsAllowed(c, qps, open, l, index);
      ghost var sent, posted := scnt[..], tposted[..];
      PostKeeps(c, qps, l, cycles, sent, ccnt[..], posted, tcompleted[..], index);
      tposted[totscnt] := Some(cycles(reading));
      scnt[index] := scnt[index] + c.postList;
      assert scnt[..] == sent[index := sent[index] + c.postList];
      assert tposted[..] == posted[totscnt := Some(cycles(reading))];
      reading, totscnt := reading + 1, totscnt + c.postList;
      l := l + [Posted(index)];
    }
  }

  /** One pass of the posting loop over all queue pairs. */
  method PostSends(
    c: Config, qps: nat, open: (nat, nat) -> bool, cycles: nat -> nat, scnt: array<nat>, ccnt: array<nat>,
    totscnt0: nat, tposted: array<Option<nat>>, ghost tcompleted: array<Option<nat>>, reading0: nat,
    ghost log: seq<Event>)
    returns (totscnt: nat, reading: nat)
    requires Moderated(c) && IsLog(c, qps, log) && scnt != ccnt && tposted != tcompleted
    requires Kept(c, qps, log, cycles, scnt[..], ccnt[..], tposted[..], tcompleted[..])
    requires totscnt0 == TotScnt(c, log) && reading0 == |log|
    requires tposted.Length == c.iters * qps
    modifies scnt, tposted
    ensures var l := PostAll(c, open, log, qps);
            && Kept(c, qps, l, cycles, scnt[..], ccnt[..], tposted[..], tcompleted[..])
            && totscnt == TotScnt(c, l) && reading == |l|
            && TotCcnt(c, l) == TotCcnt(c, log)
  {
    totscnt, reading := totscnt0, reading0;
    ghost var l := log;
    for index := 0 to qps
      invariant l == PostAll(c, open, log, index)
      invariant Kept(c, qps, l, cycles, scnt[..], ccnt[..], tposted[..], tcompleted[..])
      invariant totscnt == TotScnt(c, l) && reading == |l|
    {
      PostAllIsLog(c, qps, open, log, index);
      totscnt, reading :=
        PostQueue(c, qps, open, cycles, index, scnt, ccnt, totscnt, tposted, tcompleted, reading, l);
      l := PostWhile(c, open, l, index);
    }
    PostAllIsLog(c, qps, open, log, qps);
  }

  /** The hardware has a completion of a queue pair to deliver. */
  predicate Deliverable(c: Config, scnt: nat, ccnt: nat)
    requires c.cqMod > 0
  {
    ccnt < c.cqMod * SignalsBefore(c, scnt)
  }

  lemma DeliverableIff(c: Config, log: seq<Event>, qp: nat)
    requires c.cqMod > 0
    ensures Deliverable(c, Scnt(c, log, qp), Ccnt(c, log, qp)) <==> Available(c, log, qp)
  {
    var polled, signals := DoneOf(log, qp), SignalsBefore(c, Scnt(c, log, qp));
    if polled < signals {
      Scale(c.cqMod, polled, signals);
    } else {
      Scale(c.cqMod, signals, polled);
    }
  }

  /** One poll: each completion names its queue pair, and the hardware delivers none it does not have. */
  method PollSends(
    c: Config, qps: nat, wc: seq<nat>, cycles: nat -> nat, scnt: array<nat>, ccnt: array<nat>, totccnt0: nat,
    ghost tposted: array<Option<nat>>, tcompleted: array<Option<nat>>, reading0: nat, ghost log: seq<Event>)
    returns (totccnt: nat, reading: nat)
    requires c.cqMod > 0 && scnt != ccnt && tposted != tcompleted
    requires Kept(c, qps, log, cycles, scnt[..], ccnt[..], tposted[..], tcompleted[..])
    requires totccnt0 == TotCcnt(c, log) && reading0 == |log|
    requires tcompleted.Length == c.iters * qps > 0
    modifies ccnt, tcompleted
    ensures var l := TakeAll(c, qps, log, wc);
            && Kept(c, qps, l, cycles, scnt[..], ccnt[..], tposted[..], tcompleted[..])
            && totccnt == TotCcnt(c, l) && reading == |l|
            && TotScnt(c, l) == TotScnt(c, log)
  {
    var total := tcompleted.Length;
    totccnt, reading := totccnt0, reading0;
    ghost var l := log;
    assert wc[..0] == [];
    for i := 0 to |wc|
      invariant l == TakeAll(c, qps, log, wc[..i])
      invariant Kept(c, qps, l, cycles, scnt[..], ccnt[..], tposted[..], tcompleted[..])
      invariant totccnt == TotCcnt(c, l) && reading == |l|
      invariant TotScnt(c, l) == TotScnt(c, log)
    {
      var id := wc[i];
      assert wc[..i + 1][..i] == wc[..i];
      DeliverableIff(c, l, id);
      if id < qps && Deliverable(c, scnt[id], ccnt[id]) {
        ghost var credited, completed := ccnt[..], tcompleted[..];
        CompletionKeeps(c, qps, l, cycles, scnt[..], credited, tposted[..], completed, id);
        ccnt[id] := ccnt[id] + c.cqMod;
        totccnt := totccnt + c.cqMod;
        if totccnt > total {
          tcompleted[total - 1] := Some(cycles(reading));
        } else {
          tcompleted[totccnt - 1] := Some(cycles(reading));
        }
        assert ccnt[..] == credited[id := credited[id] + c.cqMod];
        assert tcompleted[..] == completed[RecordAt(c, total, totccnt - c.cqMod) := Some(cycles(reading))];
        reading := reading + 1;
        l := l + [Completed(id)];
      }
    }
    assert wc[..|wc|] == wc;
  }

  // ---- the peak search

  /** Cycles per message between posting i and completion j, in unsigned 64-bit arithmetic. */
  function Rate(tposted: seq<Option<nat>>, tcompleted: seq<Option<nat>>, i: nat, j: nat): nat
    requires i < |tposted| && j < |tcompleted| && i <= j && tposted[i].Some? && tcompleted[j].Some?
  {
    U64(tcompleted[j].value - tposted[i].value) / (j - i + 1)
  }

  /** A 64-bit counter that does not run backwards. */
  ghost predicate IsClock(cycles: nat -> nat) {
    forall n: nat, m: nat :: n <= m ==> cycles(n) <= cycles(m) < TWO_64
  }

  /** Where stamps are in order, a rate is the time that went by: the
      subtraction does not wrap. */
  lemma RateIsElapsed(c: Config, log: seq<Event>, cycles: nat -> nat, tposted: seq<Option<nat>>,
                      tcompleted: seq<Option<nat>>, i: nat, j: nat)
    requires c.cqMod > 0 && c.postList > 0 && |tposted| == |tcompleted| > 0
    requires PeakPair(c, |tposted|, i, j) && tposted[i].Some? && tcompleted[j].Some?
    requires PostingsHeld(c, log, cycles, tposted) && CompletionsHeld(c, log, cycles, tcompleted)
    requires InOrder(c, |tposted|, log)
    requires IsClock(cycles)
    ensures tposted[i].value <= tcompleted[j].value
    ensures Rate(tposted, tcompleted, i, j) == (tcompleted[j].value - tposted[i].value) / (j - i + 1)
  {
    var n, m := PostedAt(c, log, i).value, CompletedAt(c, |tposted|, log, j).value;
    assert cycles(n) <= cycles(m) < TWO_64;
    Wraps(cycles(m) - cycles(n));
  }

  function Stamp(slot: Option<nat>): nat {
    match slot case None => 0 case Some(v) => v
  }

  /** The starting value of the search. Unwritten slots hold zero, which only this line may read. */
  function FirstDelta(tposted: seq<Option<nat>>, tcompleted: seq<Option<nat>>): nat
    requires |tposted| > 0 && |tcompleted| > 0
  {
    U64(Stamp(tcompleted[0]) - Stamp(tposted[0]))
  }

  /** The value is one the search has seen. */
  ghost predicate Attained(c: Config, tposted: seq<Option<nat>>, tcompleted: seq<Option<nat>>, opt: nat)
    requires Recorded(c, tposted, tcompleted) && |tposted| > 0
  {
    opt == FirstDelta(tposted, tcompleted)
    || exists i: nat, j: nat :: PeakPair(c, |tposted|, i, j) && opt == Rate(tposted, tcompleted, i, j)
  }

  predicate EndsBatch(c: Config, j: nat)
    requires c.cqMod > 0
  {
    (j + 1) % c.cqMod == 0
  }

  /** The value is no more than that of any pair with an earlier start, or with start i and a regular
      completion before j. */
  ghost predicate Below(c: Config, tposted: seq<Option<nat>>, tcompleted: seq<Option<nat>>, opt: nat, i: nat, j: nat)
    requires Recorded(c, tposted, tcompleted)
  {
    forall a: nat, b: nat :: PeakPair(c, |tposted|, a, b) && (a < i || (a == i && b < j && EndsBatch(c, b))) ==>
                               opt <= Rate(tposted, tcompleted, a, b)
  }

  /** The loops over posting and completion stamps find the least value over all pairs. */
  method PeakSearch(c: Config, tposted: seq<Option<nat>>, tcompleted: seq<Option<nat>>) returns (optDelta: nat)
    requires Recorded(c, tposted, tcompleted) && |tposted| > 0
    ensures forall i: nat, j: nat :: PeakPair(c, |tposted|, i, j) ==> optDelta <= Rate(tposted, tcompleted, i, j)
    ensures optDelta <= FirstDelta(tposted, tcompleted) && Attained(c, tposted, tcompleted, optDelta)
  {
    var total := |tposted|;
    optDelta := FirstDelta(tposted, tcompleted);
    var i: nat := 0;
    while i < total
      invariant i % c.postList == 0
      invariant optDelta <= FirstDelta(tposted, tcompleted) && Attained(c, tposted, tcompleted, optDelta)
      invariant Below(c, tposted, tcompleted, optDelta, i, 0)
    {
      var j: nat := RoundUp(i + 1, c.cqMod) - 1;
      FirstCompletion(c, tposted, tcompleted, optDelta, i);
      while j < total
        invariant i <= j && EndsBatch(c, j)
        invariant optDelta <= FirstDelta(tposted, tcompleted) && Attained(c, tposted, tcompleted, optDelta)
        invariant Below(c, tposted, tcompleted, optDelta, i, j)
      {
        assert PeakPair(c, total, i, j);
        var t := Rate(tposted, tcompleted, i, j);
        if t < optDelta {
          optDelta := t;
        }
        NextCompletion(c, tposted, tcompleted, optDelta, i, j);
        j := j + c.cqMod;
      }
      if total % c.cqMod != 0 {
        j := total - 1;
        assert PeakPair(c, total, i, j);
        var t := Rate(tposted, tcompleted, i, j);
        if t < optDelta {
          optDelta := t;
        }
      }
      NextPosting(c, tposted, tcompleted, optDelta, i);
      i := i + c.postList;
    }
  }

  lemma FirstCompletion(c: Config, tposted: seq<Option<nat>>, tcompleted: seq<Option<nat>>, opt: nat, i: nat)
    requires Recorded(c, tposted, tcompleted) && Below(c, tposted, tcompleted, opt, i, 0)
    ensures Below(c, tposted, tcompleted, opt, i, RoundUp(i + 1, c.cqMod) - 1)
  {
    var first := RoundUp(i + 1, c.cqMod);
    forall b: nat | PeakPair(c, |tposted|, i, b) && EndsBatch(c, b)
      ensures b >= first - 1
    {
      SameRemainder(b + 1, first, c.cqMod);
    }
  }

  lemma NextCompletion(c: Config, tposted: seq<Option<nat>>, tcompleted: seq<Option<nat>>, opt: nat, i: nat, j: nat)
    requires Recorded(c, tposted, tcompleted) && Below(c, tposted, tcompleted, opt, i, j)
    requires PeakPair(c, |tposted|, i, j) && EndsBatch(c, j) && opt <= Rate(tposted, tcompleted, i, j)
    ensures EndsBatch(c, j + c.cqMod) && Below(c, tposted, tcompleted, opt, i, j + c.cqMod)
  {
    AddMultiple(j + 1, 1, c.cqMod);
    forall b: nat | PeakPair(c, |tposted|, i, b) && EndsBatch(c, b) && j <= b < j + c.cqMod
      ensures b == j
    {
      SameRemainder(b + 1, j + 1, c.cqMod);
    }
  }

  lemma NextPosting(c: Config, tposted: seq<Option<nat>>, tcompleted: seq<Option<nat>>, opt: nat, i: nat)
    requires Recorded(c, tposted, tcompleted) && i < |tposted| && i % c.postList == 0
    requires Below(c, tposted, tcompleted, opt, i, |tposted|)
    requires |tposted| % c.cqMod != 0 ==>
               PeakPair(c, |tposted|, i, |tposted| - 1) && opt <= Rate(tposted, tcompleted, i, |tposted| - 1)
    ensures (i + c.postList) % c.postList == 0 && Below(c, tposted, tcompleted, opt, i + c.postList, 0)
  {
    AddMultiple(i, 1, c.postList);
    forall a: nat, b: nat | PeakPair(c, |tposted|, a, b) && i <= a < i + c.postList
      ensures a == i
    {
      SameRemainder(a, i, c.postList);
    }
  }

  lemma {:induction false} FirstSlotUnused(c: Config, total: nat, log: seq<Event>)
    requires c.cqMod > 1 && total > 1
    ensures CompletedAt(c, total, log, 0) == None
  {
    if log != [] {
      FirstSlotUnused(c, total, log[..|log| - 1]);
    }
  }

  /** The line that starts the search may read a slot never written, which counts as zero. With stamps in order
      and a counter that has left zero it still loses to some pair. */
  lemma StartLoses(c: Config, qps: nat, log: seq<Event>, cycles: nat -> nat, tposted: seq<Option<nat>>,
                   tcompleted: seq<Option<nat>>)
    requires Moderated(c) && |tposted| == |tcompleted| == c.iters * qps > 0
    requires Recorded(c, tposted, tcompleted) && InOrder(c, |tposted|, log) && IsClock(cycles)
    requires PostingsHeld(c, log, cycles, tposted) && CompletionsHeld(c, log, cycles, tcompleted)
    requires cycles(0) > 0
    ensures PeakPair(c, |tposted|, 0, c.cqMod - 1)
    ensures Rate(tposted, tcompleted, 0, c.cqMod - 1) <= FirstDelta(tposted, tcompleted)
  {
    FirstPair(c, qps);
    RateIsElapsed(c, log, cycles, tposted, tcompleted, 0, c.cqMod - 1);
    var t: int, u: int := tposted[0].value, tcompleted[c.cqMod - 1].value;
    assert cycles(0) <= cycles(PostedAt(c, log, 0).value) == t;
    if c.cqMod > 1 {
      FirstSlotUnused(c, |tposted|, log);
      assert FirstDelta(tposted, tcompleted) == U64(-t);
      Wraps(-t);
      QuotientAtMost(u - t, c.cqMod);
    } else {
      Wraps(u - t);
    }
  }

  lemma QuotientAtMost(d: nat, n: nat)
    requires n > 0
    ensures d / n <= d
  {
    DivideExactly(d, n);
    Multiples(n, d / n);
  }

  lemma FirstPair(c: Config, qps: nat)
    requires Moderated(c) && c.iters * qps > 0
    ensures c.cqMod <= c.iters <= c.iters * qps && PeakPair(c, c.iters * qps, 0, c.cqMod - 1)
  {
    Multiples(qps, c.iters);
    if c.postList > 1 {
      DivisorFits(c.cqMod, c.postList);
      DivisorFits(c.postList, c.iters);
    }
  }

  lemma DivisorFits(d: nat, n: nat)
    requires 0 < d && 0 < n && n % d == 0
    ensures d <= n
  {
  }

  /** So what the search finds is the rate of a pair, and no pair has a lesser one. */
  lemma PeakIsARate(c: Config, qps: nat, log: seq<Event>, cycles: nat -> nat, tposted: seq<Option<nat>>,
                    tcompleted: seq<Option<nat>>, peak: nat)
    requires Moderated(c) && |tposted| == |tcompleted| == c.iters * qps > 0
    requires Recorded(c, tposted, tcompleted) && InOrder(c, |tposted|, log) && IsClock(cycles)
    requires PostingsHeld(c, log, cycles, tposted) && CompletionsHeld(c, log, cycles, tcompleted)
    requires cycles(0) > 0 && Attained(c, tposted, tcompleted, peak)
    requires forall i: nat, j: nat :: PeakPair(c, |tposted|, i, j) ==> peak <= Rate(tposted, tcompleted, i, j)
    ensures exists i: nat, j: nat :: PeakPair(c, |tposted|, i, j) && peak == Rate(tposted, tcompleted, i, j)
  {
    StartLoses(c, qps, log, cycles, tposted, tcompleted);
  }
}
