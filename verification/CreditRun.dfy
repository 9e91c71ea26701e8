/** A credited one-way SEND run over one queue pair: `run_iter_bw` on one side, `run_iter_bw_server`
    on the other (lib/perf/perftest_resources.c). The receiver keeps its credit writes within the send
    queue by polling, but only once they fill it, and polls the rest at the end. */
module CreditRun {
  import opened CreditFlow
  import opened Modular
  import opened Moderation
  import Runs

  predicate Init(s: Flow) {
    Credited(s.c) && s == Start(s.c)
  }

  predicate Enabled(s: Flow, step: Step) {
    && Possible(s, step)
    && match step
       case PostCredit => s.Credits() != s.c.peerTxDepth
       case PollCredit(k) =>
         && k <= s.c.peerTxDepth
         && (if s.stage == CreditDue then s.Credits() == s.c.peerTxDepth else s.stage == Idle && s.rcnt == s.c.iters)
       case _ => true
  }

  predicate NextStep(s: Flow, t: Flow, step: Step)
    requires Credited(s.c)
  {
    Enabled(s, step) && t == Apply(s, step)
  }

  ghost predicate Next(s: Flow, t: Flow) {
    Credited(s.c) && exists step :: NextStep(s, t, step)
  }

  ghost predicate CanStep(s: Flow) {
    exists t :: Next(s, t)
  }

  ghost predicate IsRun(run: seq<Flow>) {
    Runs.IsRun(Init, Next, run)
  }

  /** Both sides have left their loops and the receiver has drained its credit completions. */
  predicate Finished(s: Flow)
    requires s.c.cqMod > 0
  {
    && s.scnt == s.c.iters && s.polled == SignalsBefore(s.c, s.c.iters)
    && s.stage == Idle && s.rcnt == s.c.iters && s.wpolled == s.wposted
  }

  predicate Inv(s: Flow) {
    FlowInv(s) && s.Credits() <= s.c.peerTxDepth
  }

  lemma StepInv(s: Flow, t: Flow, step: Step)
    requires Inv(s) && NextStep(s, t, step)
    ensures Inv(t) && t.c == s.c && Work(s) < Work(t)
  {
    FlowStepInv(s, t, step);
    StepDoesWork(s, t, step);
  }

  lemma NextInv(s: Flow, t: Flow)
    requires Inv(s) && Next(s, t)
    ensures Inv(t) && t.c == s.c && Work(s) < Work(t)
  {
    var step :| NextStep(s, t, step);
    StepInv(s, t, step);
  }

  lemma InvIsInvariant()
    ensures Runs.IsInvariant(Init, Next, Inv)
  {
    forall s | Init(s)
      ensures Inv(s)
    {
      StartInv(s.c);
    }
    forall s, t | Inv(s) && Next(s, t)
      ensures Inv(t)
    {
      NextInv(s, t);
    }
  }

  lemma RunInv(run: seq<Flow>, i: nat)
    requires IsRun(run) && i < |run|
    ensures Inv(run[i])
  {
    InvIsInvariant();
    Runs.Holds(Init, Next, Inv, run, i);
  }

  // ---- safety

  /** No message ever finds the receive queue empty, however late credits are read or land. */
  lemma EveryMessageHasAReceive(run: seq<Flow>, i: nat)
    requires IsRun(run) && i < |run|
    ensures run[i].delivered <= run[i].scnt <= run[i].posted
  {
    RunInv(run, i);
    SentHasReceive(run[i]);
  }

  /** The 32-bit window computation is exact throughout the run, although the credit word wraps. */
  lemma WindowNeverWraps(run: seq<Flow>, i: nat)
    requires IsRun(run) && i < |run|
    ensures SendWindow(run[i]) == run[i].scnt + run[i].c.postList - run[i].credit
    ensures run[i].credit <= run[i].rcnt <= run[i].scnt
  {
    RunInv(run, i);
    SendWindowIsExact(run[i]);
  }

  /** Sends not known to be complete fit the send queue, their completions fit a completion queue of
      `tx_depth` entries, and so do credit writes on the other side. */
  lemma QueuesNeverOverflow(run: seq<Flow>, i: nat)
    requires IsRun(run) && i < |run|
    ensures run[i].c.cqMod > 0
    ensures run[i].scnt - run[i].c.cqMod * run[i].polled <= run[i].c.txDepth
    ensures SignalsBefore(run[i].c, run[i].sent) - run[i].polled <= run[i].c.txDepth
    ensures run[i].wposted - run[i].wpolled <= run[i].c.peerTxDepth
  {
    RunInv(run, i);
    var c, signals := run[i].c, SignalsBefore(run[i].c, run[i].sent);
    CompletionsCounted(c, run[i].sent);
    CompletionsFit(c.cqMod, c.txDepth, signals, run[i].polled, run[i].sent);
  }

  /** In every run credit completions are polled only once the writes fill the send queue, or after the last
      message, and never more than it holds at a time. */
  lemma CreditsPolledWhenFull(run: seq<Flow>, i: nat)
    requires IsRun(run) && i + 1 < |run| && run[i + 1].wpolled != run[i].wpolled
    ensures run[i].wpolled < run[i + 1].wpolled <= run[i].wpolled + run[i].c.peerTxDepth
    ensures (run[i].Credits() == run[i].c.peerTxDepth && run[i].stage == CreditDue)
            || (run[i].rcnt == run[i].c.iters && run[i].stage == Idle)
  {
    Runs.StepAt(Init, Next, run, i);
    var step :| NextStep(run[i], run[i + 1], step);
    if !step.PollCredit? {
      OnlyPollsTake(run[i], step);
    }
  }

  lemma OnlyPollsTake(s: Flow, step: Step)
    requires 3 <= s.c.rxDepth && Possible(s, step) && !step.PollCredit?
    ensures Apply(s, step).wpolled == s.wpolled
  {
  }

  lemma CompletionsFit(m: nat, depth: nat, signals: nat, polled: nat, sent: nat)
    requires 1 <= m <= depth && m * signals < sent + m && sent <= m * polled + depth
    ensures signals - polled <= depth
  {
    var d := signals - polled;
    assert m * signals == m * polled + m * d;
    assert d > depth ==> m * d >= m * (depth + 1) by {
      Multiples(d - depth, m);
      assert m * d == m * depth + (d - depth) * m;
      OneMore(m, depth);
    }
    OneMore(m, depth);
    Multiples(m, depth);
  }

  // ---- progress

  /** No message, completion or credit is under way. */
  predicate Quiet(s: Flow)
    requires s.c.cqMod > 0
  {
    HardwareIdle(s) && s.polled == SignalsBefore(s.c, s.scnt) && s.rcnt == s.scnt && s.stage == Idle
  }

  /** With nothing under way and sends left, the sender can post exactly when the last credit is
      recent enough for one more list. */
  lemma QuietSenderCanPostIff(s: Flow)
    requires Inv(s) && Quiet(s) && s.scnt < s.c.iters
    ensures CanPost(s) <==> Lag(s.c, s.scnt) + s.c.postList < s.c.rxDepth
  {
    SendWindowIsExact(s);
    WindowIsExact(s.c, s.scnt, s.polled);
    if !WindowOpen(s.c, s.scnt, s.polled) {
      ClosedWindowHasSignal(s.c, s.scnt, s.polled);
    }
  }

  /** Something the hardware or the receiver can do, or a completion the sender can poll. */
  lemma EnabledStep(s: Flow) returns (step: Step)
    requires Inv(s) && (s.scnt < s.c.iters ==> Lag(s.c, s.scnt) + s.c.postList < s.c.rxDepth) && !Finished(s)
    ensures Enabled(s, step)
  {
    if !HardwareIdle(s) {
      step := HardwareStep(s);
      return;
    }
    if s.polled < SignalsBefore(s.c, s.sent) { return PollSend; }
    match s.stage
    case Polled => return Repost;
    case Reposted => return StoreCredit;
    case CreditDue =>
      if s.Credits() == s.c.peerTxDepth { return PollCredit(1); } else { return PostCredit; }
    case Idle =>
      if s.rcnt < s.delivered { return PollRecv; }
      if s.scnt == s.c.iters { return PollCredit(1); }
      QuietSenderCanPostIff(s);
      return Post;
  }

  /** In any reachable state that is not finished, something can happen. */
  lemma Progress(s: Flow)
    requires Inv(s) && NeverStarves(s.c) && !Finished(s)
    ensures CanStep(s)
  {
    var step := EnabledStep(s);
    assert NextStep(s, Apply(s, step), step);
    assert Next(s, Apply(s, step));
  }

  lemma {:induction false} StarvedRun(run: seq<Flow>, k: nat, i: nat)
    requires IsRun(run) && i < |run| && StaysBelow(k, run[0])
    ensures StaysBelow(k, run[i])
  {
    if i > 0 {
      StarvedRun(run, k, i - 1);
      Runs.StepAt(Init, Next, run, i - 1);
      StarvedNext(k, run[i - 1], run[i]);
    }
  }

  lemma StarvedNext(k: nat, s: Flow, t: Flow)
    requires StaysBelow(k, s) && Next(s, t)
    ensures StaysBelow(k, t)
  {
    var step :| NextStep(s, t, step);
    StarvedStaysBelow(k, s, t, step);
  }

  lemma {:induction false} ConfigIsFixed(run: seq<Flow>, i: nat)
    requires IsRun(run) && i < |run|
    ensures run[i].c == run[0].c && Work(run[i]) >= i
  {
    if i > 0 {
      ConfigIsFixed(run, i - 1);
      RunInv(run, i - 1);
      Runs.StepAt(Init, Next, run, i - 1);
      NextInv(run[i - 1], run[i]);
    }
  }

  /** Every run ends: it has at most 13 steps an iteration. */
  lemma RunsAreBounded(run: seq<Flow>)
    requires IsRun(run)
    ensures |run| <= 13 * run[0].c.iters + 1
  {
    var last := |run| - 1;
    RunInv(run, last);
    ConfigIsFixed(run, last);
    WorkIsBounded(run[last]);
  }

  /** A run that cannot go on has finished exactly when its parameters never starve the sender; with
      RunsAreBounded, every run then finishes, and otherwise none does. */
  lemma StuckRunHasFinishedIff(run: seq<Flow>)
    requires IsRun(run) && !CanStep(run[|run| - 1])
    ensures 3 <= run[0].c.rxDepth && 1 <= run[0].c.postList && run[|run| - 1].c.cqMod > 0
    ensures Finished(run[|run| - 1]) <==> NeverStarves(run[0].c)
  {
    var last := |run| - 1;
    RunInv(run, last);
    ConfigIsFixed(run, last);
    if NeverStarves(run[0].c) {
      if !Finished(run[last]) {
        Progress(run[last]);
      }
    } else {
      var k :| 0 <= k < run[0].c.iters && k % run[0].c.postList == 0
               && Lag(run[0].c, k) + run[0].c.postList >= run[0].c.rxDepth;
      RunInv(run, 0);
      StarvedRun(run, k, last);
    }
  }

  lemma CarryOn(run: seq<Flow>) returns (longer: seq<Flow>)
    requires IsRun(run) && CanStep(run[|run| - 1])
    ensures run < longer && IsRun(longer) && longer[0] == run[0]
  {
    var t :| Next(run[|run| - 1], t);
    Runs.Extend(Init, Next, run, t);
    longer := run + [t];
  }

  /** Where the parameters never starve the sender, every run can be carried on until both sides are done. */
  lemma {:induction false} EveryRunCanFinish(run: seq<Flow>) returns (longer: seq<Flow>)
    requires IsRun(run) && 1 <= run[0].c.postList && 3 <= run[0].c.rxDepth && NeverStarves(run[0].c)
    ensures run <= longer && IsRun(longer)
    ensures longer[|longer| - 1].c.cqMod > 0 && Finished(longer[|longer| - 1])
    decreases 13 * run[0].c.iters + 1 - |run|
  {
    if !CanStep(run[|run| - 1]) {
      StuckRunHasFinishedIff(run);
      return run;
    }
    longer := CarryOn(run);
    RunsAreBounded(longer);
    longer := EveryRunCanFinish(longer);
  }
}
