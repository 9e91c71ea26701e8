/** A credited bidirectional run over one queue pair: `run_iter_bi` on both sides
    (lib/perf/perftest_resources.c). Each side's data sends and credit writes share one send queue of
    `tx_depth` entries, and a due credit waits in an inner loop until that queue has room. */
module BiRun {
  import opened Basics
  import opened CreditFlow
  import opened Moderation
  import Modular
  import Runs

  datatype Side = Client | Server

  /** Two flows of messages, each with the credits it draws; a side sends one and receives the other. */
  datatype State = State(toServer: Flow, toClient: Flow) {
    /** The flow a side sends. */
    function Out(side: Side): Flow {
      if side == Client then toServer else toClient
    }

    /** The flow it receives. */
    function In(side: Side): Flow {
      if side == Client then toClient else toServer
    }
  }

  datatype BiStep = BiStep(side: Side, op: Step)

  /** Steps of the sending half of a side and of its messages; the others handle what it receives. */
  predicate IsSending(op: Step) {
    op.Post? || op.Complete? || op.PollSend? || op.Deliver?
  }

  function Target(s: State, step: BiStep): Flow {
    if IsSending(step.op) then s.Out(step.side) else s.In(step.side)
  }

  function Replace(s: State, step: BiStep, f: Flow): State {
    if IsSending(step.op) == (step.side == Client) then s.(toServer := f) else s.(toClient := f)
  }

  /** `scnt + scredit_for_qp - ccnt`, in unsigned 64-bit arithmetic. */
  function InQueue(s: State, side: Side): nat {
    U64(s.Out(side).scnt + s.In(side).Credits() - s.Out(side).Completed())
  }

  /** The guard of the wait loop. */
  predicate MustWait(s: State, side: Side) {
    InQueue(s, side) >= s.Out(side).c.txDepth
  }

  /** The guard of the posting loop with the credit check inside it. The server starts on its first receive. */
  predicate MayPost(s: State, side: Side) {
    var o := s.Out(side);
    && (side == Server ==> s.In(side).rcnt > 0)
    && o.scnt < o.c.iters
    && U64(o.scnt + s.In(side).Credits() - o.Completed() + o.c.postList) <= o.c.txDepth
    && SendWindow(o) < o.c.rxDepth
  }

  /** A side polls for send completions in its main loop, and in the wait loop. */
  predicate AtPoll(s: State, side: Side) {
    s.In(side).stage == Idle || (s.In(side).stage == CreditDue && MustWait(s, side))
  }

  predicate Enabled(s: State, step: BiStep) {
    match step.op
    case Post => s.In(step.side).stage == Idle && MayPost(s, step.side)
    case PollSend => AtPoll(s, step.side) && Possible(Target(s, step), PollSend)
    case PollCredit(k) => k == 1 && AtPoll(s, step.side) && Possible(Target(s, step), step.op)
    case PostCredit => !MustWait(s, step.side) && Possible(Target(s, step), PostCredit)
    case op => Possible(Target(s, step), op)
  }

  /** Both sides are started with the same iterations and receive queue depth. */
  predicate Paired(a: Config, b: Config) {
    Credited(a) && Credited(b) && a.iters == b.iters && a.rxDepth == b.rxDepth
  }

  function Apply(s: State, step: BiStep): State
    requires Paired(s.toServer.c, s.toClient.c) && Enabled(s, step)
  {
    Replace(s, step, CreditFlow.Apply(Target(s, step), step.op))
  }

  predicate NextStep(s: State, t: State, step: BiStep)
    requires Paired(s.toServer.c, s.toClient.c)
  {
    Enabled(s, step) && t == Apply(s, step)
  }

  predicate Init(s: State) {
    Paired(s.toServer.c, s.toClient.c) && s == State(Start(s.toServer.c), Start(s.toClient.c))
  }

  ghost predicate Next(s: State, t: State) {
    Paired(s.toServer.c, s.toClient.c) && exists step :: NextStep(s, t, step)
  }

  ghost predicate CanStep(s: State) {
    exists t :: Next(s, t)
  }

  ghost predicate IsRun(run: seq<State>) {
    Runs.IsRun(Init, Next, run)
  }

  // ---- the invariant

  /** Data sends not known to be complete and credit writes fit the send queue they share. */
  predicate QueueInv(o: Flow, i: Flow) {
    o.scnt + i.Credits() <= o.Completed() + o.c.txDepth
  }

  predicate Inv(s: State) {
    && Paired(s.toServer.c, s.toClient.c)
    && FlowInv(s.toServer) && FlowInv(s.toClient)
    && QueueInv(s.toServer, s.toClient) && QueueInv(s.toClient, s.toServer)
  }

  /** While sends remain the difference is not negative; at the end it can be, by less than `cqMod`. */
  lemma Difference(o: Flow)
    requires FlowInv(o)
    ensures o.scnt < o.c.iters || o.c.iters % o.c.cqMod == 0 ==> o.Completed() <= o.scnt
    ensures o.Completed() < o.scnt + o.c.cqMod
  {
    SignalsMonotone(o.c, o.sent, o.scnt);
    CompletionsCounted(o.c, o.scnt);
    Scale(o.c.cqMod, o.polled, SignalsBefore(o.c, o.scnt));
  }

  /** Between a negative difference, which wraps, and a depth lies a wide gap. */
  lemma RoomIsExact(data: int, credits: nat, extra: nat, depth: nat)
    requires 0 <= data + TWO_32 && data < TWO_32 && credits < TWO_32 && extra < TWO_32 && depth < TWO_32
    ensures U64(data + credits + extra) <= depth <==> 0 <= data + credits + extra <= depth
    ensures U64(data + credits + extra) < depth <==> 0 <= data + credits + extra < depth
    ensures 0 <= data && U64(data + credits + extra) <= depth ==> U64(data + extra) <= depth
  {
    Wraps(data + credits + extra);
    if 0 <= data {
      Wraps(data + extra);
    }
  }

  /** The numbers the two guards compare. */
  lemma GuardsAreSmall(s: State, side: Side)
    requires Inv(s)
    ensures var data := s.Out(side).scnt - s.Out(side).Completed();
            && 0 <= data + TWO_32 && data < TWO_32 && 0 <= s.In(side).Credits() < TWO_32
            && s.Out(side).c.postList < TWO_32 && s.Out(side).c.txDepth < TWO_32
  {
    Difference(s.Out(side));
  }

  /** Room beside the credits is room without them. */
  lemma RoomForList(o: Flow, credits: nat)
    requires FlowInv(o) && o.scnt < o.c.iters && credits < TWO_32
    requires U64(o.scnt + credits - o.Completed() + o.c.postList) <= o.c.txDepth
    ensures WindowOpen(o.c, o.scnt, o.polled)
    ensures o.scnt + o.c.postList + credits <= o.Completed() + o.c.txDepth
  {
    var data := o.scnt - o.Completed();
    Difference(o);
    assert 0 <= data < TWO_32;
    RoomIsExact(data, credits, o.c.postList, o.c.txDepth);
  }

  lemma PostIsPossible(s: State, side: Side)
    requires Inv(s) && MayPost(s, side)
    ensures Possible(s.Out(side), Post)
    ensures s.Out(side).scnt + s.Out(side).c.postList + s.In(side).Credits()
         <= s.Out(side).Completed() + s.Out(side).c.txDepth
  {
    GuardsAreSmall(s, side);
    RoomForList(s.Out(side), s.In(side).Credits());
  }

  /** Past the wait loop there is room for one more entry. */
  lemma NoWaitIsRoom(s: State, side: Side)
    requires Inv(s) && !MustWait(s, side)
    ensures s.Out(side).scnt + s.In(side).Credits() < s.Out(side).Completed() + s.Out(side).c.txDepth
  {
    var o := s.Out(side);
    GuardsAreSmall(s, side);
    RoomIsExact(o.scnt - o.Completed(), s.In(side).Credits(), 0, o.c.txDepth);
  }

  lemma StepIsPossible(s: State, step: BiStep)
    requires Inv(s) && Enabled(s, step)
    ensures Possible(Target(s, step), step.op)
  {
    if step.op.Post? {
      PostIsPossible(s, step.side);
    }
  }

  /** Polling only makes room. */
  lemma QueueKept(o: Flow, i: Flow, o': Flow, i': Flow)
    requires QueueInv(o, i) && o'.c == o.c && o'.scnt == o.scnt
    requires o.polled <= o'.polled && i'.Credits() <= i.Credits()
    ensures QueueInv(o', i')
  {
    Scale(o.c.cqMod, o.polled, o'.polled);
  }

  lemma QueueAfterSending(o: Flow, i: Flow, o': Flow, op: Step)
    requires 3 <= o.c.rxDepth && FlowStep(o, o', op) && IsSending(op) && QueueInv(o, i) && QueueInv(i, o)
    requires op.Post? ==> o.scnt + o.c.postList + i.Credits() <= o.Completed() + o.c.txDepth
    ensures QueueInv(o', i) && QueueInv(i, o')
  {
    if !op.Post? {
      QueueKept(o, i, o', i);
    }
  }

  lemma QueueAfterReceiving(o: Flow, i: Flow, i': Flow, op: Step)
    requires 3 <= i.c.rxDepth && FlowStep(i, i', op) && !IsSending(op) && QueueInv(o, i) && QueueInv(i, o)
    requires op.PostCredit? ==> o.scnt + i.Credits() < o.Completed() + o.c.txDepth
    ensures QueueInv(o, i') && QueueInv(i', o)
  {
    if !op.PostCredit? {
      QueueKept(o, i, o, i');
    }
  }

  lemma QueueAfter(s: State, t: State, step: BiStep)
    requires Inv(s) && NextStep(s, t, step) && FlowStep(Target(s, step), Target(t, step), step.op)
    ensures QueueInv(t.toServer, t.toClient) && QueueInv(t.toClient, t.toServer)
  {
    var side := step.side;
    if IsSending(step.op) {
      if step.op.Post? {
        PostIsPossible(s, side);
      }
      QueueAfterSending(s.Out(side), s.In(side), t.Out(side), step.op);
    } else {
      if step.op.PostCredit? {
        NoWaitIsRoom(s, side);
      }
      QueueAfterReceiving(s.Out(side), s.In(side), t.In(side), step.op);
    }
  }

  function TotalWork(s: State): int {
    Work(s.toServer) + Work(s.toClient)
  }

  lemma StepInv(s: State, t: State, step: BiStep)
    requires Inv(s) && NextStep(s, t, step)
    ensures Inv(t) && t.toServer.c == s.toServer.c && t.toClient.c == s.toClient.c && TotalWork(s) < TotalWork(t)
    ensures FlowStep(Target(s, step), Target(t, step), step.op)
  {
    StepIsPossible(s, step);
    QueueAfter(s, t, step);
    FlowStepInv(Target(s, step), Target(t, step), step.op);
    StepDoesWork(Target(s, step), Target(t, step), step.op);
  }

  lemma NextInv(s: State, t: State)
    requires Inv(s) && Next(s, t)
    ensures Inv(t) && t.toServer.c == s.toServer.c && t.toClient.c == s.toClient.c && TotalWork(s) < TotalWork(t)
  {
    var step :| NextStep(s, t, step);
    StepInv(s, t, step);
  }

  lemma InitInv(s: State)
    requires Init(s)
    ensures Inv(s)
  {
    StartInv(s.toServer.c);
    StartInv(s.toClient.c);
  }

  lemma InvIsInvariant()
    ensures Runs.IsInvariant(Init, Next, Inv)
  {
    forall s | Init(s)
      ensures Inv(s)
    {
      InitInv(s);
    }
    forall s, t | Inv(s) && Next(s, t)
      ensures Inv(t)
    {
      NextInv(s, t);
    }
  }

  lemma RunInv(run: seq<State>, i: nat)
    requires IsRun(run) && i < |run|
    ensures Inv(run[i])
  {
    InvIsInvariant();
    Runs.Holds(Init, Next, Inv, run, i);
  }

  lemma {:induction false} ConfigIsFixed(run: seq<State>, i: nat)
    requires IsRun(run) && i < |run|
    ensures run[i].toServer.c == run[0].toServer.c && run[i].toClient.c == run[0].toClient.c
    ensures TotalWork(run[i]) >= i
  {
    if i > 0 {
      ConfigIsFixed(run, i - 1);
      RunInv(run, i - 1);
      Runs.StepAt(Init, Next, run, i - 1);
      NextInv(run[i - 1], run[i]);
    }
  }

  // ---- safety

  /** In both directions no message ever finds the receive queue empty, and the 32-bit window is exact. */
  lemma EveryMessageHasAReceive(run: seq<State>, i: nat, side: Side)
    requires IsRun(run) && i < |run|
    ensures run[i].Out(side).delivered <= run[i].Out(side).scnt <= run[i].Out(side).posted
    ensures SendWindow(run[i].Out(side)) ==
              run[i].Out(side).scnt + run[i].Out(side).c.postList - run[i].Out(side).credit
  {
    RunInv(run, i);
    SentHasReceive(run[i].Out(side));
    SendWindowIsExact(run[i].Out(side));
  }

  /** The shared send queue is never overcommitted: data sends not known to be complete and credit writes
      together fit `tx_depth`. While sends remain, or if `cq_mod` divides `iters`, neither part is negative. */
  lemma SharedQueueFits(run: seq<State>, i: nat, side: Side)
    requires IsRun(run) && i < |run|
    ensures 0 <= run[i].In(side).Credits()
    ensures var o := run[i].Out(side);
            && o.c.cqMod > 0
            && o.scnt - o.Completed() + run[i].In(side).Credits() <= o.c.txDepth
            && (o.scnt < o.c.iters || o.c.iters % o.c.cqMod == 0 ==> 0 <= o.scnt - o.Completed())
  {
    RunInv(run, i);
    Difference(run[i].Out(side));
  }

  /** The server starts on a receive: while it has received nothing it has sent nothing, in every run. */
  lemma {:induction false} ServerReceivesFirst(run: seq<State>, i: nat)
    requires IsRun(run) && i < |run|
    ensures run[i].toServer.rcnt == 0 ==> run[i].toClient.scnt == 0
  {
    if i > 0 {
      ServerReceivesFirst(run, i - 1);
      RunInv(run, i - 1);
      Runs.StepAt(Init, Next, run, i - 1);
      var step :| NextStep(run[i - 1], run[i], step);
      StartsOnReceive(run[i - 1], run[i], step);
    }
  }

  lemma StartsOnReceive(s: State, t: State, step: BiStep)
    requires Inv(s) && NextStep(s, t, step)
    ensures s.toServer.rcnt <= t.toServer.rcnt
    ensures t.toClient.scnt != s.toClient.scnt ==> s.toServer.rcnt > 0
  {
    if step.op.Post? {
      assert Target(t, step) == CreditFlow.Apply(Target(s, step), Post);
    } else {
      OnlyPostsSend(Target(s, step), step.op);
    }
  }

  lemma OnlyPostsSend(f: Flow, op: Step)
    requires 3 <= f.c.rxDepth && Possible(f, op) && !op.Post?
    ensures CreditFlow.Apply(f, op).scnt == f.scnt && CreditFlow.Apply(f, op).rcnt >= f.rcnt
  {
  }

  /** In every run a side takes completions one at a time, between receives or while it must wait. */
  lemma PolledWhereTheLoopsPoll(run: seq<State>, i: nat, side: Side)
    requires IsRun(run) && i + 1 < |run|
    ensures run[i].Out(side).polled <= run[i + 1].Out(side).polled <= run[i].Out(side).polled + 1
    ensures run[i].In(side).wpolled <= run[i + 1].In(side).wpolled <= run[i].In(side).wpolled + 1
    ensures run[i + 1].Out(side).polled != run[i].Out(side).polled
            || run[i + 1].In(side).wpolled != run[i].In(side).wpolled ==>
              run[i].In(side).stage == Idle || (run[i].In(side).stage == CreditDue && MustWait(run[i], side))
  {
    RunInv(run, i);
    Runs.StepAt(Init, Next, run, i);
    var step :| NextStep(run[i], run[i + 1], step);
    PolledByStep(run[i], run[i + 1], step, side);
  }

  lemma PolledByStep(s: State, t: State, step: BiStep, side: Side)
    requires Paired(s.toServer.c, s.toClient.c) && NextStep(s, t, step)
    ensures t.Out(side).polled == s.Out(side).polled + if step == BiStep(side, PollSend) then 1 else 0
    ensures t.In(side).wpolled == s.In(side).wpolled + if step == BiStep(side, PollCredit(1)) then 1 else 0
  {
  }

  // ---- the wait loop

  /** Something the wait loop can wait for: a signalled data send or a credit write not yet polled. */
  predicate SignalOutstanding(s: State, side: Side)
    requires s.Out(side).c.cqMod > 0
  {
    s.Out(side).polled < SignalsBefore(s.Out(side).c, s.Out(side).scnt) || s.In(side).wpolled < s.In(side).wposted
  }

  /** A side in its wait loop with nothing to wait for. */
  predicate Hung(s: State, side: Side)
    requires s.Out(side).c.cqMod > 0
  {
    s.In(side).stage == CreditDue && MustWait(s, side) && !SignalOutstanding(s, side)
  }

  /** With `cq_mod` dividing `iters`, or with sends left, the loop always has something to wait for. */
  lemma WaitingHasSignal(s: State, side: Side)
    requires Inv(s) && MustWait(s, side)
    requires s.Out(side).scnt < s.Out(side).c.iters || s.Out(side).c.iters % s.Out(side).c.cqMod == 0
    ensures SignalOutstanding(s, side)
  {
    var o := s.Out(side);
    if o.polled >= SignalsBefore(o.c, o.scnt) {
      AllPolledLeavesRoom(o);
      GuardsAreSmall(s, side);
      RoomIsExact(o.scnt - o.Completed(), s.In(side).Credits(), 0, o.c.txDepth);
    }
  }

  /** Everything polled, fewer sends than `cq_mod` are unaccounted for, and none where lists are posted. */
  lemma AllPolledLeavesRoom(o: Flow)
    requires FlowInv(o) && o.polled >= SignalsBefore(o.c, o.scnt)
    requires o.scnt < o.c.iters || o.c.iters % o.c.cqMod == 0
    ensures 0 <= o.scnt - o.Completed() < o.c.txDepth
  {
    SignalsMonotone(o.c, o.sent, o.scnt);
    CompletionsCounted(o.c, o.scnt);
  }

  /** Sending, a side in its wait loop can only have sends completed and delivered. */
  lemma WaitingSender(o: Flow, o': Flow, op: Step)
    requires FlowInv(o) && FlowStep(o, o', op) && IsSending(op) && !op.Post?
    requires o.polled >= SignalsBefore(o.c, o.scnt)
    ensures o'.c == o.c && o'.scnt == o.scnt && o'.polled == o.polled
  {
    SignalsMonotone(o.c, o.sent, o.scnt);
  }

  /** Receiving, nothing at all. */
  lemma WaitingReceiver(i: Flow, op: Step)
    requires FlowInv(i) && !IsSending(op) && !op.PostCredit? && i.stage == CreditDue && i.wpolled >= i.wposted
    ensures !Possible(i, op)
  {
  }

  /** The other side's steps touch neither its sends nor its credits. */
  lemma OtherSender(i: Flow, i': Flow, op: Step)
    requires 3 <= i.c.rxDepth && FlowStep(i, i', op) && IsSending(op)
    ensures i'.stage == i.stage && i'.wpolled == i.wpolled && i'.wposted == i.wposted
  {
  }

  lemma OtherReceiver(o: Flow, o': Flow, op: Step)
    requires 3 <= o.c.rxDepth && FlowStep(o, o', op) && !IsSending(op)
    ensures o'.c == o.c && o'.scnt == o.scnt && o'.polled == o.polled
  {
  }

  /** What keeps a hung side hung. */
  predicate SameWait(o: Flow, i: Flow, o': Flow, i': Flow) {
    && o'.c == o.c && o'.scnt == o.scnt && o'.polled == o.polled
    && i'.stage == i.stage && i'.wposted == i.wposted && i'.wpolled == i.wpolled
  }

  lemma OwnStepKeepsWaiting(s: State, t: State, step: BiStep)
    requires Inv(s) && Hung(s, step.side) && NextStep(s, t, step)
    requires FlowStep(Target(s, step), Target(t, step), step.op)
    ensures SameWait(s.Out(step.side), s.In(step.side), t.Out(step.side), t.In(step.side))
  {
    if IsSending(step.op) {
      WaitingSender(s.Out(step.side), t.Out(step.side), step.op);
    } else {
      WaitingReceiver(s.In(step.side), step.op);
    }
  }

  lemma OtherStepKeepsWaiting(s: State, t: State, step: BiStep, side: Side)
    requires Inv(s) && step.side != side && NextStep(s, t, step)
    requires FlowStep(Target(s, step), Target(t, step), step.op)
    ensures SameWait(s.Out(side), s.In(side), t.Out(side), t.In(side))
  {
    if IsSending(step.op) {
      OtherSender(s.In(side), t.In(side), step.op);
    } else {
      OtherReceiver(s.Out(side), t.Out(side), step.op);
    }
  }

  lemma SameWaitHangs(s: State, t: State, side: Side)
    requires s.Out(side).c.cqMod > 0 && Hung(s, side)
    requires SameWait(s.Out(side), s.In(side), t.Out(side), t.In(side))
    ensures Hung(t, side)
  {
    assert InQueue(t, side) == InQueue(s, side);
  }

  lemma StepKeepsWaiting(s: State, t: State, step: BiStep, side: Side)
    requires Inv(s) && Hung(s, side) && NextStep(s, t, step)
    ensures Inv(t) && SameWait(s.Out(side), s.In(side), t.Out(side), t.In(side))
  {
    StepInv(s, t, step);
    if step.side == side {
      OwnStepKeepsWaiting(s, t, step);
    } else {
      OtherStepKeepsWaiting(s, t, step, side);
    }
  }

  /** Once hung, for ever hung: no step of either side or of the hardware frees it. */
  lemma HungForEver(s: State, t: State, side: Side)
    requires Inv(s) && Next(s, t) && Hung(s, side)
    ensures Inv(t) && Hung(t, side)
  {
    var step :| NextStep(s, t, step);
    StepKeepsWaiting(s, t, step, side);
    SameWaitHangs(s, t, side);
  }
}
