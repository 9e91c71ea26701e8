/** How bidirectional runs end (lib/perf/perftest_resources.c): with both sides done, or, for some
    parameters, with a side in its wait loop for ever. */
module BiProgress {
  import opened BiRun
  import opened CreditFlow
  import opened Moderation
  import Modular
  import Runs

  function Other(side: Side): Side {
    if side == Client then Server else Client
  }

  predicate AllIdle(s: State) {
    HardwareIdle(s.toServer) && HardwareIdle(s.toClient)
  }

  /** A side that has left its loops and drained its credit completions. */
  predicate Done(s: State, side: Side)
    requires s.Out(side).c.cqMod > 0
  {
    var o, i := s.Out(side), s.In(side);
    && o.scnt == o.c.iters && o.polled == SignalsBefore(o.c, o.c.iters)
    && i.stage == Idle && i.rcnt == i.c.iters && i.wpolled == i.wposted
  }

  predicate Finished(s: State)
    requires s.toServer.c.cqMod > 0 && s.toClient.c.cqMod > 0
  {
    Done(s, Client) && Done(s, Server)
  }

  /** A step in the order of the code with prompt hardware: a side polls from its main loop only after
      posting all it may, and software finds every request carried out. A send completes after its delivery. */
  predicate Orderly(s: State, step: BiStep) {
    match step.op
    case Complete => s.Out(step.side).sent < s.Out(step.side).delivered
    case Deliver | ReadCtrl | Land | WriteDone => true
    case PollSend | PollRecv | PollCredit(_) =>
      AllIdle(s) && (s.In(step.side).stage == Idle ==> !MayPost(s, step.side))
    case _ => AllIdle(s)
  }

  ghost predicate OrderlyNext(s: State, t: State) {
    Paired(s.toServer.c, s.toClient.c) && exists step :: NextStep(s, t, step) && Orderly(s, step)
  }

  ghost predicate IsOrderlyRun(run: seq<State>) {
    Runs.IsRun(Init, OrderlyNext, run)
  }

  lemma OrderlyIsRun(run: seq<State>)
    requires IsOrderlyRun(run)
    ensures IsRun(run)
  {
    forall i, j | 0 <= i < |run| && j == i + 1 < |run|
      ensures Next(run[i], run[j])
    {
      Runs.StepAt(Init, OrderlyNext, run, i);
      var step :| NextStep(run[i], run[j], step) && Orderly(run[i], step);
    }
  }

  // ---- what is left to do

  /** Nothing left for this side: it hangs, or has polled everything, may not post, and has taken all its
      receives or is held back from taking more. */
  predicate AtRest(s: State, side: Side, held: bool)
    requires s.Out(side).c.cqMod > 0
  {
    var o, i := s.Out(side), s.In(side);
    || Hung(s, side)
    || (i.stage == Idle && !MayPost(s, side) && !SignalOutstanding(s, side) && (held || i.rcnt == i.delivered))
  }

  lemma PollStep(s: State, side: Side) returns (op: Step)
    requires Inv(s) && AllIdle(s) && AtPoll(s, side) && SignalOutstanding(s, side)
    requires s.In(side).stage == Idle ==> !MayPost(s, side)
    ensures Enabled(s, BiStep(side, op)) && Orderly(s, BiStep(side, op)) && !op.PollRecv?
  {
    var o := s.Out(side);
    if o.polled < SignalsBefore(o.c, o.scnt) { return PollSend; }
    return PollCredit(1);
  }

  lemma SideStep(s: State, side: Side, held: bool) returns (op: Step)
    requires Inv(s) && AllIdle(s) && !AtRest(s, side, held)
    ensures Enabled(s, BiStep(side, op)) && Orderly(s, BiStep(side, op)) && (op.PollRecv? ==> !held)
  {
    match s.In(side).stage
    case Polled => return Repost;
    case Reposted => return StoreCredit;
    case CreditDue =>
      if !MustWait(s, side) { return PostCredit; }
      op := PollStep(s, side);
    case Idle =>
      if MayPost(s, side) { return Post; }
      if !SignalOutstanding(s, side) { return PollRecv; }
      op := PollStep(s, side);
  }

  /** Everything is at rest, the given side held back. */
  predicate Settled(s: State, side: Side, held: bool)
    requires s.toServer.c.cqMod > 0 && s.toClient.c.cqMod > 0
  {
    AllIdle(s) && AtRest(s, side, held) && AtRest(s, Other(side), false)
  }

  lemma HardwareMove(s: State, side: Side) returns (step: BiStep)
    requires Inv(s) && !HardwareIdle(s.Out(side))
    ensures Enabled(s, step) && Orderly(s, step) && !step.op.PollRecv?
  {
    var op := HardwareStep(s.Out(side));
    step := BiStep(if IsSending(op) then side else Other(side), op);
  }

  lemma NextMove(s: State, side: Side, held: bool) returns (step: BiStep)
    requires Inv(s) && !Settled(s, side, held)
    ensures Enabled(s, step) && Orderly(s, step) && (held ==> step != BiStep(side, PollRecv))
  {
    if !HardwareIdle(s.Out(side)) {
      step := HardwareMove(s, side);
    } else if !HardwareIdle(s.In(side)) {
      step := HardwareMove(s, Other(side));
    } else if !AtRest(s, side, held) {
      var op := SideStep(s, side, held);
      step := BiStep(side, op);
    } else {
      var op := SideStep(s, Other(side), false);
      step := BiStep(Other(side), op);
    }
  }

  /** The last credit a sender can have, once its receiver has handled everything up to n. */
  predicate Credit(o: Flow)
    requires 3 <= o.c.rxDepth
  {
    o.credit == o.rcnt - Lag(o.c, o.rcnt)
  }

  lemma FreshCredit(o: Flow)
    requires FlowInv(o) && HardwareIdle(o) && o.stage == Idle
    ensures Credit(o)
  {
  }

  lemma AllPolledIsOpen(o: Flow)
    requires FlowInv(o) && o.scnt < o.c.iters && o.polled == SignalsBefore(o.c, o.scnt)
    ensures WindowOpen(o.c, o.scnt, o.polled)
  {
    if !WindowOpen(o.c, o.scnt, o.polled) {
      ClosedWindowHasSignal(o.c, o.scnt, o.polled);
    }
  }

  /** With no credit write out the side's window is that of its sends alone. */
  lemma MayPostAlone(s: State, side: Side)
    requires s.Out(side).c.cqMod > 0 && s.In(side).Credits() == 0
    ensures CanPost(s.Out(side)) && (side == Server ==> s.In(side).rcnt > 0) ==> MayPost(s, side)
  {
  }

  /** At rest with sends left, a side lacks credit for one more list. */
  lemma RestingLacksCredit(s: State, side: Side)
    requires Inv(s) && AllIdle(s) && !MayPost(s, side) && !SignalOutstanding(s, side)
    requires s.Out(side).scnt < s.Out(side).c.iters && (side == Server ==> s.In(side).rcnt > 0)
    ensures s.Out(side).scnt + s.Out(side).c.postList - s.Out(side).credit >= s.Out(side).c.rxDepth
  {
    SendWindowIsExact(s.Out(side));
    AllPolledIsOpen(s.Out(side));
    MayPostAlone(s, side);
  }

  /** A list posted now fits behind the freshest credit there can be. */
  predicate NotStarved(o: Flow)
    requires 3 <= o.c.rxDepth
  {
    o.scnt < o.c.iters ==> Lag(o.c, o.scnt) + o.c.postList < o.c.rxDepth
  }

  lemma NeverStarvesNow(o: Flow)
    requires FlowInv(o) && NeverStarves(o.c)
    ensures NotStarved(o)
  {
  }

  /** At rest, a side whose peer has taken all its messages has none left to send. */
  lemma RestingHasSentAll(s: State, side: Side)
    requires Inv(s) && AllIdle(s) && !MayPost(s, side) && !SignalOutstanding(s, side) && NotStarved(s.Out(side))
    requires s.Out(side).stage == Idle && s.Out(side).rcnt == s.Out(side).scnt
    requires side == Server ==> s.In(side).rcnt > 0
    ensures s.Out(side).scnt == s.Out(side).c.iters
  {
    if s.Out(side).scnt < s.Out(side).c.iters {
      FreshCredit(s.Out(side));
      RestingLacksCredit(s, side);
    }
  }

  /** With no side hung and none starved, rest is the end. */
  lemma SettledIsFinished(s: State)
    requires Inv(s) && Settled(s, Client, false) && !Hung(s, Client) && !Hung(s, Server)
    requires NotStarved(s.toServer) && NotStarved(s.toClient)
    ensures Finished(s)
  {
    RestingHasSentAll(s, Client);
    RestingHasSentAll(s, Server);
  }

  // ---- runs end

  lemma RunsAreBounded(run: seq<State>)
    requires IsRun(run)
    ensures |run| <= 26 * run[0].toServer.c.iters + 1
  {
    var last := |run| - 1;
    RunInv(run, last);
    ConfigIsFixed(run, last);
    WorkIsBounded(run[last].toServer);
    WorkIsBounded(run[last].toClient);
  }

  /** Without any credit a side can send up to the first count at which one is due. */
  predicate StartsUp(c: Config)
    requires 1 <= c.postList && 3 <= c.rxDepth
  {
    forall k | 0 <= k < c.rxDepth / 3 && k % c.postList == 0 :: k + c.postList < c.rxDepth
  }

  /** The parameters under which the wait loop can hang: some side's `cq_mod` does not divide `iters`, and
      a credit falls due for messages that the other side can send. */
  predicate CanHang(a: Config, b: Config)
    requires Paired(a, b)
  {
    && ((a.iters % a.cqMod != 0 && StartsUp(b)) || (b.iters % b.cqMod != 0 && StartsUp(a)))
    && a.rxDepth / 3 <= a.iters
  }

  lemma DueCount(c: Config, n: nat)
    requires 3 <= c.rxDepth && 0 < n && Lag(c, n) == 0
    ensures c.rxDepth / 3 <= n
  {
    if n < c.rxDepth / 3 {
      Modular.RemainderUnique(n, c.rxDepth, 0, n);
      Modular.RemainderUnique(n, c.rxDepth / 3, 0, n);
    }
  }

  /** A side hangs only with all its sends credited beyond their number, at a count at which a credit is due. */
  lemma HungMeans(s: State, side: Side)
    requires Inv(s) && Hung(s, side)
    ensures s.Out(side).scnt == s.Out(side).c.iters && s.Out(side).c.iters % s.Out(side).c.cqMod != 0
    ensures s.In(side).c.rxDepth / 3 <= s.In(side).rcnt <= s.In(side).scnt
  {
    if s.Out(side).scnt < s.Out(side).c.iters || s.Out(side).c.iters % s.Out(side).c.cqMod == 0 {
      WaitingHasSignal(s, side);
    }
    DueCount(s.In(side).c, s.In(side).rcnt);
  }

  lemma {:induction false} StarvedRun(run: seq<State>, side: Side, k: nat, i: nat)
    requires IsRun(run) && i < |run| && StaysBelow(k, run[0].Out(side))
    ensures StaysBelow(k, run[i].Out(side))
  {
    if i > 0 {
      StarvedRun(run, side, k, i - 1);
      RunInv(run, i - 1);
      Runs.StepAt(Init, Next, run, i - 1);
      StarvedNext(run[i - 1], run[i], side, k);
    }
  }

  /** A step moves one flow by a step of it and leaves the other alone. */
  lemma FlowMoves(s: State, t: State, step: BiStep, side: Side)
    requires Inv(s) && NextStep(s, t, step)
    ensures t.Out(side) == s.Out(side) || FlowStep(s.Out(side), t.Out(side), step.op)
  {
    StepInv(s, t, step);
  }

  lemma StarvedNext(s: State, t: State, side: Side, k: nat)
    requires Inv(s) && Next(s, t) && StaysBelow(k, s.Out(side))
    ensures StaysBelow(k, t.Out(side))
  {
    var step :| NextStep(s, t, step);
    FlowMoves(s, t, step, side);
    if t.Out(side) != s.Out(side) {
      StarvedStaysBelow(k, s.Out(side), t.Out(side), step.op);
    }
  }

  lemma StarvedNeverFinishes(run: seq<State>, side: Side)
    requires IsRun(run) && Paired(run[0].toServer.c, run[0].toClient.c) && !NeverStarves(run[0].Out(side).c)
    ensures run[|run| - 1].Out(side).scnt < run[|run| - 1].Out(side).c.iters
  {
    var c := run[0].Out(side).c;
    var k :| 0 <= k < c.iters && k % c.postList == 0 && Lag(c, k) + c.postList >= c.rxDepth;
    RunInv(run, 0);
    StarvedRun(run, side, k, |run| - 1);
  }

  lemma StuckIsSettled(s: State)
    requires Inv(s) && !CanStep(s)
    ensures Settled(s, Client, false)
  {
    if !Settled(s, Client, false) {
      var step := NextMove(s, Client, false);
      assert NextStep(s, BiRun.Apply(s, step), step);
      assert Next(s, BiRun.Apply(s, step));
    }
  }

  /** No deadlock between the two sides: where the wait loop cannot hang, a run that cannot go on has finished
      exactly when neither side's parameters starve it. */
  lemma StuckRunHasFinishedIff(run: seq<State>)
    requires IsRun(run) && !CanStep(run[|run| - 1])
    requires Paired(run[0].toServer.c, run[0].toClient.c) && !CanHang(run[0].toServer.c, run[0].toClient.c)
    ensures run[|run| - 1].toServer.c.cqMod > 0 && run[|run| - 1].toClient.c.cqMod > 0
    ensures Finished(run[|run| - 1]) <==> NeverStarves(run[0].toServer.c) && NeverStarves(run[0].toClient.c)
  {
    var s := run[|run| - 1];
    RunInv(run, |run| - 1);
    ConfigIsFixed(run, |run| - 1);
    if !NeverStarves(run[0].toServer.c) {
      StarvedNeverFinishes(run, Client);
    } else if !NeverStarves(run[0].toClient.c) {
      StarvedNeverFinishes(run, Server);
    } else {
      StuckIsSettled(s);
      NeverHangs(run, |run| - 1, Client);
      NeverHangs(run, |run| - 1, Server);
      NeverStarvesNow(s.toServer);
      NeverStarvesNow(s.toClient);
      SettledIsFinished(s);
    }
  }

  /** A sender that cannot start up never reaches the first count at which a credit is due. */
  lemma NeverStartsUp(run: seq<State>, i: nat, side: Side)
    requires IsRun(run) && i < |run| && Paired(run[0].toServer.c, run[0].toClient.c)
    requires !StartsUp(run[0].Out(side).c) && run[0].Out(side).c.rxDepth / 3 <= run[0].Out(side).c.iters
    ensures run[i].Out(side).scnt < run[0].Out(side).c.rxDepth / 3
  {
    var c := run[0].Out(side).c;
    var k :| 0 <= k < c.rxDepth / 3 && k % c.postList == 0 && k + c.postList >= c.rxDepth;
    SmallLag(c, k);
    RunInv(run, 0);
    StarvedRun(run, side, k, i);
  }

  lemma SmallLag(c: Config, n: nat)
    requires 3 <= c.rxDepth && n < c.rxDepth
    ensures n < c.rxDepth / 3 ==> Lag(c, n) == n
    ensures n == c.rxDepth / 3 || c.rxDepth / 3 == 1 ==> Lag(c, n) == 0
  {
    Modular.RemainderUnique(n, c.rxDepth, 0, n);
    if n < c.rxDepth / 3 {
      Modular.RemainderUnique(n, c.rxDepth / 3, 0, n);
    } else if n == c.rxDepth / 3 {
      Modular.RemainderUnique(n, c.rxDepth / 3, 1, 0);
    } else if c.rxDepth / 3 == 1 {
      Modular.RemainderUnique(n, 1, n, 0);
    }
  }

  /** No run at all hangs under other parameters. */
  lemma NeverHangs(run: seq<State>, i: nat, side: Side)
    requires IsRun(run) && i < |run| && Paired(run[0].toServer.c, run[0].toClient.c)
    requires !CanHang(run[0].toServer.c, run[0].toClient.c)
    ensures Inv(run[i]) && !Hung(run[i], side)
  {
    RunInv(run, i);
    ConfigIsFixed(run, i);
    if Hung(run[i], side) {
      HungMeans(run[i], side);
      NeverStartsUp(run, i, Other(side));
    }
  }

  lemma CarryOn(run: seq<State>) returns (longer: seq<State>)
    requires IsRun(run) && CanStep(run[|run| - 1])
    ensures run < longer && IsRun(longer) && longer[0] == run[0]
  {
    var t :| Next(run[|run| - 1], t);
    Runs.Extend(Init, Next, run, t);
    longer := run + [t];
  }

  /** Then every run can be carried on until both sides are done. */
  lemma {:induction false} EveryRunCanFinish(run: seq<State>) returns (longer: seq<State>)
    requires IsRun(run) && Paired(run[0].toServer.c, run[0].toClient.c)
    requires !CanHang(run[0].toServer.c, run[0].toClient.c)
    requires NeverStarves(run[0].toServer.c) && NeverStarves(run[0].toClient.c)
    ensures run <= longer && IsRun(longer)
    ensures longer[|longer| - 1].toServer.c.cqMod > 0 && longer[|longer| - 1].toClient.c.cqMod > 0
    ensures Finished(longer[|longer| - 1])
    decreases 26 * run[0].toServer.c.iters + 1 - |run|
  {
    if !CanStep(run[|run| - 1]) {
      StuckRunHasFinishedIff(run);
      return run;
    }
    longer := CarryOn(run);
    RunsAreBounded(longer);
    longer := EveryRunCanFinish(longer);
  }
}
