/** Exactly which bidirectional runs can hang in the credit wait loop, by runs in the order of the code
    (lib/perf/perftest_resources.c). */
module BiHang {
  import opened BiProgress
  import opened BiRun
  import opened CreditFlow
  import opened Moderation
  import Modular
  import Runs

  lemma OrderlyRunInv(run: seq<State>)
    requires IsOrderlyRun(run)
    ensures Inv(run[|run| - 1]) && |run| <= 26 * run[0].toServer.c.iters + 1
    ensures run[|run| - 1].toServer.c == run[0].toServer.c && run[|run| - 1].toClient.c == run[0].toClient.c
  {
    OrderlyIsRun(run);
    RunInv(run, |run| - 1);
    ConfigIsFixed(run, |run| - 1);
    RunsAreBounded(run);
  }

  lemma Take(run: seq<State>, step: BiStep) returns (longer: seq<State>)
    requires IsOrderlyRun(run) && Inv(run[|run| - 1])
    requires Enabled(run[|run| - 1], step) && Orderly(run[|run| - 1], step)
    ensures longer == run + [BiRun.Apply(run[|run| - 1], step)] && IsOrderlyRun(longer)
  {
    var s := run[|run| - 1];
    var t := BiRun.Apply(s, step);
    assert NextStep(s, t, step) && Orderly(s, step);
    Runs.Extend(Init, OrderlyNext, run, t);
    longer := run + [t];
  }

  // ---- one side finishes early

  /** The receives a side takes before it is held back: the server needs one to start. */
  function HoldAt(side: Side): nat {
    if side == Client then 0 else 1
  }

  predicate Held(s: State, side: Side) {
    s.In(side).rcnt >= HoldAt(side)
  }

  /** Only its own polling adds to the receives a side has taken. */
  lemma ReceivesMove(s: State, t: State, step: BiStep, side: Side)
    requires Inv(s) && NextStep(s, t, step)
    ensures t.In(side).rcnt == s.In(side).rcnt + if step == BiStep(side, PollRecv) then 1 else 0
  {
  }

  lemma MoveOnce(run: seq<State>, side: Side) returns (longer: seq<State>)
    requires IsOrderlyRun(run) && Inv(run[|run| - 1]) && run[|run| - 1].In(side).rcnt <= HoldAt(side)
    requires !Settled(run[|run| - 1], side, Held(run[|run| - 1], side))
    ensures IsOrderlyRun(longer) && |longer| == |run| + 1 && longer[0] == run[0]
    ensures longer[|longer| - 1].In(side).rcnt <= HoldAt(side)
  {
    var s := run[|run| - 1];
    var step := NextMove(s, side, Held(s, side));
    ReceivesMove(s, BiRun.Apply(s, step), step, side);
    longer := Take(run, step);
  }

  /** Holding one side back, everything else can be brought to rest. */
  lemma {:induction false} RunToRest(run: seq<State>, side: Side) returns (longer: seq<State>)
    requires IsOrderlyRun(run) && run[|run| - 1].In(side).rcnt <= HoldAt(side)
    ensures IsOrderlyRun(longer) && longer[0] == run[0]
    ensures var s := longer[|longer| - 1];
            Inv(s) && s.In(side).rcnt <= HoldAt(side) && Settled(s, side, Held(s, side))
    decreases 26 * run[0].toServer.c.iters + 1 - |run|
  {
    OrderlyRunInv(run);
    var s := run[|run| - 1];
    if Settled(s, side, Held(s, side)) {
      return run;
    }
    longer := MoveOnce(run, side);
    OrderlyRunInv(longer);
    longer := RunToRest(longer, side);
  }

  /** The first count past the hold at which a credit is due. */
  function DueAfter(c: Config, side: Side): nat {
    if side == Server && c.rxDepth / 3 == 1 then 2 else c.rxDepth / 3
  }

  lemma NoDueBefore(c: Config, side: Side, n: nat)
    requires 3 <= c.rxDepth && HoldAt(side) <= n <= DueAfter(c, side)
    ensures n < DueAfter(c, side) ==> n - Lag(c, n) == HoldAt(side) - Lag(c, HoldAt(side))
    ensures HoldAt(side) < n ==> (Lag(c, n) == 0 <==> n == DueAfter(c, side))
    ensures HoldAt(side) < DueAfter(c, side) < c.rxDepth
  {
    var k := c.rxDepth / 3;
    SmallLag(c, n);
    SmallLag(c, HoldAt(side));
  }

  /** Its sends all polled, a side stands before a count at which it will owe a credit. */
  predicate Ready(s: State, side: Side, n: nat) {
    var o, i := s.Out(side), s.In(side);
    && Inv(s) && AllIdle(s) && o.scnt == o.c.iters && !SignalOutstanding(s, side)
    && i.stage == Idle && i.rcnt == n && HoldAt(side) <= n < DueAfter(i.c, side) <= i.delivered
  }

  /** Up to that count every list fits behind the freshest credit. */
  lemma StartFits(c: Config, side: Side, n: nat)
    requires Credited(c) && StartsUp(c) && n % c.postList == 0 && n < DueAfter(c, side)
    ensures Lag(c, n) + c.postList < c.rxDepth
  {
    SmallLag(c, n);
    assert n < c.rxDepth / 3 || (n == 1 && c.postList == 1);
  }

  /** At rest and none hung, a server has heard from its client. */
  lemma ServerHasStarted(s: State)
    requires Inv(s) && Settled(s, Server, false) && !Hung(s, Client) && !Hung(s, Server)
    requires StartsUp(s.toServer.c)
    ensures s.toServer.rcnt > 0
  {
    if s.toServer.rcnt == 0 {
      StartFits(s.toServer.c, Client, 0);
      RestingLacksCredit(s, Client);
    }
  }

  /** The other side has sent at least up to that count. */
  lemma EnoughArrived(s: State, side: Side)
    requires Inv(s) && Settled(s, side, true) && !Hung(s, side) && !Hung(s, Other(side))
    requires s.In(side).rcnt == HoldAt(side) && StartsUp(s.In(side).c)
    requires side == Client ==> s.toServer.rcnt > 0
    requires DueAfter(s.In(side).c, side) <= s.In(side).c.iters
    ensures s.In(side).delivered >= DueAfter(s.In(side).c, side)
  {
    var i := s.In(side);
    if i.scnt < DueAfter(i.c, side) {
      NoDueBefore(i.c, side, i.scnt);
      StartFits(i.c, side, i.scnt);
      FreshCredit(i);
      RestingLacksCredit(s, Other(side));
    }
  }

  lemma RestIsReady(s: State, side: Side)
    requires Inv(s) && Settled(s, side, Held(s, side)) && !Hung(s, side) && !Hung(s, Other(side))
    requires s.In(side).rcnt <= HoldAt(side) && NotStarved(s.Out(side)) && StartsUp(s.In(side).c)
    requires DueAfter(s.In(side).c, side) <= s.In(side).c.iters
    ensures Ready(s, side, HoldAt(side))
  {
    if !Held(s, side) {
      ServerHasStarted(s);
    }
    RestingHasSentAll(s, side);
    EnoughArrived(s, side);
    NoDueBefore(s.In(side).c, side, HoldAt(side));
  }

  // ---- then it owes a credit

  /** The last completion of an indivisible run stands for more sends than there were: the difference wraps. */
  lemma LastCompletionWraps(s: State, side: Side)
    requires Inv(s) && AllIdle(s) && !SignalOutstanding(s, side)
    requires s.Out(side).scnt == s.Out(side).c.iters && s.Out(side).c.iters % s.Out(side).c.cqMod != 0
    ensures MustWait(s, side)
  {
    var o := s.Out(side);
    CompletionsCounted(o.c, o.scnt);
    GuardsAreSmall(s, side);
    RoomIsExact(o.scnt - o.Completed(), 0, 0, o.c.txDepth);
  }

  /** A flow with one more receive handled, the hardware idle. */
  predicate OneMoreHandled(i: Flow, t: Flow)
    requires 3 <= i.c.rxDepth
  {
    && HardwareIdle(t) && t.c == i.c && t.rcnt == i.rcnt + 1 && t.delivered == i.delivered
    && t.wposted == i.wposted && t.wpolled == i.wpolled
    && t.stage == if Lag(i.c, i.rcnt + 1) == 0 then CreditDue else Idle
  }

  lemma ThreeStepsHandle(i: Flow)
    requires 3 <= i.c.rxDepth && HardwareIdle(i)
    ensures OneMoreHandled(i, CreditFlow.Apply(CreditFlow.Apply(CreditFlow.Apply(i, PollRecv), Repost), StoreCredit))
  {
  }

  /** A receive taken is handled. */
  lemma Handle(run: seq<State>, side: Side) returns (longer: seq<State>)
    requires IsOrderlyRun(run) && Inv(run[|run| - 1]) && AllIdle(run[|run| - 1])
    requires run[|run| - 1].In(side).stage == Polled
    ensures IsOrderlyRun(longer) && longer[0] == run[0]
    ensures var s, t := run[|run| - 1], longer[|longer| - 1];
            && t.Out(side) == s.Out(side)
            && t.In(side) == CreditFlow.Apply(CreditFlow.Apply(s.In(side), Repost), StoreCredit)
  {
    longer := Take(run, BiStep(side, Repost));
    OrderlyRunInv(longer);
    longer := Take(longer, BiStep(side, StoreCredit));
  }

  lemma TakeReceive(run: seq<State>, side: Side, n: nat) returns (longer: seq<State>)
    requires IsOrderlyRun(run) && Ready(run[|run| - 1], side, n)
    ensures IsOrderlyRun(longer) && longer[0] == run[0]
    ensures var s, t := run[|run| - 1], longer[|longer| - 1];
            t.Out(side) == s.Out(side) && OneMoreHandled(s.In(side), t.In(side))
  {
    longer := Take(run, BiStep(side, PollRecv));
    OrderlyRunInv(longer);
    longer := Handle(longer, side);
    ThreeStepsHandle(run[|run| - 1].In(side));
  }

  lemma AfterReceive(s: State, t: State, side: Side, n: nat)
    requires Ready(s, side, n) && Inv(t) && t.Out(side) == s.Out(side)
    requires OneMoreHandled(s.In(side), t.In(side))
    ensures AllIdle(t) && !SignalOutstanding(t, side)
    ensures if n + 1 == DueAfter(t.In(side).c, side) then t.In(side).stage == CreditDue else Ready(t, side, n + 1)
  {
    NoDueBefore(s.In(side).c, side, n + 1);
  }

  lemma {:induction false} ReceiveUntilDue(run: seq<State>, side: Side, n: nat) returns (longer: seq<State>)
    requires IsOrderlyRun(run) && Ready(run[|run| - 1], side, n)
    requires run[|run| - 1].Out(side).c.iters % run[|run| - 1].Out(side).c.cqMod != 0
    ensures IsOrderlyRun(longer) && longer[0] == run[0] && Inv(longer[|longer| - 1]) && Hung(longer[|longer| - 1], side)
    decreases DueAfter(run[|run| - 1].In(side).c, side) - n
  {
    longer := TakeReceive(run, side, n);
    OrderlyRunInv(longer);
    var t := longer[|longer| - 1];
    AfterReceive(run[|run| - 1], t, side, n);
    if n + 1 == DueAfter(t.In(side).c, side) {
      LastCompletionWraps(t, side);
    } else {
      longer := ReceiveUntilDue(longer, side, n + 1);
    }
  }

  lemma DueInTime(c: Config, side: Side)
    requires Credited(c) && c.rxDepth / 3 <= c.iters && c.iters % c.cqMod != 0
    ensures DueAfter(c, side) <= c.iters
  {
  }

  /** Whole completions make up whole lists, so it is single sends that leave a remainder; they never starve. */
  lemma IndivisibleNeverStarves(c: Config)
    requires Credited(c) && c.iters % c.cqMod != 0
    ensures c.postList == 1 && NeverStarves(c)
  {
    if c.postList > 1 {
      Modular.DividesTransitive(c.iters, c.postList, c.cqMod);
    }
    ShortListsNeverStarve(c);
  }

  /** A run, in the order of the code, that leaves a side waiting for ever. */
  lemma HangingRun(a: Config, b: Config) returns (run: seq<State>, side: Side)
    requires Paired(a, b) && CanHang(a, b)
    ensures HangsAt(a, b, run, side)
  {
    side := if a.iters % a.cqMod != 0 && StartsUp(b) then Client else Server;
    var own := if side == Client then a else b;
    DueInTime(own, side);
    IndivisibleNeverStarves(own);
    run := RunToRest([State(Start(a), Start(b))], side);
    OrderlyRunInv(run);
    var s := run[|run| - 1];
    if Hung(s, side) {
      return;
    }
    if Hung(s, Other(side)) {
      side := Other(side);
      return;
    }
    NeverStarvesNow(s.Out(side));
    RestIsReady(s, side);
    run := ReceiveUntilDue(run, side, HoldAt(side));
    OrderlyRunInv(run);
  }

  /** An orderly run of the two sides' parameters at whose end a side hangs. */
  ghost predicate HangsAt(a: Config, b: Config, run: seq<State>, side: Side) {
    && IsOrderlyRun(run) && run[0].toServer.c == a && run[0].toClient.c == b
    && Inv(run[|run| - 1]) && Hung(run[|run| - 1], side)
  }

  ghost predicate MayHang(a: Config, b: Config) {
    exists run, side :: HangsAt(a, b, run, side)
  }

  /** The wait loop can hang exactly if, for some side, `cq_mod` does not divide `iters`, and the other side can
      send as many messages as it takes for a credit to fall due. */
  lemma WaitLoopHangsIff(a: Config, b: Config)
    requires Paired(a, b)
    ensures MayHang(a, b) <==> CanHang(a, b)
  {
    if CanHang(a, b) {
      var run, side := HangingRun(a, b);
      assert HangsAt(a, b, run, side);
    } else {
      forall run: seq<State>, side: Side
        ensures !HangsAt(a, b, run, side)
      {
        if HangsAt(a, b, run, side) {
          OrderlyIsRun(run);
          NeverHangs(run, |run| - 1, side);
        }
      }
    }
  }

  /** For two sides started alike: exactly if `cq_mod` does not divide `iters` and a credit falls due at all. */
  lemma SameParametersHangIff(c: Config)
    requires Credited(c)
    ensures MayHang(c, c) <==> c.iters % c.cqMod != 0 && c.rxDepth / 3 <= c.iters
  {
    WaitLoopHangsIff(c, c);
    if c.iters % c.cqMod != 0 {
      IndivisibleNeverStarves(c);
    }
  }
}
