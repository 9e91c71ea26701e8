/** How the parser settles the queue depths, the list size and the completion moderation of an ITERATIONS run
    after all options are read (lib/perf/perftest_parameters.c). */
module Parameters {
  import CreditFlow
  import Moderation
  import RunProgress
  import RunSchedules

  const DEF_RX_SEND := 512
  const UC_MAX_RX := 16000
  const DISABLED_CQ_MOD_VALUE := 1
  const MSG_SIZE_CQ_MOD_LIMIT := 8192

  datatype Transport = Reliable | UC | UD | SRD

  datatype Method = Regular | All | Infinitely

  /** `bandwidth`: a BW or LAT_BY_BW test; `reqCqMod`: moderation was asked for. */
  datatype Options = Options(iters: int, txDepth: int, rxDepth: int, postList: int, cqMod: int, reqCqMod: bool,
                             size: int, send: bool, transport: Transport, runs: Method, useEvent: bool,
                             bandwidth: bool)

  /** What the option parser has checked; the list size goes unchecked. */
  predicate Parsed(o: Options) {
    && 5 <= o.iters <= 100000000 && 1 <= o.txDepth <= 15000
    && 1 <= o.rxDepth <= 16384 && 1 <= o.cqMod <= 1024
  }

  function Min(x: int, y: int): int {
    if x < y then x else y
  }

  predicate DepthsForced(a: Options, b: Options) {
    && b == a.(txDepth := Min(a.txDepth, a.iters), rxDepth := b.rxDepth)
    && var r := if a.send then Min(a.rxDepth, a.iters) else a.rxDepth;
       b.rxDepth == if a.transport in {UC, UD} && r == DEF_RX_SEND then Min(a.iters, UC_MAX_RX) else r
  }

  predicate ModerationForced(a: Options, b: Options) {
    && b == a.(cqMod := b.cqMod)
    && var off := a.size > MSG_SIZE_CQ_MOD_LIMIT && a.transport != UD && a.runs != All && !a.useEvent;
       b.cqMod == if off && !a.reqCqMod then 1 else Min(a.cqMod, a.txDepth)
  }

  /** Lists of sends make up whole runs, and completions whole lists. */
  predicate ListsAccepted(a: Options) {
    || a.postList <= 1
    || (a.bandwidth && a.iters % a.postList == 0 && (a.reqCqMod && a.cqMod > 0 ==> a.postList % a.cqMod == 0))
  }

  predicate ListsForced(a: Options, b: Options) {
    && b == a.(cqMod := b.cqMod)
    && b.cqMod == if a.transport == SRD then 1 else if a.postList > 1 && !a.reqCqMod then a.postList else a.cqMod
  }

  /** Completions are moderated as asked, within the send queue; large messages are not unless it was asked for. */
  function ModerationFor(a: Options): int {
    if a.size > 8192 && a.transport != UD && a.runs != All && !a.useEvent && !a.reqCqMod then 1
    else Min(a.cqMod, Min(a.txDepth, a.iters))
  }

  /** The receives that are settled on: no more than iterations, another default for UC and UD, and an even
      number in a regular run of messages. */
  function Receives(a: Options): int {
    var capped := if a.send && a.rxDepth > a.iters then a.iters else a.rxDepth;
    var r := if capped == 512 && a.transport in {UC, UD} then Min(a.iters, 16000) else capped;
    if a.send && a.runs == Regular then r + r % 2 else r
  }

  /** The options the program goes on with: single sends, or a bandwidth test of whole lists, whose size is a
      multiple of the moderation if that was asked for. */
  predicate GoesOn(a: Options) {
    a.postList > 1 ==>
      && a.bandwidth && a.iters % a.postList == 0
      && (a.reqCqMod && ModerationFor(a) > 0 ==> a.postList % ModerationFor(a) == 0)
  }

  class Parameters {
    var o: Options

    constructor (o: Options)
      ensures this.o == o
    {
      this.o := o;
    }

    method ForceQueueDepths()
      requires Parsed(o)
      modifies this
      ensures Parsed(o) && DepthsForced(old(o), o)
    {
      if o.txDepth > o.iters {
        o := o.(txDepth := o.iters);
      }
      if o.send && o.rxDepth > o.iters {
        o := o.(rxDepth := o.iters);
      }
      if o.transport == UD || o.transport == UC {
        if o.rxDepth == DEF_RX_SEND {
          o := o.(rxDepth := if o.iters < UC_MAX_RX then o.iters else UC_MAX_RX);
        }
      }
    }

    /** Large messages switch moderation off, unless it was asked for; it never exceeds the send queue. */
    method ForceModeration()
      requires Parsed(o)
      modifies this
      ensures Parsed(o) && ModerationForced(old(o), o)
    {
      if o.size > MSG_SIZE_CQ_MOD_LIMIT && o.transport != UD && o.runs != All && !o.useEvent {
        if !o.reqCqMod {
          o := o.(cqMod := DISABLED_CQ_MOD_VALUE);
        }
      }
      if o.cqMod > o.txDepth {
        o := o.(cqMod := o.txDepth);
      }
    }

    /** False: the program gives up. */
    method ForceLists() returns (ok: bool)
      requires Parsed(o)
      modifies this
      ensures ok == ListsAccepted(old(o)) && (ok ==> ListsForced(old(o), o))
    {
      if o.postList > 1 {
        if !o.bandwidth || o.iters % o.postList != 0 {
          return false;
        }
        if !o.reqCqMod {
          o := o.(cqMod := o.postList);
        } else if o.postList % o.cqMod != 0 {
          return false;
        }
      }
      if o.transport == SRD {
        o := o.(cqMod := 1);
      }
      return true;
    }

    /** Where the program goes on, the send side's requirements hold exactly if the list size asked for lies
        between one and the send queue depth asked for, and for messages those of the credit protocol exactly
        if at least three receives were asked for too. A credit then falls due before the iterations end. */
    method ForceDependencies(peerTxDepth: nat) returns (ok: bool)
      requires Parsed(o) && peerTxDepth >= 1
      modifies this
      ensures ok <==> GoesOn(old(o))
      ensures ok ==> o == old(o).(txDepth := o.txDepth, rxDepth := o.rxDepth, cqMod := o.cqMod)
      ensures ok ==> o.txDepth == Min(old(o).txDepth, o.iters) && o.rxDepth == Receives(old(o))
      ensures ok ==> o.cqMod == (if o.transport == SRD then 1 else if o.postList > 1 && !o.reqCqMod then o.postList
                                 else ModerationFor(old(o)))
      ensures ok ==> (Moderated(o, peerTxDepth) <==> 1 <= o.postList <= old(o).txDepth)
      ensures ok && o.send ==>
                (Credited(o, peerTxDepth) <==> 1 <= o.postList <= old(o).txDepth && 3 <= old(o).rxDepth)
      ensures ok && o.send ==> o.rxDepth / 3 <= o.iters
    {
      ForceQueueDepths();
      ghost var depths := o;
      ForceModeration();
      ghost var moderated := o;
      DepthsSettle(old(o), depths, moderated);
      ok := ForceLists();
      if !ok {
        return;
      }
      ghost var listed := o;
      if o.send && o.rxDepth % 2 == 1 && o.runs == Regular {
        o := o.(rxDepth := o.rxDepth + 1);
      }
      AllSettled(old(o), depths, moderated, listed, o, peerTxDepth);
    }
  }

  lemma AllSettled(a: Options, b: Options, c: Options, d: Options, e: Options, peerTxDepth: nat)
    requires Parsed(a) && DepthsForced(a, b) && ModerationForced(b, c) && ListsAccepted(c) && ListsForced(c, d)
    requires e == d.(rxDepth := d.rxDepth + if d.send && d.runs == Regular then d.rxDepth % 2 else 0)
    requires peerTxDepth >= 1
    ensures e == a.(txDepth := Min(a.txDepth, a.iters), rxDepth := Receives(a), cqMod := e.cqMod)
    ensures e.cqMod == if a.transport == SRD then 1 else if a.postList > 1 && !a.reqCqMod then a.postList
                       else ModerationFor(a)
    ensures Moderated(e, peerTxDepth) <==> 1 <= e.postList <= a.txDepth
    ensures e.send ==> (Credited(e, peerTxDepth) <==> 1 <= e.postList <= a.txDepth && 3 <= a.rxDepth)
    ensures e.send ==> e.rxDepth / 3 <= e.iters
  {
    DepthsSettle(a, b, c);
    SettledBy(a, b, c, d);
    SettledIsModeratedIff(e, a.txDepth, peerTxDepth);
  }

  predicate Natural(o: Options) {
    0 <= o.iters && 0 <= o.txDepth && 0 <= o.rxDepth && 0 <= o.postList && 0 <= o.cqMod
  }

  /** The run these options describe. */
  function Flow(o: Options, peerTxDepth: nat): Moderation.Config
    requires Natural(o)
  {
    Moderation.Config(o.iters, o.postList, o.cqMod, o.txDepth, o.rxDepth, peerTxDepth)
  }

  predicate Moderated(o: Options, peerTxDepth: nat) {
    Natural(o) && Moderation.Moderated(Flow(o, peerTxDepth))
  }

  predicate Credited(o: Options, peerTxDepth: nat) {
    Natural(o) && CreditFlow.Credited(Flow(o, peerTxDepth))
  }

  lemma DivisorFits(d: nat, n: nat)
    requires 0 < d && 0 < n && n % d == 0
    ensures d <= n
  {
  }

  /** Options the program goes on with. */
  predicate Settled(o: Options, askedTxDepth: int) {
    && 5 <= o.iters <= 100000000 && 1 <= askedTxDepth <= 15000 && 1 <= o.rxDepth <= 16385
    && (o.send ==> o.rxDepth <= o.iters + 1)
    && o.txDepth == Min(askedTxDepth, o.iters)
    && 1 <= o.cqMod && (o.postList <= 1 ==> o.cqMod <= o.txDepth)
    && (o.postList > 1 ==> o.iters % o.postList == 0 && o.postList % o.cqMod == 0)
  }

  /** What the first two rewrites come to. */
  lemma DepthsSettle(a: Options, b: Options, c: Options)
    requires Parsed(a) && DepthsForced(a, b) && ModerationForced(b, c)
    ensures c.txDepth == Min(a.txDepth, a.iters) && c.cqMod == ModerationFor(a)
    ensures Receives(a) == c.rxDepth + if a.send && a.runs == Regular then c.rxDepth % 2 else 0
    ensures ListsAccepted(c) <==> GoesOn(a)
  {
  }

  lemma SettledBy(a: Options, b: Options, c: Options, d: Options)
    requires Parsed(a) && DepthsForced(a, b) && ModerationForced(b, c) && ListsAccepted(c) && ListsForced(c, d)
    ensures Settled(d, a.txDepth) && d == a.(txDepth := d.txDepth, rxDepth := d.rxDepth, cqMod := d.cqMod)
    ensures d.rxDepth <= 16384 && (d.send ==> d.rxDepth <= d.iters) && (d.send ==> (d.rxDepth >= 3 <==> a.rxDepth >= 3))
  {
  }

  lemma SettledIsModeratedIff(o: Options, askedTxDepth: int, peerTxDepth: nat)
    requires Settled(o, askedTxDepth)
    ensures Moderated(o, peerTxDepth) <==> 1 <= o.postList <= askedTxDepth
  {
    if o.postList > 1 {
      DivisorFits(o.postList, o.iters);
      DivisorFits(o.cqMod, o.postList);
    }
  }

  /** Nothing here keeps a sender from starving: these options are accepted and settle to a flow whose sender
      stops at some list for good. */
  lemma SettledMayStarve() returns (asked: Options, depths: Options, moderated: Options, settled: Options)
    ensures Parsed(asked) && DepthsForced(asked, depths) && ModerationForced(depths, moderated)
    ensures ListsAccepted(moderated) && ListsForced(moderated, settled)
    ensures Natural(settled) && CreditFlow.Credited(Flow(settled, settled.txDepth))
    ensures !CreditFlow.NeverStarves(Flow(settled, settled.txDepth))
  {
    asked := Options(30, 128, 6, 5, 100, false, 65536, true, Reliable, Regular, false, true);
    depths := asked.(txDepth := 30);
    moderated := depths.(cqMod := 1);
    settled := moderated.(cqMod := 5);
    assert CreditFlow.Lag(Flow(settled, 30), 5) == 1;
    assert 5 % 5 == 0;
  }

  /** Nor from spinning: these options are left as they are, and over four queue pairs the loops of their run
      can be brought to spin for ever. */
  lemma SettledMaySpin() returns (asked: Options)
    ensures Parsed(asked) && DepthsForced(asked, asked) && ModerationForced(asked, asked)
    ensures ListsAccepted(asked) && ListsForced(asked, asked) && !asked.send
    ensures Natural(asked) && RunProgress.MaySpin(Flow(asked, asked.txDepth), 4)
  {
    asked := Options(250, 128, 512, 1, 100, false, 4096, false, Reliable, Regular, false, true);
    RunSchedules.DefaultsMaySpin();
  }
}
