/** What goes wrong in the RDMA CM event loops, and what follows from it
    (lib/perf/perftest_communication.c). */
module ConnectionErrors {
  import opened ConnectionManager
  import opened ConnectionRuns

  /** The handler of this event meets an error: a refusal, an option that cannot be set, or a library call that
      fails. Nothing can fail where a connection is lost, or established without datagrams. */
  predicate IsError(cfg: Config, e: Event, handled: bool) {
    match e
    case Refused => true
    case AddressResolved(optionSet) => !optionSet || !handled
    case RouteResolved(_) => !handled
    case ConnectRequest(_) => !handled
    case Established(_, _) => cfg.ud && !handled
    case Disconnected(_) => false
    case Other => false
  }

  /** One request more than there are queue pairs. */
  predicate OverLimit(cfg: Config, m: Master, e: Event) {
    e.ConnectRequest? && m.index == cfg.qps
  }

  /** Handlers report failure exactly for errors and requests over the limit. */
  lemma HandleFailsIff(cfg: Config, m: Master, e: Event, handled: bool)
    requires Sized(cfg, m) && InRange(cfg, m, e)
    ensures !Handle(cfg, m, e, handled).1 <==> IsError(cfg, e, handled) || OverLimit(cfg, m, e)
  {
  }

  /** An error counts one connection off and leaves the other counters and all marks alone. The two exceptions
      count nothing off: an option that cannot be set, and a request over the limit. */
  lemma ErrorCountsOff(cfg: Config, m: Master, e: Event, handled: bool)
    requires Sized(cfg, m) && InRange(cfg, m, e) && (IsError(cfg, e, handled) || OverLimit(cfg, m, e))
    ensures var n := Handle(cfg, m, e, handled).0;
            && n.disconnectsLeft == m.disconnectsLeft && n.index == m.index && n.connected == m.connected
            && n.connectsLeft ==
                 m.connectsLeft - if OverLimit(cfg, m, e) || (e.AddressResolved? && !e.optionSet) then 0 else 1
    ensures e.ConnectRequest? && !OverLimit(cfg, m, e) ==> Handle(cfg, m, e, handled).0.ids == m.ids[m.index := NO_ID]
    ensures !e.ConnectRequest? || OverLimit(cfg, m, e) ==> Handle(cfg, m, e, handled).0.ids == m.ids
  {
  }

  /** A round of an event loop that cannot end well, whatever the counters are. */
  predicate GoesWrong(cfg: Config, r: Report) {
    !r.got || !r.acked || IsError(cfg, r.event, r.handled)
  }

  /** A loop that is done, or still waiting, has met nothing that goes wrong; one that has failed stopped at the
      first report that did, or at a request over the limit. */
  lemma {:induction false} StopsAtFirstError(cfg: Config, phase: Phase, m: Master, reports: seq<Report>)
    requires Sized(cfg, m)
    ensures var o := Consume(cfg, phase, m, reports);
            var used := Used(reports, o);
            && (o.status in {Done, Waiting} ==> forall r :: r in used ==> !GoesWrong(cfg, r))
            && (o.status in {Failed, OutOfRange} ==>
                  used != [] && forall r :: r in used[..|used| - 1] ==> !GoesWrong(cfg, r))
            && (o.status == Failed ==> GoesWrong(cfg, used[|used| - 1]) || used[|used| - 1].event.ConnectRequest?)
    decreases |reports|
  {
    var o := Consume(cfg, phase, m, reports);
    var used := Used(reports, o);
    if Left(phase, m) != 0 && reports != [] {
      var r := reports[0];
      if !r.got || !InRange(cfg, m, r.event) {
        assert used == [r];
      } else {
        HandleFailsIff(cfg, m, r.event, r.handled);
        var (n, ok) := Handle(cfg, m, r.event, r.handled);
        if ok && r.acked {
          StopsAtFirstError(cfg, phase, n, reports[1..]);
          assert used == [r] + Used(reports[1..], o);
        } else {
          assert used == [r];
        }
      }
    }
  }

  /** The bookkeeping with which a loop took its last report. */
  function Before(cfg: Config, phase: Phase, m: Master, reports: seq<Report>): (b: Master)
    requires Sized(cfg, m)
    ensures Sized(cfg, b)
    decreases |reports|
  {
    if Left(phase, m) == 0 || reports == [] || !reports[0].got || !InRange(cfg, m, reports[0].event) then m
    else
      var (n, ok) := Handle(cfg, m, reports[0].event, reports[0].handled);
      if ok && reports[0].acked && Left(phase, n) != 0 && reports[1..] != []
      then Before(cfg, phase, n, reports[1..]) else m
  }

  /** What a loop that failed leaves behind: nothing is changed if no event came; an error is counted off; after a
      failed acknowledgement the event has had its effect. */
  lemma {:induction false} FailureLeaves(cfg: Config, phase: Phase, m: Master, reports: seq<Report>)
    requires Sized(cfg, m) && Consume(cfg, phase, m, reports).status == Failed
    ensures var o := Consume(cfg, phase, m, reports);
            var used, b := Used(reports, o), Before(cfg, phase, m, reports);
            && used != [] && var r := used[|used| - 1];
            && Left(phase, b) != 0
            && (!r.got ==> o.master == b)
            && (r.got ==> InRange(cfg, b, r.event) && o.master == Handle(cfg, b, r.event, r.handled).0)
            && (r.got ==> IsError(cfg, r.event, r.handled) || OverLimit(cfg, b, r.event) || !r.acked)
    decreases |reports|
  {
    var o := Consume(cfg, phase, m, reports);
    var r := reports[0];
    if r.got {
      HandleFailsIff(cfg, m, r.event, r.handled);
      var (n, ok) := Handle(cfg, m, r.event, r.handled);
      if ok && r.acked {
        FailureLeaves(cfg, phase, n, reports[1..]);
        assert Used(reports, o) == [r] + Used(reports[1..], o);
      } else {
        assert Used(reports, o) == [r];
      }
    } else {
      assert Used(reports, o) == [r];
    }
  }

  /** Hanging up succeeds exactly if every connected node's call does; it stops behind the first that fails,
      having hung up the connected nodes before it and that one, and touched no other. */
  predicate HungUpTo(m: Master, answers: seq<bool>, i: nat, stop: nat, result: (bool, Master, seq<nat>))
    requires |m.connected| == |m.ids| == |answers| == |result.1.connected| && i <= |answers|
  {
    var (ok, n, hungUp) := result;
    && i <= stop <= |answers|
    && n.ids == m.ids
    && (forall j :: i <= j < stop ==> !n.connected[j])
    && (forall j :: 0 <= j < |answers| && !(i <= j < stop) ==> n.connected[j] == m.connected[j])
    && hungUp == ConnectedIds(m, i, stop)
    && (ok ==> stop == |answers|)
    && (!ok ==> i < stop && m.connected[stop - 1] && !answers[stop - 1])
    && (forall j :: i <= j < (if ok then stop else stop - 1) && m.connected[j] ==> answers[j])
  }

  /** The ids of the connected nodes from i on, below a limit. */
  function ConnectedIds(m: Master, i: nat, stop: nat): seq<nat>
    requires |m.connected| == |m.ids| && stop <= |m.ids|
    decreases stop - i
  {
    if i >= stop then []
    else (if m.connected[i] then [m.ids[i]] else []) + ConnectedIds(m, i + 1, stop)
  }

  lemma {:induction false} ConnectedIdsAgree(m: Master, n: Master, i: nat, stop: nat)
    requires |m.connected| == |m.ids| == |n.connected| && stop <= |m.ids| && n.ids == m.ids
    requires forall j :: i <= j < stop ==> n.connected[j] == m.connected[j]
    ensures ConnectedIds(n, i, stop) == ConnectedIds(m, i, stop)
    decreases stop - i
  {
    if i < stop {
      ConnectedIdsAgree(m, n, i + 1, stop);
    }
  }

  /** A node that is not connected is passed over. */
  lemma PassOver(m: Master, answers: seq<bool>, i: nat, stop: nat, result: (bool, Master, seq<nat>))
    requires |m.connected| == |m.ids| == |answers| == |result.1.connected| && i < |answers| && !m.connected[i]
    requires HungUpTo(m, answers, i + 1, stop, result)
    ensures HungUpTo(m, answers, i, stop, result)
  {
  }

  /** One whose call succeeds is hung up before the rest. */
  lemma HangOne(m: Master, answers: seq<bool>, i: nat, stop: nat, result: (bool, Master, seq<nat>))
    requires |m.connected| == |m.ids| == |answers| == |result.1.connected| && i < |answers|
    requires m.connected[i] && answers[i]
    requires HungUpTo(m.(connected := m.connected[i := false]), answers, i + 1, stop, result)
    ensures HungUpTo(m, answers, i, stop, (result.0, result.1, [m.ids[i]] + result.2))
  {
    ConnectedIdsAgree(m, m.(connected := m.connected[i := false]), i + 1, stop);
  }

  lemma {:induction false} HangsUpToFirstFailure(m: Master, answers: seq<bool>, i: nat) returns (stop: nat)
    requires |m.connected| == |m.ids| == |answers| && i <= |answers|
    ensures HungUpTo(m, answers, i, stop, HungUp(m, answers, i))
    decreases |answers| - i
  {
    if i == |answers| {
      return i;
    }
    if !m.connected[i] {
      stop := HangsUpToFirstFailure(m, answers, i + 1);
      PassOver(m, answers, i, stop, HungUp(m, answers, i + 1));
    } else if !answers[i] {
      assert ConnectedIds(m, i + 1, i + 1) == [];
      stop := i + 1;
    } else {
      var n := m.(connected := m.connected[i := false]);
      stop := HangsUpToFirstFailure(n, answers, i + 1);
      HangOne(m, answers, i, stop, HungUp(n, answers, i + 1));
    }
  }

  /** Taking connections down: nothing happens with none to lose or for datagrams; a failed hang-up ends it; and
      otherwise the event loop decides. */
  lemma TeardownIs(cfg: Config, m: Master, answers: seq<bool>, reports: seq<Report>)
    requires Sized(cfg, m) && |answers| == cfg.qps
    ensures var (o, hungUp) := Teardown(cfg, m, answers, reports);
            if m.disconnectsLeft == 0 || cfg.ud then o == Outcome(m, Done, reports) && hungUp == []
            else if exists i :: 0 <= i < cfg.qps && m.connected[i] && !answers[i] then
              o.status == Failed && o.rest == reports && o.master.disconnectsLeft == m.disconnectsLeft
            else
              && hungUp == ConnectedIds(m, 0, cfg.qps)
              && o == Consume(cfg, Disconnecting, m.(connected := seq(cfg.qps, _ => false)), reports)
  {
    var stop := HangsUpToFirstFailure(m, answers, 0);
    var (ok, n, hungUp) := HungUp(m, answers, 0);
    if ok {
      assert n.connected == seq(cfg.qps, _ => false);
    }
  }
}
