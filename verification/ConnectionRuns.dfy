/** Whole runs of the RDMA CM event loops: what the counters mean at every step, when connecting ends, and
    when taking the connections down ends (lib/perf/perftest_communication.c). */
module ConnectionRuns {
  import opened Basics
  import opened ConnectionManager

  /** What a sequence of events told the loop. */
  datatype History = History(routed: set<nat>, established: set<nat>, gone: set<nat>, qpns: seq<nat>,
                             requests: seq<nat>, hangups: nat)

  const NOTHING := History({}, {}, {}, [], [], 0)

  function Note(h: History, e: Event): History {
    match e
    case RouteResolved(id) => h.(routed := h.routed + {id})
    case Established(id, qpn) => h.(established := h.established + {id}, qpns := h.qpns + [qpn])
    case Disconnected(id) => h.(gone := h.gone + {id}, hangups := h.hangups + 1)
    case ConnectRequest(id) => h.(requests := h.requests + [id])
    case _ => h
  }

  function Recall(h: History, reports: seq<Report>): History
    decreases |reports|
  {
    if reports == [] then h else Recall(Note(h, reports[0].event), reports[1..])
  }

  /** The reports a loop took before it stopped. */
  function Used(reports: seq<Report>, o: Outcome): seq<Report>
    requires |o.rest| <= |reports|
  {
    reports[..|reports| - |o.rest|]
  }

  lemma {:induction false} RestIsSuffix(cfg: Config, phase: Phase, m: Master, reports: seq<Report>)
    requires Sized(cfg, m)
    ensures var o := Consume(cfg, phase, m, reports); o.rest == reports[|reports| - |o.rest|..]
    decreases |reports|
  {
    if Left(phase, m) != 0 && reports != [] && reports[0].got && InRange(cfg, m, reports[0].event) {
      RestIsSuffix(cfg, phase, Handle(cfg, m, reports[0].event, reports[0].handled).0, reports[1..]);
    }
  }

  lemma RecallUsed(h: History, reports: seq<Report>, o: Outcome)
    requires reports != [] && |o.rest| < |reports|
    ensures Recall(h, Used(reports, o)) == Recall(Note(h, reports[0].event), Used(reports[1..], o))
  {
    assert Used(reports, o)[1..] == Used(reports[1..], o);
  }

  /** Nothing goes wrong: every event arrives, no handler meets an error, every acknowledgement works. */
  predicate AllWell(reports: seq<Report>) {
    forall r :: r in reports ==>
      r.got && r.handled && r.acked && !r.event.Refused? && (r.event.AddressResolved? ==> r.event.optionSet)
  }

  function Nodes(n: nat): (s: set<nat>)
    ensures |s| == n && forall i: nat :: i in s <==> i < n
  {
    if n == 0 then {} else Nodes(n - 1) + {n - 1}
  }

  // ---- the client

  /** A connection is established after its route is resolved, and lost after it is established, each once. */
  predicate ClientMayTake(qps: nat, h: History, e: Event) {
    match e
    case RouteResolved(id) => id < qps && id !in h.routed
    case Established(id, _) => id in h.routed && id !in h.established
    case Disconnected(id) => id in h.established && id !in h.gone
    case ConnectRequest(_) => false
    case _ => true
  }

  predicate ClientLegal(qps: nat, h: History, reports: seq<Report>)
    decreases |reports|
  {
    reports == [] ||
    (ClientMayTake(qps, h, reports[0].event) && ClientLegal(qps, Note(h, reports[0].event), reports[1..]))
  }

  predicate Marks(m: Master) {
    forall i: nat :: i < |m.connected| ==> (m.connected[i] <==> i < m.index)
  }

  predicate ClientInv(cfg: Config, m: Master, h: History) {
    && cfg.machine == Client && Sized(cfg, m)
    && h.gone <= h.established <= h.routed <= Nodes(cfg.qps)
    && m.index == |h.routed|
    && m.connectsLeft == cfg.qps - |h.established|
    && m.disconnectsLeft == |h.established| - |h.gone|
    && |h.qpns| == |h.established| <= cfg.qps
    && (cfg.ud && h.gone == {} ==> m.peers[..|h.qpns|] == h.qpns)
  }

  /** A new member that the larger set has leaves room in the smaller one. */
  lemma AddCounted(a: set<nat>, b: set<nat>, x: nat)
    requires a <= b && x in b && x !in a
    ensures |a| < |b| && |a + {x}| == |a| + 1 && a + {x} <= b
  {
    SubsetCount(a, b);
  }

  lemma ClientRouted(cfg: Config, m: Master, h: History, id: nat, ok: bool)
    requires ClientInv(cfg, m, h) && id < cfg.qps && id !in h.routed
    ensures m.index < cfg.qps && h.routed != Nodes(cfg.qps)
    ensures var (n, rc) := Handle(cfg, m, RouteResolved(id), ok);
            rc ==> ClientKeeps(cfg, m, h, n, Note(h, RouteResolved(id)))
  {
    AddCounted(h.routed, Nodes(cfg.qps), id);
  }

  lemma ClientEstablished(cfg: Config, m: Master, h: History, id: nat, qpn: nat, ok: bool)
    requires ClientInv(cfg, m, h) && id in h.routed && id !in h.established
    ensures 0 <= m.disconnectsLeft < cfg.qps
    ensures var (n, rc) := Handle(cfg, m, Established(id, qpn), ok);
            rc ==> ClientKeeps(cfg, m, h, n, Note(h, Established(id, qpn)))
  {
    SubsetCount(h.gone, h.established);
    AddCounted(h.established, h.routed, id);
    SubsetCount(h.routed, Nodes(cfg.qps));
  }

  lemma ClientLost(cfg: Config, m: Master, h: History, id: nat, ok: bool)
    requires ClientInv(cfg, m, h) && id in h.established && id !in h.gone
    ensures ClientKeeps(cfg, m, h, Handle(cfg, m, Disconnected(id), ok).0, Note(h, Disconnected(id)))
  {
    AddCounted(h.gone, h.established, id);
  }

  lemma ClientUntouched(cfg: Config, m: Master, h: History, e: Event, ok: bool)
    requires ClientInv(cfg, m, h) && (e.AddressResolved? || e.Refused? || e.Other?)
    ensures Note(h, e) == h && (Handle(cfg, m, e, ok).1 ==> Handle(cfg, m, e, ok).0 == m)
  {
  }

  lemma ClientStep(cfg: Config, m: Master, h: History, e: Event, ok: bool)
    requires ClientInv(cfg, m, h) && ClientMayTake(cfg.qps, h, e)
    ensures InRange(cfg, m, e)
    ensures Handle(cfg, m, e, ok).1 ==> ClientKeeps(cfg, m, h, Handle(cfg, m, e, ok).0, Note(h, e))
  {
    match e
    case RouteResolved(id) => ClientRouted(cfg, m, h, id, ok);
    case Established(id, qpn) => ClientEstablished(cfg, m, h, id, qpn, ok);
    case Disconnected(id) => ClientLost(cfg, m, h, id, ok);
    case _ => ClientUntouched(cfg, m, h, e, ok);
  }

  /** What a client's loop keeps on the way from m, with history h, to n. */
  predicate ClientKeeps(cfg: Config, m: Master, h: History, n: Master, h': History) {
    && ClientInv(cfg, n, h')
    && (Marks(m) ==> Marks(n))
    && (h.routed == Nodes(cfg.qps) ==> h'.routed == Nodes(cfg.qps) && n.connected == m.connected)
  }

  predicate ClientRunKeeps(cfg: Config, m: Master, h: History, reports: seq<Report>, o: Outcome)
    requires |o.rest| <= |reports|
  {
    var h' := Recall(h, Used(reports, o));
    ClientKeeps(cfg, m, h, o.master, h') && ClientLegal(cfg.qps, h', o.rest)
  }

  lemma ClientTakesOne(cfg: Config, phase: Phase, m: Master, h: History, reports: seq<Report>)
    returns (n: Master, ok: bool)
    requires ClientInv(cfg, m, h) && ClientLegal(cfg.qps, h, reports) && reports != [] && Left(phase, m) != 0
    ensures !ok ==> Consume(cfg, phase, m, reports).status == Failed
    ensures ok ==> ClientKeeps(cfg, m, h, n, Note(h, reports[0].event))
    ensures ok ==> Consume(cfg, phase, m, reports) == Consume(cfg, phase, n, reports[1..])
  {
    var r := reports[0];
    ClientStep(cfg, m, h, r.event, r.handled);
    n := Handle(cfg, m, r.event, r.handled).0;
    ok := r.got && r.acked && Handle(cfg, m, r.event, r.handled).1;
  }

  lemma ClientRunStep(cfg: Config, m: Master, h: History, n: Master, reports: seq<Report>, o: Outcome)
    requires reports != [] && |o.rest| < |reports|
    requires ClientKeeps(cfg, m, h, n, Note(h, reports[0].event))
    requires ClientRunKeeps(cfg, n, Note(h, reports[0].event), reports[1..], o)
    ensures ClientRunKeeps(cfg, m, h, reports, o)
  {
    RecallUsed(h, reports, o);
  }

  /** Every run of a client's event loop, from any state the counters can describe. */
  lemma {:induction false} ClientRun(cfg: Config, phase: Phase, m: Master, h: History, reports: seq<Report>)
    requires ClientInv(cfg, m, h) && ClientLegal(cfg.qps, h, reports)
    ensures var o := Consume(cfg, phase, m, reports);
            o.status != OutOfRange && (o.status != Failed ==> ClientRunKeeps(cfg, m, h, reports, o))
    decreases |reports|
  {
    var o := Consume(cfg, phase, m, reports);
    if Left(phase, m) == 0 || reports == [] {
      assert Used(reports, o) == [];
    } else {
      var n, ok := ClientTakesOne(cfg, phase, m, h, reports);
      if ok {
        ClientRun(cfg, phase, n, Note(h, reports[0].event), reports[1..]);
        if o.status != Failed {
          ClientRunStep(cfg, m, h, n, reports, o);
        }
      }
    }
  }

  /** The connections a loop waits for: established ones, or ones that are gone. */
  function Reached(phase: Phase, h: History): set<nat> {
    if phase == Connecting then h.established else h.gone
  }

  lemma LeftIsMissing(cfg: Config, phase: Phase, m: Master, h: History)
    requires ClientInv(cfg, m, h) && (phase == Disconnecting ==> h.established == Nodes(cfg.qps))
    ensures Left(phase, m) == cfg.qps - |Reached(phase, h)|
    ensures Left(phase, m) == 0 <==> Reached(phase, h) == Nodes(cfg.qps)
  {
    SubsetCount(h.established, Nodes(cfg.qps));
    SubsetCount(h.gone, Nodes(cfg.qps));
  }

  /** What is complete stays complete. */
  lemma {:induction false} CompleteStays(qps: nat, phase: Phase, h: History, reports: seq<Report>)
    requires h.gone <= h.established <= h.routed <= Nodes(qps) && ClientLegal(qps, h, reports)
    requires Reached(phase, h) == Nodes(qps)
    ensures Reached(phase, Recall(h, reports)) == Nodes(qps)
    decreases |reports|
  {
    if reports != [] {
      CompleteStays(qps, phase, Note(h, reports[0].event), reports[1..]);
    }
  }

  /** While all is well, a client's loop ends exactly when it has heard of every connection. */
  lemma {:induction false} ClientLoopEndsIff(cfg: Config, phase: Phase, m: Master, h: History, reports: seq<Report>)
    requires ClientInv(cfg, m, h) && ClientLegal(cfg.qps, h, reports) && AllWell(reports)
    requires phase == Disconnecting ==> h.established == Nodes(cfg.qps)
    ensures Consume(cfg, phase, m, reports).status in {Done, Waiting}
    ensures Consume(cfg, phase, m, reports).status == Done <==> Reached(phase, Recall(h, reports)) == Nodes(cfg.qps)
    decreases |reports|
  {
    LeftIsMissing(cfg, phase, m, h);
    if Left(phase, m) == 0 {
      CompleteStays(cfg.qps, phase, h, reports);
    } else if reports != [] {
      var r := reports[0];
      assert r in reports;
      ClientStep(cfg, m, h, r.event, r.handled);
      var (n, ok) := Handle(cfg, m, r.event, r.handled);
      assert forall q :: q in reports[1..] ==> q in reports;
      ClientLoopEndsIff(cfg, phase, n, Note(h, r.event), reports[1..]);
    }
  }

  lemma ClientStarts(cfg: Config, own: seq<nat>)
    requires cfg.machine == Client && |own| == cfg.qps
    ensures ClientInv(cfg, Start(cfg, own), NOTHING) && Marks(Start(cfg, own))
  {
  }

  /** Connecting as a client: no handler writes outside the nodes; the two counters and the lost connections
      always add up to the number of queue pairs; and a zero return means every node is connected. */
  lemma ClientConnects(cfg: Config, own: seq<nat>, reports: seq<Report>)
    requires cfg.machine == Client && |own| == cfg.qps && ClientLegal(cfg.qps, NOTHING, reports)
    ensures var o := Consume(cfg, Connecting, Start(cfg, own), reports);
            var h := Recall(NOTHING, Used(reports, o));
            && o.status != OutOfRange
            && (o.status != Failed ==> o.master.connectsLeft + o.master.disconnectsLeft + |h.gone| == cfg.qps)
            && (o.status == Done ==>
                  && o.master.connectsLeft == 0 && o.master.index == cfg.qps
                  && h.established == Nodes(cfg.qps)
                  && forall i: nat :: i < cfg.qps ==> o.master.connected[i])
    ensures AllWell(reports) ==>
              (Consume(cfg, Connecting, Start(cfg, own), reports).status == Done
               <==> Recall(NOTHING, reports).established == Nodes(cfg.qps))
  {
    ClientStarts(cfg, own);
    ClientRun(cfg, Connecting, Start(cfg, own), NOTHING, reports);
    var o := Consume(cfg, Connecting, Start(cfg, own), reports);
    if o.status == Done {
      ClientDone(cfg, o.master, Recall(NOTHING, Used(reports, o)));
    }
    if AllWell(reports) {
      ClientLoopEndsIff(cfg, Connecting, Start(cfg, own), NOTHING, reports);
    }
  }

  lemma PeersComplete(cfg: Config, m: Master, h: History)
    requires ClientInv(cfg, m, h) && m.connectsLeft == 0 && cfg.ud && h.gone == {}
    ensures m.peers == h.qpns
  {
    assert m.peers[..cfg.qps] == m.peers;
  }

  lemma ClientDone(cfg: Config, m: Master, h: History)
    requires ClientInv(cfg, m, h) && m.connectsLeft == 0
    ensures h.established == h.routed == Nodes(cfg.qps) && m.index == cfg.qps
  {
    LeftIsMissing(cfg, Connecting, m, h);
  }

  /** For datagrams the k-th connection to be established fills node k, unless one was lost in between. */
  lemma PeersInOrder(cfg: Config, own: seq<nat>, reports: seq<Report>)
    requires cfg.machine == Client && cfg.ud && |own| == cfg.qps && ClientLegal(cfg.qps, NOTHING, reports)
    ensures var o := Consume(cfg, Connecting, Start(cfg, own), reports);
            var h := Recall(NOTHING, Used(reports, o));
            o.status == Done && h.gone == {} ==> o.master.peers == h.qpns
  {
    ClientStarts(cfg, own);
    ClientRun(cfg, Connecting, Start(cfg, own), NOTHING, reports);
    var o := Consume(cfg, Connecting, Start(cfg, own), reports);
    var h := Recall(NOTHING, Used(reports, o));
    if o.status == Done && h.gone == {} {
      PeersComplete(cfg, o.master, h);
    }
  }

  // ---- taking connections down

  /** With every node from i on connected, all of them are hung up, in order. */
  lemma {:induction false} HangsUpAll(m: Master, answers: seq<bool>, i: nat)
    requires |m.connected| == |m.ids| == |answers| && i <= |answers|
    requires forall j :: 0 <= j < |answers| ==> (m.connected[j] <==> i <= j) && answers[j]
    ensures HungUp(m, answers, i) == (true, m.(connected := seq(|answers|, _ => false)), m.ids[i..])
    decreases |answers| - i
  {
    if i < |answers| {
      HangsUpAll(m.(connected := m.connected[i := false]), answers, i + 1);
      assert m.ids[i..] == [m.ids[i]] + m.ids[i + 1..];
    } else {
      assert m.connected == seq(|answers|, _ => false) && m.ids[i..] == [];
    }
  }

  /** A connected client that takes its connections down: each of its ids is hung up once, and it is done
      exactly when every connection was reported gone, before or after; its counter is zero then. */
  lemma ClientTeardown(cfg: Config, m: Master, h: History, answers: seq<bool>, reports: seq<Report>)
    requires ClientInv(cfg, m, h) && Marks(m) && m.connectsLeft == 0 && !cfg.ud
    requires |answers| == cfg.qps && (forall i: nat :: i < cfg.qps ==> answers[i])
    requires ClientLegal(cfg.qps, h, reports) && AllWell(reports)
    ensures var (o, hungUp) := Teardown(cfg, m, answers, reports);
            && o.status in {Done, Waiting}
            && (o.status == Done <==> Recall(h, reports).gone == Nodes(cfg.qps))
            && (o.status == Done ==> o.master.disconnectsLeft == 0)
            && (h.gone != Nodes(cfg.qps) ==>
                  hungUp == m.ids && forall i: nat :: i < cfg.qps ==> !o.master.connected[i])
  {
    ClientDone(cfg, m, h);
    LeftIsMissing(cfg, Disconnecting, m, h);
    if m.disconnectsLeft == 0 {
      CompleteStays(cfg.qps, Disconnecting, h, reports);
    } else {
      HangsUpAll(m, answers, 0);
      var n := HungUp(m, answers, 0).1;
      ClientRun(cfg, Disconnecting, n, h, reports);
      ClientLoopEndsIff(cfg, Disconnecting, n, h, reports);
    }
  }

  // ---- the server

  /** A server resolves nothing; for datagrams only the connecting side hears that a connection stands. */
  predicate ServerLegal(cfg: Config, reports: seq<Report>) {
    forall r :: r in reports ==> !r.event.RouteResolved? && (cfg.ud ==> !r.event.Established?)
  }

  predicate ServerInv(cfg: Config, m: Master, h: History) {
    && cfg.machine == Server && Sized(cfg, m)
    && m.index == |h.requests| <= cfg.qps
    && m.index + m.connectsLeft == cfg.qps
    && m.ids[..m.index] == h.requests && Marks(m)
    && m.disconnectsLeft + h.hangups == 0
  }

  lemma ServerStep(cfg: Config, m: Master, h: History, e: Event, handled: bool)
    requires ServerInv(cfg, m, h) && InRange(cfg, m, e) && !e.RouteResolved? && m.connectsLeft != 0
    requires Handle(cfg, m, e, handled).1
    ensures ServerInv(cfg, Handle(cfg, m, e, handled).0, Note(h, e))
  {
    if e.ConnectRequest? {
      var n := Handle(cfg, m, e, handled).0;
      assert n.ids[..n.index] == m.ids[..m.index] + [e.id];
    }
  }

  predicate ServerRunKeeps(cfg: Config, h: History, reports: seq<Report>, o: Outcome)
    requires |o.rest| <= |reports|
  {
    ServerInv(cfg, o.master, Recall(h, Used(reports, o)))
  }

  lemma ServerTakesOne(cfg: Config, m: Master, h: History, reports: seq<Report>) returns (n: Master, ok: bool)
    requires ServerInv(cfg, m, h) && ServerLegal(cfg, reports) && reports != [] && m.connectsLeft != 0
    ensures AllWell(reports) ==> ok && AllWell(reports[1..])
    ensures ServerLegal(cfg, reports[1..])
    ensures !ok ==> Consume(cfg, Connecting, m, reports).status == Failed
    ensures ok ==> ServerInv(cfg, n, Note(h, reports[0].event))
    ensures ok ==> Consume(cfg, Connecting, m, reports) == Consume(cfg, Connecting, n, reports[1..])
  {
    var r := reports[0];
    assert r in reports && forall q :: q in reports[1..] ==> q in reports;
    n := Handle(cfg, m, r.event, r.handled).0;
    ok := r.got && r.acked && Handle(cfg, m, r.event, r.handled).1;
    if ok {
      ServerStep(cfg, m, h, r.event, r.handled);
    }
  }

  /** Every run of a server's connecting loop. With all well it never fails, so the handler's reject of one
      request too many is never reached. */
  lemma {:induction false} ServerRun(cfg: Config, m: Master, h: History, reports: seq<Report>)
    requires ServerInv(cfg, m, h) && ServerLegal(cfg, reports)
    ensures var o := Consume(cfg, Connecting, m, reports);
            && o.status != OutOfRange
            && (o.status == Failed ==> !AllWell(reports))
            && (o.status != Failed ==> ServerRunKeeps(cfg, h, reports, o))
    decreases |reports|
  {
    var o := Consume(cfg, Connecting, m, reports);
    if Left(Connecting, m) == 0 || reports == [] {
      assert Used(reports, o) == [];
    } else {
      var n, ok := ServerTakesOne(cfg, m, h, reports);
      if ok {
        ServerRun(cfg, n, Note(h, reports[0].event), reports[1..]);
        RecallUsed(h, reports, o);
      }
    }
  }

  /** Connecting as a server: the two counters always add up to the number of queue pairs; a zero return means
      every node is connected, the ids stored in the order of the requests; and with all well the loop ends
      exactly when as many requests have come as there are queue pairs. */
  lemma ServerConnects(cfg: Config, own: seq<nat>, reports: seq<Report>)
    requires cfg.machine == Server && |own| == cfg.qps && ServerLegal(cfg, reports)
    ensures var o := Consume(cfg, Connecting, Start(cfg, own), reports);
            var h := Recall(NOTHING, Used(reports, o));
            && o.status != OutOfRange
            && (o.status != Failed ==> o.master.index + o.master.connectsLeft == cfg.qps)
            && (o.status == Done ==>
                  && o.master.ids == h.requests
                  && forall i: nat :: i < cfg.qps ==> o.master.connected[i])
            && (AllWell(reports) ==>
                  && o.status != Failed
                  && (o.status == Done <==> |Recall(NOTHING, reports).requests| >= cfg.qps))
  {
    ServerRun(cfg, Start(cfg, own), NOTHING, reports);
    var o := Consume(cfg, Connecting, Start(cfg, own), reports);
    assert o.master.ids[..cfg.qps] == o.master.ids;
    RestIsSuffix(cfg, Connecting, Start(cfg, own), reports);
    RecallSplit(NOTHING, reports, |reports| - |o.rest|);
    RequestsGrow(Recall(NOTHING, Used(reports, o)), o.rest);
    if o.status == Waiting {
      assert Used(reports, o) == reports;
    }
  }

  lemma {:induction false} RecallSplit(h: History, reports: seq<Report>, k: nat)
    requires k <= |reports|
    ensures Recall(h, reports) == Recall(Recall(h, reports[..k]), reports[k..])
    decreases |reports|
  {
    if k == 0 {
      assert reports[k..] == reports;
    } else {
      RecallSplit(Note(h, reports[0].event), reports[1..], k - 1);
      assert reports[..k][1..] == reports[1..][..k - 1] && reports[1..][k - 1..] == reports[k..];
    }
  }

  lemma {:induction false} RequestsGrow(h: History, reports: seq<Report>)
    ensures |h.requests| <= |Recall(h, reports).requests|
    decreases |reports|
  {
    if reports != [] {
      RequestsGrow(Note(h, reports[0].event), reports[1..]);
    }
  }

  lemma ServerCountsDown(cfg: Config, m: Master, e: Event, handled: bool)
    requires cfg.machine == Server && Sized(cfg, m) && InRange(cfg, m, e)
    ensures Handle(cfg, m, e, handled).0.disconnectsLeft <= m.disconnectsLeft
  {
  }

  /** Below zero the counter never comes back. */
  lemma {:induction false} NeverDone(cfg: Config, m: Master, reports: seq<Report>)
    requires cfg.machine == Server && Sized(cfg, m) && m.disconnectsLeft < 0
    ensures Consume(cfg, Disconnecting, m, reports).status != Done
    decreases |reports|
  {
    if reports != [] && reports[0].got && InRange(cfg, m, reports[0].event) {
      ServerCountsDown(cfg, m, reports[0].event, reports[0].handled);
      var n := Handle(cfg, m, reports[0].event, reports[0].handled).0;
      NeverDone(cfg, n, reports[1..]);
      if Handle(cfg, m, reports[0].event, reports[0].handled).1 && reports[0].acked {
        assert Consume(cfg, Disconnecting, m, reports) == Consume(cfg, Disconnecting, n, reports[1..]);
      }
    }
  }

  /** A connected server takes its connections down at once, without hanging up, exactly if it uses datagrams
      or no client was lost while it was connecting. Otherwise it waits without end. */
  lemma ServerTeardownEndsIff(cfg: Config, m: Master, h: History, answers: seq<bool>, reports: seq<Report>)
    requires ServerInv(cfg, m, h) && m.connectsLeft == 0 && |answers| == cfg.qps
    ensures Teardown(cfg, m, answers, reports).0.status == Done <==> cfg.ud || h.hangups == 0
    ensures cfg.ud || h.hangups == 0 ==> Teardown(cfg, m, answers, reports) == (Outcome(m, Done, reports), [])
  {
    if !cfg.ud && h.hangups > 0 {
      NeverDone(cfg, HungUp(m, answers, 0).1, reports);
    }
  }

  /** A server with two queue pairs that loses its first client before the second one connects: it returns
      with every node connected and a count below zero, and never takes its connections down. */
  lemma ServerMayLoseClient() returns (cfg: Config, reports: seq<Report>, o: Outcome)
    ensures cfg.machine == Server && !cfg.ud && ServerLegal(cfg, reports) && AllWell(reports)
    ensures cfg.qps == 2 && o == Consume(cfg, Connecting, Start(cfg, [NO_ID, NO_ID]), reports) && o.status == Done
    ensures ServerInv(cfg, o.master, Recall(NOTHING, Used(reports, o))) && o.master.disconnectsLeft == -1
    ensures forall answers: seq<bool>, later: seq<Report> :: |answers| == 2 ==>
              Teardown(cfg, o.master, answers, later).0.status != Done
  {
    cfg := Config(Server, 2, false);
    var first, lost, second := ConnectRequest(1), Disconnected(1), ConnectRequest(2);
    reports := [Report(true, first, true, true), Report(true, lost, true, true), Report(true, second, true, true)];
    var m0 := Start(cfg, [NO_ID, NO_ID]);
    var m1 := Handle(cfg, m0, first, true).0;
    var m2 := Handle(cfg, m1, lost, true).0;
    var m3 := Handle(cfg, m2, second, true).0;
    assert reports[1..] == [reports[1], reports[2]];
    assert reports[1..][1..] == [reports[2]] && reports[1..][1..][1..] == [];
    assert Consume(cfg, Connecting, m2, [reports[2]]) == Consume(cfg, Connecting, m3, []);
    assert Consume(cfg, Connecting, m1, reports[1..]) == Consume(cfg, Connecting, m2, [reports[2]]);
    o := Consume(cfg, Connecting, m0, reports);
    ServerRun(cfg, m0, NOTHING, reports);
    forall answers: seq<bool>, later: seq<Report> | |answers| == 2
      ensures Teardown(cfg, o.master, answers, later).0.status != Done
    {
      ServerTeardownEndsIff(cfg, o.master, Recall(NOTHING, Used(reports, o)), answers, later);
    }
  }
}
