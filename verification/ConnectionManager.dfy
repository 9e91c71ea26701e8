/** RDMA CM bookkeeping: the event handlers, the dispatcher and the two event loops, as steps on values
    (lib/perf/perftest_communication.c). Library calls succeed or fail as each report says. */
module ConnectionManager {
  datatype Machine = Client | Server

  datatype Config = Config(machine: Machine, qps: nat, ud: bool)

  datatype Event =
    | AddressResolved(optionSet: bool)
    | RouteResolved(id: nat)
    | ConnectRequest(id: nat)
    | Established(id: nat, qpn: nat)
    | Refused            // address, route or connect error, unreachable, rejected
    | Disconnected(id: nat)
    | Other              // device removal and everything the dispatcher has no case for

  /** What one round of an event loop meets: the outcome of fetching the event, of the library calls its
      handler makes, and of acknowledging it. */
  datatype Report = Report(got: bool, event: Event, handled: bool, acked: bool)

  const NO_ID: nat := 0

  datatype Master = Master(connectsLeft: int, disconnectsLeft: int, index: nat,
                           connected: seq<bool>, ids: seq<nat>, peers: seq<nat>)

  datatype Phase = Connecting | Disconnecting

  datatype Status = Done | Failed | Waiting | OutOfRange

  datatype Outcome = Outcome(master: Master, status: Status, rest: seq<Report>)

  predicate Sized(cfg: Config, m: Master) {
    |m.connected| == |m.ids| == |m.peers| == cfg.qps
  }

  /** The node an event makes its handler touch exists. */
  predicate InRange(cfg: Config, m: Master, e: Event) {
    && (e.RouteResolved? ==> m.index < cfg.qps)
    && (e.ConnectRequest? ==> m.index <= cfg.qps)
    && (e.Established? && cfg.ud ==> 0 <= m.disconnectsLeft < cfg.qps)
  }

  /** The dispatcher: the new bookkeeping, and whether the handler reported success. */
  function Handle(cfg: Config, m: Master, e: Event, ok: bool): (r: (Master, bool))
    requires Sized(cfg, m) && InRange(cfg, m, e)
    ensures Sized(cfg, r.0)
  {
    match e
    case AddressResolved(optionSet) =>
      if !optionSet then (m, false) else if ok then (m, true) else (m.(connectsLeft := m.connectsLeft - 1), false)
    case RouteResolved(_) =>
      if ok then (m.(connected := m.connected[m.index := true], index := m.index + 1), true)
      else (m.(connectsLeft := m.connectsLeft - 1), false)
    case ConnectRequest(id) =>
      if m.index == cfg.qps then (m, false)
      else if ok then
        (m.(ids := m.ids[m.index := id], connected := m.connected[m.index := true],
            index := m.index + 1, connectsLeft := m.connectsLeft - 1), true)
      else (m.(ids := m.ids[m.index := NO_ID], connectsLeft := m.connectsLeft - 1), false)
    case Established(_, qpn) =>
      var peers := if cfg.ud then m.peers[m.disconnectsLeft := qpn] else m.peers;
      if cfg.ud && !ok then (m.(peers := peers, connectsLeft := m.connectsLeft - 1), false)
      else if cfg.machine == Client then
        (m.(peers := peers, connectsLeft := m.connectsLeft - 1, disconnectsLeft := m.disconnectsLeft + 1), true)
      else (m.(peers := peers), true)
    case Refused => (m.(connectsLeft := m.connectsLeft - 1), false)
    case Disconnected(_) => (m.(disconnectsLeft := m.disconnectsLeft - 1), true)
    case Other => (m, true)
  }

  function Left(phase: Phase, m: Master): int {
    if phase == Connecting then m.connectsLeft else m.disconnectsLeft
  }

  /** Both event loops: until the counter is zero, something fails, or no event is there yet. */
  function Consume(cfg: Config, phase: Phase, m: Master, reports: seq<Report>): (o: Outcome)
    requires Sized(cfg, m)
    ensures Sized(cfg, o.master) && |o.rest| <= |reports|
    ensures o.status == Done ==> Left(phase, o.master) == 0
    ensures o.status == Waiting ==> Left(phase, o.master) != 0 && o.rest == []
    decreases |reports|
  {
    if Left(phase, m) == 0 then Outcome(m, Done, reports)
    else if reports == [] then Outcome(m, Waiting, reports)
    else if !reports[0].got then Outcome(m, Failed, reports[1..])
    else if !InRange(cfg, m, reports[0].event) then Outcome(m, OutOfRange, reports[1..])
    else
      var (n, ok) := Handle(cfg, m, reports[0].event, reports[0].handled);
      if ok && reports[0].acked then Consume(cfg, phase, n, reports[1..]) else Outcome(n, Failed, reports[1..])
  }

  class ConnectionManager {
    const cfg: Config
    var connectsLeft: int
    var disconnectsLeft: int
    var connectionIndex: nat
    const connected: array<bool>
    const ids: array<nat>
    const peers: array<nat>

    ghost predicate Valid()
      reads this
    {
      && connected.Length == ids.Length == peers.Length == cfg.qps
      && ids != peers
    }

    ghost function Contents(): (m: Master)
      reads this, connected, ids, peers
      requires Valid()
      ensures Sized(cfg, m)
    {
      Master(connectsLeft, disconnectsLeft, connectionIndex, connected[..], ids[..], peers[..])
    }

    constructor (cfg: Config, own: seq<nat>)
      requires |own| == cfg.qps
      ensures Valid() && this.cfg == cfg && fresh(connected) && fresh(ids) && fresh(peers)
      ensures Contents() == Start(cfg, own)
    {
      this.cfg := cfg;
      connectsLeft, disconnectsLeft, connectionIndex := cfg.qps, 0, 0;
      connected := new bool[cfg.qps](_ => false);
      ids := new nat[cfg.qps](i requires 0 <= i < |own| => if cfg.machine == Client then own[i] else NO_ID);
      peers := new nat[cfg.qps](_ => 0);
      new;
      assert connected[..] == seq(cfg.qps, _ => false) && peers[..] == seq(cfg.qps, _ => 0);
      assert ids[..] == if cfg.machine == Client then own else seq(cfg.qps, _ => NO_ID);
    }

    method ConnectError()
      requires Valid()
      modifies this`connectsLeft
      ensures Contents() == old(Contents()).(connectsLeft := old(connectsLeft) - 1)
    {
      connectsLeft := connectsLeft - 1;
    }

    /** `ok`: context, queue pair and `rdma_connect` all succeed. */
    method RouteHandler(id: nat, ok: bool) returns (rc: bool)
      requires Valid() && connectionIndex < cfg.qps
      modifies this, connected
      ensures Valid() && (Contents(), rc) == Handle(cfg, old(Contents()), RouteResolved(id), ok)
    {
      var k := connectionIndex;
      if !ok {
        ConnectError();
        return false;
      }
      connected[k] := true;
      connectionIndex := connectionIndex + 1;
      return true;
    }

    method RequestHandler(id: nat, ok: bool) returns (rc: bool)
      requires Valid() && connectionIndex <= cfg.qps
      modifies this, connected, ids
      ensures Valid() && (Contents(), rc) == Handle(cfg, old(Contents()), ConnectRequest(id), ok)
    {
      var k := connectionIndex;
      if k == cfg.qps {
        return false;
      }
      ids[k] := id;
      if !ok {
        ids[k] := NO_ID;
        assert ids[..] == old(ids[..])[k := NO_ID];
        ConnectError();
        return false;
      }
      connected[k] := true;
      connectionIndex := connectionIndex + 1;
      connectsLeft := connectsLeft - 1;
      return true;
    }

    method EstablishedHandler(id: nat, qpn: nat, ok: bool) returns (rc: bool)
      requires Valid() && (cfg.ud ==> 0 <= disconnectsLeft < cfg.qps)
      modifies this, peers
      ensures Valid() && (Contents(), rc) == Handle(cfg, old(Contents()), Established(id, qpn), ok)
    {
      if cfg.ud {
        peers[disconnectsLeft] := qpn;
        if !ok {
          ConnectError();
          return false;
        }
      }
      if cfg.machine == Client {
        connectsLeft := connectsLeft - 1;
        disconnectsLeft := disconnectsLeft + 1;
      }
      return true;
    }

    method Dispatch(e: Event, ok: bool) returns (rc: bool)
      requires Valid() && InRange(cfg, Contents(), e)
      modifies this, connected, ids, peers
      ensures Valid() && (Contents(), rc) == Handle(cfg, old(Contents()), e, ok)
    {
      rc := true;
      match e {
        case AddressResolved(optionSet) =>
          if !optionSet {
            rc := false;
          } else if !ok {
            ConnectError();
            rc := false;
          }
        case RouteResolved(id) => rc := RouteHandler(id, ok);
        case ConnectRequest(id) => rc := RequestHandler(id, ok);
        case Established(id, qpn) => rc := EstablishedHandler(id, qpn, ok);
        case Refused =>
          ConnectError();
          rc := false;
        case Disconnected(_) => disconnectsLeft := disconnectsLeft - 1;
        case Other =>
      }
    }

    method ConnectEvents(reports: seq<Report>) returns (status: Status, rest: seq<Report>)
      requires Valid() && Consume(cfg, Connecting, Contents(), reports).status != OutOfRange
      modifies this, connected, ids, peers
      ensures Valid()
      ensures Outcome(Contents(), status, rest) == Consume(cfg, Connecting, old(Contents()), reports)
    {
      rest := reports;
      while connectsLeft != 0
        invariant Valid()
        invariant Consume(cfg, Connecting, Contents(), rest) == Consume(cfg, Connecting, old(Contents()), reports)
        decreases |rest|
      {
        if rest == [] {
          return Waiting, rest;
        }
        var report := rest[0];
        rest := rest[1..];
        if !report.got {
          return Failed, rest;
        }
        var rc := Dispatch(report.event, report.handled);
        if !rc || !report.acked {
          return Failed, rest;
        }
      }
      status := Done;
    }

    /** Hang up every connected node, up to the first call that fails. */
    method HangUp(answers: seq<bool>) returns (ok: bool, hungUp: seq<nat>)
      requires Valid() && |answers| == cfg.qps
      modifies connected
      ensures (ok, Contents(), hungUp) == HungUp(old(Contents()), answers, 0)
    {
      hungUp := [];
      var i := 0;
      assert forall h: seq<nat> :: [] + h == h;
      while i < cfg.qps
        invariant i <= cfg.qps
        invariant var h := HungUp(Contents(), answers, i);
                  (h.0, h.1, hungUp + h.2) == HungUp(old(Contents()), answers, 0)
      {
        if connected[i] {
          assert hungUp + ([ids[i]] + HungUp(Contents().(connected := connected[..][i := false]), answers, i + 1).2)
              == (hungUp + [ids[i]]) + HungUp(Contents().(connected := connected[..][i := false]), answers, i + 1).2;
          connected[i] := false;
          hungUp := hungUp + [ids[i]];
          if !answers[i] {
            return false, hungUp;
          }
        }
        i := i + 1;
      }
      assert hungUp + [] == hungUp;
      ok := true;
    }

    method DisconnectNodes(answers: seq<bool>, reports: seq<Report>)
      returns (status: Status, rest: seq<Report>, hungUp: seq<nat>)
      requires Valid() && |answers| == cfg.qps && Teardown(cfg, Contents(), answers, reports).0.status != OutOfRange
      modifies this, connected, ids, peers
      ensures Valid()
      ensures (Outcome(Contents(), status, rest), hungUp) == Teardown(cfg, old(Contents()), answers, reports)
    {
      rest := reports;
      if disconnectsLeft == 0 || cfg.ud {
        return Done, rest, [];
      }
      var ok;
      ok, hungUp := HangUp(answers);
      if !ok {
        return Failed, rest, hungUp;
      }
      while disconnectsLeft != 0
        invariant Valid()
        invariant (Consume(cfg, Disconnecting, Contents(), rest), hungUp)
               == Teardown(cfg, old(Contents()), answers, reports)
        decreases |rest|
      {
        if rest == [] {
          return Waiting, rest, hungUp;
        }
        var report := rest[0];
        rest := rest[1..];
        if !report.got {
          return Failed, rest, hungUp;
        }
        var rc := Dispatch(report.event, report.handled);
        if !rc || !report.acked {
          return Failed, rest, hungUp;
        }
      }
      status := Done;
    }
  }

  /** The counters before the first event; the client has made one id for each node. */
  function Start(cfg: Config, own: seq<nat>): (m: Master)
    ensures |own| == cfg.qps ==> Sized(cfg, m)
  {
    Master(cfg.qps, 0, 0, seq(cfg.qps, _ => false), if cfg.machine == Client then own else seq(cfg.qps, _ => NO_ID),
           seq(cfg.qps, _ => 0))
  }

  /** From node i on: whether all calls succeeded, the nodes after them, and the ids hung up. */
  function HungUp(m: Master, answers: seq<bool>, i: nat): (r: (bool, Master, seq<nat>))
    requires |m.connected| == |m.ids| == |answers| && i <= |answers|
    ensures r.1 == m.(connected := r.1.connected) && |r.1.connected| == |m.connected|
    decreases |answers| - i
  {
    if i == |answers| then (true, m, [])
    else if !m.connected[i] then HungUp(m, answers, i + 1)
    else
      var n := m.(connected := m.connected[i := false]);
      if !answers[i] then (false, n, [m.ids[i]])
      else
        var h := HungUp(n, answers, i + 1);
        (h.0, h.1, [m.ids[i]] + h.2)
  }

  function Teardown(cfg: Config, m: Master, answers: seq<bool>, reports: seq<Report>): (Outcome, seq<nat>)
    requires Sized(cfg, m) && |answers| == cfg.qps
  {
    if m.disconnectsLeft == 0 || cfg.ud then (Outcome(m, Done, reports), [])
    else
      var (ok, n, hungUp) := HungUp(m, answers, 0);
      if ok then (Consume(cfg, Disconnecting, n, reports), hungUp) else (Outcome(n, Failed, reports), hungUp)
  }
}
