/** One direction of a credited SEND run over one queue pair: the sender's window and completion
    moderation, the messages, and the receiver's credit writes back (lib/perf/perftest_resources.c).
    A one-way run is one such flow (CreditRun.dfy), a bidirectional run is two (BiRun.dfy). The hardware
    delivers, completes and reads memory whenever it likes, in order. */
module CreditFlow {
  import opened Basics
  import opened Modular
  import opened Moderation

  /** Where the receiver is in handling one receive completion. */
  datatype Stage = Idle | Polled | Reposted | CreditDue

  /** A memory word shown as a count holds the low 32 bits of that count. */
  datatype Flow = Flow(
    c: Config,
    scnt: nat,       // sends posted
    polled: nat,     // send completions polled: ccnt is cqMod times this
    sent: nat,       // sends the hardware has completed, in order
    delivered: nat,  // messages that have consumed a posted receive
    rcnt: nat,       // receive completions polled
    posted: nat,     // receives posted
    stage: Stage,
    ctrl: nat,       // the receiver's ctrl_buf word
    wposted: nat,    // credit writes posted
    wread: nat,      // of these, the ones whose source word the hardware has read
    wire: seq<nat>,  // values read and not yet written to the sender's memory
    wdone: nat,      // credit writes completed
    wpolled: nat,    // their completions polled: scredit is wposted - wpolled
    credit: nat)     // the sender's credit_buf word
  {
    /** Receive completions whose receive has been reposted and whose credit has been stored. */
    function Processed(): int {
      if stage == Polled || stage == Reposted then rcnt - 1 else rcnt
    }

    /** The newest value on its way to the sender. */
    function Newest(): nat {
      if wire == [] then credit else wire[|wire| - 1]
    }

    /** Credit writes whose completions have not been polled. */
    function Credits(): int {
      wposted - wpolled
    }

    /** `ccnt`. */
    function Completed(): nat {
      c.cqMod * polled
    }
  }

  predicate Credited(c: Config) {
    && Moderated(c)
    && 3 <= c.rxDepth && c.rxDepth + c.postList < TWO_32
    && 1 <= c.peerTxDepth
  }

  /** How far count n is past the last count at which a credit was due: a credit is due every
      `rx_depth / 3` completions, counting afresh at each multiple of `rx_depth`. */
  function Lag(c: Config, n: nat): nat
    requires 3 <= c.rxDepth
  {
    n % c.rxDepth % (c.rxDepth / 3)
  }

  /** Receives posted after n completions have been handled: one each, but none beyond `iters`. */
  function PostedAfter(c: Config, n: nat): nat {
    if n + c.rxDepth <= c.iters then n + c.rxDepth
    else if c.rxDepth <= c.iters then c.iters
    else c.rxDepth
  }

  /** `uint32_t swindow = scnt + post_list - credit_buf`. */
  function SendWindow(s: Flow): nat {
    (s.scnt + s.c.postList - s.credit % TWO_32) % TWO_32
  }

  predicate CanPost(s: Flow) {
    && s.scnt < s.c.iters
    && WindowOpen(s.c, s.scnt, s.polled)
    && SendWindow(s) < s.c.rxDepth
  }

  datatype Step =
    // the sender and its hardware
    | Post | Complete | PollSend | Deliver
    // the receiver
    | PollRecv | Repost | StoreCredit | PostCredit | PollCredit(k: nat)
    // the hardware executing credit writes
    | ReadCtrl | Land | WriteDone

  function Start(c: Config): Flow {
    Flow(c, 0, 0, 0, 0, 0, c.rxDepth, Idle, 0, 0, 0, [], 0, 0, 0)
  }

  /** What a step of this flow needs, whatever else its endpoints are doing. */
  predicate Possible(s: Flow, step: Step) {
    match step
    case Post => CanPost(s)
    case Complete => s.sent < s.scnt
    case PollSend => s.c.cqMod > 0 && s.polled < SignalsBefore(s.c, s.sent)
    case Deliver => s.delivered < s.scnt && s.delivered < s.posted
    case PollRecv => s.stage == Idle && s.rcnt < s.delivered
    case Repost => s.stage == Polled
    case StoreCredit => s.stage == Reposted
    case PostCredit => s.stage == CreditDue
    case PollCredit(k) => 1 <= k && s.wpolled + k <= s.wdone
    case ReadCtrl => s.wread < s.wposted
    case Land => s.wire != []
    case WriteDone => s.wdone + |s.wire| < s.wread
  }

  function Apply(s: Flow, step: Step): Flow
    requires 3 <= s.c.rxDepth && (step.Land? ==> s.wire != [])
  {
    match step
    case Post => s.(scnt := s.scnt + s.c.postList)
    case Complete => s.(sent := s.sent + 1)
    case PollSend => s.(polled := s.polled + 1)
    case Deliver => s.(delivered := s.delivered + 1)
    case PollRecv => s.(rcnt := s.rcnt + 1, stage := Polled)
    case Repost => s.(posted := if s.posted + 1 <= s.c.iters then s.posted + 1 else s.posted, stage := Reposted)
    case StoreCredit => if Lag(s.c, s.rcnt) == 0 then s.(ctrl := s.rcnt, stage := CreditDue) else s.(stage := Idle)
    case PostCredit => s.(wposted := s.wposted + 1, stage := Idle)
    case PollCredit(k) => s.(wpolled := s.wpolled + k)
    case ReadCtrl => s.(wread := s.wread + 1, wire := s.wire + [s.ctrl])
    case Land => s.(credit := s.wire[0], wire := s.wire[1..])
    case WriteDone => s.(wdone := s.wdone + 1)
  }

  predicate FlowStep(s: Flow, t: Flow, step: Step)
    requires 3 <= s.c.rxDepth
  {
    Possible(s, step) && t == Apply(s, step)
  }

  // ---- the invariant

  predicate SenderInv(s: Flow)
    requires s.c.cqMod > 0 && s.c.postList > 0
  {
    && s.scnt <= s.c.iters && s.scnt % s.c.postList == 0
    && s.sent <= s.scnt && s.delivered <= s.scnt
    && s.polled <= SignalsBefore(s.c, s.sent)
    && s.scnt <= s.Completed() + s.c.txDepth
  }

  predicate ReceiverInv(s: Flow)
    requires 3 <= s.c.rxDepth
  {
    && 0 <= s.Processed() && s.rcnt <= s.delivered
    && s.posted == PostedAfter(s.c, if s.stage == Polled then s.rcnt - 1 else s.rcnt)
    && s.ctrl == s.Processed() - Lag(s.c, s.Processed())
    && (s.stage == CreditDue ==> 0 < s.rcnt && Lag(s.c, s.rcnt) == 0)
    && s.wpolled <= s.wdone && s.wdone + |s.wire| <= s.wread <= s.wposted
    && s.wposted + (if s.stage == CreditDue then 1 else 0) <= s.Processed()
  }

  /** Credits only grow along the way, and the sender never runs `rx_depth` ahead of the last. */
  predicate CreditInv(s: Flow) {
    && s.credit <= s.Newest() <= s.ctrl
    && (forall i :: 0 <= i < |s.wire| ==> s.credit <= s.wire[i] <= s.Newest())
    && (forall i, j :: 0 <= i < j < |s.wire| ==> s.wire[i] <= s.wire[j])
    && (s.wread == s.wposted && s.stage != CreditDue ==> s.Newest() == s.ctrl)
    && s.scnt < s.credit + s.c.rxDepth
  }

  predicate FlowInv(s: Flow) {
    Credited(s.c) && SenderInv(s) && ReceiverInv(s) && CreditInv(s)
  }

  lemma StartInv(c: Config)
    requires Credited(c)
    ensures FlowInv(Start(c))
  {
  }

  lemma LagOfNext(c: Config, n: nat)
    requires 3 <= c.rxDepth
    ensures Lag(c, n + 1) != 0 ==> Lag(c, n + 1) == Lag(c, n) + 1
    ensures Lag(c, n) < c.rxDepth / 3 && Lag(c, n) <= n
  {
    NestedRemainder(n, c.rxDepth, c.rxDepth / 3);
  }

  lemma NestedRemainder(n: nat, r: nat, k: nat)
    requires 0 < k < r
    ensures n % r % k < k && n % r % k <= n
    ensures (n + 1) % r % k != 0 ==> (n + 1) % r % k == n % r % k + 1
  {
    Successor(n, r);
    Successor(n % r, k);
    RemainderAtMost(n, r);
    RemainderAtMost(n % r, k);
  }

  lemma RemainderAtMost(n: nat, m: nat)
    requires m > 0
    ensures n % m <= n
  {
    DivideExactly(n, m);
  }

  lemma {:induction false} LastCreditMonotone(c: Config, m: nat, n: nat)
    requires 3 <= c.rxDepth && m <= n
    ensures m - Lag(c, m) <= n - Lag(c, n)
  {
    if m < n {
      LastCreditMonotone(c, m, n - 1);
      LagOfNext(c, n - 1);
    }
  }

  lemma CreditIsBehind(s: Flow)
    requires FlowInv(s)
    ensures s.credit <= s.scnt < s.credit + s.c.rxDepth
  {
    LagOfNext(s.c, s.Processed());
  }

  /** The 32-bit window never wraps: it is the true distance to the last credit. */
  lemma SendWindowIsExact(s: Flow)
    requires FlowInv(s)
    ensures SendWindow(s) == s.scnt + s.c.postList - s.credit
  {
    CreditIsBehind(s);
    ShortDistance(s.scnt + s.c.postList, s.credit, TWO_32);
  }

  /** A message sent has a receive posted for it, so its delivery is never refused. */
  lemma SentHasReceive(s: Flow)
    requires FlowInv(s)
    ensures s.scnt <= s.posted
  {
    LagOfNext(s.c, s.Processed());
  }

  predicate SenderSame(s: Flow, t: Flow) {
    t.c == s.c && t.scnt == s.scnt && t.sent == s.sent && t.polled == s.polled && t.delivered == s.delivered
  }

  lemma SenderUntouched(s: Flow, t: Flow)
    requires Credited(s.c) && SenderInv(s) && SenderSame(s, t)
    ensures Credited(t.c) && SenderInv(t)
  {
  }

  lemma PostInv(s: Flow, t: Flow)
    requires FlowInv(s) && FlowStep(s, t, Post)
    ensures FlowInv(t)
  {
    SendWindowIsExact(s);
    SignalsMonotone(s.c, s.sent, s.scnt);
    WindowIsExact(s.c, s.scnt, s.polled);
    MultiplesApart(s.scnt, s.c.iters, s.c.postList);
  }

  lemma SendSideInv(s: Flow, t: Flow, step: Step)
    requires FlowInv(s) && FlowStep(s, t, step) && (step.Complete? || step.PollSend? || step.Deliver?)
    ensures FlowInv(t)
  {
    SignalsMonotone(s.c, s.sent, t.sent);
    OneMore(s.c.cqMod, s.polled);
  }

  lemma ReceiveInv(s: Flow, t: Flow, step: Step)
    requires FlowInv(s) && FlowStep(s, t, step) && (step.PollRecv? || step.Repost?)
    ensures FlowInv(t)
  {
    SenderUntouched(s, t);
    assert t.Newest() == s.Newest();
  }

  lemma StoreCreditReceiver(s: Flow, t: Flow)
    requires 3 <= s.c.rxDepth && ReceiverInv(s) && FlowStep(s, t, StoreCredit)
    ensures ReceiverInv(t) && s.ctrl <= t.ctrl
  {
    LagOfNext(s.c, s.rcnt - 1);
  }

  lemma StoreCreditInv(s: Flow, t: Flow)
    requires FlowInv(s) && FlowStep(s, t, StoreCredit)
    ensures FlowInv(t)
  {
    SenderUntouched(s, t);
    StoreCreditReceiver(s, t);
    assert t.Newest() == s.Newest();
  }

  lemma CreditPostInv(s: Flow, t: Flow, step: Step)
    requires FlowInv(s) && FlowStep(s, t, step) && (step.PostCredit? || step.PollCredit? || step.WriteDone?)
    ensures FlowInv(t)
  {
    SenderUntouched(s, t);
    assert t.Newest() == s.Newest();
  }

  lemma LandInv(s: Flow, t: Flow)
    requires FlowInv(s) && FlowStep(s, t, Land)
    ensures FlowInv(t)
  {
    assert t.Newest() == s.Newest();
    assert forall i :: 0 <= i < |t.wire| ==> t.wire[i] == s.wire[i + 1];
  }

  lemma ReadCtrlInv(s: Flow, t: Flow)
    requires FlowInv(s) && FlowStep(s, t, ReadCtrl)
    ensures FlowInv(t)
  {
    assert t.Newest() == s.ctrl;
  }

  lemma FlowStepInv(s: Flow, t: Flow, step: Step)
    requires FlowInv(s) && FlowStep(s, t, step)
    ensures FlowInv(t)
  {
    match step
    case Post => PostInv(s, t);
    case Complete => SendSideInv(s, t, step);
    case PollSend => SendSideInv(s, t, step);
    case Deliver => SendSideInv(s, t, step);
    case PollRecv => ReceiveInv(s, t, step);
    case Repost => ReceiveInv(s, t, step);
    case StoreCredit => StoreCreditInv(s, t);
    case PostCredit => CreditPostInv(s, t, step);
    case PollCredit(_) => CreditPostInv(s, t, step);
    case ReadCtrl => ReadCtrlInv(s, t);
    case Land => LandInv(s, t);
    case WriteDone => CreditPostInv(s, t, step);
  }

  // ---- when credits are due

  /** Counting afresh at each multiple of `rx_depth`, every `rx_depth / 3` receives: a count reached after q
      whole rounds, i thirds and r more. */
  predicate CountsAs(c: Config, n: nat, q: nat, i: nat, r: nat)
    requires 3 <= c.rxDepth
  {
    var third := c.rxDepth / 3;
    n == q * c.rxDepth + i * third + r && i * third + r < c.rxDepth && r < third
  }

  /** A credit is stored and due exactly at the whole thirds, so at every multiple of `rx_depth` too. */
  lemma DueAtThirds(s: Flow, t: Flow, q: nat, i: nat, r: nat)
    requires 3 <= s.c.rxDepth && FlowStep(s, t, StoreCredit) && CountsAs(s.c, s.rcnt, q, i, r)
    ensures t.stage == (if r == 0 then CreditDue else Idle)
    ensures t.ctrl == (if r == 0 then s.rcnt else s.ctrl)
    ensures t == s.(stage := t.stage, ctrl := t.ctrl)
  {
    var third := s.c.rxDepth / 3;
    assert 0 <= i * third + r;
    RemainderUnique(s.rcnt, s.c.rxDepth, q, i * third + r);
    RemainderUnique(i * third + r, third, i, r);
  }

  /** Every count is of that form. */
  lemma CountsAsSome(c: Config, n: nat) returns (q: nat, i: nat, r: nat)
    requires 3 <= c.rxDepth
    ensures CountsAs(c, n, q, i, r)
  {
    var third := c.rxDepth / 3;
    q := n / c.rxDepth;
    i, r := n % c.rxDepth / third, n % c.rxDepth % third;
    DivideExactly(n, c.rxDepth);
    DivideExactly(n % c.rxDepth, third);
    assert q * c.rxDepth == c.rxDepth * q && i * third == third * i;
  }

  /** Receives are reposted one for one, but none beyond `iters`; the first `rx_depth` are there in any case. */
  lemma PostedBounds(s: Flow)
    requires FlowInv(s)
    ensures s.c.rxDepth <= s.posted
    ensures s.posted <= s.c.iters || s.posted == s.c.rxDepth
    ensures s.posted < s.c.iters ==> s.posted == s.c.rxDepth + s.rcnt - if s.stage == Polled then 1 else 0
  {
  }

  // ---- progress

  /** Sends posted plus every other monotone counter of the flow; a receive completion counts for the
      four stages of its handling. */
  function Work(s: Flow): int {
    s.scnt + s.sent + s.polled + s.delivered
    + 4 * s.rcnt - (match s.stage case Idle => 0 case Polled => 3 case Reposted => 2 case CreditDue => 1)
    + s.wposted + 2 * s.wread - |s.wire| + s.wdone + s.wpolled
  }

  lemma StepDoesWork(s: Flow, t: Flow, step: Step)
    requires Credited(s.c) && FlowStep(s, t, step)
    ensures t.c == s.c && Work(s) < Work(t)
  {
  }

  lemma WorkIsBounded(s: Flow)
    requires FlowInv(s)
    ensures Work(s) <= 13 * s.c.iters
  {
    SignalsAtMost(s.c, s.sent);
  }

  lemma {:induction false} SignalsAtMost(c: Config, n: nat)
    requires c.cqMod > 0
    ensures SignalsBefore(c, n) <= n
  {
    if n > 0 {
      SignalsAtMost(c, n - 1);
    }
  }

  /** Everything the hardware has been asked to do is done. */
  predicate HardwareIdle(s: Flow) {
    s.delivered == s.scnt && s.sent == s.scnt && s.wdone == s.wread == s.wposted && s.wire == []
  }

  /** Otherwise there is something it can do. */
  lemma HardwareStep(s: Flow) returns (step: Step)
    requires FlowInv(s) && !HardwareIdle(s)
    ensures Possible(s, step) && step in {Deliver, Complete, ReadCtrl, Land, WriteDone}
    ensures step == Complete ==> s.sent < s.delivered
  {
    SentHasReceive(s);
    if s.delivered < s.scnt { return Deliver; }
    if s.sent < s.scnt { return Complete; }
    if s.wread < s.wposted { return ReadCtrl; }
    if s.wire != [] { return Land; }
    return WriteDone;
  }

  /** A caller can evaluate this before the run. */
  predicate NeverStarves(c: Config)
    requires 1 <= c.postList && 3 <= c.rxDepth
  {
    forall k | 0 <= k < c.iters && k % c.postList == 0 :: Lag(c, k) + c.postList < c.rxDepth
  }

  lemma ShortListsNeverStarve(c: Config)
    requires 1 <= c.postList && 3 <= c.rxDepth && c.postList <= c.rxDepth - c.rxDepth / 3
    ensures NeverStarves(c)
  {
    forall k | 0 <= k < c.iters && k % c.postList == 0
      ensures Lag(c, k) + c.postList < c.rxDepth
    {
      LagOfNext(c, k);
    }
  }

  /** Where the next list is too long for the freshest credit there can be, the sender stops. */
  ghost predicate StaysBelow(k: nat, s: Flow) {
    FlowInv(s) && s.scnt <= k < s.c.iters && k % s.c.postList == 0 && Lag(s.c, k) + s.c.postList >= s.c.rxDepth
  }

  lemma StarvedCannotPost(s: Flow)
    requires FlowInv(s) && s.scnt < s.c.iters && Lag(s.c, s.scnt) + s.c.postList >= s.c.rxDepth
    ensures !CanPost(s)
  {
    SendWindowIsExact(s);
    LagOfNext(s.c, s.scnt);
    LastCreditMonotone(s.c, s.Processed(), s.scnt);
  }

  lemma StarvedStaysBelow(k: nat, s: Flow, t: Flow, step: Step)
    requires StaysBelow(k, s) && FlowStep(s, t, step)
    ensures StaysBelow(k, t)
  {
    FlowStepInv(s, t, step);
    if s.scnt == k {
      StarvedCannotPost(s);
    } else {
      MultiplesApart(s.scnt, k, s.c.postList);
    }
  }
}
