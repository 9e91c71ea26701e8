/** Completion-queue moderation: which sends ask for a completion, and what one completion stands for
    (lib/perf/perftest_resources.c). All counters are per queue pair. */
module Moderation {
  import opened Basics
  import opened Modular

  /** A C expression of unsigned 64-bit type. */
  function U64(x: int): nat {
    x % TWO_64
  }

  /** A small negative difference wraps to a huge number. */
  lemma Wraps(x: int)
    requires 0 <= x + TWO_64 && x < TWO_64
    ensures U64(x) == if x >= 0 then x else x + TWO_64
  {
  }

  /** The parameters of an ITERATIONS run; `peerTxDepth` is the other side's send queue depth. */
  datatype Config = Config(
    iters: nat,
    postList: nat,
    cqMod: nat,
    txDepth: nat,
    rxDepth: nat,
    peerTxDepth: nat)

  /** What the send side relies on. */
  predicate Moderated(c: Config) {
    && 1 <= c.cqMod <= c.txDepth
    && 1 <= c.postList <= c.txDepth
    && 1 <= c.iters && c.iters + c.cqMod + c.txDepth < TWO_32
    && c.iters % c.postList == 0
    && (if c.postList == 1 then c.cqMod <= c.iters else c.postList % c.cqMod == 0)
  }

  /** Send k of a queue pair is posted with IBV_SEND_SIGNALED. */
  predicate Signalled(c: Config, k: nat)
    requires c.cqMod > 0
  {
    (k + 1) % c.cqMod == 0 || k + 1 == c.iters
  }

  /** How many of the first n sends are signalled, that is, how many completions they produce. */
  function SignalsBefore(c: Config, n: nat): nat
    requires c.cqMod > 0
  {
    if n == 0 then 0 else SignalsBefore(c, n - 1) + if Signalled(c, n - 1) then 1 else 0
  }

  lemma {:induction false} SignalsBeforeIs(c: Config, n: nat)
    requires c.cqMod > 0 && n <= c.iters
    ensures SignalsBefore(c, n) == n / c.cqMod + if n == c.iters && n % c.cqMod != 0 then 1 else 0
  {
    if n > 0 {
      SignalsBeforeIs(c, n - 1);
      Successor(n - 1, c.cqMod);
    }
  }

  lemma {:induction false} SignalsMonotone(c: Config, m: nat, n: nat)
    requires c.cqMod > 0 && m <= n
    ensures SignalsBefore(c, m) <= SignalsBefore(c, n)
  {
    if m < n {
      SignalsMonotone(c, m, n - 1);
    }
  }

  /** The credited completions of the first n sends: never more than the sends, except that the
      last completion of an indivisible run still counts as `cqMod`. */
  lemma CompletionsCounted(c: Config, n: nat)
    requires Moderated(c) && n <= c.iters
    ensures n < c.iters ==> c.cqMod * SignalsBefore(c, n) <= n < c.cqMod * SignalsBefore(c, n) + c.cqMod
    ensures n == c.iters ==> n <= c.cqMod * SignalsBefore(c, n) < n + c.cqMod
    ensures n == c.iters ==> (n == c.cqMod * SignalsBefore(c, n) <==> c.iters % c.cqMod == 0)
  {
    SignalsBeforeIs(c, n);
    var m, q := c.cqMod, n / c.cqMod;
    DivideExactly(n, m);
    OneMore(m, q);
    assert SignalsBefore(c, n) == q || SignalsBefore(c, n) == q + 1;
  }

  /** The window of a sender that has polled `polled` completions, as the posting loop computes it:
      `scnt - ccnt + post_list <= tx_depth` in unsigned 64-bit arithmetic. */
  predicate WindowOpen(c: Config, scnt: nat, polled: nat) {
    U64(scnt - c.cqMod * polled + c.postList) <= c.txDepth
  }

  /** While sends remain the subtraction does not wrap. */
  lemma WindowIsExact(c: Config, scnt: nat, polled: nat)
    requires Moderated(c) && scnt < c.iters && polled <= SignalsBefore(c, scnt)
    ensures c.cqMod * polled <= scnt
    ensures WindowOpen(c, scnt, polled) <==> scnt - c.cqMod * polled + c.postList <= c.txDepth
  {
    CreditedIsSent(c, scnt, polled);
    ExactWindow(scnt, c.cqMod * polled, c.postList, c.txDepth);
  }

  lemma ExactWindow(scnt: nat, completed: nat, postList: nat, depth: nat)
    requires completed <= scnt && scnt + postList < TWO_64
    ensures U64(scnt - completed + postList) <= depth <==> scnt - completed + postList <= depth
  {
    Wraps(scnt - completed + postList);
  }

  lemma CreditedIsSent(c: Config, scnt: nat, polled: nat)
    requires Moderated(c) && scnt < c.iters && polled <= SignalsBefore(c, scnt)
    ensures c.cqMod * polled <= scnt
  {
    CompletionsCounted(c, scnt);
    Scale(c.cqMod, polled, SignalsBefore(c, scnt));
  }

  lemma Scale(k: nat, a: nat, b: nat)
    requires a <= b
    ensures k * a <= k * b
    ensures a < b ==> k * a + k <= k * b
  {
    if a < b {
      assert k * b == k * a + k * (b - a);
      Multiples(b - a, k);
    }
  }

  /** Whenever the window is closed with sends left, a signalled send is still unpolled. */
  lemma ClosedWindowHasSignal(c: Config, scnt: nat, polled: nat)
    requires Moderated(c) && scnt < c.iters && scnt % c.postList == 0
    requires polled <= SignalsBefore(c, scnt) && !WindowOpen(c, scnt, polled)
    ensures polled < SignalsBefore(c, scnt)
  {
    WindowIsExact(c, scnt, polled);
    CompletionsCounted(c, scnt);
    if c.postList > 1 && polled == SignalsBefore(c, scnt) {
      ListIsSignalled(c, scnt);
    }
  }

  /** Posting whole lists, every list ends in a signalled send: all completions polled means all
      sends counted. */
  lemma ListIsSignalled(c: Config, scnt: nat)
    requires Moderated(c) && c.postList > 1 && scnt % c.postList == 0 && scnt <= c.iters
    ensures scnt == c.cqMod * SignalsBefore(c, scnt)
  {
    DividesTransitive(scnt, c.postList, c.cqMod);
    SignalsBeforeIs(c, scnt);
    DivideExactly(scnt, c.cqMod);
  }
}
