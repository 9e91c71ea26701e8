/** Which event of a bandwidth run each slot of `tposted` and `tcompleted` is stamped by, and in which order
    the stamps were taken (lib/perf/perftest_resources.c). Event n of a log takes reading n of the cycle
    counter. */
module Stamps {
  import opened Basics
  import opened Moderation
  import opened Modular
  import opened RunLog

  /** The slot in which a completion is recorded that brings the count to n + cqMod. */
  function RecordAt(c: Config, total: nat, n: nat): (i: nat)
    requires c.cqMod > 0 && total > 0
    ensures i < total
  {
    if n + c.cqMod > total then total - 1 else n + c.cqMod - 1
  }

  /** The event that stamped `tposted[x]` last. */
  function PostedAt(c: Config, log: seq<Event>, x: nat): Option<nat> {
    if log == [] then None
    else
      var rest := log[..|log| - 1];
      if log[|log| - 1].Posted? && TotScnt(c, rest) == x then Some(|rest|) else PostedAt(c, rest, x)
  }

  /** The event that stamped `tcompleted[x]` last. */
  function CompletedAt(c: Config, total: nat, log: seq<Event>, x: nat): Option<nat>
    requires c.cqMod > 0 && total > 0
  {
    if log == [] then None
    else
      var rest := log[..|log| - 1];
      if log[|log| - 1].Completed? && RecordAt(c, total, TotCcnt(c, rest)) == x then Some(|rest|)
      else CompletedAt(c, total, rest, x)
  }

  lemma StampEvent(c: Config, total: nat, log: seq<Event>, e: Event, x: nat)
    requires c.cqMod > 0 && total > 0
    ensures PostedAt(c, log + [e], x) ==
              if e.Posted? && TotScnt(c, log) == x then Some(|log|) else PostedAt(c, log, x)
    ensures CompletedAt(c, total, log + [e], x) ==
              if e.Completed? && RecordAt(c, total, TotCcnt(c, log)) == x then Some(|log|)
              else CompletedAt(c, total, log, x)
  {
    assert (log + [e])[..|log + [e]| - 1] == log;
  }

  // ---- the counts of the prefixes

  lemma {:induction false} CountsGrow(c: Config, log: seq<Event>, n: nat, m: nat)
    requires n <= m <= |log|
    ensures TotScnt(c, log[..n]) <= TotScnt(c, log[..m]) && TotCcnt(c, log[..n]) <= TotCcnt(c, log[..m])
    ensures n < m && log[n].Posted? ==> TotScnt(c, log[..n]) + c.postList <= TotScnt(c, log[..m])
    ensures n < m && log[n].Completed? ==> TotCcnt(c, log[..n]) + c.cqMod <= TotCcnt(c, log[..m])
  {
    if n < m {
      CountsGrow(c, log, n, m - 1);
      assert log[..m] == log[..m - 1] + [log[m - 1]];
      CountersMove(c, log[..m - 1], log[m - 1], 0);
    }
  }

  // ---- what the stamps say

  lemma {:induction false} PostedAtIs(c: Config, log: seq<Event>, x: nat, n: nat)
    requires PostedAt(c, log, x) == Some(n)
    ensures n < |log| && log[n].Posted? && TotScnt(c, log[..n]) == x
  {
    var rest := log[..|log| - 1];
    if !(log[|log| - 1].Posted? && TotScnt(c, rest) == x) {
      PostedAtIs(c, rest, x, n);
      assert rest[..n] == log[..n];
    }
  }

  lemma {:induction false} CompletedAtIs(c: Config, total: nat, log: seq<Event>, x: nat, n: nat)
    requires c.cqMod > 0 && total > 0 && CompletedAt(c, total, log, x) == Some(n)
    ensures n < |log| && log[n].Completed? && RecordAt(c, total, TotCcnt(c, log[..n])) == x
  {
    var rest := log[..|log| - 1];
    if !(log[|log| - 1].Completed? && RecordAt(c, total, TotCcnt(c, rest)) == x) {
      CompletedAtIs(c, total, rest, x, n);
      assert rest[..n] == log[..n];
    }
  }

  /** Every posting keeps its slot: no later one writes it again. */
  lemma {:induction false} PostingKeepsSlot(c: Config, log: seq<Event>, n: nat)
    requires c.postList > 0 && n < |log| && log[n].Posted?
    ensures PostedAt(c, log, TotScnt(c, log[..n])) == Some(n)
  {
    var rest := log[..|log| - 1];
    if n < |rest| {
      PostingKeepsSlot(c, rest, n);
      assert rest[..n] == log[..n];
      CountsGrow(c, log, n, |rest|);
    }
  }

  /** A completion keeps its slot unless it is the last slot, which the final completions share. */
  lemma {:induction false} CompletionKeepsSlot(c: Config, total: nat, log: seq<Event>, n: nat)
    requires c.cqMod > 0 && total > 0 && n < |log| && log[n].Completed?
    ensures var x := RecordAt(c, total, TotCcnt(c, log[..n]));
            var k := CompletedAt(c, total, log, x);
            k.Some? && k.value >= n && (x < total - 1 ==> k.value == n)
  {
    var rest := log[..|log| - 1];
    if n < |rest| {
      CompletionKeepsSlot(c, total, rest, n);
      assert rest[..n] == log[..n];
      CountsGrow(c, log, n, |rest|);
    }
  }

  /** The readings go up with the slots. */
  lemma StampsIncrease(c: Config, total: nat, log: seq<Event>, x: nat, y: nat)
    requires c.cqMod > 0 && total > 0 && x < y
    ensures PostedAt(c, log, x).Some? && PostedAt(c, log, y).Some? ==>
              PostedAt(c, log, x).value < PostedAt(c, log, y).value
    ensures CompletedAt(c, total, log, x).Some? && CompletedAt(c, total, log, y).Some? ==>
              CompletedAt(c, total, log, x).value < CompletedAt(c, total, log, y).value
  {
    if PostedAt(c, log, x).Some? && PostedAt(c, log, y).Some? {
      var n, m := PostedAt(c, log, x).value, PostedAt(c, log, y).value;
      PostedAtIs(c, log, x, n);
      PostedAtIs(c, log, y, m);
      if m <= n {
        CountsGrow(c, log, m, n);
      }
    }
    if CompletedAt(c, total, log, x).Some? && CompletedAt(c, total, log, y).Some? {
      var n, m := CompletedAt(c, total, log, x).value, CompletedAt(c, total, log, y).value;
      CompletedAtIs(c, total, log, x, n);
      CompletedAtIs(c, total, log, y, m);
      if m <= n {
        CountsGrow(c, log, m, n);
      }
    }
  }

  // ---- no gap

  lemma {:induction false} PostingsFound(c: Config, log: seq<Event>, x: nat)
    requires c.postList > 0 && x < TotScnt(c, log) && x % c.postList == 0
    ensures PostedAt(c, log, x).Some?
  {
    if log != [] {
      var rest, e := log[..|log| - 1], log[|log| - 1];
      assert log == rest + [e];
      CountersMove(c, rest, e, 0);
      if x < TotScnt(c, rest) {
        PostingsFound(c, rest, x);
      } else {
        AddMultiple(0, Posts(rest), c.postList);
        SameRemainder(x, TotScnt(c, rest), c.postList);
      }
    }
  }

  lemma {:induction false} CompletionsFound(c: Config, total: nat, log: seq<Event>, x: nat)
    requires c.cqMod > 0 && x < total && x < TotCcnt(c, log)
    requires (x + 1) % c.cqMod == 0 || (x == total - 1 && total <= TotCcnt(c, log))
    ensures CompletedAt(c, total, log, x).Some?
  {
    if log != [] {
      var rest, e := log[..|log| - 1], log[|log| - 1];
      assert log == rest + [e];
      CountersMove(c, rest, e, 0);
      if x < TotCcnt(c, rest) {
        CompletionsFound(c, total, rest, x);
      } else {
        SlotReached(c, total, Dones(rest), TotCcnt(c, rest), x);
      }
    }
  }

  lemma SlotReached(c: Config, total: nat, dones: nat, n: nat, x: nat)
    requires c.cqMod > 0 && n == c.cqMod * dones && n <= x < n + c.cqMod && x < total
    requires (x + 1) % c.cqMod == 0 || (x == total - 1 && total <= n + c.cqMod)
    ensures RecordAt(c, total, n) == x
  {
    if (x + 1) % c.cqMod == 0 {
      AddMultiple(0, dones + 1, c.cqMod);
      OneMore(c.cqMod, dones);
      SameRemainder(x + 1, n + c.cqMod, c.cqMod);
    }
  }

  // ---- postings before completions

  /** A pair the peak search looks at: a list posted at i, and a completion recorded at j. */
  predicate PeakPair(c: Config, total: nat, i: nat, j: nat)
    requires c.cqMod > 0 && c.postList > 0
  {
    && i <= j < total && i % c.postList == 0
    && ((j + 1) % c.cqMod == 0 || (j + 1 == total && total % c.cqMod != 0))
  }

  /** For every pair the search looks at, the sends of slot i were posted before the completion of slot j was
      polled, as far as both have happened. */
  ghost predicate InOrder(c: Config, total: nat, log: seq<Event>)
    requires c.cqMod > 0 && c.postList > 0 && total > 0
  {
    forall i: nat, j: nat ::
      PeakPair(c, total, i, j) && PostedAt(c, log, i).Some? && CompletedAt(c, total, log, j).Some? ==>
        PostedAt(c, log, i).value < CompletedAt(c, total, log, j).value
  }

  lemma PostedBeforeCompleted(c: Config, qps: nat, log: seq<Event>, i: nat, j: nat, n: nat, m: nat)
    requires Moderated(c) && IsLog(c, qps, log) && (c.iters % c.cqMod == 0 || qps == 1) && c.iters * qps > 0
    requires i <= j && PostedAt(c, log, i) == Some(n) && CompletedAt(c, c.iters * qps, log, j) == Some(m)
    ensures n < m
  {
    PostedAtIs(c, log, i, n);
    CompletedAtIs(c, c.iters * qps, log, j, m);
    var before, after := log[..m], log[..m + 1];
    assert after == before + [log[m]];
    CountersMove(c, before, log[m], 0);
    PrefixIsLog(c, qps, log, m + 1);
    CreditedInAll(c, qps, after);
    if m <= n {
      CountsGrow(c, log, m, n);
    }
  }

  lemma PrefixIsLog(c: Config, qps: nat, log: seq<Event>, n: nat)
    requires c.cqMod > 0 && IsLog(c, qps, log) && n <= |log|
    ensures IsLog(c, qps, log[..n])
  {
    if n < |log| {
      AllowedAt(c, qps, log, n);
    } else {
      assert log[..n] == log;
    }
  }
}
