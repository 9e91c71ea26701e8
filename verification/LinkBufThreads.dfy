/** `Link_buf` under concurrency: any number of threads each report one operation with `add_link`,
    after seeing `has_space`, while a single thread runs `advance_tail_until` again and again. Every
    step is one atomic access (src/include/link_buf.h). */
module LinkBufThreads {
  import opened Basics
  import opened LinkTracking
  import opened LinkBuf
  import Modular
  import Runs

  /** Where the tail-advancing thread is; `claims` counts the slots this call has reclaimed. */
  datatype Reader =
    | Idle
    | Scanning(pos: nat, claims: nat)
    | Following(pos: nat, next: nat, claims: nat)
    | Stopped(pos: nat, claims: nat)

  /** `admitted` holds the starts of the operations whose thread has seen free space, `checked` those
      whose thread is also past the assertion in `add_link`, `finished` those whose link is stored. */
  datatype State = State(
    ops: Operations,
    admitted: set<nat>,
    checked: set<nat>,
    finished: Operations,
    links: seq<nat>,
    tail: nat,
    reader: Reader)
  {
    function Pos(): nat {
      if reader.Idle? then tail else reader.pos
    }

    function SlotOf(f: nat): nat
      requires |links| > 0
    {
      Slot(f, |links|)
    }
  }

  datatype Step =
    | SeeSpace(f: nat)
    | CheckSlot(f: nat)
    | StoreLink(f: nat)
    | LoadTail
    | LoadLink
    | Refuse      // stop_condition returned true
    | Claim
    | Publish     // only this thread writes m_tail, so its reload of m_tail is not a separate step

  ghost predicate Init(s: State) {
    && Disjoint(s.ops)
    && s.admitted == {} && s.checked == {} && s.finished == map[]
    && IsPowerOfTwo(|s.links|)
    && (forall i :: 0 <= i < |s.links| ==> s.links[i] == 0)
    && s.tail == 0 && s.reader == Idle
  }

  ghost predicate NextStep(s: State, t: State, step: Step)
    requires |s.links| > 0
  {
    match step
    case SeeSpace(f) =>
      && f in s.ops && f !in s.admitted && f !in s.checked && f !in s.finished
      && HasSpaceAt(s.tail, |s.links|, f)
      && t == s.(admitted := s.admitted + {f})
    case CheckSlot(f) =>
      && f in s.admitted
      && t == s.(admitted := s.admitted - {f}, checked := s.checked + {f})
    case StoreLink(f) =>
      && f in s.checked && f in s.ops && f < s.ops[f]
      && t == s.(checked := s.checked - {f}, finished := s.finished[f := s.ops[f]],
                 links := s.links[s.SlotOf(f) := s.ops[f] - f])
    case LoadTail =>
      && s.reader.Idle?
      && t == s.(reader := Scanning(s.tail, 0))
    case LoadLink =>
      && s.reader.Scanning?
      && var distance := s.links[s.SlotOf(s.reader.pos)];
         t == s.(reader := if distance == 0 then Stopped(s.reader.pos, s.reader.claims)
                           else Following(s.reader.pos, s.reader.pos + distance, s.reader.claims))
    case Refuse =>
      && s.reader.Following?
      && t == s.(reader := Stopped(s.reader.pos, s.reader.claims))
    case Claim =>
      && s.reader.Following?
      && t == s.(links := s.links[s.SlotOf(s.reader.pos) := 0],
                 reader := Scanning(s.reader.next, s.reader.claims + 1))
    case Publish =>
      && s.reader.Stopped?
      && t == s.(tail := if s.reader.pos > s.tail then s.reader.pos else s.tail, reader := Idle)
  }

  ghost predicate Next(s: State, t: State) {
    |s.links| > 0 && exists step :: NextStep(s, t, step)
  }

  ghost predicate IsRun(run: seq<State>) {
    Runs.IsRun(Init, Next, run)
  }

  /** Threads between the space check and the store. */
  ghost predicate AddersInv(s: State) {
    && s.admitted !! s.checked
    && forall f :: f in s.admitted || f in s.checked ==> f in s.ops && f !in s.finished && f < s.tail + |s.links|
  }

  ghost predicate ReaderInv(s: State) {
    && (s.reader.Following? ==> s.reader.pos in s.finished && s.reader.next == s.finished[s.reader.pos])
    && (!s.reader.Idle? ==> s.reader.claims <= s.reader.pos - s.tail && s.reader.claims <= |s.links|)
  }

  ghost predicate Inv(s: State) {
    && Disjoint(s.ops)
    && (forall f :: f in s.finished ==> f in s.ops && s.ops[f] == s.finished[f])
    && Tracks(s.finished, s.links, s.tail, s.Pos())
    && AddersInv(s)
    && ReaderInv(s)
  }

  /** Some of the operations, and one more of them, are disjoint too. */
  lemma FinishedIsDisjoint(s: State, f: nat)
    requires Inv(s) && f in s.ops
    ensures Disjoint(s.finished)
    ensures f < s.ops[f] && Disjoint(s.finished[f := s.ops[f]])
  {
  }

  lemma InitInv(s: State)
    requires Init(s)
    ensures Inv(s)
  {
  }

  lemma StoreOthers(s: State, t: State, f: nat)
    requires AddersInv(s) && ReaderInv(s) && |s.links| > 0 && NextStep(s, t, StoreLink(f))
    ensures AddersInv(t) && ReaderInv(t)
  {
  }

  /** An operation past the space check and not stored yet meets what a store needs. */
  lemma CheckedIsNew(s: State, f: nat)
    requires Inv(s) && f in s.checked
    ensures f in s.ops && f !in s.finished && f < s.ops[f] && f < s.tail + |s.links|
    ensures Disjoint(s.finished[f := s.ops[f]])
  {
    FinishedIsDisjoint(s, f);
  }

  lemma StoreTracks(s: State, t: State, f: nat)
    requires Inv(s) && f in s.checked && f in s.ops && t.tail == s.tail && t.reader == s.reader
    requires t.finished == s.finished[f := s.ops[f]] && t.links == s.links[s.SlotOf(f) := s.ops[f] - f]
    ensures Tracks(t.finished, t.links, t.tail, t.Pos())
  {
    CheckedIsNew(s, f);
    TracksStore(s.finished, s.links, t.tail, t.Pos(), f, s.ops[f], t.finished, t.links);
  }

  lemma StoreFinished(s: State, t: State, f: nat)
    requires |s.links| > 0 && NextStep(s, t, StoreLink(f))
    requires forall g :: g in s.finished ==> g in s.ops && s.ops[g] == s.finished[g]
    ensures forall g :: g in t.finished ==> g in t.ops && t.ops[g] == t.finished[g]
  {
  }

  lemma StoreInv(s: State, t: State, f: nat)
    requires Inv(s) && NextStep(s, t, StoreLink(f))
    ensures Inv(t)
  {
    StoreTracks(s, t, f);
    StoreFinished(s, t, f);
    StoreOthers(s, t, f);
  }

  lemma ClaimInv(s: State, t: State)
    requires Inv(s) && NextStep(s, t, Claim)
    ensures Inv(t)
  {
    FinishedIsDisjoint(s, s.reader.pos);
    TracksClaim(s.finished, s.links, s.tail, s.reader.pos);
  }

  lemma AdderInv(s: State, t: State, step: Step)
    requires Inv(s) && NextStep(s, t, step) && (step.SeeSpace? || step.CheckSlot?)
    ensures Inv(t)
  {
  }

  lemma LoadLinkInv(s: State, t: State)
    requires Inv(s) && NextStep(s, t, LoadLink)
    ensures Inv(t)
  {
    if t.reader.Following? {
      LinkIsGenuine(s.finished, s.links, s.tail, s.reader.pos);
    }
  }

  lemma PublishInv(s: State, t: State)
    requires Inv(s) && NextStep(s, t, Publish)
    ensures Inv(t)
  {
    TracksPublish(s.finished, s.links, s.tail, s.reader.pos);
  }

  lemma ReaderMovesInv(s: State, t: State, step: Step)
    requires Inv(s) && NextStep(s, t, step) && (step.LoadTail? || step.Refuse?)
    ensures Inv(t)
  {
  }

  lemma NextInv(s: State, t: State)
    requires Inv(s) && Next(s, t)
    ensures Inv(t)
    ensures t.ops == s.ops && |t.links| == |s.links| && s.tail <= t.tail
  {
    var step :| NextStep(s, t, step);
    match step
    case StoreLink(f) => StoreInv(s, t, f);
    case Claim => ClaimInv(s, t);
    case SeeSpace(_) => AdderInv(s, t, step);
    case CheckSlot(_) => AdderInv(s, t, step);
    case LoadLink => LoadLinkInv(s, t);
    case Publish => PublishInv(s, t);
    case _ => ReaderMovesInv(s, t, step);
  }

  lemma RunInv(run: seq<State>, i: nat)
    requires IsRun(run) && i < |run|
    ensures Inv(run[i])
  {
    forall s | Init(s)
      ensures Inv(s)
    {
      InitInv(s);
    }
    forall s, t | Inv(s) && Next(s, t)
      ensures Inv(t)
    {
      NextInv(s, t);
    }
    Runs.Holds(Init, Next, Inv, run, i);
  }

  /** Between the space check and the store the slot stays zero: the assertion in `add_link` never
      fires and the store overwrites no pending link. */
  lemma AddersFindTheirSlotFree(run: seq<State>, i: nat, f: nat)
    requires IsRun(run) && i < |run| && (f in run[i].admitted || f in run[i].checked)
    ensures |run[i].links| > 0 && run[i].links[run[i].SlotOf(f)] == 0
  {
    RunInv(run, i);
    var s := run[i];
    FinishedIsDisjoint(s, f);
    SlotIsFree(s.finished, s.links, s.tail, s.Pos(), f, s.ops[f]);
  }

  /** The operation is reported but not yet claimed, and its slot is the given one. */
  ghost predicate Pending(s: State, f: nat, slot: nat) {
    && f in s.finished && s.Pos() <= f < s.tail + |s.links|
    && |s.links| > 0 && s.SlotOf(f) == slot
  }

  lemma PendingLinks(s: State, slot: nat)
    requires Inv(s) && slot < |s.links|
    ensures s.links[slot] != 0 <==> exists f :: Pending(s, f, slot)
    ensures forall f :: Pending(s, f, slot) ==> s.ops[f] == f + s.links[slot]
    ensures forall f, g :: Pending(s, f, slot) && Pending(s, g, slot) ==> f == g
  {
    if s.links[slot] != 0 {
      var f :| f in s.finished && s.Pos() <= f && Slot(f, |s.links|) == slot;
      assert Pending(s, f, slot);
    }
    forall f: nat, g: nat | Pending(s, f, slot) && Pending(s, g, slot)
      ensures f == g
    {
      Modular.SameRemainder(f, g, |s.links|);
    }
  }

  /** A slot is non-zero exactly when an operation starting there, in the window from the reader's
      position to a ring length past the published tail, is reported and unclaimed; that operation is
      unique and the slot holds its length. */
  lemma SlotsAreExactlyThePendingLinks(run: seq<State>, i: nat, slot: nat)
    requires IsRun(run) && i < |run| && slot < |run[i].links|
    ensures run[i].links[slot] != 0 <==> exists f :: Pending(run[i], f, slot)
    ensures forall f :: Pending(run[i], f, slot) ==>
                          f in run[i].ops && run[i].ops[f] == f + run[i].links[slot]
    ensures forall f, g :: Pending(run[i], f, slot) && Pending(run[i], g, slot) ==> f == g
  {
    RunInv(run, i);
    PendingLinks(run[i], slot);
  }

  /** A reader that finds a non-zero slot follows the link of the operation starting at its own
      position, never another's; the sum it computes stays below the largest Position. */
  lemma ReaderFollowsItsOwnLink(run: seq<State>, i: nat)
    requires IsRun(run) && i < |run| && run[i].reader.Scanning?
    requires |run[i].links| > 0 && run[i].links[run[i].SlotOf(run[i].reader.pos)] != 0
    ensures run[i].reader.pos in run[i].finished
    ensures run[i].finished[run[i].reader.pos] == run[i].reader.pos + run[i].links[run[i].SlotOf(run[i].reader.pos)]
    ensures run[i].finished[run[i].reader.pos] < TWO_64 - 1
  {
    RunInv(run, i);
    LinkIsGenuine(run[i].finished, run[i].links, run[i].tail, run[i].reader.pos);
  }

  /** Everything below the published tail is finished, and no reported operation is lost: it is
      either wholly below the reader or still stored in its slot. */
  lemma TailIsFinished(run: seq<State>, i: nat)
    requires IsRun(run) && i < |run|
    ensures forall x: nat :: x < run[i].tail ==> Covered(run[i].finished, x)
    ensures forall f :: f in run[i].finished ==>
              || run[i].finished[f] <= run[i].Pos()
              || (f >= run[i].Pos() && exists slot :: Pending(run[i], f, slot))
  {
    RunInv(run, i);
    forall f | f in run[i].finished && f >= run[i].Pos()
      ensures exists slot :: Pending(run[i], f, slot)
    {
      assert Pending(run[i], f, run[i].SlotOf(f));
    }
  }

  lemma TailAtStep(run: seq<State>, j: nat)
    requires IsRun(run) && 0 < j < |run|
    ensures run[j - 1].tail <= run[j].tail
  {
    Runs.StepAt(Init, Next, run, j - 1);
    RunInv(run, j - 1);
    NextInv(run[j - 1], run[j]);
  }

  lemma {:induction false} TailNeverDecreases(run: seq<State>, i: nat, j: nat)
    requires IsRun(run) && i <= j < |run|
    ensures run[i].tail <= run[j].tail
    decreases j
  {
    if i < j {
      TailNeverDecreases(run, i, j - 1);
      TailAtStep(run, j);
    }
  }

  /** How the reader comes to stop: it already stood there, or it read an empty slot on a point that no
      finished operation covers, or the stop condition refused a link. */
  lemma StopsAtHole(s: State, t: State)
    requires Inv(s) && Next(s, t) && t.reader.Stopped? && s.reader != t.reader
    ensures !s.reader.Idle? && s.reader.pos == t.reader.pos && t.finished == s.finished
    ensures s.reader.Scanning? ==> !Covered(s.finished, s.reader.pos)
    ensures s.reader.Scanning? || s.reader.Following?
  {
    var step :| NextStep(s, t, step);
    FinishedIsDisjointNow(s);
    if step.LoadLink? {
      EmptySlotIsHole(s.finished, s.links, s.tail, s.reader.pos);
    }
  }

  lemma FinishedIsDisjointNow(s: State)
    requires Inv(s)
    ensures Disjoint(s.finished)
  {
  }

  /** In every run a reader that stops by itself stands on a point that no finished operation covers; where
      one does, it goes on. */
  lemma ReaderStopsOnlyAtHoles(run: seq<State>, i: nat)
    requires IsRun(run) && i + 1 < |run| && run[i].reader.Scanning? && run[i + 1].reader.Stopped?
    ensures !Covered(run[i].finished, run[i].reader.pos)
  {
    RunInv(run, i);
    Runs.StepAt(Init, Next, run, i);
    StopsAtHole(run[i], run[i + 1]);
  }

  /** From state i to state j no operation is reported and the stop condition refuses nothing. */
  ghost predicate Undisturbed(run: seq<State>, i: nat, j: nat)
    requires i <= j < |run|
  {
    && (forall k :: i <= k <= j ==> run[k].finished == run[i].finished)
    && (forall k, l :: i <= k < j && l == k + 1 ==> !(run[k].reader.Following? && run[l].reader.Stopped?))
  }

  ghost predicate IsFirstHole(finished: Operations, hole: nat) {
    !Covered(finished, hole) && forall x: nat :: x < hole ==> Covered(finished, x)
  }

  lemma {:induction false} UndisturbedStop(run: seq<State>, i: nat, j: nat)
    requires IsRun(run) && i <= j < |run| && Undisturbed(run, i, j)
    requires run[i].reader.Idle? && run[j].reader.Stopped?
    ensures !Covered(run[j].finished, run[j].reader.pos)
    decreases j
  {
    var k := j - 1;
    RunInv(run, k);
    Runs.StepAt(Init, Next, run, k);
    if run[k].reader == run[j].reader {
      UndisturbedStop(run, i, k);
    } else {
      StopsAtHole(run[k], run[j]);
    }
  }

  /** A call during which nothing is reported or refused publishes the first point that no finished operation
      covers. */
  lemma CallLandsOnFirstHole(run: seq<State>, i: nat, j: nat)
    requires IsRun(run) && i <= j && j + 1 < |run| && Undisturbed(run, i, j)
    requires run[i].reader.Idle? && run[j].reader.Stopped? && run[j + 1].reader.Idle?
    ensures IsFirstHole(run[j + 1].finished, run[j + 1].tail)
  {
    UndisturbedStop(run, i, j);
    RunInv(run, j);
    TailIsFinished(run, j + 1);
    Runs.StepAt(Init, Next, run, j);
    PublishesPosition(run[j], run[j + 1]);
  }

  lemma PublishesPosition(s: State, t: State)
    requires Inv(s) && Next(s, t) && s.reader.Stopped? && t.reader.Idle?
    ensures t.tail == s.reader.pos && t.finished == s.finished
  {
    var step :| NextStep(s, t, step);
  }

  /** A thread can be admitted exactly inside the window of the published tail, and then report. */
  lemma AdmittedIff(s: State, f: nat)
    requires Inv(s) && f in s.ops && f !in s.admitted && f !in s.checked && f !in s.finished
    requires s.tail + |s.links| < TWO_64
    ensures (exists t :: NextStep(s, t, SeeSpace(f))) <==> f < s.tail + |s.links|
  {
    if f < s.tail + |s.links| {
      assert NextStep(s, s.(admitted := s.admitted + {f}), SeeSpace(f));
    }
  }

  /** An admitted operation can always be reported, whatever the other threads are doing. */
  lemma AdmittedCanReport(s: State, f: nat) returns (checked: State, stored: State)
    requires Inv(s) && f in s.admitted
    ensures Next(s, checked) && Next(checked, stored)
    ensures f in stored.finished && stored.finished[f] == s.ops[f]
    ensures |stored.links| == |s.links| && stored.links[s.SlotOf(f)] == s.ops[f] - f
  {
    FinishedIsDisjoint(s, f);
    checked := s.(admitted := s.admitted - {f}, checked := s.checked + {f});
    assert NextStep(s, checked, CheckSlot(f));
    stored := checked.(checked := checked.checked - {f}, finished := checked.finished[f := s.ops[f]],
                       links := checked.links[s.SlotOf(f) := s.ops[f] - f]);
    assert NextStep(checked, stored, StoreLink(f));
  }

  /** One call reclaims at most `capacity` slots, however many links are added meanwhile: a reader
      about to claim is inside the window of the tail it has not yet published, and each claim moves
      it forward. */
  lemma ReaderIsBounded(run: seq<State>, i: nat)
    requires IsRun(run) && i < |run| && !run[i].reader.Idle?
    ensures run[i].reader.claims <= |run[i].links|
    ensures run[i].reader.Following? ==>
              run[i].reader.pos < run[i].tail + |run[i].links| && run[i].reader.pos < run[i].reader.next
  {
    RunInv(run, i);
  }

  /** One if this step zeroes a slot. */
  ghost function Claimed(s: State, t: State): nat {
    if s.reader.Following? && t.reader.Scanning? then 1 else 0
  }

  /** How many links are claimed from state i to state j. */
  ghost function ClaimsBetween(run: seq<State>, i: nat, j: nat): nat
    requires i <= j < |run|
  {
    if i == j then 0 else ClaimsBetween(run, i, j - 1) + Claimed(run[j - 1], run[j])
  }

  lemma ReaderStep(s: State, t: State)
    requires Next(s, t) && !t.reader.Idle?
    ensures s.reader.Idle? ==> t.reader == Scanning(s.tail, 0) && Claimed(s, t) == 0
    ensures !s.reader.Idle? ==> t.reader.claims == s.reader.claims + Claimed(s, t)
  {
  }

  /** A call is under way from behind state i up to state j. */
  ghost predicate Busy(run: seq<State>, i: nat, j: nat) {
    j < |run| && forall k :: i < k <= j ==> !run[k].reader.Idle?
  }

  /** What the reader's count does at step k of a call that began at state i. */
  ghost predicate CountsStep(run: seq<State>, i: nat, k: nat)
    requires i < k < |run|
  {
    && !run[k].reader.Idle? && (k - 1 > i ==> !run[k - 1].reader.Idle?)
    && run[k].reader.claims == (if k - 1 > i then run[k - 1].reader.claims else 0) + Claimed(run[k - 1], run[k])
  }

  lemma ReaderStepAt(run: seq<State>, i: nat, k: nat)
    requires IsRun(run) && i < k && Busy(run, i, k) && run[i].reader.Idle?
    ensures CountsStep(run, i, k)
  {
    Runs.StepAt(Init, Next, run, k - 1);
    ReaderStep(run[k - 1], run[k]);
  }

  lemma {:induction false} CountsUp(run: seq<State>, i: nat, j: nat)
    requires i < j < |run| && forall k :: i < k <= j ==> CountsStep(run, i, k)
    ensures !run[j].reader.Idle? && run[j].reader.claims == ClaimsBetween(run, i, j)
    decreases j
  {
    assert CountsStep(run, i, j);
    if j - 1 > i {
      CountsUp(run, i, j - 1);
    } else {
      assert ClaimsBetween(run, i, j - 1) == 0;
    }
  }

  /** The reader's count is that of the slots it has zeroed since its call began. */
  lemma ClaimsAreCounted(run: seq<State>, i: nat, j: nat)
    requires IsRun(run) && i < j && Busy(run, i, j) && run[i].reader.Idle?
    ensures run[j].reader.claims == ClaimsBetween(run, i, j)
  {
    forall k | i < k <= j
      ensures CountsStep(run, i, k)
    {
      ReaderStepAt(run, i, k);
    }
    CountsUp(run, i, j);
  }
}
