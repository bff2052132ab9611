/** Particular runs of the dispatcher: calls that run alone, first calls that overlap, a run that
    leaks, and how long a queued call waits. */
module DispatcherRuns {
  import opened Common
  import opened ProviderSlots
  import opened Dispatcher
  import Affinity

  // ---------- performing actions in a row ----------

  function Step(s: State, a: Action): Option<State> {
    if Enabled(s, a) then Some(Next(s, a)) else None
  }

  lemma {:induction false} PerformKeeps(s: State, acts: seq<Action>)
    requires Inv(s) && Perform(Step, s, acts).Some?
    ensures Inv(Perform(Step, s, acts).value)
    decreases |acts|
  {
    if acts != [] {
      StepKeeps(s, acts[0]);
      PerformKeeps(Next(s, acts[0]), acts[1..]);
    }
  }

  // ---------- a call that runs alone ----------

  /** The steps of call `c` when its first provider answers and nobody is in its way. */
  function Alone(c: CallId, rows: seq<ProviderId>): seq<Action> {
    [Start(c, rows), Choose(c), Enqueue(c), Reply(c, true), Finish(c)]
  }

  function VisitOf(s: State, c: CallId, rows: seq<ProviderId>): Affinity.Visit
    requires c < |s.calls|
  {
    Affinity.Visit(s.calls[c].caller, rows, Depths(s.slots))
  }

  /** Call `c` of lab `lab` has yet to start, and its candidates are registered. */
  predicate Ready(s: State, c: CallId, lab: LabId, rows: seq<ProviderId>) {
    && c < |s.calls| && s.calls[c].pc.Idle? && s.calls[c].lab == Some(lab)
    && rows != [] && forall p :: p in rows ==> p in s.slots
  }

  lemma QuiescentSlotIsFree(s: State, p: ProviderId)
    requires Inv(s) && Quiescent(s) && p in s.slots
    ensures var slot := s.slots[p];
      slot.queue == [] && slot.granted == {} && slot.active == {} && 0 < slot.free
  {
    var slot := s.slots[p];
    forall c: CallId ensures !slot.Knows(c) {
      assert Agrees(s, p, c);
    }
    if slot.queue != [] {
      assert slot.Knows(slot.queue[0]);
    }
    assert forall c :: c in slot.granted || c in slot.active ==> slot.Knows(c);
    assert slot.granted == {} && slot.active == {};
  }

  /** At an idle slot an acquire and the release leave no trace. */
  lemma AcquireAndRelease(slot: Slot, c: CallId)
    requires slot.queue == [] && slot.granted == {} && slot.active == {} && 0 < slot.free
    ensures c in BeginAcquire(slot, c).active
    ensures Release(BeginAcquire(slot, c), c) == slot
  {
    assert BeginAcquire(slot, c).active - {c} == {};
  }

  /** The call up to its turn at its provider `p`, the first in its order. */
  lemma AloneDispatches(s: State, c: CallId, lab: LabId, rows: seq<ProviderId>)
    requires Inv(s) && Ready(s, c, lab, rows)
    ensures var order := Affinity.Order(rows, Depths(s.slots), s.pins, Some(lab), s.calls[c].caller);
      && order != [] && order[0] in rows
      && Enabled(s, Start(c, rows))
      && Enabled(Next(s, Start(c, rows)), Choose(c))
      && var s2 := Next(Next(s, Start(c, rows)), Choose(c));
         && s2.slots == s.slots && s2.pins == s.pins && |s2.calls| == |s.calls|
         && s2.calls == s.calls[c := s2.calls[c]]
         && s2.calls[c].pc == Dispatched(order[0]) && s2.calls[c].lab == Some(lab)
         && s2.calls[c].caller == s.calls[c].caller
  {
    assert CallInv(s.calls[c], s.slots.Keys);
    Affinity.FirstChoice(rows, Depths(s.slots), s.pins, lab, s.calls[c].caller);
  }

  /** Its turn at an idle slot. */
  lemma AloneAnswers(s: State, c: CallId, p: ProviderId)
    requires c < |s.calls| && s.calls[c].pc == Dispatched(p) && p in s.slots && s.calls[c].lab.Some?
    requires var slot := s.slots[p]; slot.queue == [] && slot.granted == {} && slot.active == {} && 0 < slot.free
    ensures Enabled(s, Enqueue(c))
    ensures Enabled(Next(s, Enqueue(c)), Reply(c, true))
    ensures Enabled(Next(Next(s, Enqueue(c)), Reply(c, true)), Finish(c))
    ensures var s' := Next(Next(Next(s, Enqueue(c)), Reply(c, true)), Finish(c));
      && s'.slots == s.slots && |s'.calls| == |s.calls| && s'.calls == s.calls[c := s'.calls[c]]
      && s'.calls[c].pc == Done(Answered(p))
      && s'.pins == s.pins[(s.calls[c].lab.value, s.calls[c].caller) := p]
  {
    AcquireAndRelease(s.slots[p], c);
    var s3 := Next(s, Enqueue(c));
    assert s3.calls[c].pc == Calling(p);
    var s4 := Next(s3, Reply(c, true));
    assert s4.calls[c].pc == Closing(p, true) && s4.slots == s3.slots;
    assert s3.slots[p := s.slots[p]] == s.slots;
  }

  /** What a call alone does: it is answered by its first provider, every slot is as before, and
      the pins change exactly as `PinsAfterVisit` says, at the depths the call found. */
  lemma CallAlone(s: State, c: CallId, lab: LabId, rows: seq<ProviderId>)
    requires Inv(s) && Quiescent(s) && Ready(s, c, lab, rows)
    ensures Perform(Step, s, Alone(c, rows)).Some?
    ensures var s' := Perform(Step, s, Alone(c, rows)).value;
      && Inv(s') && Quiescent(s') && s'.slots == s.slots
      && s'.pins == Affinity.PinsAfterVisit(s.pins, lab, VisitOf(s, c, rows))
      && |s'.calls| == |s.calls| && s'.calls == s.calls[c := s'.calls[c]]
      && s'.calls[c].pc.Done?
  {
    var p := Affinity.Order(rows, Depths(s.slots), s.pins, Some(lab), s.calls[c].caller)[0];
    AloneDispatches(s, c, lab, rows);
    var s1 := Next(s, Start(c, rows));
    var s2 := Next(s1, Choose(c));
    QuiescentSlotIsFree(s, p);
    AloneAnswers(s2, c, p);
    var s3 := Next(s2, Enqueue(c));
    var s4 := Next(s3, Reply(c, true));
    var s5 := Next(s4, Finish(c));
    AloneIsPerformed(s, c, rows, s1, s2, s3, s4, s5);
    PerformKeeps(s, Alone(c, rows));
    OnlyOneEnded(s, s5, c);
  }

  lemma OnlyOneEnded(s: State, s': State, c: CallId)
    requires Quiescent(s) && c < |s.calls| == |s'.calls| && s'.calls == s.calls[c := s'.calls[c]] && s'.calls[c].pc.Done?
    ensures Quiescent(s')
  {
  }

  lemma AloneIsPerformed(s: State, c: CallId, rows: seq<ProviderId>,
                         s1: State, s2: State, s3: State, s4: State, s5: State)
    requires Enabled(s, Start(c, rows)) && s1 == Next(s, Start(c, rows))
    requires Enabled(s1, Choose(c)) && s2 == Next(s1, Choose(c))
    requires Enabled(s2, Enqueue(c)) && s3 == Next(s2, Enqueue(c))
    requires Enabled(s3, Reply(c, true)) && s4 == Next(s3, Reply(c, true))
    requires Enabled(s4, Finish(c)) && s5 == Next(s4, Finish(c))
    ensures Perform(Step, s, Alone(c, rows)) == Some(s5)
  {
    PerformFive(Step, s, Start(c, rows), Choose(c), Enqueue(c), Reply(c, true), Finish(c));
  }

  /** A call and the candidates its query gives. */
  datatype Turn = Turn(c: CallId, rows: seq<ProviderId>)

  /** Calls one after the other, each alone. */
  function OneByOne(turns: seq<Turn>): seq<Action> {
    if turns == [] then [] else OneByOne(turns[..|turns| - 1]) + Alone(turns[|turns| - 1].c, turns[|turns| - 1].rows)
  }

  function VisitsOf(s: State, turns: seq<Turn>): (visits: seq<Affinity.Visit>)
    requires forall i :: 0 <= i < |turns| ==> turns[i].c < |s.calls|
    ensures |visits| == |turns| && forall i :: 0 <= i < |turns| ==> visits[i] == VisitOf(s, turns[i].c, turns[i].rows)
  {
    seq(|turns|, i requires 0 <= i < |turns| => VisitOf(s, turns[i].c, turns[i].rows))
  }

  predicate NotAmong(turns: seq<Turn>, c: CallId) {
    forall i :: 0 <= i < |turns| ==> turns[i].c != c
  }

  predicate DistinctCalls(turns: seq<Turn>) {
    forall i :: 0 <= i < |turns| ==> NotAmong(turns[..i], turns[i].c)
  }

  /** The calls are ready, and nobody else is in flight. */
  ghost predicate AllReady(s: State, turns: seq<Turn>, lab: LabId) {
    && Inv(s) && Quiescent(s)
    && forall i :: 0 <= i < |turns| ==> Ready(s, turns[i].c, lab, turns[i].rows)
  }

  /** `s'` is `s` after the calls, each alone. */
  ghost predicate AfterCalls(s: State, turns: seq<Turn>, lab: LabId, s': State)
    requires AllReady(s, turns, lab)
  {
    && Inv(s') && Quiescent(s') && s'.slots == s.slots
    && s'.pins == Affinity.PinsAfter(s.pins, lab, VisitsOf(s, turns))
    && |s'.calls| == |s.calls|
    && forall c :: 0 <= c < |s.calls| && NotAmong(turns, c) ==> s'.calls[c] == s.calls[c]
  }

  lemma OneVisitMore(s: State, turns: seq<Turn>, lab: LabId)
    requires turns != [] && AllReady(s, turns, lab) && AllReady(s, turns[..|turns| - 1], lab)
    ensures var last := turns[|turns| - 1];
      Affinity.PinsAfter(s.pins, lab, VisitsOf(s, turns))
        == Affinity.PinsAfterVisit(Affinity.PinsAfter(s.pins, lab, VisitsOf(s, turns[..|turns| - 1])),
                                   lab, VisitOf(s, last.c, last.rows))
  {
    assert VisitsOf(s, turns)[..|turns| - 1] == VisitsOf(s, turns[..|turns| - 1]);
  }

  lemma OneCallMore(s: State, turns: seq<Turn>, lab: LabId, before: State)
    requires turns != [] && DistinctCalls(turns) && AllReady(s, turns, lab)
    requires AllReady(s, turns[..|turns| - 1], lab) && AfterCalls(s, turns[..|turns| - 1], lab, before)
    ensures var last := turns[|turns| - 1];
      && Perform(Step, before, Alone(last.c, last.rows)).Some?
      && AfterCalls(s, turns, lab, Perform(Step, before, Alone(last.c, last.rows)).value)
  {
    var init, last := turns[..|turns| - 1], turns[|turns| - 1];
    assert NotAmong(init, last.c) && Ready(s, last.c, lab, last.rows);
    assert before.calls[last.c] == s.calls[last.c];
    CallAlone(before, last.c, lab, last.rows);
    OneVisitMore(s, turns, lab);
    assert VisitOf(s, last.c, last.rows) == VisitOf(before, last.c, last.rows);
    LastIsAmong(turns);
  }

  lemma LastIsAmong(turns: seq<Turn>)
    requires turns != []
    ensures forall c :: NotAmong(turns, c) ==> NotAmong(turns[..|turns| - 1], c) && c != turns[|turns| - 1].c
  {
  }

  /** Whole runs of calls that do not overlap change the pins as the sequence of visits does. */
  lemma {:induction false} CallsAloneAreVisits(s: State, turns: seq<Turn>, lab: LabId)
    requires DistinctCalls(turns) && AllReady(s, turns, lab)
    ensures Perform(Step, s, OneByOne(turns)).Some?
    ensures AfterCalls(s, turns, lab, Perform(Step, s, OneByOne(turns)).value)
    decreases |turns|
  {
    if turns != [] {
      var init, last := turns[..|turns| - 1], turns[|turns| - 1];
      assert DistinctCalls(init) by {
        forall i | 0 <= i < |init| ensures NotAmong(init[..i], init[i].c) {
          assert init[..i] == turns[..i] && NotAmong(turns[..i], turns[i].c);
        }
      }
      CallsAloneAreVisits(s, init, lab);
      var before := Perform(Step, s, OneByOne(init)).value;
      OneCallMore(s, turns, lab, before);
      PerformAppend(Step, s, OneByOne(init), Alone(last.c, last.rows));
    }
  }

  function CallersOf(s: State, turns: seq<Turn>): (callers: set<CallerName>)
    requires forall i :: 0 <= i < |turns| ==> turns[i].c < |s.calls|
  {
    set i | 0 <= i < |turns| :: s.calls[turns[i].c].caller
  }

  lemma VisitsOffer(s: State, turns: seq<Turn>, lab: LabId, providers: set<ProviderId>)
    requires AllReady(s, turns, lab) && forall i :: 0 <= i < |turns| ==> Elements(turns[i].rows) == providers
    ensures Affinity.AllOffer(VisitsOf(s, turns), providers)
    ensures Affinity.Callers(VisitsOf(s, turns)) == CallersOf(s, turns)
  {
    var visits := VisitsOf(s, turns);
    forall i | 0 <= i < |visits| ensures Affinity.Offers(visits[i], providers) {
      assert Ready(s, turns[i].c, lab, turns[i].rows);
    }
  }

  /** So over the steps of the dispatcher: from an unpinned lab and with nobody in its way, calls that
      do not overlap leave every caller its own provider if and only if there are at least as many
      providers as callers, in whatever order each query gives the providers. */
  lemma CallsAloneSpread(s: State, turns: seq<Turn>, lab: LabId, providers: set<ProviderId>)
    requires DistinctCalls(turns) && AllReady(s, turns, lab) && Affinity.LabPins(s.pins, lab) == map[]
    requires forall i :: 0 <= i < |turns| ==> Elements(turns[i].rows) == providers
    ensures Perform(Step, s, OneByOne(turns)).Some?
    ensures var pins := Affinity.LabPins(Perform(Step, s, OneByOne(turns)).value.pins, lab);
      && pins.Keys == CallersOf(s, turns)
      && (Injective(pins) <==> |CallersOf(s, turns)| <= |providers|)
  {
    CallsAloneAreVisits(s, turns, lab);
    VisitsOffer(s, turns, lab, providers);
    var visits := VisitsOf(s, turns);
    Affinity.PinsCoverCallers(s.pins, lab, providers, visits);
    Affinity.SpreadExactlyWhenProvidersSuffice(s.pins, lab, providers, visits);
  }

  // ---------- first calls that overlap ----------

  /** In any run, whatever happened since an earlier call of the lab sorted its candidates, a call
      of an unpinned caller tries a provider `p` first exactly when `p` is then the first of the
      least loaded candidates that nobody else in the lab has pinned. With `p` the earlier call's
      first choice this says exactly when two overlapping first calls meet. */
  lemma OverlappingStarts(tr: seq<State>, acts: seq<Action>, i: nat, j: nat, k: nat, a: CallId, rows1: seq<ProviderId>,
                          b: CallId, rows2: seq<ProviderId>, lab: LabId)
    requires IsRun(tr, acts) && i < j < k < |tr|
    requires acts[i] == Start(a, rows1) && rows1 != [] && acts[j] == Start(b, rows2) && rows2 != []
    requires b < |tr[j].calls| && tr[j].calls[b].lab == Some(lab) && (lab, tr[j].calls[b].caller) !in tr[j].pins
    requires exists p :: p in rows2 && p !in Affinity.OtherPinned(tr[j].pins, lab, tr[j].calls[b].caller)
    ensures a < |tr[k].calls| && b < |tr[k].calls| && forall p :: p in rows2 ==> p in tr[j].slots
    ensures var first, second := tr[k].calls[a].order, tr[k].calls[b].order;
      && first != [] && second != []
      && (second[0] == first[0] <==>
            Affinity.LeastLoaded(rows2, Depths(tr[j].slots),
                                 Affinity.OtherPinned(tr[j].pins, lab, tr[j].calls[b].caller), first[0]))
  {
    OrderIsFixedAtStart(tr, acts, i, k, a, rows1);
    OrderIsFixedAtStart(tr, acts, j, k, b, rows2);
    Affinity.OrderIsPermutation(rows1, Depths(tr[i].slots), tr[i].pins, tr[i].calls[a].lab, tr[i].calls[a].caller);
    assert rows1[0] in tr[k].calls[a].order;
    Affinity.FirstChoiceExactly(rows2, Depths(tr[j].slots), tr[j].pins, lab, tr[j].calls[b].caller,
                                tr[k].calls[a].order[0]);
  }

  // ---------- a run that leaks ----------

  const THE_PROVIDER: ProviderId := 0

  lemma OrderOfOne(depth: map<ProviderId, int>)
    requires THE_PROVIDER in depth
    ensures Affinity.Order([THE_PROVIDER], depth, map[], None, "") == [THE_PROVIDER]
  {
    var order := Affinity.Order([THE_PROVIDER], depth, map[], None, "");
    Affinity.OrderIsPermutation([THE_PROVIDER], depth, map[], None, "");
    assert |order| == |multiset(order)| == |multiset([THE_PROVIDER])| == 1;
    assert order[0] in [THE_PROVIDER];
  }

  /** Two new calls outside any lab, as they are when both have chosen the provider. */
  lemma BothDispatched() returns (tr: seq<State>, acts: seq<Action>)
    ensures IsRun(tr, acts) && |acts| == 5
    ensures var s := tr[5];
      && s.slots == map[THE_PROVIDER := NewSlot(1)] && |s.calls| == 2
      && s.calls[0].pc == s.calls[1].pc == Dispatched(THE_PROVIDER)
  {
    var p, rows := THE_PROVIDER, [THE_PROVIDER];
    var k := Call(None, "", Idle, [], 0, [], []);
    var s0 := State(map[], map[], [k, k]);
    var s1 := Next(s0, Register(p, 1));
    OrderOfOne(Depths(s1.slots));
    var s2 := Next(s1, Start(0, rows));
    var s3 := Next(s2, Start(1, rows));
    var s4 := Next(s3, Choose(0));
    var s5 := Next(s4, Choose(1));
    acts := [Register(p, 1), Start(0, rows), Start(1, rows), Choose(0), Choose(1)];
    tr := [s0, s1, s2, s3, s4, s5];
    assert StepAt(tr, acts, 0) && StepAt(tr, acts, 1) && StepAt(tr, acts, 2) && StepAt(tr, acts, 3) && StepAt(tr, acts, 4);
  }

  lemma OneMoreStep(tr: seq<State>, acts: seq<Action>, a: Action)
    requires IsRun(tr, acts) && Enabled(tr[|acts|], a)
    ensures IsRun(tr + [Next(tr[|acts|], a)], acts + [a])
  {
    var tr', acts' := tr + [Next(tr[|acts|], a)], acts + [a];
    forall i | 0 <= i < |acts'| ensures StepAt(tr', acts', i) {
      if i < |acts| {
        assert StepAt(tr, acts, i);
      }
    }
  }

  /** The first call holds the only permit, the second is cancelled in line. */
  lemma SecondCancelled() returns (tr: seq<State>, acts: seq<Action>)
    ensures IsRun(tr, acts) && |acts| == 8
    ensures var s := tr[8];
      && s.slots == map[THE_PROVIDER := Slot(1, 0, 2, [], {}, {0}, 1)] && |s.calls| == 2
      && s.calls[0].pc == Calling(THE_PROVIDER) && s.calls[1].pc.Done?
  {
    var p := THE_PROVIDER;
    tr, acts := BothDispatched();
    var s6 := Next(tr[5], Enqueue(0));
    assert s6.slots[p] == Slot(1, 0, 1, [], {}, {0}, 0);
    OneMoreStep(tr, acts, Enqueue(0));
    tr, acts := tr + [s6], acts + [Enqueue(0)];
    var s7 := Next(s6, Enqueue(1));
    assert s7.slots[p] == Slot(1, 0, 2, [1], {}, {0}, 0);
    OneMoreStep(tr, acts, Enqueue(1));
    tr, acts := tr + [s7], acts + [Enqueue(1)];
    var s8 := Next(s7, Cancel(1));
    assert s8.slots[p] == Slot(1, 0, 2, [], {}, {0}, 1);
    OneMoreStep(tr, acts, Cancel(1));
    tr, acts := tr + [s8], acts + [Cancel(1)];
  }

  /** The counter does leak: one slot, two calls, the second cancelled in line; with no call in
      flight any more, the counter still says one. */
  lemma CancelledInLineLeaks() returns (tr: seq<State>, acts: seq<Action>)
    ensures IsRun(tr, acts)
    ensures var s := tr[|acts|];
      Quiescent(s) && THE_PROVIDER in s.slots && s.slots[THE_PROVIDER].waiters == 1
  {
    tr, acts := SecondCancelled();
    var s9 := Next(tr[8], Reply(0, true));
    OneMoreStep(tr, acts, Reply(0, true));
    tr, acts := tr + [s9], acts + [Reply(0, true)];
    var s10 := Next(s9, Finish(0));
    assert s10.slots[THE_PROVIDER].waiters == 1 && s10.calls[0].pc.Done? && s10.calls[1].pc.Done?;
    OneMoreStep(tr, acts, Finish(0));
    tr, acts := tr + [s10], acts + [Finish(0)];
  }

  // ---------- how long a queued call waits ----------

  /** What a step does for call `a` in line at `p`: it is still in line, as many places nearer as
      permits were handed out; or it has been handed one; or it was cancelled. */
  ghost predicate StepServes(s: State, act: Action, p: ProviderId, a: CallId)
    requires p in s.slots && a in s.slots[p].queue && Enabled(s, act)
  {
    var s' := Next(s, act);
    && p in s'.slots
    && ComesNearer(s.slots[p], s'.slots[p], a)
    && (a in s'.slots[p].queue || a in s'.slots[p].granted || act == Cancel(a))
  }

  lemma QueuedIsAcquiring(s: State, p: ProviderId, a: CallId)
    requires Inv(s) && p in s.slots && a in s.slots[p].queue
    ensures a < |s.calls| && s.calls[a].pc == Acquiring(p) && a !in s.slots[p].granted
  {
    assert s.slots[p].Knows(a) && Agrees(s, p, a);
  }

  /** The only step that takes a queued call elsewhere is its cancellation. */
  lemma StaysAcquiring(s: State, act: Action, p: ProviderId, a: CallId)
    requires Inv(s) && Enabled(s, act) && p in s.slots && a in s.slots[p].queue && act != Cancel(a)
    ensures p in Next(s, act).slots
    ensures a in Next(s, act).slots[p].queue || a in Next(s, act).slots[p].granted
  {
    QueuedIsAcquiring(s, p, a);
    StepKeeps(s, act);
    AcquiringGoesOn(s, act, p, a);
    AcquiringIsListed(Next(s, act), p, a);
  }

  lemma AcquiringGoesOn(s: State, act: Action, p: ProviderId, a: CallId)
    requires Enabled(s, act) && p in s.slots && act != Cancel(a)
    requires a < |s.calls| && s.calls[a].pc == Acquiring(p) && a !in s.slots[p].granted
    ensures p in Next(s, act).slots && a < |Next(s, act).calls| && Next(s, act).calls[a].pc == Acquiring(p)
  {
  }

  lemma AcquiringIsListed(s: State, p: ProviderId, a: CallId)
    requires Inv(s) && p in s.slots && a < |s.calls| && s.calls[a].pc == Acquiring(p)
    ensures a in s.slots[p].queue || a in s.slots[p].granted
  {
    assert Agrees(s, p, a);
  }

  lemma NearerByOwnStep(s: State, act: Action, p: ProviderId, a: CallId)
    requires Inv(s) && Enabled(s, act) && p in s.slots && a in s.slots[p].queue
    requires act.Enqueue? || act.Resume? || act.Finish?
    ensures p in Next(s, act).slots && ComesNearer(s.slots[p], Next(s, act).slots[p], a)
  {
    if s.calls[act.c].pc.p == p {
      match act {
        case Enqueue(c) => BeginAcquireNearer(s.slots[p], c, a);
        case Resume(c) => FinishAcquireNearer(s.slots[p], c, a);
        case Finish(c) => ReleaseNearer(s.slots[p], c, a);
      }
    } else {
      Unmoved(s.slots[p], a);
    }
  }

  lemma Unmoved(slot: Slot, a: CallId)
    requires a in slot.queue
    ensures ComesNearer(slot, slot, a)
  {
    assert Handed(slot, slot) == {};
  }

  lemma NearerByCancel(s: State, c: CallId, p: ProviderId, a: CallId)
    requires Inv(s) && Enabled(s, Cancel(c)) && p in s.slots && a in s.slots[p].queue && c != a
    ensures p in Next(s, Cancel(c)).slots && ComesNearer(s.slots[p], Next(s, Cancel(c)).slots[p], a)
  {
    var pc := s.calls[c].pc;
    if pc == Acquiring(p) {
      AbandonNearer(s.slots[p], c, a);
    } else if Holding(pc, p) {
      ReleaseNearer(s.slots[p], c, a);
    } else {
      Unmoved(s.slots[p], a);
    }
  }

  lemma NearerByStep(s: State, act: Action, p: ProviderId, a: CallId)
    requires Inv(s) && Enabled(s, act) && p in s.slots && a in s.slots[p].queue && act != Cancel(a)
    ensures StepServes(s, act, p, a)
  {
    StaysAcquiring(s, act, p, a);
    if act.Cancel? {
      NearerByCancel(s, act.c, p, a);
    } else if act.Enqueue? || act.Resume? || act.Finish? {
      NearerByOwnStep(s, act, p, a);
    } else {
      QuietSlots(s, act, p);
      Unmoved(s.slots[p], a);
    }
  }

  /** The permits handed to waiters at `p` between two points of a run. */
  ghost function Handouts(tr: seq<State>, i: nat, j: nat, p: ProviderId): nat
    requires i <= j < |tr|
    decreases j
  {
    if i == j then 0
    else
      Handouts(tr, i, j - 1, p)
      + if p in tr[j - 1].slots && p in tr[j].slots then |Handed(tr[j - 1].slots[p], tr[j].slots[p])| else 0
  }

  /** At point `k` call `a` has been handed a permit at `p`, or is cancelled by the step to it. */
  ghost predicate ServedAt(tr: seq<State>, acts: seq<Action>, k: int, p: ProviderId, a: CallId)
    requires 0 < k < |tr| == |acts| + 1
  {
    (p in tr[k].slots && a in tr[k].slots[p].granted) || acts[k - 1] == Cancel(a)
  }

  lemma WaitStep(tr: seq<State>, acts: seq<Action>, k: nat, p: ProviderId, a: CallId)
    requires IsRun(tr, acts) && k < |acts| && p in tr[k].slots
    requires a in tr[k].slots[p].queue && !ServedAt(tr, acts, k + 1, p, a)
    ensures p in tr[k + 1].slots && a in tr[k + 1].slots[p].queue
    ensures ComesNearer(tr[k].slots[p], tr[k + 1].slots[p], a)
  {
    RunKeeps(tr, acts, k);
    assert StepAt(tr, acts, k);
    NearerByStep(tr[k], acts[k], p, a);
  }

  /** At `j` call `a` is still in line, nearer by the permits handed out since `i`. */
  ghost predicate StillInLine(tr: seq<State>, i: nat, j: nat, p: ProviderId, a: CallId)
    requires i <= j < |tr| && p in tr[i].slots && a in tr[i].slots[p].queue
  {
    && p in tr[j].slots && a in tr[j].slots[p].queue
    && Place(tr[j].slots[p].queue, a) + Handouts(tr, i, j, p) <= Place(tr[i].slots[p].queue, a)
  }

  lemma OneStepNearer(tr: seq<State>, i: nat, j: nat, p: ProviderId, a: CallId)
    requires i < j < |tr| && p in tr[i].slots && a in tr[i].slots[p].queue
    requires StillInLine(tr, i, j - 1, p, a)
    requires p in tr[j].slots && a in tr[j].slots[p].queue && ComesNearer(tr[j - 1].slots[p], tr[j].slots[p], a)
    ensures StillInLine(tr, i, j, p, a)
  {
  }

  lemma StillInLineOrServed(tr: seq<State>, acts: seq<Action>, i: nat, j: nat, p: ProviderId, a: CallId)
    requires IsRun(tr, acts) && i < j < |tr| && p in tr[i].slots && a in tr[i].slots[p].queue
    requires StillInLine(tr, i, j - 1, p, a)
    ensures StillInLine(tr, i, j, p, a) || ServedAt(tr, acts, j, p, a)
  {
    if !ServedAt(tr, acts, j, p, a) {
      WaitStep(tr, acts, j - 1, p, a);
      OneStepNearer(tr, i, j, p, a);
    }
  }

  /** What the steps give, without the steps. */
  lemma {:induction false} WaitGetsShorter(tr: seq<State>, acts: seq<Action>, i: nat, j: nat, p: ProviderId, a: CallId)
    returns (k: nat)
    requires i <= j < |tr| == |acts| + 1 && p in tr[i].slots && a in tr[i].slots[p].queue
    requires forall m :: i < m <= j && StillInLine(tr, i, m - 1, p, a) ==>
               StillInLine(tr, i, m, p, a) || ServedAt(tr, acts, m, p, a)
    ensures StillInLine(tr, i, j, p, a) || (i < k <= j && ServedAt(tr, acts, k, p, a))
    decreases j - i
  {
    if i == j {
      k := i;
    } else {
      k := WaitGetsShorter(tr, acts, i, j - 1, p, a);
      if StillInLine(tr, i, j - 1, p, a) {
        k := j;
      }
    }
  }

  /** A bounded wait: a call with `n` others before it has been handed a permit, or was cancelled,
      by the time more than `n` permits have been handed out at its provider. */
  lemma WaitIsBounded(tr: seq<State>, acts: seq<Action>, i: nat, j: nat, p: ProviderId, a: CallId) returns (k: nat)
    requires IsRun(tr, acts) && i <= j < |tr| && p in tr[i].slots && a in tr[i].slots[p].queue
    requires Handouts(tr, i, j, p) > Place(tr[i].slots[p].queue, a)
    ensures i < k <= j && ServedAt(tr, acts, k, p, a)
  {
    forall m | i < m <= j && StillInLine(tr, i, m - 1, p, a)
      ensures StillInLine(tr, i, m, p, a) || ServedAt(tr, acts, m, p, a)
    {
      StillInLineOrServed(tr, acts, i, m, p, a);
    }
    k := WaitGetsShorter(tr, acts, i, j, p, a);
  }
}
