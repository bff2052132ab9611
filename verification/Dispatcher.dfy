/** The dispatcher as a transition system: any number of calls share the provider slots and
    the pin table, and every `await` of a call is a point where others may run. */
module Dispatcher {
  import opened Common
  import opened ProviderSlots
  import Affinity
  import Failover

  datatype Outcome = Answered(provider: ProviderId) | AllFailed | Unroutable | Cancelled

  /** Where a call is suspended. `Acquiring` is inside `await slot.acquire()`; `Closing` is
      inside the await that logs the provider's result, the permit still held. */
  datatype Pc =
    | Idle
    | Choosing
    | Dispatched(p: ProviderId)
    | Acquiring(p: ProviderId)
    | Calling(p: ProviderId)
    | Closing(p: ProviderId, ok: bool)
    | Done(outcome: Outcome)

  datatype Call = Call(
    lab: Option<LabId>,
    caller: CallerName,
    pc: Pc,
    order: seq<ProviderId>,
    next: nat,
    tried: seq<ProviderId>,
    log: seq<Failover.Event>)

  datatype State = State(
    slots: map<ProviderId, Slot>,
    pins: Affinity.Pins,
    calls: seq<Call>)

  datatype Action =
    | Register(p: ProviderId, concurrency: nat)
    | Start(c: CallId, rows: seq<ProviderId>)
    | Choose(c: CallId)
    | Enqueue(c: CallId)
    | Resume(c: CallId)
    | Reply(c: CallId, ok: bool)
    | Finish(c: CallId)
    | Cancel(c: CallId)
    | ClearLab(lab: LabId)

  // ---------- the steps ----------

  function Depths(slots: map<ProviderId, Slot>): map<ProviderId, int> {
    map p | p in slots :: slots[p].waiters
  }

  predicate At(pc: Pc, p: ProviderId) {
    pc == Acquiring(p) || Holding(pc, p)
  }

  predicate Holding(pc: Pc, p: ProviderId) {
    pc == Calling(p) || (pc.Closing? && pc.p == p)
  }

  /** In a reachable state a call is only ever suspended at a registered provider, so the
      `in s.slots` conjuncts restrict nothing there; they make `Next` total. */
  predicate Enabled(s: State, a: Action) {
    match a
    case Register(p, concurrency) => p !in s.slots && 1 <= concurrency
    case Start(c, rows) => c < |s.calls| && s.calls[c].pc.Idle? && forall p :: p in rows ==> p in s.slots
    case Choose(c) => c < |s.calls| && s.calls[c].pc.Choosing? && s.calls[c].next <= |s.calls[c].order|
    case Enqueue(c) => c < |s.calls| && s.calls[c].pc.Dispatched? && s.calls[c].pc.p in s.slots
    case Resume(c) =>
      c < |s.calls| && s.calls[c].pc.Acquiring? && s.calls[c].pc.p in s.slots
      && c in s.slots[s.calls[c].pc.p].granted
    case Reply(c, _) => c < |s.calls| && s.calls[c].pc.Calling?
    case Finish(c) => c < |s.calls| && s.calls[c].pc.Closing? && s.calls[c].pc.p in s.slots
    case Cancel(c) =>
      c < |s.calls| && !s.calls[c].pc.Done? && (AtSlot(s.calls[c].pc) ==> s.calls[c].pc.p in s.slots)
    case ClearLab(_) => true
  }

  predicate AtSlot(pc: Pc) {
    pc.Acquiring? || pc.Calling? || pc.Closing?
  }

  /** Sort the candidates by affinity and load, log `queue`. */
  function Started(s: State, k: Call, rows: seq<ProviderId>): Call
    requires forall p :: p in rows ==> p in s.slots
  {
    if rows == [] then k.(pc := Done(Unroutable))
    else
      var order := Affinity.Order(rows, Depths(s.slots), s.pins, k.lab, k.caller);
      k.(pc := Choosing, order := order, log := k.log + [Failover.Queue(|order|)])
  }

  /** The head of the loop: give up, skip a provider tried before, or log `dispatch`. */
  function Chosen(k: Call): Call
    requires k.next <= |k.order|
  {
    if k.next == |k.order| then k.(pc := Done(AllFailed))
    else
      var p := k.order[k.next];
      if p in k.tried then k.(next := k.next + 1)
      else k.(pc := Dispatched(p), next := k.next + 1, tried := k.tried + [p],
              log := k.log + [Failover.Dispatch(p, k.next + 1)])
  }

  function Replied(k: Call, ok: bool): Call
    requires k.pc.Calling?
  {
    var p := k.pc.p;
    k.(pc := Closing(p, ok),
       log := k.log + [if ok then Failover.Response(p, k.next) else Failover.Failed(p, k.next)])
  }

  function Next(s: State, a: Action): State
    requires Enabled(s, a)
  {
    match a
    case Register(p, concurrency) => s.(slots := s.slots[p := NewSlot(concurrency)])
    case ClearLab(lab) => s.(pins := map k | k in s.pins && k.0 != lab :: s.pins[k])
    case Start(c, rows) => s.(calls := s.calls[c := Started(s, s.calls[c], rows)])
    case Choose(c) => s.(calls := s.calls[c := Chosen(s.calls[c])])
    case Enqueue(c) =>
      var p := s.calls[c].pc.p;
      var slot := BeginAcquire(s.slots[p], c);
      var pc := if c in slot.active then Calling(p) else Acquiring(p);
      s.(slots := s.slots[p := slot], calls := s.calls[c := s.calls[c].(pc := pc)])
    case Resume(c) =>
      var p := s.calls[c].pc.p;
      s.(slots := s.slots[p := FinishAcquire(s.slots[p], c)],
         calls := s.calls[c := s.calls[c].(pc := Calling(p))])
    case Reply(c, ok) => s.(calls := s.calls[c := Replied(s.calls[c], ok)])
    case Finish(c) =>
      var k := s.calls[c];
      var p := k.pc.p;
      State(s.slots[p := Release(s.slots[p], c)],
            if k.pc.ok && k.lab.Some? then s.pins[(k.lab.value, k.caller) := p] else s.pins,
            s.calls[c := k.(pc := if k.pc.ok then Done(Answered(p)) else Choosing)])
    case Cancel(c) =>
      var k := s.calls[c];
      var slots :=
        if k.pc.Acquiring? then s.slots[k.pc.p := Abandon(s.slots[k.pc.p], c)]
        else if k.pc.Calling? || k.pc.Closing? then s.slots[k.pc.p := Release(s.slots[k.pc.p], c)]
        else s.slots;
      s.(slots := slots, calls := s.calls[c := k.(pc := Done(Cancelled))])
  }

  predicate NewCall(k: Call) {
    k.pc.Idle? && k.order == [] && k.next == 0 && k.tried == [] && k.log == []
  }

  ghost predicate Init(s: State) {
    && s.slots == map[]
    && forall c :: 0 <= c < |s.calls| ==> NewCall(s.calls[c])
  }

  ghost predicate IsRun(tr: seq<State>, acts: seq<Action>) {
    && |tr| == |acts| + 1
    && Init(tr[0])
    && forall i :: 0 <= i < |acts| ==> StepAt(tr, acts, i)
  }

  ghost predicate StepAt(tr: seq<State>, acts: seq<Action>, i: int)
    requires 0 <= i < |acts| < |tr|
  {
    Enabled(tr[i], acts[i]) && tr[i + 1] == Next(tr[i], acts[i])
  }

  // ---------- the invariant ----------

  /** The log, the providers tried and the place in the loop agree. */
  ghost predicate CallInv(k: Call, known: set<ProviderId>) {
    && (forall p :: p in k.order ==> p in known)
    && k.next <= |k.order|
    && k.tried == Failover.FirstOccurrences(k.order[..k.next])
    && var r := Failover.Read(k.log);
       match k.pc
       case Idle => NewCall(k)
       case Choosing =>
         r.Between? && r.max == |k.order| && r.failed == k.tried && Failover.Last(r.attempts) <= k.next
       case Dispatched(p) => InFlight(k, p)
       case Acquiring(p) => InFlight(k, p)
       case Calling(p) => InFlight(k, p)
       case Closing(p, ok) => if ok then AnsweredBy(k, p) else FailedAt(k, p)
       case Done(Answered(p)) => AnsweredBy(k, p)
       case Done(AllFailed) =>
         r.Between? && r.max == |k.order| && r.failed == k.tried && k.next == |k.order|
       case Done(Unroutable) => k.log == []
       case Done(Cancelled) => !r.Malformed?
  }

  ghost predicate InFlight(k: Call, p: ProviderId) {
    && 1 <= k.next <= |k.order| && k.order[k.next - 1] == p
    && var r := Failover.Read(k.log);
       r.InFlight? && r.max == |k.order| && r.attempt == k.next && r.provider == p && r.failed + [p] == k.tried
  }

  ghost predicate AnsweredBy(k: Call, p: ProviderId) {
    && 1 <= k.next <= |k.order| && k.order[k.next - 1] == p
    && var r := Failover.Read(k.log);
       r.Answered? && r.max == |k.order| && r.attempt == k.next && r.provider == p && r.failed + [p] == k.tried
  }

  ghost predicate FailedAt(k: Call, p: ProviderId) {
    && 1 <= k.next <= |k.order| && k.order[k.next - 1] == p
    && var r := Failover.Read(k.log);
       r.Between? && r.max == |k.order| && r.failed == k.tried && Failover.Last(r.attempts) == k.next
  }

  /** Slot `p` lists call `c` exactly when `c` is suspended at `p`, and counts it active exactly
      when `c` is between acquire and release. */
  ghost predicate Agrees(s: State, p: ProviderId, c: CallId)
    requires p in s.slots
  {
    && (s.slots[p].Knows(c) <==> c < |s.calls| && At(s.calls[c].pc, p))
    && (c in s.slots[p].active <==> c < |s.calls| && Holding(s.calls[c].pc, p))
  }

  ghost predicate Inv(s: State) {
    && (forall p :: p in s.slots ==> ValidSlot(s.slots[p]))
    && (forall c :: 0 <= c < |s.calls| ==> CallInv(s.calls[c], s.slots.Keys))
    && (forall p, c :: p in s.slots ==> Agrees(s, p, c))
  }

  // ---------- every step keeps it ----------

  /** Steps that touch only the call itself. */
  lemma CallStep(s: State, s': State, c: CallId)
    requires Inv(s) && c < |s.calls|
    requires s'.slots == s.slots && |s'.calls| == |s.calls| && s'.calls == s.calls[c := s'.calls[c]]
    requires CallInv(s'.calls[c], s.slots.Keys)
    requires forall p :: At(s'.calls[c].pc, p) == At(s.calls[c].pc, p)
    requires forall p :: Holding(s'.calls[c].pc, p) == Holding(s.calls[c].pc, p)
    ensures Inv(s')
  {
    forall p, d: CallId | p in s'.slots ensures Agrees(s', p, d) {
      assert Agrees(s, p, d);
    }
  }

  /** Steps of call `c` at slot `p`. */
  lemma SlotStep(s: State, s': State, c: CallId, p: ProviderId)
    requires Inv(s) && c < |s.calls| && p in s.slots
    requires |s'.calls| == |s.calls| && s'.calls == s.calls[c := s'.calls[c]]
    requires p in s'.slots && s'.slots == s.slots[p := s'.slots[p]]
    requires CallInv(s'.calls[c], s.slots.Keys)
    requires ValidSlot(s'.slots[p])
    requires forall d :: d != c ==> (s'.slots[p].Knows(d) <==> s.slots[p].Knows(d))
    requires forall d :: d != c ==> (d in s'.slots[p].active <==> d in s.slots[p].active)
    requires Agrees(s', p, c)
    requires forall q :: q != p ==> !At(s.calls[c].pc, q) && !At(s'.calls[c].pc, q)
    ensures Inv(s')
  {
    assert s'.slots.Keys == s.slots.Keys;
    forall q, d: CallId | q in s'.slots ensures Agrees(s', q, d) {
      assert Agrees(s, q, d);
      assert Agrees(s, q, c);
    }
  }

  lemma StartedInv(s: State, k: Call, rows: seq<ProviderId>)
    requires k.pc.Idle? && CallInv(k, s.slots.Keys) && forall p :: p in rows ==> p in s.slots
    ensures CallInv(Started(s, k, rows), s.slots.Keys)
  {
    if rows != [] {
      Affinity.OrderIsPermutation(rows, Depths(s.slots), s.pins, k.lab, k.caller);
      var order := Affinity.Order(rows, Depths(s.slots), s.pins, k.lab, k.caller);
      Failover.ReadAppend(k.log, Failover.Queue(|order|));
      assert order[..0] == [];
    }
  }

  lemma SkippedInv(k: Call, known: set<ProviderId>)
    requires k.pc.Choosing? && CallInv(k, known) && k.next < |k.order| && k.order[k.next] in k.tried
    ensures CallInv(Chosen(k), known)
  {
    Failover.FirstOccurrencesStep(k.order, k.next);
  }

  lemma DispatchedInv(k: Call, known: set<ProviderId>)
    requires k.pc.Choosing? && CallInv(k, known) && k.next < |k.order| && k.order[k.next] !in k.tried
    ensures CallInv(Chosen(k), known)
  {
    Failover.FirstOccurrencesStep(k.order, k.next);
    Failover.ReadAppend(k.log, Failover.Dispatch(k.order[k.next], k.next + 1));
  }

  lemma ChosenInv(k: Call, known: set<ProviderId>)
    requires k.pc.Choosing? && CallInv(k, known)
    ensures CallInv(Chosen(k), known)
  {
    if k.next < |k.order| {
      if k.order[k.next] in k.tried {
        SkippedInv(k, known);
      } else {
        DispatchedInv(k, known);
      }
    }
  }

  lemma RepliedInv(k: Call, ok: bool, known: set<ProviderId>)
    requires k.pc.Calling? && CallInv(k, known)
    ensures CallInv(Replied(k, ok), known)
  {
    Failover.ReadAppend(k.log, if ok then Failover.Response(k.pc.p, k.next) else Failover.Failed(k.pc.p, k.next));
  }

  lemma EnqueueKeeps(s: State, c: CallId)
    requires Inv(s) && Enabled(s, Enqueue(c))
    ensures Inv(Next(s, Enqueue(c)))
  {
    var p := s.calls[c].pc.p;
    assert Agrees(s, p, c);
    BeginAcquireValid(s.slots[p], c);
    SlotStep(s, Next(s, Enqueue(c)), c, p);
  }

  lemma ResumeKeeps(s: State, c: CallId)
    requires Inv(s) && Enabled(s, Resume(c))
    ensures Inv(Next(s, Resume(c)))
  {
    var p := s.calls[c].pc.p;
    assert Agrees(s, p, c);
    FinishAcquireValid(s.slots[p], c);
    SlotStep(s, Next(s, Resume(c)), c, p);
  }

  lemma FinishKeeps(s: State, c: CallId)
    requires Inv(s) && Enabled(s, Finish(c))
    ensures Inv(Next(s, Finish(c)))
  {
    var p := s.calls[c].pc.p;
    assert Agrees(s, p, c);
    ReleaseValid(s.slots[p], c);
    SlotStep(s, Next(s, Finish(c)), c, p);
  }

  lemma CancelWaitingKeeps(s: State, c: CallId)
    requires Inv(s) && Enabled(s, Cancel(c)) && s.calls[c].pc.Acquiring?
    ensures Inv(Next(s, Cancel(c)))
  {
    var p := s.calls[c].pc.p;
    assert Agrees(s, p, c);
    AbandonValid(s.slots[p], c);
    SlotStep(s, Next(s, Cancel(c)), c, p);
  }

  lemma CancelHoldingKeeps(s: State, c: CallId)
    requires Inv(s) && Enabled(s, Cancel(c)) && (s.calls[c].pc.Calling? || s.calls[c].pc.Closing?)
    ensures Inv(Next(s, Cancel(c)))
  {
    var p := s.calls[c].pc.p;
    assert Agrees(s, p, c);
    ReleaseValid(s.slots[p], c);
    SlotStep(s, Next(s, Cancel(c)), c, p);
  }

  lemma CancelKeeps(s: State, c: CallId)
    requires Inv(s) && Enabled(s, Cancel(c))
    ensures Inv(Next(s, Cancel(c)))
  {
    if s.calls[c].pc.Acquiring? {
      CancelWaitingKeeps(s, c);
    } else if s.calls[c].pc.Calling? || s.calls[c].pc.Closing? {
      CancelHoldingKeeps(s, c);
    } else {
      CallStep(s, Next(s, Cancel(c)), c);
    }
  }

  lemma RegisterKeeps(s: State, p: ProviderId, concurrency: nat)
    requires Inv(s) && Enabled(s, Register(p, concurrency))
    ensures Inv(Next(s, Register(p, concurrency)))
  {
    var s' := Next(s, Register(p, concurrency));
    forall c | 0 <= c < |s'.calls|
      ensures CallInv(s'.calls[c], s'.slots.Keys)
      ensures !At(s'.calls[c].pc, p)
    {
      assert CallInv(s.calls[c], s.slots.Keys);
    }
    forall q, d: CallId | q in s'.slots ensures Agrees(s', q, d) {
      if q != p {
        assert Agrees(s, q, d);
      }
    }
  }

  lemma StartKeeps(s: State, c: CallId, rows: seq<ProviderId>)
    requires Inv(s) && Enabled(s, Start(c, rows))
    ensures Inv(Next(s, Start(c, rows)))
  {
    StartedInv(s, s.calls[c], rows);
    CallStep(s, Next(s, Start(c, rows)), c);
  }

  lemma ChooseKeeps(s: State, c: CallId)
    requires Inv(s) && Enabled(s, Choose(c))
    ensures Inv(Next(s, Choose(c)))
  {
    ChosenInv(s.calls[c], s.slots.Keys);
    CallStep(s, Next(s, Choose(c)), c);
  }

  lemma ReplyKeeps(s: State, c: CallId, ok: bool)
    requires Inv(s) && Enabled(s, Reply(c, ok))
    ensures Inv(Next(s, Reply(c, ok)))
  {
    RepliedInv(s.calls[c], ok, s.slots.Keys);
    CallStep(s, Next(s, Reply(c, ok)), c);
  }

  lemma ClearKeeps(s: State, lab: LabId)
    requires Inv(s)
    ensures Inv(Next(s, ClearLab(lab)))
  {
    forall p, c: CallId | p in s.slots ensures Agrees(Next(s, ClearLab(lab)), p, c) {
      assert Agrees(s, p, c);
    }
  }

  lemma StepKeeps(s: State, a: Action)
    requires Inv(s) && Enabled(s, a)
    ensures Inv(Next(s, a))
  {
    match a {
      case Register(p, concurrency) => RegisterKeeps(s, p, concurrency);
      case ClearLab(lab) => ClearKeeps(s, lab);
      case Enqueue(c) => EnqueueKeeps(s, c);
      case Resume(c) => ResumeKeeps(s, c);
      case Finish(c) => FinishKeeps(s, c);
      case Cancel(c) => CancelKeeps(s, c);
      case Start(c, rows) => StartKeeps(s, c, rows);
      case Choose(c) => ChooseKeeps(s, c);
      case Reply(c, ok) => ReplyKeeps(s, c, ok);
    }
  }

  lemma {:induction false} RunKeeps(tr: seq<State>, acts: seq<Action>, i: nat)
    requires IsRun(tr, acts) && i < |tr|
    ensures Inv(tr[i])
  {
    if i == 0 {
      forall c | 0 <= c < |tr[0].calls| ensures CallInv(tr[0].calls[c], tr[0].slots.Keys) {
        assert tr[0].calls[c].order[..0] == [];
      }
    } else {
      RunKeeps(tr, acts, i - 1);
      assert StepAt(tr, acts, i - 1);
      StepKeeps(tr[i - 1], acts[i - 1]);
    }
  }

  // ---------- what the invariant gives, over every run ----------

  predicate InCall(pc: Pc) {
    !pc.Idle? && !pc.Done?
  }

  /** No call is between its start and its end. */
  ghost predicate Quiescent(s: State) {
    forall c :: 0 <= c < |s.calls| ==> !InCall(s.calls[c].pc)
  }

  /** Calls of the machine that are suspended at slot `p` with, or without, its permit. */
  function Holders(s: State, p: ProviderId): set<CallId> {
    set c | 0 <= c < |s.calls| && Holding(s.calls[c].pc, p)
  }

  function WaitingAt(s: State, p: ProviderId): set<CallId> {
    set c | 0 <= c < |s.calls| && s.calls[c].pc == Acquiring(p)
  }

  lemma {:induction false} QueueCardinality(q: seq<CallId>)
    requires Distinct(q)
    ensures |Elements(q)| == |q|
  {
    if q != [] {
      QueueCardinality(q[1..]);
      assert q == [q[0]] + q[1..];
      assert Elements(q) == {q[0]} + Elements(q[1..]);
    }
  }

  lemma AccountingAt(s: State, p: ProviderId)
    requires Inv(s) && p in s.slots
    ensures Holders(s, p) == s.slots[p].active
    ensures WaitingAt(s, p) == Elements(s.slots[p].queue) + s.slots[p].granted
    ensures |WaitingAt(s, p)| == |s.slots[p].queue| + |s.slots[p].granted|
  {
    var slot := s.slots[p];
    forall c: CallId
      ensures c in Holders(s, p) <==> c in slot.active
      ensures c in WaitingAt(s, p) <==> c in slot.queue || c in slot.granted
    {
      assert Agrees(s, p, c);
    }
    QueueCardinality(slot.queue);
    assert Elements(slot.queue) !! slot.granted;
  }

  /** In every interleaving, failovers and cancellations included: at most `concurrency` calls
      are inside a slot's acquire/release section; permits are conserved; and the hand-kept
      counter is the number of calls queued or active plus the number of calls that were
      cancelled inside `acquire`. */
  lemma SlotAccounting(tr: seq<State>, acts: seq<Action>, i: nat, p: ProviderId)
    requires IsRun(tr, acts) && i < |tr| && p in tr[i].slots
    ensures var slot := tr[i].slots[p];
            && |Holders(tr[i], p)| <= slot.concurrency
            && slot.free + |slot.granted| + |Holders(tr[i], p)| == slot.concurrency
            && slot.waiters == |WaitingAt(tr[i], p)| + |Holders(tr[i], p)| + slot.abandoned
  {
    RunKeeps(tr, acts, i);
    AccountingAt(tr[i], p);
  }

  /** With no call in flight every slot is as it was when created, but for the counter, which
      keeps one unit for every call that was cancelled inside `acquire`. */
  lemma QuiescentSlots(tr: seq<State>, acts: seq<Action>, i: nat, p: ProviderId)
    requires IsRun(tr, acts) && i < |tr| && p in tr[i].slots && Quiescent(tr[i])
    ensures var slot := tr[i].slots[p];
            && slot == NewSlot(slot.concurrency).(waiters := slot.abandoned, abandoned := slot.abandoned)
            && (slot == NewSlot(slot.concurrency) <==> slot.abandoned == 0)
  {
    RunKeeps(tr, acts, i);
    var s, slot := tr[i], tr[i].slots[p];
    forall c: CallId ensures !slot.Knows(c) {
      assert Agrees(s, p, c);
    }
    if slot.queue != [] {
      assert slot.Knows(slot.queue[0]);
    }
    assert slot.granted == {} && slot.active == {} by {
      assert forall c :: c in slot.granted ==> slot.Knows(c);
      assert forall c :: c in slot.active ==> slot.Knows(c);
    }
  }

  /** A step that cancels a call inside `await slot.acquire()` at slot `p`. */
  ghost predicate CancelsAcquire(s: State, a: Action, p: ProviderId) {
    a.Cancel? && a.c < |s.calls| && s.calls[a.c].pc == Acquiring(p)
  }

  lemma CancelAbandons(s: State, c: CallId, p: ProviderId)
    requires Inv(s) && Enabled(s, Cancel(c)) && p in Next(s, Cancel(c)).slots
    ensures p in s.slots
    ensures Next(s, Cancel(c)).slots[p].abandoned
         == s.slots[p].abandoned + if CancelsAcquire(s, Cancel(c), p) then 1 else 0
    ensures forall q :: q in s.slots ==> q in Next(s, Cancel(c)).slots
  {
    var k := s.calls[c];
    assert CallInv(k, s.slots.Keys);
    if AtSlot(k.pc) {
      assert Agrees(s, k.pc.p, c);
      if k.pc.Acquiring? {
        AbandonValid(s.slots[k.pc.p], c);
      } else {
        ReleaseValid(s.slots[k.pc.p], c);
      }
    }
  }

  lemma StepAbandons(s: State, a: Action, p: ProviderId)
    requires Inv(s) && Enabled(s, a) && p in Next(s, a).slots
    ensures p in s.slots ==>
              Next(s, a).slots[p].abandoned == s.slots[p].abandoned + if CancelsAcquire(s, a, p) then 1 else 0
    ensures p !in s.slots ==> Next(s, a).slots[p].abandoned == 0 && !CancelsAcquire(s, a, p)
    ensures forall q :: q in s.slots ==> q in Next(s, a).slots
  {
    match a {
      case Resume(c) =>
        var q := s.calls[c].pc.p;
        FinishAcquireValid(s.slots[q], c);
      case Finish(c) =>
        var q := s.calls[c].pc.p;
        assert Agrees(s, q, c);
        ReleaseValid(s.slots[q], c);
      case Cancel(c) =>
        CancelAbandons(s, c, p);
      case _ =>
    }
  }

  lemma UnknownSlotHasNoWaiters(s: State, a: Action, p: ProviderId)
    requires Inv(s) && p !in s.slots
    ensures !CancelsAcquire(s, a, p)
  {
    if a.Cancel? && a.c < |s.calls| {
      assert CallInv(s.calls[a.c], s.slots.Keys);
    }
  }

  /** How many calls have been cancelled inside `acquire` of slot `p` by point `i`. */
  ghost function QueuedCancels(tr: seq<State>, acts: seq<Action>, i: nat, p: ProviderId): nat
    requires |tr| == |acts| + 1 && i < |tr|
  {
    if i == 0 then 0
    else QueuedCancels(tr, acts, i - 1, p) + if CancelsAcquire(tr[i - 1], acts[i - 1], p) then 1 else 0
  }

  lemma {:induction false} NoCancelsBeforeRegistration(tr: seq<State>, acts: seq<Action>, i: nat, p: ProviderId)
    requires IsRun(tr, acts) && i < |tr| && p !in tr[i].slots
    ensures QueuedCancels(tr, acts, i, p) == 0
  {
    if i > 0 {
      SlotsGrow(tr, acts, i - 1, i);
      NoCancelsBeforeRegistration(tr, acts, i - 1, p);
      RunKeeps(tr, acts, i - 1);
      assert StepAt(tr, acts, i - 1);
      UnknownSlotHasNoWaiters(tr[i - 1], acts[i - 1], p);
    }
  }

  lemma {:induction false} AbandonedAreQueuedCancels(tr: seq<State>, acts: seq<Action>, i: nat, p: ProviderId)
    requires IsRun(tr, acts) && i < |tr| && p in tr[i].slots
    ensures tr[i].slots[p].abandoned == QueuedCancels(tr, acts, i, p)
  {
    if i > 0 {
      RunKeeps(tr, acts, i - 1);
      assert StepAt(tr, acts, i - 1);
      StepAbandons(tr[i - 1], acts[i - 1], p);
      if p in tr[i - 1].slots {
        AbandonedAreQueuedCancels(tr, acts, i - 1, p);
      } else {
        NoCancelsBeforeRegistration(tr, acts, i - 1, p);
      }
    }
  }

  lemma {:induction false} SomeQueuedCancel(tr: seq<State>, acts: seq<Action>, i: nat, p: ProviderId)
    requires |tr| == |acts| + 1 && i < |tr|
    ensures QueuedCancels(tr, acts, i, p) > 0 <==> exists j :: 0 <= j < i && CancelsAcquire(tr[j], acts[j], p)
  {
    if i > 0 {
      SomeQueuedCancel(tr, acts, i - 1, p);
    }
  }

  /** By how much the counter is off: by the number of calls that were cancelled inside `acquire`
      of that slot. So it leaks exactly when there was one, and without such cancellations every
      slot is restored at quiescence, whichever calls failed over. */
  lemma LeakExactlyFromQueuedCancel(tr: seq<State>, acts: seq<Action>, i: nat, p: ProviderId)
    requires IsRun(tr, acts) && i < |tr| && p in tr[i].slots
    ensures tr[i].slots[p].waiters
         == |WaitingAt(tr[i], p)| + |Holders(tr[i], p)| + QueuedCancels(tr, acts, i, p)
    ensures tr[i].slots[p].waiters > |WaitingAt(tr[i], p)| + |Holders(tr[i], p)|
        <==> exists j :: 0 <= j < i && CancelsAcquire(tr[j], acts[j], p)
  {
    SlotAccounting(tr, acts, i, p);
    AbandonedAreQueuedCancels(tr, acts, i, p);
    SomeQueuedCancel(tr, acts, i, p);
  }

  /** The load that candidates are sorted by: the calls in line at the provider and those that hold one of
      its permits, and the units that calls cancelled in line have left. */
  lemma LoadIsCalls(tr: seq<State>, acts: seq<Action>, i: nat, p: ProviderId)
    requires IsRun(tr, acts) && i < |tr| && p in tr[i].slots
    ensures p in Depths(tr[i].slots)
    ensures Depths(tr[i].slots)[p] == |WaitingAt(tr[i], p)| + |Holders(tr[i], p)| + QueuedCancels(tr, acts, i, p)
  {
    LeakExactlyFromQueuedCancel(tr, acts, i, p);
  }

  lemma {:induction false} SlotsGrow(tr: seq<State>, acts: seq<Action>, i: nat, j: nat)
    requires IsRun(tr, acts) && i <= j < |tr|
    ensures forall p :: p in tr[i].slots ==> p in tr[j].slots
    decreases j - i
  {
    if i < j {
      SlotsGrow(tr, acts, i, j - 1);
      assert StepAt(tr, acts, j - 1);
    }
  }

  /** Failover, in every interleaving: a call contacts providers in its affinity order, each at
      most once; if it answers, it is with the last provider contacted and all before it
      failed; it reports total failure only after every candidate was contacted and failed.
      `ReadShape` of the log automaton spells the event sequence out. */
  lemma CallTrace(tr: seq<State>, acts: seq<Action>, i: nat, c: CallId)
    requires IsRun(tr, acts) && i < |tr| && c < |tr[i].calls|
    ensures var k := tr[i].calls[c];
            var r := Failover.Read(k.log);
            && k.tried <= Failover.FirstOccurrences(k.order)
            && Distinct(k.tried)
            && |k.tried| <= |k.order|
            && !r.Malformed?
            && (k.pc.Done? && k.pc.outcome.Answered? ==>
                  r.Answered? && r.provider == k.pc.outcome.provider && k.tried == r.failed + [r.provider])
            && (k.pc == Done(AllFailed) ==>
                  r.Between? && r.failed == k.tried == Failover.FirstOccurrences(k.order))
            && (k.pc == Done(Unroutable) ==> k.log == [])
  {
    RunKeeps(tr, acts, i);
    var k := tr[i].calls[c];
    assert CallInv(k, tr[i].slots.Keys);
    Failover.FirstOccurrencesPrefix(k.order, k.next);
    Failover.FirstOccurrencesDistinct(k.order[..k.next]);
    assert k.order[..|k.order|] == k.order;
  }

  // ---------- progress ----------

  /** The call whose own step an action is; cancellation is not a step of the protocol. */
  predicate OwnStep(a: Action, c: CallId) {
    match a
    case Start(d, _) => c == d
    case Choose(d) => c == d
    case Enqueue(d) => c == d
    case Resume(d) => c == d
    case Reply(d, _) => c == d
    case Finish(d) => c == d
    case _ => false
  }

  predicate Productive(a: Action) {
    a.Choose? || a.Enqueue? || a.Resume? || a.Reply? || a.Finish?
  }

  /** A call waits at no slot while it holds another's permit. */
  lemma NoHoldAndWait(s: State, c: CallId, p: ProviderId, q: ProviderId)
    requires Inv(s) && p in s.slots && q in s.slots
    requires c in s.slots[p].active && s.slots[q].Knows(c)
    ensures p == q
  {
    assert Agrees(s, p, c) && Agrees(s, q, c);
  }

  /** No deadlock: while any call is in flight, some call can take a step of the protocol,
      given that provider calls return (`Reply` is enabled while a call is `Calling`). */
  lemma Progress(tr: seq<State>, acts: seq<Action>, i: nat) returns (a: Action)
    requires IsRun(tr, acts) && i < |tr| && !Quiescent(tr[i])
    ensures Productive(a) && Enabled(tr[i], a)
  {
    RunKeeps(tr, acts, i);
    var s := tr[i];
    var c :| 0 <= c < |s.calls| && InCall(s.calls[c].pc);
    assert CallInv(s.calls[c], s.slots.Keys);
    match s.calls[c].pc {
      case Choosing => a := Choose(c);
      case Dispatched(_) => a := Enqueue(c);
      case Acquiring(p) => a := Unblock(s, c, p);
      case Calling(_) => a := Reply(c, true);
      case Closing(_, _) => a := Finish(c);
    }
  }

  /** Whoever stands in the way of a queued call can move. */
  lemma Unblock(s: State, c: CallId, p: ProviderId) returns (a: Action)
    requires Inv(s) && c < |s.calls| && s.calls[c].pc == Acquiring(p) && p in s.slots
    ensures Productive(a) && Enabled(s, a)
  {
    var slot := s.slots[p];
    assert Agrees(s, p, c);
    if slot.granted != {} {
      var g :| g in slot.granted;
      assert slot.Knows(g) && Agrees(s, p, g);
      a := Resume(g);
    } else {
      assert slot.queue != [] && slot.free == 0;
      assert |slot.active| == slot.concurrency;
      var h :| h in slot.active;
      assert Agrees(s, p, h);
      a := if s.calls[h].pc.Calling? then Reply(h, true) else Finish(h);
    }
  }

  /** An upper bound on the steps a started call still takes. */
  function Remaining(k: Call): nat {
    match k.pc
    case Idle => 0
    case Done(_) => 0
    case _ =>
      var rank :=
        match k.pc
        case Choosing => 1
        case Dispatched(_) => 5
        case Acquiring(_) => 4
        case Calling(_) => 3
        case _ => 2;
      if k.next <= |k.order| then 6 * (|k.order| - k.next) + rank else 0
  }

  /** `k'` is what one step of the machine makes of call `k`. */
  ghost predicate Progresses(k: Call, k': Call, own: bool) {
    && (InCall(k.pc) ==> k'.order == k.order && Remaining(k') <= Remaining(k))
    && (InCall(k.pc) && own ==> Remaining(k') < Remaining(k))
    && (k.pc.Done? ==> k' == k)
    && (!k.pc.Idle? ==> !k'.pc.Idle?)
  }

  lemma StepProgresses(s: State, a: Action, c: CallId)
    requires Enabled(s, a) && c < |s.calls| && s.calls[c].next <= |s.calls[c].order|
    requires a.Choose? ==> a.c < |s.calls| && s.calls[a.c].next <= |s.calls[a.c].order|
    ensures |Next(s, a).calls| == |s.calls|
    ensures Progresses(s.calls[c], Next(s, a).calls[c], OwnStep(a, c))
  {
  }

  lemma StepDecreases(s: State, a: Action, c: CallId)
    requires Inv(s) && Enabled(s, a) && c < |s.calls|
    ensures |Next(s, a).calls| == |s.calls|
    ensures Progresses(s.calls[c], Next(s, a).calls[c], OwnStep(a, c))
  {
    NextWithinOrder(s, c);
    if a.Choose? {
      NextWithinOrder(s, a.c);
    }
    StepProgresses(s, a, c);
  }

  lemma NextWithinOrder(s: State, c: CallId)
    requires Inv(s) && c < |s.calls|
    ensures s.calls[c].next <= |s.calls[c].order|
  {
    assert CallInv(s.calls[c], s.slots.Keys);
  }

  /** The number of own steps call `c` takes between two points of a run. */
  function OwnSteps(acts: seq<Action>, c: CallId, i: nat, j: nat): nat
    requires i <= j <= |acts|
    decreases j
  {
    if i == j then 0 else OwnSteps(acts, c, i, j - 1) + if OwnStep(acts[j - 1], c) then 1 else 0
  }

  /** Every started call ends: however the run goes on, it takes at most `6 * |order| + 1`
      further steps of its own, over at most one attempt per candidate. */
  lemma {:induction false} CallsTerminate(tr: seq<State>, acts: seq<Action>, i: nat, j: nat, c: CallId)
    requires IsRun(tr, acts) && i <= j < |tr| && c < |tr[i].calls|
    requires InCall(tr[i].calls[c].pc)
    ensures c < |tr[j].calls| && !tr[j].calls[c].pc.Idle?
    ensures OwnSteps(acts, c, i, j) + Remaining(tr[j].calls[c]) <= Remaining(tr[i].calls[c])
    ensures Remaining(tr[i].calls[c]) <= 6 * |tr[i].calls[c].order| + 1
    decreases j - i
  {
    RunKeeps(tr, acts, i);
    assert CallInv(tr[i].calls[c], tr[i].slots.Keys);
    if i < j {
      CallsTerminate(tr, acts, i, j - 1, c);
      RunKeeps(tr, acts, j - 1);
      assert StepAt(tr, acts, j - 1);
      StepDecreases(tr[j - 1], acts[j - 1], c);
    }
  }

  // ---------- queueing order ----------

  lemma CancelOrder(s: State, c: CallId, p: ProviderId, a: CallId, b: CallId)
    requires Inv(s) && Enabled(s, Cancel(c)) && p in s.slots && Ahead(s.slots[p].queue, a, b) && c != b
    ensures StillAhead(Next(s, Cancel(c)).slots[p], a, b)
  {
    var pc := s.calls[c].pc;
    assert Agrees(s, p, c);
    if pc == Acquiring(p) {
      AbandonOrder(s.slots[p], c, a, b);
    } else if Holding(pc, p) {
      ReleaseOrder(s.slots[p], c, a, b);
    }
  }

  /** The steps of calls that touch a slot's queue. */
  lemma SlotActionOrder(s: State, act: Action, p: ProviderId, a: CallId, b: CallId)
    requires Inv(s) && Enabled(s, act) && p in s.slots && Ahead(s.slots[p].queue, a, b)
    requires act.Enqueue? || act.Resume? || act.Finish?
    ensures StillAhead(Next(s, act).slots[p], a, b)
  {
    assert Agrees(s, p, act.c);
    if s.calls[act.c].pc.p == p {
      match act {
        case Enqueue(c) => BeginAcquireOrder(s.slots[p], c, a, b);
        case Resume(c) => FinishAcquireOrder(s.slots[p], c, a, b);
        case Finish(c) => ReleaseOrder(s.slots[p], c, a, b);
      }
    }
  }

  lemma FifoStep(s: State, act: Action, p: ProviderId, a: CallId, b: CallId)
    requires Inv(s) && Enabled(s, act) && p in s.slots && Ahead(s.slots[p].queue, a, b)
    ensures p in Next(s, act).slots && StillBehind(Next(s, act), p, a, b)
  {
    assert s.slots[p].Knows(b) && Agrees(s, p, b);
    if act == Cancel(b) {
      assert Next(s, act).calls[b].pc == Done(Cancelled);
    } else if act.Cancel? {
      CancelOrder(s, act.c, p, a, b);
    } else if act.Enqueue? || act.Resume? || act.Finish? {
      SlotActionOrder(s, act, p, a, b);
    } else {
      QuietSlots(s, act, p);
    }
  }

  lemma QuietSlots(s: State, act: Action, p: ProviderId)
    requires Inv(s) && Enabled(s, act) && p in s.slots
    requires !(act.Enqueue? || act.Resume? || act.Finish? || act.Cancel?)
    ensures p in Next(s, act).slots && Next(s, act).slots[p] == s.slots[p]
    ensures |Next(s, act).calls| == |s.calls|
  {
  }

  /** `b` is still behind `a` at `p`, or `a` has left the line, or `b` was cancelled. */
  ghost predicate StillBehind(s: State, p: ProviderId, a: CallId, b: CallId)
    requires p in s.slots
  {
    b < |s.calls| && (StillAhead(s.slots[p], a, b) || s.calls[b].pc == Done(Cancelled))
  }

  lemma DoneIsFinal(tr: seq<State>, acts: seq<Action>, k: nat, c: CallId)
    requires IsRun(tr, acts) && k < |acts| && c < |tr[k].calls| && tr[k].calls[c].pc.Done?
    ensures c < |tr[k + 1].calls| && tr[k + 1].calls[c] == tr[k].calls[c]
  {
    RunKeeps(tr, acts, k);
    assert StepAt(tr, acts, k);
    StepDecreases(tr[k], acts[k], c);
  }

  /** From point `i` to point `j` of a run, `a` stays in line at `p`. */
  ghost predicate StaysInLine(tr: seq<State>, i: nat, j: nat, p: ProviderId, a: CallId)
    requires i <= j < |tr|
  {
    forall k :: i <= k <= j && p in tr[k].slots ==> a in tr[k].slots[p].queue
  }

  /** First come, first served: as long as `a` stays in line at a provider, a call that lined
      up behind it there is still in line behind it, unless that call was cancelled. */
  lemma {:induction false} NoOvertaking(tr: seq<State>, acts: seq<Action>, i: nat, j: nat,
                                        p: ProviderId, a: CallId, b: CallId)
    requires IsRun(tr, acts) && i <= j < |tr|
    requires p in tr[i].slots && Ahead(tr[i].slots[p].queue, a, b)
    requires StaysInLine(tr, i, j, p, a)
    ensures p in tr[j].slots && b < |tr[j].calls|
    ensures Ahead(tr[j].slots[p].queue, a, b) || tr[j].calls[b].pc == Done(Cancelled)
    decreases j - i
  {
    if i == j {
      RunKeeps(tr, acts, i);
      assert tr[i].slots[p].Knows(b) && Agrees(tr[i], p, b);
    } else {
      NoOvertaking(tr, acts, i, j - 1, p, a, b);
      LineStep(tr, acts, j - 1, p, a, b);
      assert a in tr[j].slots[p].queue;
    }
  }

  lemma LineStep(tr: seq<State>, acts: seq<Action>, k: nat, p: ProviderId, a: CallId, b: CallId)
    requires IsRun(tr, acts) && k < |acts|
    requires p in tr[k].slots && b < |tr[k].calls|
    requires Ahead(tr[k].slots[p].queue, a, b) || tr[k].calls[b].pc == Done(Cancelled)
    ensures p in tr[k + 1].slots && StillBehind(tr[k + 1], p, a, b)
  {
    RunKeeps(tr, acts, k);
    SlotsGrow(tr, acts, k, k + 1);
    if Ahead(tr[k].slots[p].queue, a, b) {
      assert StepAt(tr, acts, k);
      FifoStep(tr[k], acts[k], p, a, b);
    } else {
      DoneIsFinal(tr, acts, k, b);
    }
  }

  lemma UnroutableStep(s: State, a: Action, c: CallId)
    requires Enabled(s, a) && c < |s.calls|
    ensures c < |Next(s, a).calls|
    ensures Next(s, a).calls[c].pc == Done(Unroutable) <==> s.calls[c].pc == Done(Unroutable) || a == Start(c, [])
  {
  }

  lemma {:induction false} CallsStay(tr: seq<State>, acts: seq<Action>, j: nat)
    requires IsRun(tr, acts) && j < |tr|
    ensures |tr[j].calls| == |tr[0].calls|
  {
    if j > 0 {
      CallsStay(tr, acts, j - 1);
      assert StepAt(tr, acts, j - 1);
    }
  }

  /** A call ends as unroutable exactly when it started with no candidate at all. */
  lemma {:induction false} UnroutableExactly(tr: seq<State>, acts: seq<Action>, j: nat, c: CallId)
    requires IsRun(tr, acts) && j < |tr| && c < |tr[j].calls|
    ensures tr[j].calls[c].pc == Done(Unroutable) <==> exists i :: 0 <= i < j && acts[i] == Start(c, [])
  {
    CallsStay(tr, acts, j);
    if j > 0 {
      CallsStay(tr, acts, j - 1);
      UnroutableExactly(tr, acts, j - 1, c);
      assert StepAt(tr, acts, j - 1);
      UnroutableStep(tr[j - 1], acts[j - 1], c);
    }
  }

  // ---------- the pin table over runs ----------

  /** The step on which a call of `(lab, caller)` ends with an answer from `p`. */
  ghost predicate AnswersFor(s: State, act: Action, lab: LabId, caller: CallerName, p: ProviderId) {
    && act.Finish? && act.c < |s.calls|
    && s.calls[act.c].pc == Closing(p, true)
    && s.calls[act.c].lab == Some(lab) && s.calls[act.c].caller == caller
  }

  /** The step on which some call of `(lab, caller)` ends with an answer. */
  ghost predicate Answers(s: State, act: Action, lab: LabId, caller: CallerName) {
    exists p: ProviderId :: AnswersFor(s, act, lab, caller, p)
  }

  /** What one step does to one pin: the lab's clearing removes it, an answer sets it, and nothing
      else touches it. */
  lemma PinStep(s: State, a: Action, lab: LabId, caller: CallerName)
    requires Enabled(s, a)
    ensures a == ClearLab(lab) ==> Affinity.Pinned(Next(s, a).pins, lab, caller) == None
    ensures forall p: ProviderId :: AnswersFor(s, a, lab, caller, p) ==> Affinity.Pinned(Next(s, a).pins, lab, caller) == Some(p)
    ensures a != ClearLab(lab) && !Answers(s, a, lab, caller) ==>
              Affinity.Pinned(Next(s, a).pins, lab, caller) == Affinity.Pinned(s.pins, lab, caller)
  {
    if a.Finish? && s.calls[a.c].pc.ok && s.calls[a.c].lab == Some(lab) && s.calls[a.c].caller == caller {
      assert AnswersFor(s, a, lab, caller, s.calls[a.c].pc.p);
    }
  }

  /** Step `i` ends an answered call of `(lab, caller)` with `p`, and from then to point `j` the lab is not
      cleared and no other call of that caller ends with an answer. */
  ghost predicate EarnedAt(tr: seq<State>, acts: seq<Action>, i: nat, j: nat,
                           lab: LabId, caller: CallerName, p: ProviderId)
    requires j < |tr| == |acts| + 1
  {
    && i < j && AnswersFor(tr[i], acts[i], lab, caller, p)
    && forall k :: i < k < j ==> acts[k] != ClearLab(lab) && !Answers(tr[k], acts[k], lab, caller)
  }

  /** Every pin was earned. */
  lemma {:induction false} PinsAreEarned(tr: seq<State>, acts: seq<Action>, j: nat, lab: LabId, caller: CallerName)
    returns (i: nat)
    requires IsRun(tr, acts) && j < |tr| && tr[0].pins == map[]
    requires (lab, caller) in tr[j].pins
    ensures EarnedAt(tr, acts, i, j, lab, caller, tr[j].pins[(lab, caller)])
    decreases j
  {
    assert j > 0;
    var s, act := tr[j - 1], acts[j - 1];
    assert StepAt(tr, acts, j - 1);
    PinStep(s, act, lab, caller);
    if Answers(s, act, lab, caller) {
      i := j - 1;
    } else {
      i := PinsAreEarned(tr, acts, j - 1, lab, caller);
    }
  }

  /** What was earned is pinned. */
  lemma {:induction false} EarnedIsPinned(tr: seq<State>, acts: seq<Action>, i: nat, j: nat,
                                          lab: LabId, caller: CallerName, p: ProviderId)
    requires IsRun(tr, acts) && j < |tr| && EarnedAt(tr, acts, i, j, lab, caller, p)
    ensures Affinity.Pinned(tr[j].pins, lab, caller) == Some(p)
    decreases j
  {
    assert StepAt(tr, acts, j - 1);
    PinStep(tr[j - 1], acts[j - 1], lab, caller);
    if i < j - 1 {
      EarnedIsPinned(tr, acts, i, j - 1, lab, caller, p);
    }
  }

  /** The pin table over any run, exactly: a caller is pinned to a provider if and only if some call of it
      was answered there, and since then the lab was not cleared and no other call of it was answered. */
  lemma PinnedExactly(tr: seq<State>, acts: seq<Action>, j: nat, lab: LabId, caller: CallerName, p: ProviderId)
    requires IsRun(tr, acts) && j < |tr| && tr[0].pins == map[]
    ensures (lab, caller) in tr[j].pins && tr[j].pins[(lab, caller)] == p
      <==> exists i: nat :: EarnedAt(tr, acts, i, j, lab, caller, p)
  {
    if (lab, caller) in tr[j].pins {
      var i := PinsAreEarned(tr, acts, j, lab, caller);
    }
    if i: nat :| EarnedAt(tr, acts, i, j, lab, caller, p) {
      EarnedIsPinned(tr, acts, i, j, lab, caller, p);
    }
  }

  lemma StartSetsOrder(s: State, c: CallId, rows: seq<ProviderId>)
    requires Inv(s) && Enabled(s, Start(c, rows)) && rows != []
    ensures var k := Next(s, Start(c, rows)).calls[c];
            && k.pc.Choosing?
            && k.order == Affinity.Order(rows, Depths(s.slots), s.pins, s.calls[c].lab, s.calls[c].caller)
  {
  }

  lemma StepKeepsOrder(s: State, a: Action, c: CallId)
    requires Inv(s) && Enabled(s, a) && c < |s.calls| && !s.calls[c].pc.Idle?
    ensures c < |Next(s, a).calls|
    ensures Next(s, a).calls[c].order == s.calls[c].order && !Next(s, a).calls[c].pc.Idle?
  {
    StepDecreases(s, a, c);
  }

  lemma StartKnowsRows(s: State, c: CallId, rows: seq<ProviderId>)
    requires Enabled(s, Start(c, rows))
    ensures c < |s.calls| && forall p :: p in rows ==> p in s.slots
  {
  }

  ghost predicate HasOrder(s: State, c: CallId, order: seq<ProviderId>) {
    c < |s.calls| && s.calls[c].order == order && !s.calls[c].pc.Idle?
  }

  lemma OrderStaysStep(tr: seq<State>, acts: seq<Action>, k: nat, c: CallId, order: seq<ProviderId>)
    requires IsRun(tr, acts) && k < |acts| && HasOrder(tr[k], c, order)
    ensures HasOrder(tr[k + 1], c, order)
  {
    RunKeeps(tr, acts, k);
    assert StepAt(tr, acts, k);
    StepKeepsOrder(tr[k], acts[k], c);
  }

  lemma {:induction false} OrderStays(tr: seq<State>, acts: seq<Action>, i: nat, j: nat, c: CallId, order: seq<ProviderId>)
    requires IsRun(tr, acts) && i <= j < |tr| && HasOrder(tr[i], c, order)
    ensures HasOrder(tr[j], c, order)
    decreases j - i
  {
    if i < j {
      OrderStays(tr, acts, i, j - 1, c, order);
      OrderStaysStep(tr, acts, j - 1, c, order);
    }
  }

  lemma StartFixesOrder(tr: seq<State>, acts: seq<Action>, i: nat, c: CallId, rows: seq<ProviderId>)
    requires IsRun(tr, acts) && i < |acts| && acts[i] == Start(c, rows) && rows != []
    ensures c < |tr[i].calls| && forall p :: p in rows ==> p in tr[i].slots
    ensures HasOrder(tr[i + 1], c,
              Affinity.Order(rows, Depths(tr[i].slots), tr[i].pins, tr[i].calls[c].lab, tr[i].calls[c].caller))
  {
    RunKeeps(tr, acts, i);
    assert StepAt(tr, acts, i);
    StartKnowsRows(tr[i], c, rows);
    StartSetsOrder(tr[i], c, rows);
  }

  /** The order a call works through is the affinity order at the moment it started. */
  lemma OrderIsFixedAtStart(tr: seq<State>, acts: seq<Action>, i: nat, j: nat, c: CallId, rows: seq<ProviderId>)
    requires IsRun(tr, acts) && i < j < |tr| && acts[i] == Start(c, rows) && rows != []
    ensures c < |tr[i].calls| && c < |tr[j].calls| && (forall p :: p in rows ==> p in tr[i].slots)
    ensures tr[j].calls[c].order ==
            Affinity.Order(rows, Depths(tr[i].slots), tr[i].pins, tr[i].calls[c].lab, tr[i].calls[c].caller)
    ensures !tr[j].calls[c].pc.Idle?
  {
    StartFixesOrder(tr, acts, i, c, rows);
    var order := Affinity.Order(rows, Depths(tr[i].slots), tr[i].pins, tr[i].calls[c].lab, tr[i].calls[c].caller);
    OrderStays(tr, acts, i + 1, j, c, order);
  }
}
