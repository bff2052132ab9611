/** The global slot registry: double-checked creation under `_global_lock`, with the provider
    row fetched from a database that others keep changing. */
module SlotRegistry {
  import opened Common

  type TaskId = nat

  /** The columns of `ai_providers` that decide about a slot. */
  datatype Row = Row(active: bool, pending: bool, providerType: string)

  /** A registered slot: its identity, the row it was built from, its number of permits. */
  datatype SlotObject = SlotObject(id: nat, row: Row, concurrency: nat)

  datatype Reason = NotDispatchable | MediaPipeline | UnknownType | TaskCancelled

  datatype Pc =
    | Start(p: ProviderId)
    | Waiting(p: ProviderId)
    | Locked(p: ProviderId)
    | Querying(p: ProviderId)
    | Fetched(p: ProviderId, row: Option<Row>)
    | Returned(p: ProviderId, slot: SlotObject)
    | Raised(p: ProviderId, why: Reason)

  datatype State = State(
    registry: map<ProviderId, SlotObject>,
    lock: Option<TaskId>,
    db: map<ProviderId, Row>,
    tasks: seq<Pc>,
    nextId: nat)

  datatype Action =
    | Look(t: TaskId)
    | TakeLock(t: TaskId)
    | Recheck(t: TaskId)
    | Fetch(t: TaskId)
    | Build(t: TaskId)
    | CancelTask(t: TaskId)
    | WriteRow(p: ProviderId, row: Row)
    | DeleteRow(p: ProviderId)

  const MEDIA_PIPELINES := {"riffusion", "musicgen", "bark", "rvc", "coqui_tts", "stt", "ltx_video", "wan_video"}
  const LLM_TYPES := {"ollama", "huggingface", "openai", "claude_cli", "anthropic",
                      "openai_cloud", "xai", "groq", "deepseek"}

  /** Permits per provider type. */
  function Permits(providerType: string): nat {
    if providerType in {"openai", "vllm", "huggingface"} then 4
    else if providerType == "claude_cli" then 2
    else 1
  }

  predicate Dispatchable(row: Row) {
    row.active && !row.pending
  }

  predicate Enabled(s: State, a: Action) {
    match a
    case Look(t) => t < |s.tasks| && s.tasks[t].Start?
    case TakeLock(t) => t < |s.tasks| && s.tasks[t].Waiting? && s.lock.None?
    case Recheck(t) => t < |s.tasks| && s.tasks[t].Locked?
    case Fetch(t) => t < |s.tasks| && s.tasks[t].Querying?
    case Build(t) => t < |s.tasks| && s.tasks[t].Fetched?
    case CancelTask(t) => t < |s.tasks| && (s.tasks[t].Waiting? || s.tasks[t].Querying? || s.tasks[t].Fetched?)
    case WriteRow(_, _) => true
    case DeleteRow(_) => true
  }

  function Move(s: State, t: TaskId, pc: Pc): State
    requires t < |s.tasks|
  {
    s.(tasks := s.tasks[t := pc])
  }

  /** What happens after the query: raise, or build the slot and register it. */
  function Built(s: State, t: TaskId, p: ProviderId, row: Option<Row>): State
    requires t < |s.tasks|
  {
    var unlocked := s.(lock := None);
    match row
    case None => Move(unlocked, t, Raised(p, NotDispatchable))
    case Some(r) =>
      if r.providerType in MEDIA_PIPELINES then Move(unlocked, t, Raised(p, MediaPipeline))
      else if r.providerType !in LLM_TYPES then Move(unlocked, t, Raised(p, UnknownType))
      else
        var slot := SlotObject(s.nextId, r, Permits(r.providerType));
        Move(unlocked, t, Returned(p, slot)).(registry := s.registry[p := slot], nextId := s.nextId + 1)
  }

  function Next(s: State, a: Action): State
    requires Enabled(s, a)
  {
    match a
    case Look(t) =>
      var p := s.tasks[t].p;
      Move(s, t, if p in s.registry then Returned(p, s.registry[p]) else Waiting(p))
    case TakeLock(t) => Move(s, t, Locked(s.tasks[t].p)).(lock := Some(t))
    case Recheck(t) =>
      var p := s.tasks[t].p;
      if p in s.registry then Move(s, t, Returned(p, s.registry[p])).(lock := None)
      else Move(s, t, Querying(p))
    case Fetch(t) =>
      var p := s.tasks[t].p;
      Move(s, t, Fetched(p, if p in s.db && Dispatchable(s.db[p]) then Some(s.db[p]) else None))
    case Build(t) => Built(s, t, s.tasks[t].p, s.tasks[t].row)
    case CancelTask(t) =>
      var cancelled := Move(s, t, Raised(s.tasks[t].p, TaskCancelled));
      if s.tasks[t].Waiting? then cancelled else cancelled.(lock := None)
    case WriteRow(p, row) => s.(db := s.db[p := row])
    case DeleteRow(p) => s.(db := s.db - {p})
  }

  ghost predicate Init(s: State) {
    && s.registry == map[] && s.lock == None && s.nextId == 0
    && forall t :: 0 <= t < |s.tasks| ==> s.tasks[t].Start?
  }

  ghost predicate IsRun(tr: seq<State>, acts: seq<Action>) {
    && |tr| == |acts| + 1
    && Init(tr[0])
    && forall i :: 0 <= i < |acts| ==> StepAt(tr, acts, i)
  }

  ghost predicate StepAt(tr: seq<State>, acts: seq<Action>, i: int)
    requires 0 <= i < |acts| < |tr|
  {
    Enabled(tr[i], acts[i]) && tr[i + 1] == Next(tr[i], acts[i])
  }

  // ---------- the invariant ----------

  predicate InLock(pc: Pc) {
    pc.Locked? || pc.Querying? || pc.Fetched?
  }

  /** A row the registry may build a slot from. */
  predicate Usable(row: Row) {
    Dispatchable(row) && row.providerType !in MEDIA_PIPELINES && row.providerType in LLM_TYPES
  }

  ghost predicate TaskInv(s: State, t: TaskId)
    requires t < |s.tasks|
  {
    && (InLock(s.tasks[t]) <==> s.lock == Some(t))
    && match s.tasks[t]
       case Querying(p) => p !in s.registry
       case Fetched(p, row) => p !in s.registry && (row.Some? ==> Dispatchable(row.value))
       case Returned(p, slot) => p in s.registry && s.registry[p] == slot
       case _ => true
  }

  /** As many slots as were built, each with its own number and a usable row. */
  ghost predicate RegistryInv(registry: map<ProviderId, SlotObject>, nextId: nat) {
    && |registry| == nextId
    && (forall p :: p in registry ==>
          && registry[p].id < nextId
          && Usable(registry[p].row)
          && registry[p].concurrency == Permits(registry[p].row.providerType))
    && (forall p, q :: p in registry && q in registry && p != q ==> registry[p].id != registry[q].id)
  }

  ghost predicate Inv(s: State) {
    && (forall t :: 0 <= t < |s.tasks| ==> TaskInv(s, t))
    && (s.lock.Some? ==> s.lock.value < |s.tasks|)
    && RegistryInv(s.registry, s.nextId)
  }

  /** Whoever is in the first registry has the same slot in the second. */
  ghost predicate Extends(registry: map<ProviderId, SlotObject>, later: map<ProviderId, SlotObject>) {
    forall p :: p in registry ==> p in later && later[p] == registry[p]
  }

  lemma ExtendsAlong(a: map<ProviderId, SlotObject>, b: map<ProviderId, SlotObject>, c: map<ProviderId, SlotObject>)
    requires Extends(a, b) && Extends(b, c)
    ensures Extends(a, c)
  {
  }

  /** Steps that leave the registry alone. */
  lemma QuietStepKeeps(s: State, a: Action)
    requires Inv(s) && Enabled(s, a) && !a.Build?
    ensures Inv(Next(s, a))
    ensures Next(s, a).registry == s.registry
  {
    var s' := Next(s, a);
    forall u | 0 <= u < |s'.tasks| ensures TaskInv(s', u) {
      assert TaskInv(s, u);
      if !a.WriteRow? && !a.DeleteRow? {
        assert TaskInv(s, a.t);
      }
    }
  }

  /** A row that cannot be used is refused, and the lock is free again. */
  lemma RefusalKeeps(s: State, t: TaskId, why: Reason)
    requires Inv(s) && t < |s.tasks| && s.lock == Some(t)
    ensures Inv(Move(s.(lock := None), t, Raised(s.tasks[t].p, why)))
  {
    var s' := Move(s.(lock := None), t, Raised(s.tasks[t].p, why));
    forall u | 0 <= u < |s'.tasks| ensures TaskInv(s', u) {
      assert TaskInv(s, u);
    }
  }

  lemma BuildKeeps(s: State, t: TaskId)
    requires Inv(s) && Enabled(s, Build(t))
    ensures Inv(Next(s, Build(t))) && Extends(s.registry, Next(s, Build(t)).registry)
  {
    var p, row := s.tasks[t].p, s.tasks[t].row;
    assert TaskInv(s, t);
    if row.None? {
      RefusalKeeps(s, t, NotDispatchable);
    } else if row.value.providerType in MEDIA_PIPELINES {
      RefusalKeeps(s, t, MediaPipeline);
    } else if row.value.providerType !in LLM_TYPES {
      RefusalKeeps(s, t, UnknownType);
    } else {
      RegisterKeeps(s, t, p, SlotObject(s.nextId, row.value, Permits(row.value.providerType)));
    }
  }

  lemma RegistryGrows(registry: map<ProviderId, SlotObject>, nextId: nat, p: ProviderId, slot: SlotObject)
    requires RegistryInv(registry, nextId) && p !in registry
    requires slot.id == nextId && Usable(slot.row) && slot.concurrency == Permits(slot.row.providerType)
    ensures RegistryInv(registry[p := slot], nextId + 1)
  {
    assert registry[p := slot].Keys == registry.Keys + {p};
  }

  /** The registering case, apart from how the row was judged. */
  lemma RegisterKeeps(s: State, t: TaskId, p: ProviderId, slot: SlotObject)
    requires Inv(s) && t < |s.tasks| && s.lock == Some(t) && p !in s.registry
    requires slot.id == s.nextId && Usable(slot.row) && slot.concurrency == Permits(slot.row.providerType)
    ensures Inv(State(s.registry[p := slot], None, s.db, s.tasks[t := Returned(p, slot)], s.nextId + 1))
  {
    var s' := State(s.registry[p := slot], None, s.db, s.tasks[t := Returned(p, slot)], s.nextId + 1);
    RegistryGrows(s.registry, s.nextId, p, slot);
    forall u | 0 <= u < |s'.tasks| ensures TaskInv(s', u) {
      assert TaskInv(s, u);
    }
  }

  lemma StepKeeps(s: State, a: Action)
    requires Inv(s) && Enabled(s, a)
    ensures Inv(Next(s, a))
    ensures Extends(s.registry, Next(s, a).registry)
  {
    if a.Build? {
      BuildKeeps(s, a.t);
    } else {
      QuietStepKeeps(s, a);
    }
  }

  lemma {:induction false} RunKeeps(tr: seq<State>, acts: seq<Action>, i: nat)
    requires IsRun(tr, acts) && i < |tr|
    ensures Inv(tr[i])
  {
    if i > 0 {
      RunKeeps(tr, acts, i - 1);
      assert StepAt(tr, acts, i - 1);
      StepKeeps(tr[i - 1], acts[i - 1]);
    } else {
      assert tr[0].registry.Keys == {};
    }
  }

  lemma StepExtends(tr: seq<State>, acts: seq<Action>, k: nat)
    requires IsRun(tr, acts) && k < |acts|
    ensures Extends(tr[k].registry, tr[k + 1].registry)
  {
    RunKeeps(tr, acts, k);
    assert StepAt(tr, acts, k);
    StepKeeps(tr[k], acts[k]);
  }

  /** A registration is final: slots are neither replaced nor dropped. */
  lemma {:induction false} RegistrationIsFinal(tr: seq<State>, acts: seq<Action>, i: nat, j: nat)
    requires IsRun(tr, acts) && i <= j < |tr|
    ensures Extends(tr[i].registry, tr[j].registry)
    decreases j - i
  {
    if i < j {
      RegistrationIsFinal(tr, acts, i, j - 1);
      StepExtends(tr, acts, j - 1);
      ExtendsAlong(tr[i].registry, tr[j - 1].registry, tr[j].registry);
    }
  }

  /** One slot per provider: whoever asks for a provider, at whatever points of a run, and
      however the tasks interleave, gets the same object; and only as many slots were ever
      built as there are registered providers. */
  lemma OneSlotPerProvider(tr: seq<State>, acts: seq<Action>, i: nat, t: TaskId, j: nat, u: TaskId)
    requires IsRun(tr, acts) && i <= j < |tr|
    requires t < |tr[i].tasks| && tr[i].tasks[t].Returned?
    requires u < |tr[j].tasks| && tr[j].tasks[u].Returned?
    ensures tr[i].tasks[t].p == tr[j].tasks[u].p <==> tr[i].tasks[t].slot == tr[j].tasks[u].slot
    ensures tr[j].nextId == |tr[j].registry|
  {
    RunKeeps(tr, acts, i);
    RunKeeps(tr, acts, j);
    RegistrationIsFinal(tr, acts, i, j);
    assert TaskInv(tr[i], t) && TaskInv(tr[j], u);
  }

  /** At most one task is ever between the second check and the registration. */
  lemma CreationIsExclusive(tr: seq<State>, acts: seq<Action>, i: nat, t: TaskId, u: TaskId)
    requires IsRun(tr, acts) && i < |tr| && t < |tr[i].tasks| && u < |tr[i].tasks|
    requires InLock(tr[i].tasks[t]) && InLock(tr[i].tasks[u])
    ensures t == u
  {
    RunKeeps(tr, acts, i);
    assert TaskInv(tr[i], t) && TaskInv(tr[i], u);
  }

  lemma FetchedRowStep(s: State, a: Action, t: TaskId)
    requires Enabled(s, a) && t < |Next(s, a).tasks| && Next(s, a).tasks[t].Fetched?
    requires Next(s, a).tasks[t].row.Some?
    ensures t < |s.tasks|
    ensures var fetched := Next(s, a).tasks[t];
      if a == Fetch(t) then fetched.p in s.db && s.db[fetched.p] == fetched.row.value
      else s.tasks[t] == fetched
  {
  }

  /** Where a fetched row came from: the database as it stood at some earlier query. */
  lemma {:induction false} FetchedRowWasRead(tr: seq<State>, acts: seq<Action>, j: nat, t: TaskId) returns (i: nat)
    requires IsRun(tr, acts) && j < |tr| && t < |tr[j].tasks|
    requires tr[j].tasks[t].Fetched? && tr[j].tasks[t].row.Some?
    ensures i < j && acts[i] == Fetch(t)
    ensures tr[j].tasks[t].p in tr[i].db && tr[i].db[tr[j].tasks[t].p] == tr[j].tasks[t].row.value
    decreases j
  {
    assert j > 0;
    assert StepAt(tr, acts, j - 1);
    FetchedRowStep(tr[j - 1], acts[j - 1], t);
    if acts[j - 1] == Fetch(t) {
      i := j - 1;
    } else {
      i := FetchedRowWasRead(tr, acts, j - 1, t);
    }
  }

  lemma RegistrationIsABuild(s: State, a: Action, p: ProviderId)
    requires Inv(s) && Enabled(s, a) && p !in s.registry && p in Next(s, a).registry
    ensures a.Build? && s.tasks[a.t].p == p
    ensures s.tasks[a.t].row == Some(Next(s, a).registry[p].row)
  {
  }

  /** What stands behind a registered slot: at some query before its registration the
      provider's row was active, approved, no media pipeline and of a known type, and the slot
      was built from exactly that row with the permits of its type. Nothing is re-read later. */
  lemma SlotsComeFromUsableRows(tr: seq<State>, acts: seq<Action>, j: nat, p: ProviderId) returns (i: nat)
    requires IsRun(tr, acts) && j < |tr| && p in tr[j].registry
    ensures i < j && acts[i].Fetch?
    ensures p in tr[i].db && tr[i].db[p] == tr[j].registry[p].row
    ensures Usable(tr[i].db[p])
    ensures tr[j].registry[p].concurrency == Permits(tr[i].db[p].providerType)
  {
    RunKeeps(tr, acts, j);
    i := SlotRowWasRead(tr, acts, j, p);
  }

  lemma {:induction false} SlotRowWasRead(tr: seq<State>, acts: seq<Action>, j: nat, p: ProviderId) returns (i: nat)
    requires IsRun(tr, acts) && j < |tr| && p in tr[j].registry
    ensures i < j && acts[i].Fetch?
    ensures p in tr[i].db && tr[i].db[p] == tr[j].registry[p].row
    decreases j
  {
    assert j > 0;
    RunKeeps(tr, acts, j - 1);
    assert StepAt(tr, acts, j - 1);
    if p in tr[j - 1].registry {
      StepExtends(tr, acts, j - 1);
      i := SlotRowWasRead(tr, acts, j - 1, p);
    } else {
      RegistrationIsABuild(tr[j - 1], acts[j - 1], p);
      i := FetchedRowWasRead(tr, acts, j - 1, acts[j - 1].t);
    }
  }

  // ---------- what a request for a slot ends with ----------

  function Step(s: State, a: Action): Option<State> {
    if Enabled(s, a) then Some(Next(s, a)) else None
  }

  /** The steps of a task that asks for a slot with nobody in its way. */
  function Asks(t: TaskId): seq<Action> {
    [Look(t), TakeLock(t), Recheck(t), Fetch(t), Build(t)]
  }

  /** The provider types that labs can use, with the calls each takes at a time. */
  function Served(providerType: string): Option<nat> {
    match providerType
    case "openai" => Some(4)
    case "huggingface" => Some(4)
    case "claude_cli" => Some(2)
    case "ollama" => Some(1)
    case "anthropic" => Some(1)
    case "openai_cloud" => Some(1)
    case "xai" => Some(1)
    case "groq" => Some(1)
    case "deepseek" => Some(1)
    case _ => None
  }

  predicate MakesMedia(providerType: string) {
    match providerType
    case "riffusion" => true
    case "musicgen" => true
    case "bark" => true
    case "rvc" => true
    case "coqui_tts" => true
    case "stt" => true
    case "ltx_video" => true
    case "wan_video" => true
    case _ => false
  }

  lemma ServedAre(providerType: string)
    ensures Served(providerType).Some? <==> providerType in LLM_TYPES
    ensures Served(providerType).Some? ==> Permits(providerType) == Served(providerType).value
    ensures MakesMedia(providerType) <==> providerType in MEDIA_PIPELINES
    ensures Served(providerType).Some? ==> !MakesMedia(providerType)
  {
  }

  /** What the request of task `t` for `p` ends with, by the row that the database has for `p`. */
  ghost predicate Ends(s: State, s': State, t: TaskId, p: ProviderId, row: Option<Row>)
    requires t < |s'.tasks|
  {
    && s'.lock == None && s'.db == s.db
    && if row.None? || !row.value.active || row.value.pending then
         s'.tasks[t] == Raised(p, NotDispatchable) && s'.registry == s.registry
       else if MakesMedia(row.value.providerType) then
         s'.tasks[t] == Raised(p, MediaPipeline) && s'.registry == s.registry
       else if Served(row.value.providerType).None? then
         s'.tasks[t] == Raised(p, UnknownType) && s'.registry == s.registry
       else
         var slot := SlotObject(s.nextId, row.value, Served(row.value.providerType).value);
         s'.tasks[t] == Returned(p, slot) && s'.registry == s.registry[p := slot]
  }

  /** The row as the query returns it. */
  function RowRead(s: State, p: ProviderId): Option<Row> {
    if p in s.db && s.db[p].active && !s.db[p].pending then Some(s.db[p]) else None
  }

  /** The task holds the lock and has the row. */
  function AtBuild(s: State, t: TaskId, p: ProviderId): State
    requires t < |s.tasks|
  {
    s.(lock := Some(t), tasks := s.tasks[t := Fetched(p, RowRead(s, p))])
  }

  lemma UpToBuild(s: State, t: TaskId, p: ProviderId)
    requires t < |s.tasks| && s.tasks[t] == Start(p) && s.lock == None && p !in s.registry
    ensures Perform(Step, s, Asks(t)) == Some(Next(AtBuild(s, t, p), Build(t)))
  {
    var s1 := s.(tasks := s.tasks[t := Waiting(p)]);
    var s2 := s.(lock := Some(t), tasks := s.tasks[t := Locked(p)]);
    var s3 := s.(lock := Some(t), tasks := s.tasks[t := Querying(p)]);
    assert s1.tasks[t := Locked(p)] == s2.tasks && s2.tasks[t := Querying(p)] == s3.tasks;
    assert s3.tasks[t := Fetched(p, RowRead(s, p))] == AtBuild(s, t, p).tasks;
    assert Step(s, Look(t)) == Some(s1);
    assert Step(s1, TakeLock(t)) == Some(s2);
    assert Step(s2, Recheck(t)) == Some(s3);
    assert Step(s3, Fetch(t)) == Some(AtBuild(s, t, p));
    PerformFive(Step, s, Look(t), TakeLock(t), Recheck(t), Fetch(t), Build(t));
  }

  lemma BuildEnds(s: State, t: TaskId, p: ProviderId)
    requires t < |s.tasks|
    ensures |Next(AtBuild(s, t, p), Build(t)).tasks| == |s.tasks|
    ensures Ends(s, Next(AtBuild(s, t, p), Build(t)), t, p, if p in s.db then Some(s.db[p]) else None)
  {
    if p in s.db {
      ServedAre(s.db[p].providerType);
    }
  }

  lemma AskedAlone(s: State, t: TaskId, p: ProviderId)
    requires t < |s.tasks| && s.tasks[t] == Start(p) && s.lock == None && p !in s.registry
    ensures Perform(Step, s, Asks(t)).Some? && |Perform(Step, s, Asks(t)).value.tasks| == |s.tasks|
    ensures Ends(s, Perform(Step, s, Asks(t)).value, t, p, if p in s.db then Some(s.db[p]) else None)
  {
    UpToBuild(s, t, p);
    BuildEnds(s, t, p);
  }

  /** A task that asks alone for a provider without a slot gets one exactly if the row that was last
      written for it is active, approved and of a served type, with the permits of that type; otherwise
      it raises and nothing is registered. A deleted row is no row. */
  lemma AskedAfterWrite(s: State, t: TaskId, p: ProviderId, row: Row)
    requires t < |s.tasks| && s.tasks[t] == Start(p) && s.lock == None && p !in s.registry
    ensures var written := Step(s, WriteRow(p, row));
      && written.Some? && written.value.registry == s.registry
      && Perform(Step, written.value, Asks(t)).Some?
      && |Perform(Step, written.value, Asks(t)).value.tasks| == |s.tasks|
      && Ends(written.value, Perform(Step, written.value, Asks(t)).value, t, p, Some(row))
    ensures var deleted := Step(s, DeleteRow(p));
      && deleted.Some? && deleted.value.registry == s.registry
      && Perform(Step, deleted.value, Asks(t)).Some?
      && |Perform(Step, deleted.value, Asks(t)).value.tasks| == |s.tasks|
      && Ends(deleted.value, Perform(Step, deleted.value, Asks(t)).value, t, p, None)
  {
    AskedAlone(Next(s, WriteRow(p, row)), t, p);
    AskedAlone(Next(s, DeleteRow(p)), t, p);
  }

  /** A registered slot is handed out as it is, without a look at the database. */
  lemma RegisteredIsReturned(s: State, t: TaskId, p: ProviderId)
    requires t < |s.tasks| && s.tasks[t] == Start(p) && p in s.registry
    ensures Step(s, Look(t)) == Some(s.(tasks := s.tasks[t := Returned(p, s.registry[p])]))
  {
  }

  /** The `vllm` branch of the permit table is never used: such a row is refused by the
      provider factory before a slot exists. */
  lemma VllmIsNeverRegistered(tr: seq<State>, acts: seq<Action>, j: nat, p: ProviderId)
    requires IsRun(tr, acts) && j < |tr| && p in tr[j].registry
    ensures tr[j].registry[p].row.providerType != "vllm" && Permits("vllm") == 4
  {
    RunKeeps(tr, acts, j);
  }
}
