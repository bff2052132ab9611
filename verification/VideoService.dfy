/** The model lifecycle of the two video services: request threads and the idle watcher share
    the pipeline globals. Every access to a shared global is a step of its own, inside a lock
    or not, and threads interleave at every step. */
module VideoService {
  import opened Common

  type RequestId = nat
  type Mode = nat

  datatype Service = Ltx | Wan
  datatype Thread = Watcher | Request(i: RequestId)

  /** The module globals of a service. `pipeline` names the mode a pipeline was built for. */
  datatype Globals = Globals(
    pipeline: Option<Mode>,
    loaded: bool,
    mode: Option<Mode>,
    active: int,
    lastUsed: int,
    generating: bool,
    step: nat,
    total: nat)

  /** Where a request thread is: what it does next, or has just done. `Unloading` counts the
      writes of `_unload_inner` already made. */
  datatype RequestPc =
    | Idle
    | Admitted
    | Incrementing
    | IncrementRead(v: int)
    | Incremented
    | Counted
    | Ensuring
    | Unloading(k: nat)
    | Loading
    | Constructed
    | ModeSet
    | LoadedSet
    | Ensured
    | LoadFailed
    | Ready
    | GeneratingSet
    | StepCleared
    | Running
    | PipelineReturned
    | Encoding
    | Failing
    | Leaving
    | Decrementing
    | DecrementRead(v: int)
    | Decremented
    | Stamped
    | Releasing
    | Finished
    | Rejected

  /** `ensured` records that `_ensure_model` has returned normally. */
  datatype RequestThread = RequestThread(pc: RequestPc, mode: Mode, steps: nat, ensured: bool)

  datatype WatcherPc =
    | Asleep
    | Awake
    | WantActive
    | CheckActive
    | ActiveRead(idle: bool)
    | CheckIdle
    | WantModel
    | RecheckLoaded
    | RecheckActive
    | WatcherUnloading(k: nat)
    | ReleaseModel

  /** Everything the threads share, and the watcher's place. */
  datatype Shared = Shared(
    service: Service,
    idleLimit: int,
    g: Globals,
    permits: int,
    activeLock: Option<Thread>,
    modelLock: Option<Thread>,
    watcher: WatcherPc,
    now: int)

  datatype State = State(sh: Shared, requests: seq<RequestThread>)

  /** The outcome of one step of one request thread. */
  datatype After = After(sh: Shared, r: RequestThread)

  /** How a request's next operation turns out; `Progress(k)` is the pipeline's step callback. */
  datatype Choice = Proceed | Fail | Progress(k: nat)

  datatype Action = Advance(i: RequestId, choice: Choice) | Watch | Tick(d: nat)

  // ---------- the request thread ----------

  /** Taking the semaphore and counting oneself in. */
  predicate Entering(pc: RequestPc) {
    pc.Idle? || pc.Admitted? || pc.Incrementing? || pc.IncrementRead? || pc.Incremented? || pc.Counted?
  }

  function Enter(sh: Shared, i: RequestId, r: RequestThread): After
    requires Entering(r.pc)
  {
    match r.pc
    case Idle => After(sh.(permits := sh.permits - 1), r.(pc := Admitted))
    case Admitted => After(sh.(activeLock := Some(Request(i))), r.(pc := Incrementing))
    case Incrementing => After(sh, r.(pc := IncrementRead(sh.g.active)))
    case IncrementRead(v) => After(sh.(g := sh.g.(active := v + 1)), r.(pc := Incremented))
    case Incremented => After(sh.(activeLock := None), r.(pc := Counted))
    case Counted => After(sh.(modelLock := Some(Request(i))), r.(pc := Ensuring))
  }

  /** The body of `_ensure_model`, from taking the model lock to dropping it. */
  predicate HoldsModel(pc: RequestPc) {
    || pc.Ensuring? || pc.Unloading? || pc.Loading? || pc.Constructed? || pc.ModeSet?
    || pc.LoadedSet? || pc.Ensured? || pc.LoadFailed?
  }

  /** One write of `_unload_inner`. */
  function Unload(g: Globals, k: nat): Globals {
    if k == 0 then g.(pipeline := None)
    else if k == 1 then g.(loaded := false)
    else g.(mode := None)
  }

  function Ensure(sh: Shared, r: RequestThread): After
    requires HoldsModel(r.pc)
  {
    var g := sh.g;
    match r.pc
    case Ensuring =>
      After(sh, r.(pc := if g.loaded && g.mode == Some(r.mode) then LoadedSet
                         else if g.loaded then Unloading(0) else Loading))
    case Unloading(k) => After(sh.(g := Unload(g, k)), r.(pc := if k < 2 then Unloading(k + 1) else Loading))
    case Loading => After(sh.(g := g.(pipeline := Some(r.mode))), r.(pc := Constructed))
    case Constructed => After(sh.(g := g.(mode := Some(r.mode))), r.(pc := ModeSet))
    case ModeSet => After(sh.(g := g.(loaded := true)), r.(pc := LoadedSet))
    case LoadedSet => After(sh.(g := g.(lastUsed := sh.now)), r.(pc := Ensured))
    case Ensured => After(sh.(modelLock := None), r.(pc := Ready, ensured := true))
    case LoadFailed => After(sh.(modelLock := None), r.(pc := Failing))
  }

  /** Using the pipeline, up to and including the exception handler. */
  predicate Working(pc: RequestPc) {
    || pc.Ready? || pc.GeneratingSet? || pc.StepCleared? || pc.Running? || pc.PipelineReturned?
    || pc.Encoding? || pc.Failing?
  }

  /** The progress globals exist in the Wan service only. */
  function NotGenerating(sh: Shared): Shared {
    if sh.service.Wan? then sh.(g := sh.g.(generating := false)) else sh
  }

  function Work(sh: Shared, r: RequestThread): After
    requires Working(r.pc)
  {
    match r.pc
    case Ready =>
      if sh.service.Wan? then After(sh.(g := sh.g.(generating := true)), r.(pc := GeneratingSet))
      else After(sh, r.(pc := Running))
    case GeneratingSet => After(sh.(g := sh.g.(step := 0)), r.(pc := StepCleared))
    case StepCleared => After(sh.(g := sh.g.(total := r.steps)), r.(pc := Running))
    case Running => After(sh, r.(pc := PipelineReturned))
    case PipelineReturned => After(NotGenerating(sh), r.(pc := Encoding))
    case Encoding => After(sh, r.(pc := Leaving))
    case Failing => After(NotGenerating(sh), r.(pc := Leaving))
  }

  /** The `finally` block. */
  predicate Exiting(pc: RequestPc) {
    pc.Leaving? || pc.Decrementing? || pc.DecrementRead? || pc.Decremented? || pc.Stamped? || pc.Releasing?
  }

  function Exit(sh: Shared, i: RequestId, r: RequestThread): After
    requires Exiting(r.pc)
  {
    match r.pc
    case Leaving => After(sh.(activeLock := Some(Request(i))), r.(pc := Decrementing))
    case Decrementing => After(sh, r.(pc := DecrementRead(sh.g.active)))
    case DecrementRead(v) => After(sh.(g := sh.g.(active := v - 1)), r.(pc := Decremented))
    case Decremented => After(sh.(g := sh.g.(lastUsed := sh.now)), r.(pc := Stamped))
    case Stamped => After(sh.(activeLock := None), r.(pc := Releasing))
    case Releasing => After(sh.(permits := sh.permits + 1), r.(pc := Finished))
  }

  /** Between taking and returning the generation semaphore. */
  predicate Inside(pc: RequestPc) {
    !pc.Idle? && !pc.Finished? && !pc.Rejected?
  }

  /** Requests fail before the semaphore, while loading, or while working; only Wan can fail
      once the pipeline is assigned. */
  predicate MayFail(service: Service, pc: RequestPc) {
    || pc.Idle? || pc.Counted? || pc.Loading? || (pc.Constructed? && service.Wan?)
    || pc.Ready? || pc.Running? || pc.PipelineReturned? || pc.Encoding?
  }

  /** A refused or timed-out request never enters; a failed load still has the model lock to
      drop; any other failure goes to the exception handler. */
  function AfterFailure(pc: RequestPc): RequestPc {
    match pc
    case Idle => Rejected
    case Loading => LoadFailed
    case Constructed => LoadFailed
    case _ => Failing
  }

  predicate EnabledRequest(sh: Shared, r: RequestThread, choice: Choice) {
    match choice
    case Fail => MayFail(sh.service, r.pc)
    case Progress(k) => r.pc.Running? && sh.service.Wan? && k < r.steps
    case Proceed =>
      match r.pc
      case Idle => 0 < sh.permits
      case Admitted => sh.activeLock.None?
      case Counted => sh.modelLock.None?
      case Leaving => sh.activeLock.None?
      case Finished => false
      case Rejected => false
      case _ => true
  }

  function RequestStep(sh: Shared, i: RequestId, r: RequestThread, choice: Choice): After
    requires EnabledRequest(sh, r, choice)
  {
    match choice
    case Fail => After(sh, r.(pc := AfterFailure(r.pc)))
    case Progress(k) => After(sh.(g := sh.g.(step := k + 1)), r)
    case Proceed =>
      if Entering(r.pc) then Enter(sh, i, r)
      else if HoldsModel(r.pc) then Ensure(sh, r)
      else if Working(r.pc) then Work(sh, r)
      else Exit(sh, i, r)
  }

  // ---------- the watcher thread ----------

  predicate EnabledWatcher(sh: Shared) {
    match sh.watcher
    case WantActive => sh.activeLock.None?
    case WantModel => sh.modelLock.None?
    case _ => true
  }

  function WatcherStep(sh: Shared): Shared
    requires EnabledWatcher(sh)
  {
    var g := sh.g;
    match sh.watcher
    case Asleep => sh.(watcher := Awake)
    case Awake => sh.(watcher := if g.loaded then WantActive else Asleep)
    case WantActive => sh.(watcher := CheckActive, activeLock := Some(Watcher))
    case CheckActive => sh.(watcher := ActiveRead(g.active <= 0))
    case ActiveRead(idle) => sh.(watcher := if idle then CheckIdle else Asleep, activeLock := None)
    case CheckIdle => sh.(watcher := if sh.now - g.lastUsed > sh.idleLimit then WantModel else Asleep)
    case WantModel => sh.(watcher := RecheckLoaded, modelLock := Some(Watcher))
    case RecheckLoaded => sh.(watcher := if g.loaded then RecheckActive else ReleaseModel)
    case RecheckActive => sh.(watcher := if g.active == 0 then WatcherUnloading(0) else ReleaseModel)
    case WatcherUnloading(k) =>
      sh.(watcher := if k < 2 then WatcherUnloading(k + 1) else ReleaseModel, g := Unload(g, k))
    case ReleaseModel => sh.(watcher := Asleep, modelLock := None)
  }

  // ---------- the whole service ----------

  predicate Enabled(s: State, a: Action) {
    match a
    case Advance(i, choice) => i < |s.requests| && EnabledRequest(s.sh, s.requests[i], choice)
    case Watch => EnabledWatcher(s.sh)
    case Tick(_) => true
  }

  function Next(s: State, a: Action): State
    requires Enabled(s, a)
  {
    match a
    case Advance(i, choice) =>
      var after := RequestStep(s.sh, i, s.requests[i], choice);
      State(after.sh, s.requests[i := after.r])
    case Watch => s.(sh := WatcherStep(s.sh))
    case Tick(d) => s.(sh := s.sh.(now := s.sh.now + d))
  }

  ghost predicate Init(s: State) {
    && s.sh.g == Globals(None, false, None, 0, 0, false, 0, 0)
    && s.sh.permits == 1 && s.sh.activeLock == None && s.sh.modelLock == None && s.sh.watcher == Asleep
    && forall i :: 0 <= i < |s.requests| ==> s.requests[i].pc.Idle? && !s.requests[i].ensured
  }

  ghost predicate IsRun(tr: seq<State>, acts: seq<Action>) {
    && |tr| == |acts| + 1
    && Init(tr[0])
    && forall i :: 0 <= i < |acts| ==> StepAt(tr, acts, i)
  }

  ghost predicate StepAt(tr: seq<State>, acts: seq<Action>, i: int)
    requires 0 <= i < |acts| < |tr|
  {
    Enabled(tr[i], acts[i]) && tr[i + 1] == Next(tr[i], acts[i])
  }

  // ---------- regions of a request ----------

  predicate HoldsActive(pc: RequestPc) {
    || pc.Incrementing? || pc.IncrementRead? || pc.Incremented?
    || pc.Decrementing? || pc.DecrementRead? || pc.Decremented? || pc.Stamped?
  }

  /** Counted in `_active_requests`: after the increment, before the decrement. */
  predicate Claimed(pc: RequestPc) {
    && Inside(pc)
    && !pc.Admitted? && !pc.Incrementing? && !pc.IncrementRead?
    && !pc.Decremented? && !pc.Stamped? && !pc.Releasing?
  }

  /** From the return of `_ensure_model` until the decrement. */
  predicate UsesPipeline(r: RequestThread) {
    r.ensured && Claimed(r.pc)
  }

  /** Where `_generating` may be true. */
  predicate MayGenerate(pc: RequestPc) {
    pc.GeneratingSet? || pc.StepCleared? || pc.Running? || pc.PipelineReturned? || pc.Failing?
  }

  /** The requests whose place satisfies `p`. */
  function Where(rs: seq<RequestThread>, p: RequestPc -> bool): set<RequestId> {
    set i | 0 <= i < |rs| && p(rs[i].pc)
  }

  // ---------- the invariant ----------

  /** The globals while no thread is in the middle of loading or unloading. */
  predicate Consistent(sh: Shared) {
    && (sh.g.loaded <==> sh.g.mode.Some?)
    && (sh.g.loaded ==> sh.g.pipeline == sh.g.mode)
    && (sh.service.Ltx? && !sh.g.loaded ==> sh.g.pipeline == None)
  }

  predicate LoadedFor(g: Globals, m: Mode) {
    g.loaded && g.pipeline == Some(m) && g.mode == Some(m)
  }

  /** `k` writes of `_unload_inner` have been made. */
  predicate MidUnload(g: Globals, k: nat) {
    && k <= 2
    && (k == 0 ==> g.loaded && g.pipeline == g.mode)
    && (k >= 1 ==> g.pipeline == None)
    && (k == 2 ==> !g.loaded)
    && (k < 2 ==> g.loaded)
    && g.mode.Some?
  }

  /** What holds of the globals at each place of a request inside `_ensure_model`. */
  predicate EnsureInv(sh: Shared, r: RequestThread) {
    match r.pc
    case Ensuring => Consistent(sh)
    case Unloading(k) => MidUnload(sh.g, k)
    case Loading => !sh.g.loaded && sh.g.mode == None && (sh.service.Ltx? ==> sh.g.pipeline == None)
    case Constructed => sh.g.pipeline == Some(r.mode) && !sh.g.loaded && sh.g.mode == None
    case ModeSet => sh.g.pipeline == Some(r.mode) && !sh.g.loaded && sh.g.mode == Some(r.mode)
    case LoadedSet => LoadedFor(sh.g, r.mode)
    case Ensured => LoadedFor(sh.g, r.mode)
    case LoadFailed => Consistent(sh)
    case _ => true
  }

  ghost predicate RequestInv(sh: Shared, i: RequestId, r: RequestThread) {
    && (HoldsActive(r.pc) <==> sh.activeLock == Some(Request(i)))
    && (HoldsModel(r.pc) <==> sh.modelLock == Some(Request(i)))
    && (Entering(r.pc) || HoldsModel(r.pc) ==> !r.ensured)
    && (r.pc.IncrementRead? || r.pc.DecrementRead? ==> r.pc.v == sh.g.active)
    && (Inside(r.pc) && !MayGenerate(r.pc) ==> !sh.g.generating)
    && (r.pc.StepCleared? ==> sh.g.step == 0)
    && (r.pc.Running? && sh.service.Wan? ==> sh.g.total == r.steps)
    && (HoldsModel(r.pc) ==> EnsureInv(sh, r))
    && (Working(r.pc) && !r.pc.Failing? ==> r.ensured)
    && (UsesPipeline(r) ==> LoadedFor(sh.g, r.mode) && !sh.watcher.WatcherUnloading?)
  }

  ghost predicate WatcherInv(sh: Shared) {
    && (sh.activeLock == Some(Watcher) <==> sh.watcher.CheckActive? || sh.watcher.ActiveRead?)
    && (sh.modelLock == Some(Watcher) <==>
          sh.watcher.RecheckLoaded? || sh.watcher.RecheckActive? || sh.watcher.WatcherUnloading? || sh.watcher.ReleaseModel?)
    && (sh.watcher.RecheckLoaded? || sh.watcher.RecheckActive? || sh.watcher.ReleaseModel? ==> Consistent(sh))
    && (sh.watcher.RecheckActive? ==> sh.g.loaded)
    && (sh.watcher.WatcherUnloading? ==> MidUnload(sh.g, sh.watcher.k))
  }

  /** The part of the invariant that mentions no request. */
  ghost predicate SharedInv(sh: Shared) {
    && 0 <= sh.permits <= 1
    && sh.g.step <= sh.g.total
    && (sh.permits == 1 || sh.service.Ltx? ==> !sh.g.generating)
    && (sh.modelLock == None ==> Consistent(sh))
    && WatcherInv(sh)
  }

  ghost predicate Inv(s: State) {
    && SharedInv(s.sh)
    && s.sh.permits + |Where(s.requests, Inside)| == 1
    && s.sh.g.active == |Where(s.requests, Claimed)|
    && forall i :: 0 <= i < |s.requests| ==> RequestInv(s.sh, i, s.requests[i])
  }

  // ---------- every step keeps it ----------

  lemma WhereHas(rs: seq<RequestThread>, p: RequestPc -> bool, i: RequestId)
    requires i < |rs| && p(rs[i].pc)
    ensures 1 <= |Where(rs, p)|
  {
    SubsetCardinality({i}, Where(rs, p));
  }

  lemma WhereHasTwo(rs: seq<RequestThread>, p: RequestPc -> bool, i: RequestId, j: RequestId)
    requires i < |rs| && j < |rs| && i != j && p(rs[i].pc) && p(rs[j].pc)
    ensures 2 <= |Where(rs, p)|
  {
    SubsetCardinality({i, j}, Where(rs, p));
  }

  lemma WhereUpdated(rs: seq<RequestThread>, i: RequestId, r: RequestThread, p: RequestPc -> bool)
    requires i < |rs|
    ensures |Where(rs[i := r], p)|
            == |Where(rs, p)| + (if p(r.pc) then 1 else 0) - (if p(rs[i].pc) then 1 else 0)
  {
    var rest := Where(rs, p) - {i};
    assert Where(rs, p) == if p(rs[i].pc) then rest + {i} else rest;
    assert Where(rs[i := r], p) == if p(r.pc) then rest + {i} else rest;
  }

  /** The semaphore admits one request: two inside are the same one. */
  lemma OneInside(s: State, i: RequestId, j: RequestId)
    requires 0 <= s.sh.permits && s.sh.permits + |Where(s.requests, Inside)| == 1
    requires i < |s.requests| && Inside(s.requests[i].pc)
    requires j < |s.requests| && Inside(s.requests[j].pc)
    ensures i == j && s.sh.permits == 0
  {
    WhereHas(s.requests, Inside, i);
    if i != j {
      WhereHasTwo(s.requests, Inside, i, j);
    }
  }

  predicate FreeOrHeldBy(lock: Option<Thread>, i: RequestId) {
    lock == None || lock == Some(Request(i))
  }

  /** What a step of request `i` owes, apart from the other requests and the two counts. */
  ghost predicate StepDone(sh: Shared, i: RequestId, r: RequestThread, after: After) {
    var sh' := after.sh;
    && SharedInv(sh') && RequestInv(sh', i, after.r)
    && sh'.service == sh.service && sh'.watcher == sh.watcher
    && (sh'.activeLock == sh.activeLock || (FreeOrHeldBy(sh.activeLock, i) && FreeOrHeldBy(sh'.activeLock, i)))
    && (sh'.modelLock == sh.modelLock || (FreeOrHeldBy(sh.modelLock, i) && FreeOrHeldBy(sh'.modelLock, i)))
    && sh'.permits - sh.permits == (if Inside(r.pc) then 1 else 0) - (if Inside(after.r.pc) then 1 else 0)
    && sh'.g.active - sh.g.active == (if Claimed(after.r.pc) then 1 else 0) - (if Claimed(r.pc) then 1 else 0)
  }

  /** Getting in: the semaphore, then the locks. */
  lemma AdmitDone(sh: Shared, i: RequestId, r: RequestThread)
    requires SharedInv(sh) && RequestInv(sh, i, r) && EnabledRequest(sh, r, Proceed)
    requires r.pc.Idle? || r.pc.Admitted? || r.pc.Counted?
    requires Inside(r.pc) ==> sh.permits == 0
    ensures StepDone(sh, i, r, Enter(sh, i, r))
  {
  }

  /** Counting the request. */
  lemma CountDone(sh: Shared, i: RequestId, r: RequestThread)
    requires SharedInv(sh) && RequestInv(sh, i, r) && EnabledRequest(sh, r, Proceed)
    requires r.pc.Incrementing? || r.pc.IncrementRead? || r.pc.Incremented?
    requires sh.permits == 0
    ensures StepDone(sh, i, r, Enter(sh, i, r))
  {
  }

  lemma EnterDone(sh: Shared, i: RequestId, r: RequestThread)
    requires SharedInv(sh) && RequestInv(sh, i, r) && EnabledRequest(sh, r, Proceed)
    requires Entering(r.pc) && (Inside(r.pc) ==> sh.permits == 0)
    ensures StepDone(sh, i, r, Enter(sh, i, r))
  {
    if r.pc.Idle? || r.pc.Admitted? || r.pc.Counted? {
      AdmitDone(sh, i, r);
    } else {
      CountDone(sh, i, r);
    }
  }

  /** Deciding what to do, unloading, giving up. */
  lemma UnloadDone(sh: Shared, i: RequestId, r: RequestThread)
    requires SharedInv(sh) && RequestInv(sh, i, r)
    requires sh.permits == 0
    requires r.pc.Ensuring? || r.pc.Unloading? || r.pc.LoadFailed?
    ensures StepDone(sh, i, r, Ensure(sh, r))
  {
  }

  /** Loading, up to the return of `_ensure_model`. */
  lemma LoadDone(sh: Shared, i: RequestId, r: RequestThread)
    requires SharedInv(sh) && RequestInv(sh, i, r)
    requires sh.permits == 0 && HoldsModel(r.pc)
    requires !(r.pc.Ensuring? || r.pc.Unloading? || r.pc.LoadFailed?)
    ensures StepDone(sh, i, r, Ensure(sh, r))
  {
  }

  /** Up to the return of the pipeline. */
  lemma GenerateDone(sh: Shared, i: RequestId, r: RequestThread)
    requires SharedInv(sh) && RequestInv(sh, i, r)
    requires sh.permits == 0
    requires r.pc.Ready? || r.pc.GeneratingSet? || r.pc.StepCleared? || r.pc.Running?
    ensures StepDone(sh, i, r, Work(sh, r))
  {
  }

  /** After it, and the exception handler. */
  lemma FinishDone(sh: Shared, i: RequestId, r: RequestThread)
    requires SharedInv(sh) && RequestInv(sh, i, r)
    requires sh.permits == 0 && Working(r.pc)
    requires !(r.pc.Ready? || r.pc.GeneratingSet? || r.pc.StepCleared? || r.pc.Running?)
    ensures StepDone(sh, i, r, Work(sh, r))
  {
  }

  /** The locked decrement and time stamp. */
  lemma DecrementDone(sh: Shared, i: RequestId, r: RequestThread)
    requires SharedInv(sh) && RequestInv(sh, i, r) && EnabledRequest(sh, r, Proceed)
    requires sh.permits == 0
    requires r.pc.Decrementing? || r.pc.DecrementRead? || r.pc.Decremented?
    ensures StepDone(sh, i, r, Exit(sh, i, r))
  {
  }

  /** Taking and dropping the lock, returning the permit. */
  lemma UnlockDone(sh: Shared, i: RequestId, r: RequestThread)
    requires SharedInv(sh) && RequestInv(sh, i, r) && EnabledRequest(sh, r, Proceed)
    requires sh.permits == 0 && Exiting(r.pc)
    requires !(r.pc.Decrementing? || r.pc.DecrementRead? || r.pc.Decremented?)
    ensures StepDone(sh, i, r, Exit(sh, i, r))
  {
  }

  lemma FailDone(sh: Shared, i: RequestId, r: RequestThread, choice: Choice)
    requires SharedInv(sh) && RequestInv(sh, i, r) && EnabledRequest(sh, r, choice) && !choice.Proceed?
    requires Inside(r.pc) ==> sh.permits == 0
    ensures StepDone(sh, i, r, RequestStep(sh, i, r, choice))
  {
  }

  lemma RequestStepDone(sh: Shared, i: RequestId, r: RequestThread, choice: Choice)
    requires SharedInv(sh) && RequestInv(sh, i, r) && EnabledRequest(sh, r, choice)
    requires Inside(r.pc) ==> sh.permits == 0
    ensures StepDone(sh, i, r, RequestStep(sh, i, r, choice))
  {
    if !choice.Proceed? {
      FailDone(sh, i, r, choice);
    } else if Entering(r.pc) {
      EnterDone(sh, i, r);
    } else if HoldsModel(r.pc) {
      if r.pc.Ensuring? || r.pc.Unloading? || r.pc.LoadFailed? {
        UnloadDone(sh, i, r);
      } else {
        LoadDone(sh, i, r);
      }
    } else if Working(r.pc) {
      if r.pc.Ready? || r.pc.GeneratingSet? || r.pc.StepCleared? || r.pc.Running? {
        GenerateDone(sh, i, r);
      } else {
        FinishDone(sh, i, r);
      }
    } else if r.pc.Decrementing? || r.pc.DecrementRead? || r.pc.Decremented? {
      DecrementDone(sh, i, r);
    } else {
      UnlockDone(sh, i, r);
    }
  }

  /** A request outside the semaphore is known to hold no lock, and nothing else. */
  lemma OutsiderKeeps(sh: Shared, sh': Shared, i: RequestId, j: RequestId, r: RequestThread)
    requires RequestInv(sh, j, r) && i != j && !Inside(r.pc)
    requires sh'.activeLock == sh.activeLock || (FreeOrHeldBy(sh.activeLock, i) && FreeOrHeldBy(sh'.activeLock, i))
    requires sh'.modelLock == sh.modelLock || (FreeOrHeldBy(sh.modelLock, i) && FreeOrHeldBy(sh'.modelLock, i))
    ensures RequestInv(sh', j, r)
  {
  }

  /** A step of request `i` that changes shared state is made with no other request inside. */
  lemma AdvanceKeeps(s: State, i: RequestId, choice: Choice)
    requires Inv(s) && Enabled(s, Advance(i, choice))
    ensures Inv(Next(s, Advance(i, choice)))
  {
    var r := s.requests[i];
    var after := RequestStep(s.sh, i, r, choice);
    var s' := Next(s, Advance(i, choice));
    if Inside(r.pc) {
      OneInside(s, i, i);
    }
    RequestStepDone(s.sh, i, r, choice);
    WhereUpdated(s.requests, i, after.r, Inside);
    WhereUpdated(s.requests, i, after.r, Claimed);
    forall j | 0 <= j < |s'.requests| ensures RequestInv(s'.sh, j, s'.requests[j]) {
      if j != i && after.sh != s.sh {
        if Inside(s.requests[j].pc) {
          WhereHas(s.requests, Inside, j);
          EnterNeedsPermit(s.sh, i, r, choice);
          OneInside(s, i, j);
        }
        OutsiderKeeps(s.sh, s'.sh, i, j, s.requests[j]);
      }
    }
  }

  /** From outside, a request changes shared state only by taking a permit. */
  lemma EnterNeedsPermit(sh: Shared, i: RequestId, r: RequestThread, choice: Choice)
    requires EnabledRequest(sh, r, choice) && RequestStep(sh, i, r, choice).sh != sh
    ensures Inside(r.pc) || 0 < sh.permits
  {
  }

  lemma WatcherDone(sh: Shared)
    requires SharedInv(sh) && EnabledWatcher(sh)
    ensures SharedInv(WatcherStep(sh))
    ensures WatcherStep(sh).g.active == sh.g.active && WatcherStep(sh).permits == sh.permits
  {
  }

  /** The stale first check does no harm: `RecheckActive` reads zero only while no request is
      counted, and no request gets past `_ensure_model` before the watcher drops the lock. */
  lemma RequestSurvivesWatcher(sh: Shared, i: RequestId, r: RequestThread)
    requires SharedInv(sh) && EnabledWatcher(sh) && RequestInv(sh, i, r)
    requires UsesPipeline(r) ==> 1 <= sh.g.active
    ensures RequestInv(WatcherStep(sh), i, r)
  {
  }

  lemma WatchKeeps(s: State)
    requires Inv(s) && EnabledWatcher(s.sh)
    ensures Inv(Next(s, Watch))
  {
    WatcherDone(s.sh);
    forall j | 0 <= j < |s.requests| ensures RequestInv(WatcherStep(s.sh), j, s.requests[j]) {
      if UsesPipeline(s.requests[j]) {
        WhereHas(s.requests, Claimed, j);
      }
      RequestSurvivesWatcher(s.sh, j, s.requests[j]);
    }
  }

  lemma StepKeeps(s: State, a: Action)
    requires Inv(s) && Enabled(s, a)
    ensures Inv(Next(s, a))
  {
    match a {
      case Advance(i, choice) => AdvanceKeeps(s, i, choice);
      case Watch => WatchKeeps(s);
      case Tick(d) =>
        forall j | 0 <= j < |s.requests| ensures RequestInv(Next(s, a).sh, j, s.requests[j]) {
          assert RequestInv(s.sh, j, s.requests[j]);
        }
    }
  }

  lemma {:induction false} RunKeeps(tr: seq<State>, acts: seq<Action>, k: nat)
    requires IsRun(tr, acts) && k < |tr|
    ensures Inv(tr[k])
  {
    if k == 0 {
      assert Where(tr[0].requests, Inside) == {} && Where(tr[0].requests, Claimed) == {};
    } else {
      RunKeeps(tr, acts, k - 1);
      assert StepAt(tr, acts, k - 1);
      StepKeeps(tr[k - 1], acts[k - 1]);
    }
  }

  // ---------- what holds over every run ----------

  /** One generation at a time: two requests inside the semaphore are the same request. */
  lemma GenerationIsExclusive(tr: seq<State>, acts: seq<Action>, k: nat, i: RequestId, j: RequestId)
    requires IsRun(tr, acts) && k < |tr| && i < |tr[k].requests| && j < |tr[k].requests|
    requires Inside(tr[k].requests[i].pc) && Inside(tr[k].requests[j].pc)
    ensures i == j
  {
    RunKeeps(tr, acts, k);
    OneInside(tr[k], i, j);
  }

  /** From the return of `_ensure_model` until the request decrements `_active_requests`, the
      pipeline of the request's mode is loaded, and no thread is taking it away. */
  lemma PipelineStaysLoaded(tr: seq<State>, acts: seq<Action>, k: nat, i: RequestId)
    requires IsRun(tr, acts) && k < |tr| && i < |tr[k].requests|
    requires UsesPipeline(tr[k].requests[i])
    ensures LoadedFor(tr[k].sh.g, tr[k].requests[i].mode)
    ensures !tr[k].sh.watcher.WatcherUnloading?
    ensures forall j :: 0 <= j < |tr[k].requests| ==> !tr[k].requests[j].pc.Unloading?
  {
    RunKeeps(tr, acts, k);
    forall j | 0 <= j < |tr[k].requests| ensures !tr[k].requests[j].pc.Unloading? {
      if tr[k].requests[j].pc.Unloading? {
        OneInside(tr[k], i, j);
      }
    }
  }

  /** The requests that the shared counter counts are the ones between increment and
      decrement; with nobody inside the service is back to idle. */
  lemma CounterIsExact(tr: seq<State>, acts: seq<Action>, k: nat)
    requires IsRun(tr, acts) && k < |tr|
    ensures tr[k].sh.g.active == |Where(tr[k].requests, Claimed)|
    ensures tr[k].sh.permits == 1 - |Where(tr[k].requests, Inside)|
    ensures (forall i :: 0 <= i < |tr[k].requests| ==> !Inside(tr[k].requests[i].pc)) ==>
              tr[k].sh.permits == 1 && tr[k].sh.g.active == 0 && !tr[k].sh.g.generating
  {
    RunKeeps(tr, acts, k);
    if forall i :: 0 <= i < |tr[k].requests| ==> !Inside(tr[k].requests[i].pc) {
      assert Where(tr[k].requests, Inside) == {};
      assert Where(tr[k].requests, Claimed) == {};
    }
  }

  // ---------- the watcher does unload ----------

  /** `n` steps of the watcher with nobody in between. */
  function WatcherSteps(sh: Shared, n: nat): Option<Shared> {
    if n == 0 then Some(sh)
    else
      match WatcherSteps(sh, n - 1)
      case None => None
      case Some(at) => if EnabledWatcher(at) then Some(WatcherStep(at)) else None
  }

  /** The watcher's test: a model is loaded, no request is counted, the idle limit has passed. */
  predicate ShouldUnload(sh: Shared) {
    sh.g.loaded && sh.g.active == 0 && sh.now - sh.g.lastUsed > sh.idleLimit
  }

  lemma Steps(sh: Shared, n: nat, at: Shared)
    requires WatcherSteps(sh, n) == Some(at) && EnabledWatcher(at)
    ensures WatcherSteps(sh, n + 1) == Some(WatcherStep(at))
  {
  }

  lemma WatcherDecides(sh: Shared)
    requires sh.watcher.Asleep? && sh.activeLock.None? && sh.modelLock.None? && ShouldUnload(sh)
    ensures WatcherSteps(sh, 6) == Some(sh.(watcher := WantModel))
  {
    var s1 := sh.(watcher := Awake);
    var s2 := sh.(watcher := WantActive);
    var s3 := sh.(watcher := CheckActive, activeLock := Some(Watcher));
    var s4 := s3.(watcher := ActiveRead(true));
    var s5 := sh.(watcher := CheckIdle);
    Steps(sh, 0, sh);
    Steps(sh, 1, s1);
    Steps(sh, 2, s2);
    Steps(sh, 3, s3);
    Steps(sh, 4, s4);
    assert WatcherStep(s4) == s5;
    Steps(sh, 5, s5);
  }

  /** An undisturbed round that finds a model to unload unloads it, and changes nothing else; the
      watcher is asleep again after thirteen steps. */
  lemma IdleModelIsUnloaded(sh: Shared)
    requires sh.watcher.Asleep? && sh.activeLock.None? && sh.modelLock.None? && ShouldUnload(sh)
    ensures WatcherSteps(sh, 13) == Some(sh.(g := sh.g.(pipeline := None, loaded := false, mode := None)))
  {
    WatcherDecides(sh);
    var s6 := sh.(watcher := WantModel);
    var s7 := sh.(watcher := RecheckLoaded, modelLock := Some(Watcher));
    var s8 := s7.(watcher := RecheckActive);
    var s9 := s7.(watcher := WatcherUnloading(0));
    var s10 := s7.(watcher := WatcherUnloading(1), g := Unload(sh.g, 0));
    var s11 := s7.(watcher := WatcherUnloading(2), g := Unload(s10.g, 1));
    var s12 := s7.(watcher := ReleaseModel, g := Unload(s11.g, 2));
    Steps(sh, 6, s6);
    Steps(sh, 7, s7);
    Steps(sh, 8, s8);
    Steps(sh, 9, s9);
    Steps(sh, 10, s10);
    Steps(sh, 11, s11);
    assert WatcherSteps(sh, 12) == Some(s12);
    Steps(sh, 12, s12);
  }

  /** An undisturbed round that finds no model goes back to sleep with everything as it was. */
  lemma NoModelNoUnload(sh: Shared)
    requires sh.watcher.Asleep? && !sh.g.loaded
    ensures WatcherSteps(sh, 2) == Some(sh)
  {
    Steps(sh, 1, sh.(watcher := Awake));
  }

  lemma WatcherReads(sh: Shared)
    requires sh.watcher.Asleep? && sh.activeLock.None? && sh.g.loaded
    ensures WatcherSteps(sh, 5) == Some(sh.(watcher := if sh.g.active <= 0 then CheckIdle else Asleep))
  {
    var s3 := sh.(watcher := CheckActive, activeLock := Some(Watcher));
    Steps(sh, 1, sh.(watcher := Awake));
    Steps(sh, 2, sh.(watcher := WantActive));
    Steps(sh, 3, s3);
    Steps(sh, 4, s3.(watcher := ActiveRead(sh.g.active <= 0)));
  }

  /** So does a round that finds a request counted, and one that finds the idle limit not passed. */
  lemma BusyModelStays(sh: Shared)
    requires sh.watcher.Asleep? && sh.activeLock.None? && sh.g.loaded
    requires sh.g.active > 0 || sh.now - sh.g.lastUsed <= sh.idleLimit
    ensures WatcherSteps(sh, if sh.g.active > 0 then 5 else 6) == Some(sh)
  {
    WatcherReads(sh);
    if sh.g.active <= 0 {
      Steps(sh, 5, sh.(watcher := CheckIdle));
    }
  }

  /** However long it still takes: once the rest of the idle limit has passed with nobody counted, the next
      undisturbed round unloads the model. */
  lemma WaitingUnloads(s: State, d: nat)
    requires s.sh.watcher.Asleep? && s.sh.activeLock.None? && s.sh.modelLock.None?
    requires s.sh.g.loaded && s.sh.g.active == 0 && s.sh.now + d - s.sh.g.lastUsed > s.sh.idleLimit
    ensures Enabled(s, Tick(d))
    ensures var waited := Next(s, Tick(d));
      && waited.requests == s.requests && waited.sh.g == s.sh.g
      && WatcherSteps(waited.sh, 13) == Some(waited.sh.(g := s.sh.g.(pipeline := None, loaded := false, mode := None)))
  {
    IdleModelIsUnloaded(Next(s, Tick(d)).sh);
  }

  /** The watcher has decided to unload and not yet let the model lock go. */
  predicate Unloads(sh: Shared) {
    sh.watcher.WatcherUnloading? || (sh.watcher.ReleaseModel? && !sh.g.loaded)
  }

  /** No request touches the pipeline while the watcher has the model lock. */
  lemma RequestLeavesModel(s: State, i: RequestId, choice: Choice)
    requires Inv(s) && Enabled(s, Advance(i, choice)) && s.sh.modelLock == Some(Watcher)
    ensures var g, g' := s.sh.g, Next(s, Advance(i, choice)).sh.g;
      g'.loaded == g.loaded && g'.pipeline == g.pipeline && g'.mode == g.mode
    ensures Next(s, Advance(i, choice)).sh.watcher == s.sh.watcher
  {
    assert RequestInv(s.sh, i, s.requests[i]);
  }

  lemma UnloadingGoesOn(s: State, a: Action)
    requires Inv(s) && Enabled(s, a) && Unloads(s.sh)
    ensures var sh := Next(s, a).sh; Unloads(sh) || (sh.watcher.Asleep? && !sh.g.loaded)
  {
    match a {
      case Advance(i, choice) => RequestLeavesModel(s, i, choice);
      case _ =>
    }
  }

  /** In every interleaving: a round that reaches the recheck with no request counted ends, when
      the watcher goes back to sleep, with no model loaded, whatever requests do meanwhile. */
  lemma {:induction false} RecheckedRoundUnloads(tr: seq<State>, acts: seq<Action>, k: nat, j: nat)
    requires IsRun(tr, acts) && k < j < |tr|
    requires tr[k].sh.watcher.RecheckActive? && tr[k].sh.g.active == 0 && acts[k] == Watch
    requires forall m :: k < m < j ==> !tr[m].sh.watcher.Asleep?
    ensures Unloads(tr[j].sh) || (tr[j].sh.watcher.Asleep? && !tr[j].sh.g.loaded)
    decreases j
  {
    if j == k + 1 {
      assert StepAt(tr, acts, k);
    } else {
      RecheckedRoundUnloads(tr, acts, k, j - 1);
      RunKeeps(tr, acts, j - 1);
      assert StepAt(tr, acts, j - 1);
      UnloadingGoesOn(tr[j - 1], acts[j - 1]);
    }
  }

  // ---------- and only what is idle ----------

  /** The step on which a request uses the model as far as idleness goes: `_ensure_model` is about to
      return the loaded pipeline, or the request's `finally` has counted it out. */
  predicate Uses(s: State, a: Action) {
    && a.Advance? && a.choice.Proceed? && a.i < |s.requests|
    && (s.requests[a.i].pc.LoadedSet? || s.requests[a.i].pc.Decremented?)
  }

  /** When the latest such step before point `n` was; time 0 before the first. */
  function LastUse(tr: seq<State>, acts: seq<Action>, n: nat): int
    requires n <= |acts| < |tr|
  {
    if n == 0 then 0 else if Uses(tr[n - 1], acts[n - 1]) then tr[n - 1].sh.now else LastUse(tr, acts, n - 1)
  }

  lemma StampStep(s: State, a: Action)
    requires Enabled(s, a)
    ensures Next(s, a).sh.g.lastUsed == if Uses(s, a) then s.sh.now else s.sh.g.lastUsed
    ensures Next(s, a).sh.idleLimit == s.sh.idleLimit
    ensures !a.Tick? ==> Next(s, a).sh.now == s.sh.now
    ensures s.sh.now <= Next(s, a).sh.now
    ensures !a.Watch? ==> Next(s, a).sh.watcher == s.sh.watcher
  {
  }

  lemma {:induction false} StampIsLastUse(tr: seq<State>, acts: seq<Action>, n: nat)
    requires IsRun(tr, acts) && n < |tr|
    ensures tr[n].sh.g.lastUsed == LastUse(tr, acts, n)
    ensures tr[n].sh.idleLimit == tr[0].sh.idleLimit
  {
    if n > 0 {
      StampIsLastUse(tr, acts, n - 1);
      assert StepAt(tr, acts, n - 1);
      StampStep(tr[n - 1], acts[n - 1]);
    }
  }

  /** From `m` to `n` the watcher does not go to sleep: both lie in one of its rounds. */
  ghost predicate SameRound(tr: seq<State>, m: nat, n: nat)
    requires m <= n < |tr|
  {
    forall k :: m <= k <= n ==> !tr[k].sh.watcher.Asleep?
  }

  /** No request is between its increment and its decrement. */
  ghost predicate NobodyCounted(s: State) {
    forall i :: 0 <= i < |s.requests| ==> !Claimed(s.requests[i].pc)
  }

  /** More than the idle limit has passed since the latest use. */
  ghost predicate IdleAt(tr: seq<State>, acts: seq<Action>, m: nat)
    requires m <= |acts| < |tr|
  {
    tr[m].sh.now - LastUse(tr, acts, m) > tr[0].sh.idleLimit
  }

  lemma NobodyIsCounted(s: State)
    requires Inv(s)
    ensures s.sh.g.active <= 0 <==> NobodyCounted(s)
  {
    var claimed := Where(s.requests, Claimed);
    if NobodyCounted(s) {
      assert claimed == {};
    } else {
      var i :| 0 <= i < |s.requests| && Claimed(s.requests[i].pc);
      WhereHas(s.requests, Claimed, i);
    }
  }

  /** Past the first look at the counter, and past the test of the time. */
  predicate SawNobody(w: WatcherPc) {
    (w.ActiveRead? && w.idle) || w.CheckIdle? || SawIdle(w)
  }

  predicate SawIdle(w: WatcherPc) {
    w.WantModel? || w.RecheckLoaded? || w.RecheckActive? || w.WatcherUnloading? || w.ReleaseModel?
  }

  /** At `m` the watcher reads the counter, under its lock, with nobody counted. */
  ghost predicate ReadsNobody(tr: seq<State>, acts: seq<Action>, m: nat)
    requires m < |acts| < |tr|
  {
    acts[m] == Watch && tr[m].sh.watcher.CheckActive? && NobodyCounted(tr[m])
  }

  lemma {:induction false} RoundSawNobody(tr: seq<State>, acts: seq<Action>, n: nat) returns (free: nat)
    requires IsRun(tr, acts) && n < |tr| && SawNobody(tr[n].sh.watcher)
    ensures free < n && ReadsNobody(tr, acts, free) && SameRound(tr, free, n)
  {
    assert n > 0;
    assert StepAt(tr, acts, n - 1);
    var s, a := tr[n - 1], acts[n - 1];
    StampStep(s, a);
    if SawNobody(s.sh.watcher) {
      free := RoundSawNobody(tr, acts, n - 1);
    } else {
      RunKeeps(tr, acts, n - 1);
      NobodyIsCounted(s);
      free := n - 1;
    }
  }

  lemma {:induction false} RoundSawIdle(tr: seq<State>, acts: seq<Action>, n: nat) returns (free: nat, idle: nat)
    requires IsRun(tr, acts) && n < |tr| && SawIdle(tr[n].sh.watcher)
    ensures free < idle < n && ReadsNobody(tr, acts, free) && IdleAt(tr, acts, idle) && SameRound(tr, free, n)
  {
    assert n > 0;
    assert StepAt(tr, acts, n - 1);
    var s, a := tr[n - 1], acts[n - 1];
    StampStep(s, a);
    if SawIdle(s.sh.watcher) {
      free, idle := RoundSawIdle(tr, acts, n - 1);
    } else {
      StampIsLastUse(tr, acts, n - 1);
      free := RoundSawNobody(tr, acts, n - 1);
      idle := n - 1;
    }
  }

  /** While the watcher has `_active_lock`, no request is between taking and dropping it. */
  lemma NobodyLeaves(s: State, i: RequestId)
    requires Inv(s) && s.sh.watcher.CheckActive? && i < |s.requests|
    ensures !HoldsActive(s.requests[i].pc)
  {
    assert RequestInv(s.sh, i, s.requests[i]);
  }

  /** A request that is not counted and not leaving cannot use the model without being counted first. */
  lemma {:induction false} UsersAreCounted(tr: seq<State>, acts: seq<Action>, m: nat, k: nat, i: RequestId)
    requires IsRun(tr, acts) && m <= k < |tr| && i < |tr[m].requests| && !HoldsActive(tr[m].requests[i].pc)
    requires forall l :: m <= l <= k ==> NobodyCounted(tr[l])
    ensures i < |tr[k].requests| && !tr[k].requests[i].pc.Decremented? && !tr[k].requests[i].pc.LoadedSet?
    decreases k
  {
    assert NobodyCounted(tr[k]);
    if k > m {
      UsersAreCounted(tr, acts, m, k - 1, i);
      assert StepAt(tr, acts, k - 1);
      assert NobodyCounted(tr[k - 1]);
    }
  }

  lemma {:induction false} NoUseBetween(tr: seq<State>, acts: seq<Action>, m: nat, n: nat)
    requires IsRun(tr, acts) && m <= n < |tr| && forall k :: m <= k < n ==> !Uses(tr[k], acts[k])
    ensures LastUse(tr, acts, n) == LastUse(tr, acts, m) && tr[m].sh.now <= tr[n].sh.now
    decreases n
  {
    if m < n {
      NoUseBetween(tr, acts, m, n - 1);
      assert StepAt(tr, acts, n - 1);
      StampStep(tr[n - 1], acts[n - 1]);
    }
  }

  lemma {:induction false} RequestsStay(tr: seq<State>, acts: seq<Action>, m: nat, n: nat)
    requires IsRun(tr, acts) && m <= n < |tr|
    ensures |tr[m].requests| == |tr[n].requests|
    decreases n
  {
    if m < n {
      RequestsStay(tr, acts, m, n - 1);
      assert StepAt(tr, acts, n - 1);
    }
  }

  lemma NobodyUses(tr: seq<State>, acts: seq<Action>, free: nat, k: nat)
    requires IsRun(tr, acts) && free <= k < |acts| && ReadsNobody(tr, acts, free)
    requires forall l :: free <= l <= k ==> NobodyCounted(tr[l])
    ensures !Uses(tr[k], acts[k])
  {
    if acts[k].Advance? && acts[k].i < |tr[k].requests| {
      RunKeeps(tr, acts, free);
      RequestsStay(tr, acts, free, k);
      NobodyLeaves(tr[free], acts[k].i);
      UsersAreCounted(tr, acts, free, k, acts[k].i);
    }
  }

  /** The watcher takes something of the pipeline away. */
  ghost predicate TakesAway(g: Globals, g': Globals) {
    (g.pipeline.Some? && g'.pipeline.None?) || (g.loaded && !g'.loaded)
  }

  /** In every interleaving: when the watcher takes the pipeline away, it has found nobody counted and
      then, in the same round, more than the idle limit gone since the latest load or end of a request,
      whatever has happened since. And unless a request was counted since it looked, that still holds. */
  lemma OnlyIdleIsUnloaded(tr: seq<State>, acts: seq<Action>, n: nat) returns (free: nat, idle: nat)
    requires IsRun(tr, acts) && n < |acts| && acts[n] == Watch && TakesAway(tr[n].sh.g, tr[n + 1].sh.g)
    ensures free < idle < n && SameRound(tr, free, n)
    ensures ReadsNobody(tr, acts, free) && IdleAt(tr, acts, idle)
    ensures IdleAt(tr, acts, n) || exists k :: free <= k <= n && !NobodyCounted(tr[k])
    ensures forall i :: 0 <= i < |tr[n].requests| ==> !UsesPipeline(tr[n].requests[i])
  {
    assert StepAt(tr, acts, n);
    assert tr[n].sh.watcher.WatcherUnloading?;
    free, idle := RoundSawIdle(tr, acts, n);
    forall i | 0 <= i < |tr[n].requests| ensures !UsesPipeline(tr[n].requests[i]) {
      if UsesPipeline(tr[n].requests[i]) {
        PipelineStaysLoaded(tr, acts, n, i);
      }
    }
    if forall k :: free <= k <= n ==> NobodyCounted(tr[k]) {
      forall k | idle <= k < n ensures !Uses(tr[k], acts[k]) {
        NobodyUses(tr, acts, free, k);
      }
      NoUseBetween(tr, acts, idle, n);
    }
  }

  /** The first run, continued to the state `last`. */
  ghost predicate GoesOn(tr: seq<State>, acts: seq<Action>, tr': seq<State>, acts': seq<Action>, last: State) {
    IsRun(tr', acts') && acts <= acts' && tr <= tr' && tr'[|acts'|] == last
  }

  lemma OneMoreStep(tr: seq<State>, acts: seq<Action>, a: Action) returns (tr': seq<State>, acts': seq<Action>)
    requires IsRun(tr, acts) && Enabled(tr[|acts|], a)
    ensures acts' == acts + [a] && GoesOn(tr, acts, tr', acts', Next(tr[|acts|], a))
    ensures tr' == tr + [Next(tr[|acts|], a)]
  {
    tr', acts' := tr + [Next(tr[|acts|], a)], acts + [a];
    forall i | 0 <= i < |acts'| ensures StepAt(tr', acts', i) {
      if i < |acts| {
        assert StepAt(tr, acts, i);
      }
    }
  }

  lemma Then(tr: seq<State>, acts: seq<Action>, a: Action) returns (tr': seq<State>, acts': seq<Action>)
    requires IsRun(tr, acts) && Enabled(tr[|acts|], a)
    ensures IsRun(tr', acts') && acts <= acts' && tr'[|acts'|] == Next(tr[|acts|], a)
  {
    tr', acts' := OneMoreStep(tr, acts, a);
  }

  /** Request `i` at `pc`, the watcher waiting for the model lock with a model loaded, and the counter, the
      permits and `_active_lock` as given. */
  ghost predicate OnlyRequest(s: State, i: RequestId, pc: RequestPc, active: int, permits: int, lock: Option<Thread>) {
    && i < |s.requests| && s.requests[i].pc == pc && s.sh.g.active == active && s.sh.permits == permits
    && s.sh.activeLock == lock && s.sh.modelLock == None && s.sh.watcher.WantModel? && s.sh.g.loaded
  }

  /** A request comes, and fails before it touches the model. */
  lemma ComesAndFails(tr: seq<State>, acts: seq<Action>, i: RequestId) returns (tr': seq<State>, acts': seq<Action>)
    requires IsRun(tr, acts) && OnlyRequest(tr[|acts|], i, Idle, 0, 1, None)
    ensures IsRun(tr', acts') && acts <= acts' && OnlyRequest(tr'[|acts'|], i, Failing, 1, 0, None)
  {
    tr', acts' := Then(tr, acts, Advance(i, Proceed));
    assert OnlyRequest(tr'[|acts'|], i, Admitted, 0, 0, None);
    tr', acts' := Then(tr', acts', Advance(i, Proceed));
    assert OnlyRequest(tr'[|acts'|], i, Incrementing, 0, 0, Some(Request(i)));
    tr', acts' := Then(tr', acts', Advance(i, Proceed));
    assert OnlyRequest(tr'[|acts'|], i, IncrementRead(0), 0, 0, Some(Request(i)));
    tr', acts' := Then(tr', acts', Advance(i, Proceed));
    assert OnlyRequest(tr'[|acts'|], i, Incremented, 1, 0, Some(Request(i)));
    tr', acts' := Then(tr', acts', Advance(i, Proceed));
    assert OnlyRequest(tr'[|acts'|], i, Counted, 1, 0, None);
    tr', acts' := Then(tr', acts', Advance(i, Fail));
  }

  /** No time has passed since the latest use. */
  ghost predicate JustUsed(tr: seq<State>, acts: seq<Action>)
    requires |tr| == |acts| + 1
  {
    LastUse(tr, acts, |acts|) == tr[|acts|].sh.now
  }

  lemma HandlesFailure(tr: seq<State>, acts: seq<Action>, i: RequestId) returns (tr': seq<State>, acts': seq<Action>)
    requires IsRun(tr, acts) && OnlyRequest(tr[|acts|], i, Failing, 1, 0, None)
    ensures IsRun(tr', acts') && acts <= acts' && OnlyRequest(tr'[|acts'|], i, Leaving, 1, 0, None)
  {
    tr', acts' := Then(tr, acts, Advance(i, Proceed));
  }

  lemma GoesToDecrement(tr: seq<State>, acts: seq<Action>, i: RequestId) returns (tr': seq<State>, acts': seq<Action>)
    requires IsRun(tr, acts) && OnlyRequest(tr[|acts|], i, Leaving, 1, 0, None)
    ensures IsRun(tr', acts') && acts <= acts' && OnlyRequest(tr'[|acts'|], i, DecrementRead(1), 1, 0, Some(Request(i)))
  {
    tr', acts' := Then(tr, acts, Advance(i, Proceed));
    assert OnlyRequest(tr'[|acts'|], i, Decrementing, 1, 0, Some(Request(i)));
    tr', acts' := Then(tr', acts', Advance(i, Proceed));
  }

  lemma CountsItselfOut(tr: seq<State>, acts: seq<Action>, i: RequestId) returns (tr': seq<State>, acts': seq<Action>)
    requires IsRun(tr, acts) && OnlyRequest(tr[|acts|], i, DecrementRead(1), 1, 0, Some(Request(i)))
    ensures IsRun(tr', acts') && acts <= acts' && OnlyRequest(tr'[|acts'|], i, Stamped, 0, 0, Some(Request(i)))
    ensures JustUsed(tr', acts')
  {
    tr', acts' := OneMoreStep(tr, acts, Advance(i, Proceed));
    ghost var s, n := tr'[|acts'|], |acts'|;
    assert OnlyRequest(s, i, Decremented, 0, 0, Some(Request(i)));
    tr', acts' := OneMoreStep(tr', acts', Advance(i, Proceed));
    assert tr'[n] == s && Uses(s, acts'[n]);
  }

  lemma {:induction false} LastUseOfPrefix(tr: seq<State>, acts: seq<Action>, a: Action, s: State, n: nat)
    requires |tr| == |acts| + 1 && n <= |acts|
    ensures LastUse(tr + [s], acts + [a], n) == LastUse(tr, acts, n)
  {
    if n > 0 {
      LastUseOfPrefix(tr, acts, a, s, n - 1);
    }
  }

  lemma StillJustUsed(tr: seq<State>, acts: seq<Action>, a: Action) returns (tr': seq<State>, acts': seq<Action>)
    requires IsRun(tr, acts) && Enabled(tr[|acts|], a) && !a.Tick? && JustUsed(tr, acts)
    ensures GoesOn(tr, acts, tr', acts', Next(tr[|acts|], a)) && acts' == acts + [a] && JustUsed(tr', acts')
    ensures tr' == tr + [Next(tr[|acts|], a)]
  {
    tr', acts' := OneMoreStep(tr, acts, a);
    LastUseOfPrefix(tr, acts, a, Next(tr[|acts|], a), |acts|);
    StampStep(tr[|acts|], a);
  }

  lemma RecheckPasses(tr: seq<State>, acts: seq<Action>, i: RequestId) returns (tr': seq<State>, acts': seq<Action>)
    requires IsRun(tr, acts) && OnlyRequest(tr[|acts|], i, Stamped, 0, 0, Some(Request(i))) && JustUsed(tr, acts)
    ensures IsRun(tr', acts') && acts <= acts' && JustUsed(tr', acts')
    ensures tr'[|acts'|].sh.watcher == WatcherUnloading(0) && tr'[|acts'|].sh.g.loaded
  {
    tr', acts' := StillJustUsed(tr, acts, Watch);
    assert tr'[|acts'|].sh.watcher == RecheckLoaded;
    tr', acts' := StillJustUsed(tr', acts', Watch);
    assert tr'[|acts'|].sh.watcher == RecheckActive;
    tr', acts' := StillJustUsed(tr', acts', Watch);
  }

  lemma ThenItUnloads(tr: seq<State>, acts: seq<Action>) returns (tr': seq<State>, acts': seq<Action>)
    requires IsRun(tr, acts) && JustUsed(tr, acts)
    requires tr[|acts|].sh.watcher == WatcherUnloading(0) && tr[|acts|].sh.g.loaded
    ensures IsRun(tr', acts') && acts <= acts' && UnloadsInUse(tr', acts')
  {
    var tr1, acts1 := StillJustUsed(tr, acts, Watch);
    assert tr1[|acts1|].sh.watcher == WatcherUnloading(1) && tr1[|acts1|].sh.g.loaded;
    tr', acts' := StillJustUsed(tr1, acts1, Watch);
    LastUseOfPrefix(tr1, acts1, Watch, tr'[|acts'|], |acts1|);
  }

  /** The last step of the run takes the pipeline away at the very time of the latest use. */
  ghost predicate UnloadsInUse(tr: seq<State>, acts: seq<Action>)
    requires |tr| == |acts| + 1
  {
    && |acts| > 0 && acts[|acts| - 1] == Watch && TakesAway(tr[|acts| - 1].sh.g, tr[|acts|].sh.g)
    && LastUse(tr, acts, |acts| - 1) == tr[|acts| - 1].sh.now
  }

  /** The exception is real: whenever the watcher has found the model idle and waits for its lock, a request
      can come, fail and go, and the model is unloaded with no time passed since that request's end. */
  lemma StaleCheckUnloads(tr: seq<State>, acts: seq<Action>, i: RequestId) returns (tr': seq<State>, acts': seq<Action>)
    requires IsRun(tr, acts) && OnlyRequest(tr[|acts|], i, Idle, 0, 1, None)
    ensures IsRun(tr', acts') && acts <= acts' && UnloadsInUse(tr', acts')
  {
    tr', acts' := ComesAndFails(tr, acts, i);
    tr', acts' := HandlesFailure(tr', acts', i);
    tr', acts' := GoesToDecrement(tr', acts', i);
    tr', acts' := CountsItselfOut(tr', acts', i);
    tr', acts' := RecheckPasses(tr', acts', i);
    tr', acts' := ThenItUnloads(tr', acts');
  }

  /** `_generating` is only ever true in the Wan service, while some request holds the
      semaphore and is generating or in its exception handler. */
  lemma GeneratingHoldsSemaphore(tr: seq<State>, acts: seq<Action>, k: nat) returns (i: RequestId)
    requires IsRun(tr, acts) && k < |tr| && tr[k].sh.g.generating
    ensures tr[k].sh.service.Wan? && tr[k].sh.permits == 0
    ensures i < |tr[k].requests| && Inside(tr[k].requests[i].pc) && MayGenerate(tr[k].requests[i].pc)
  {
    RunKeeps(tr, acts, k);
    var inside := Where(tr[k].requests, Inside);
    assert inside != {};
    i :| i in inside;
    assert RequestInv(tr[k].sh, i, tr[k].requests[i]);
  }

  /** Progress as `/status` shows it never exceeds the total, not even between two writes, and
      a running Wan generation shows its own total. */
  lemma ReportedProgress(tr: seq<State>, acts: seq<Action>, k: nat, i: RequestId)
    requires IsRun(tr, acts) && k < |tr| && i < |tr[k].requests|
    ensures tr[k].sh.g.step <= tr[k].sh.g.total
    ensures tr[k].sh.service.Wan? && tr[k].requests[i].pc.Running? ==> tr[k].sh.g.total == tr[k].requests[i].steps
  {
    RunKeeps(tr, acts, k);
    assert RequestInv(tr[k].sh, i, tr[k].requests[i]);
  }

  // ---------- every request ends ----------

  /** A bound on the steps a request still takes, callbacks of the pipeline aside. */
  function Rank(pc: RequestPc): nat {
    match pc
    case Idle => 28
    case Admitted => 27
    case Incrementing => 26
    case IncrementRead(_) => 25
    case Incremented => 24
    case Counted => 23
    case Ensuring => 22
    case Unloading(k) => if k < 2 then 21 - k else 19
    case Loading => 18
    case Constructed => 17
    case ModeSet => 16
    case LoadedSet => 15
    case Ensured => 14
    case LoadFailed => 14
    case Ready => 13
    case GeneratingSet => 12
    case StepCleared => 11
    case Running => 10
    case PipelineReturned => 9
    case Encoding => 8
    case Failing => 7
    case Leaving => 6
    case Decrementing => 5
    case DecrementRead(_) => 4
    case Decremented => 3
    case Stamped => 2
    case Releasing => 1
    case Finished => 0
    case Rejected => 0
  }

  lemma RequestStepDecreases(sh: Shared, i: RequestId, r: RequestThread, choice: Choice)
    requires EnabledRequest(sh, r, choice)
    ensures !choice.Progress? ==> Rank(RequestStep(sh, i, r, choice).r.pc) < Rank(r.pc)
    ensures choice.Progress? ==> RequestStep(sh, i, r, choice).r == r
  {
  }

  /** The number of steps request `i` takes up to point `n`, callbacks aside. */
  function OwnSteps(acts: seq<Action>, i: RequestId, n: nat): nat
    requires n <= |acts|
  {
    if n == 0 then 0
    else OwnSteps(acts, i, n - 1) + if acts[n - 1].Advance? && acts[n - 1].i == i && !acts[n - 1].choice.Progress? then 1 else 0
  }

  /** No request takes more than 28 steps, however it fails and whatever the others do; together with
      `BlockedBehindSomeoneWhoCanMove` every request ends if its operations do. */
  lemma {:induction false} RequestsEnd(tr: seq<State>, acts: seq<Action>, n: nat, i: RequestId)
    requires IsRun(tr, acts) && n < |tr| && i < |tr[0].requests|
    ensures i < |tr[n].requests| && OwnSteps(acts, i, n) + Rank(tr[n].requests[i].pc) <= 28
  {
    if n > 0 {
      RequestsEnd(tr, acts, n - 1, i);
      assert StepAt(tr, acts, n - 1);
      var s, a := tr[n - 1], acts[n - 1];
      if a.Advance? {
        RequestStepDecreases(s.sh, a.i, s.requests[a.i], a.choice);
      }
    }
  }

  /** Whatever fails behind the semaphore ends in the `finally` block: a failed load by way of dropping the
      model lock, with no model loaded unless one was. A refused request never enters. */
  lemma FailuresAreHandled(sh: Shared, i: RequestId, r: RequestThread)
    ensures r.pc.Idle? ==> EnabledRequest(sh, r, Fail) && RequestStep(sh, i, r, Fail) == After(sh, r.(pc := Rejected))
    ensures r.pc.Loading? || (r.pc.Constructed? && sh.service.Wan?) ==>
      && EnabledRequest(sh, r, Fail)
      && RequestStep(sh, i, RequestStep(sh, i, r, Fail).r, Proceed)
           == After(sh.(modelLock := None), r.(pc := Failing))
    ensures r.pc.Counted? || r.pc.Ready? || r.pc.Running? || r.pc.PipelineReturned? || r.pc.Encoding? ==>
      && EnabledRequest(sh, r, Fail)
      && var handled := RequestStep(sh, i, RequestStep(sh, i, r, Fail).r, Proceed);
         handled.r == r.(pc := Leaving) && handled.sh == if sh.service.Wan? then sh.(g := sh.g.(generating := false)) else sh
  {
  }

  // ---------- what the progress report shows ----------

  /** From the first write of the progress globals to the return of the pipeline. */
  predicate Generates(pc: RequestPc) {
    pc.GeneratingSet? || pc.StepCleared? || pc.Running? || pc.PipelineReturned?
  }

  /** What the report shows of a Wan request that generates: the flag, and while the pipeline runs its own
      total and the step of its last callback, 0 before the first. */
  ghost predicate Shows(sh: Shared, r: RequestThread, last: Option<nat>) {
    && (Generates(r.pc) ==> sh.g.generating)
    && (r.pc.StepCleared? ==> sh.g.step == 0)
    && (r.pc.Running? ==> sh.g.total == r.steps && sh.g.step == match last case None => 0 case Some(k) => k + 1)
  }

  /** The last callback of request `i` before point `n`. */
  function LastCallback(acts: seq<Action>, i: RequestId, n: nat): Option<nat>
    requires n <= |acts|
  {
    if n == 0 then None
    else
      var a := acts[n - 1];
      if a.Advance? && a.i == i && a.choice.Progress? then Some(a.choice.k) else LastCallback(acts, i, n - 1)
  }

  lemma OthersKeepProgress(s: State, a: Action, i: RequestId)
    requires Inv(s) && Enabled(s, a) && i < |s.requests| && Inside(s.requests[i].pc)
    requires !(a.Advance? && a.i == i)
    ensures var g, g' := s.sh.g, Next(s, a).sh.g;
      g'.generating == g.generating && g'.step == g.step && g'.total == g.total
    ensures Next(s, a).requests[i] == s.requests[i] && Next(s, a).sh.service == s.sh.service
  {
    if a.Advance? && RequestStep(s.sh, a.i, s.requests[a.i], a.choice).sh != s.sh {
      WhereHas(s.requests, Inside, i);
      EnterNeedsPermit(s.sh, a.i, s.requests[a.i], a.choice);
      OneInside(s, a.i, i);
    }
  }

  lemma OwnStepShows(sh: Shared, i: RequestId, r: RequestThread, choice: Choice, last: Option<nat>)
    requires EnabledRequest(sh, r, choice) && sh.service.Wan? && Shows(sh, r, last)
    requires last.Some? ==> Rank(r.pc) <= Rank(Running)
    ensures var after := RequestStep(sh, i, r, choice);
      && after.sh.service.Wan?
      && (choice.Progress? ==> r.pc.Running?)
      && Shows(after.sh, after.r, if choice.Progress? then Some(choice.k) else last)
  {
  }

  lemma {:induction false} CallbacksComeLate(tr: seq<State>, acts: seq<Action>, n: nat, i: RequestId)
    requires IsRun(tr, acts) && n < |tr| && i < |tr[n].requests| && LastCallback(acts, i, n).Some?
    ensures Rank(tr[n].requests[i].pc) <= Rank(Running)
  {
    if n > 0 {
      assert StepAt(tr, acts, n - 1);
      var s, a := tr[n - 1], acts[n - 1];
      if a.Advance? {
        RequestStepDecreases(s.sh, a.i, s.requests[a.i], a.choice);
      }
      if !(a.Advance? && a.i == i && a.choice.Progress?) {
        CallbacksComeLate(tr, acts, n - 1, i);
      }
    }
  }

  /** Over every run of the Wan service, what `/status` reports of a request that generates. */
  lemma {:induction false} ProgressExactly(tr: seq<State>, acts: seq<Action>, n: nat, i: RequestId)
    requires IsRun(tr, acts) && n < |tr| && i < |tr[n].requests| && tr[n].sh.service.Wan?
    ensures Shows(tr[n].sh, tr[n].requests[i], LastCallback(acts, i, n))
  {
    if n > 0 {
      assert StepAt(tr, acts, n - 1);
      var s, a := tr[n - 1], acts[n - 1];
      RunKeeps(tr, acts, n - 1);
      ServiceStays(s, a);
      ProgressExactly(tr, acts, n - 1, i);
      if a.Advance? && a.i == i {
        if LastCallback(acts, i, n - 1).Some? {
          CallbacksComeLate(tr, acts, n - 1, i);
        }
        OwnStepShows(s.sh, i, s.requests[i], a.choice, LastCallback(acts, i, n - 1));
      } else if Inside(s.requests[i].pc) {
        OthersKeepProgress(s, a, i);
      }
    }
  }

  lemma ServiceStays(s: State, a: Action)
    requires Enabled(s, a)
    ensures Next(s, a).sh.service == s.sh.service && |Next(s, a).requests| == |s.requests|
  {
  }

  /** No deadlock: a request that cannot proceed waits for the semaphore's current holder, or
      for the watcher, which is never blocked while it holds a lock. */
  lemma BlockedBehindSomeoneWhoCanMove(tr: seq<State>, acts: seq<Action>, k: nat, i: RequestId)
    returns (j: RequestId)
    requires IsRun(tr, acts) && k < |tr| && i < |tr[k].requests|
    requires !tr[k].requests[i].pc.Finished? && !tr[k].requests[i].pc.Rejected?
    requires !Enabled(tr[k], Advance(i, Proceed))
    ensures var sh := tr[k].sh;
            || (&& EnabledWatcher(sh)
                && (sh.activeLock == Some(Watcher) || sh.modelLock == Some(Watcher))
                && !(sh.activeLock == Some(Watcher) && sh.modelLock == Some(Watcher)))
            || (tr[k].requests[i].pc.Idle? && j < |tr[k].requests| && Enabled(tr[k], Advance(j, Proceed)))
  {
    RunKeeps(tr, acts, k);
    var s := tr[k];
    j := i;
    assert RequestInv(s.sh, i, s.requests[i]);
    if s.requests[i].pc.Idle? {
      var inside := Where(s.requests, Inside);
      assert inside != {};
      j :| j in inside;
    }
    assert RequestInv(s.sh, j, s.requests[j]);
    if !Enabled(s, Advance(j, Proceed)) {
      var lock := if s.requests[j].pc.Counted? then s.sh.modelLock else s.sh.activeLock;
      match lock {
        case Some(Request(h)) => LockHoldersAreInside(tr, acts, k, h); OneInside(s, h, j);
        case _ =>
      }
    }
  }

  /** A lock held by a request is held by a request inside the semaphore. */
  lemma {:induction false} LockHoldersAreInside(tr: seq<State>, acts: seq<Action>, k: nat, h: RequestId)
    requires IsRun(tr, acts) && k < |tr|
    requires tr[k].sh.activeLock == Some(Request(h)) || tr[k].sh.modelLock == Some(Request(h))
    ensures h < |tr[k].requests| && Inside(tr[k].requests[h].pc)
    ensures HoldsActive(tr[k].requests[h].pc) || HoldsModel(tr[k].requests[h].pc)
  {
    RunKeeps(tr, acts, k);
    if h < |tr[k].requests| {
      assert RequestInv(tr[k].sh, h, tr[k].requests[h]);
    } else {
      LocksNameKnownRequests(tr, acts, k, h);
    }
  }

  lemma {:induction false} LocksNameKnownRequests(tr: seq<State>, acts: seq<Action>, k: nat, h: RequestId)
    requires IsRun(tr, acts) && k < |tr| && |tr[k].requests| <= h
    ensures tr[k].sh.activeLock != Some(Request(h)) && tr[k].sh.modelLock != Some(Request(h))
  {
    if k > 0 {
      assert StepAt(tr, acts, k - 1);
      LocksNameKnownRequests(tr, acts, k - 1, h);
    }
  }

  // ---------- `_ensure_model` and `_unload_inner` as sequential code ----------

  /** How building a pipeline ends; `FailsLate` is an exception after the assignment. */
  datatype Build = Succeeds | FailsEarly | FailsLate

  function BuildEffect(g: Globals, m: Mode, build: Build, now: int): Globals {
    match build
    case FailsEarly => g
    case FailsLate => g.(pipeline := Some(m))
    case Succeeds => g.(pipeline := Some(m), loaded := true, mode := Some(m), lastUsed := now)
  }

  /** The effect of `_ensure_model` on the globals, with nobody else writing. */
  function EnsureEffect(g: Globals, m: Mode, build: Build, now: int): Globals {
    if g.loaded && g.mode == Some(m) then g.(lastUsed := now)
    else if g.loaded then BuildEffect(g.(pipeline := None, loaded := false, mode := None), m, build, now)
    else BuildEffect(g, m, build, now)
  }

  class ModelGlobals {
    var g: Globals

    constructor ()
      ensures g == Globals(None, false, None, 0, 0, false, 0, 0)
    {
      g := Globals(None, false, None, 0, 0, false, 0, 0);
    }

    /** `_unload_inner`: three assignments. */
    method UnloadInner()
      modifies this
      ensures g == old(g).(pipeline := None, loaded := false, mode := None)
      ensures g == Unload(Unload(Unload(old(g), 0), 1), 2)
    {
      if g.pipeline.Some? {
        g := g.(pipeline := None);
      }
      g := g.(loaded := false);
      g := g.(mode := None);
    }

    /** `_ensure_model`: reuse, or unload the other mode's pipeline and build anew. */
    method EnsureModel(m: Mode, build: Build, now: int) returns (ok: bool)
      modifies this
      ensures g == EnsureEffect(old(g), m, build, now)
      ensures ok <==> build.Succeeds? || (old(g).loaded && old(g).mode == Some(m))
      ensures ok && (old(g).loaded ==> old(g).pipeline == old(g).mode) ==> LoadedFor(g, m)
      ensures !ok ==> !g.loaded
    {
      if g.loaded && g.mode == Some(m) {
        g := g.(lastUsed := now);
        return true;
      }
      if g.loaded {
        UnloadInner();
      }
      if build.FailsEarly? {
        return false;
      }
      g := g.(pipeline := Some(m));
      if build.FailsLate? {
        return false;
      }
      g := g.(mode := Some(m));
      g := g.(loaded := true);
      g := g.(lastUsed := now);
      return true;
    }
  }

  /** The fine-grained steps of one request up to dropping the model lock; `build` says where
      its load fails, if it does. */
  function RunEnsure(sh: Shared, r: RequestThread, build: Build): After
    decreases Rank(r.pc)
  {
    if !HoldsModel(r.pc) then After(sh, r)
    else if (r.pc.Loading? && build.FailsEarly?) || (r.pc.Constructed? && build.FailsLate?) then
      RunEnsure(sh, r.(pc := LoadFailed), build)
    else
      var after := Ensure(sh, r);
      RunEnsure(after.sh, after.r, build)
  }

  lemma UnloadingRuns(sh: Shared, r: RequestThread, build: Build)
    requires r.pc == Unloading(0)
    ensures RunEnsure(sh, r, build)
            == RunEnsure(sh.(g := sh.g.(pipeline := None, loaded := false, mode := None)), r.(pc := Loading), build)
  {
    var a1 := Ensure(sh, r);
    var a2 := Ensure(a1.sh, a1.r);
    assert RunEnsure(sh, r, build) == RunEnsure(a1.sh, a1.r, build);
    assert RunEnsure(a1.sh, a1.r, build) == RunEnsure(a2.sh, a2.r, build);
  }

  lemma LoadingRuns(sh: Shared, r: RequestThread, build: Build)
    requires r.pc == Loading
    ensures var after := RunEnsure(sh, r, build);
            && after.sh.modelLock == None
            && after.sh.g == BuildEffect(sh.g, r.mode, build, sh.now)
            && after.r.pc == if build.Succeeds? then Ready else Failing
  {
    if build.FailsEarly? {
      ReturnRuns(sh, r.(pc := LoadFailed), build);
    } else {
      var a1 := Ensure(sh, r);
      assert RunEnsure(sh, r, build) == RunEnsure(a1.sh, a1.r, build);
      if build.FailsLate? {
        ReturnRuns(a1.sh, a1.r.(pc := LoadFailed), build);
      } else {
        var a2 := Ensure(a1.sh, a1.r);
        var a3 := Ensure(a2.sh, a2.r);
        assert RunEnsure(a1.sh, a1.r, build) == RunEnsure(a2.sh, a2.r, build);
        assert RunEnsure(a2.sh, a2.r, build) == RunEnsure(a3.sh, a3.r, build);
        StampRuns(a3.sh, a3.r, build);
      }
    }
  }

  /** Dropping the lock. */
  lemma ReturnRuns(sh: Shared, r: RequestThread, build: Build)
    requires r.pc == LoadFailed || r.pc == Ensured
    ensures RunEnsure(sh, r, build) == Ensure(sh, r)
  {
    var a := Ensure(sh, r);
    assert RunEnsure(a.sh, a.r, build) == a;
  }

  lemma StampRuns(sh: Shared, r: RequestThread, build: Build)
    requires r.pc == LoadedSet
    ensures RunEnsure(sh, r, build)
            == After(sh.(g := sh.g.(lastUsed := sh.now), modelLock := None), r.(pc := Ready, ensured := true))
  {
    var a := Ensure(sh, r);
    assert RunEnsure(sh, r, build) == RunEnsure(a.sh, a.r, build);
    ReturnRuns(a.sh, a.r, build);
  }

  /** Run without interruption, the fine-grained steps between taking and dropping the model
      lock have exactly the effect of the sequential `_ensure_model`. */
  lemma FineStepsRefineEnsureModel(sh: Shared, r: RequestThread, build: Build)
    requires r.pc == Ensuring
    ensures var after := RunEnsure(sh, r, build);
            after.sh.g == EnsureEffect(sh.g, r.mode, build, sh.now) && after.sh.modelLock == None
    ensures var after := RunEnsure(sh, r, build);
            after.r.pc == if build.Succeeds? || (sh.g.loaded && sh.g.mode == Some(r.mode)) then Ready else Failing
  {
    var a1 := Ensure(sh, r);
    assert RunEnsure(sh, r, build) == RunEnsure(a1.sh, a1.r, build);
    if sh.g.loaded && sh.g.mode == Some(r.mode) {
      StampRuns(a1.sh, a1.r, build);
    } else if sh.g.loaded {
      UnloadingRuns(a1.sh, a1.r, build);
      LoadingRuns(sh.(g := sh.g.(pipeline := None, loaded := false, mode := None)), a1.r.(pc := Loading), build);
    } else {
      LoadingRuns(a1.sh, a1.r, build);
    }
  }
}
