/** The sandbox's shared browser page: operations, `browser_close` and the idle reaper, all
    under one lock, with time passing between their steps. */
module Browser {
  import opened Common

  // ---------- the shared dictionary ----------

  /** The page in the dictionary: none, usable, or one whose `is_closed()` has become true. */
  datatype Page = NoPage | Usable | Dead

  /** The fields of `_browser_state` that decide anything; the reaper task is named by its
      place in the list of all reapers ever started. */
  datatype Shared = Shared(page: Page, lastUsed: real, reaper: Option<nat>)

  /** `_ensure_page` when it returns a page; `task` names the reaper it may start. */
  function Ensured(b: Shared, now: real, task: nat): Shared {
    if b.page.Usable? then b.(lastUsed := now)
    else Shared(Usable, now, if b.reaper.None? then Some(task) else b.reaper)
  }

  datatype Verdict = Gone | CloseIt | SleepOn

  /** What the reaper decides once it has the lock. */
  function Judge(b: Shared, now: real, timeout: real): Verdict {
    if b.page.NoPage? then Gone
    else if now - b.lastUsed >= timeout then CloseIt
    else SleepOn
  }

  function Period(timeout: real): real {
    if timeout / 4.0 > 5.0 then timeout / 4.0 else 5.0
  }

  class BrowserState {
    var page: Page
    var lastUsed: real
    var reaperTask: Option<nat>

    function Value(): Shared
      reads this
    {
      Shared(page, lastUsed, reaperTask)
    }

    constructor ()
      ensures Value() == Shared(NoPage, 0.0, None)
    {
      page, lastUsed, reaperTask := NoPage, 0.0, None;
    }

    /** `_ensure_page`; a failed launch raises before anything is stored. */
    method EnsurePage(now: real, launchFails: bool, task: nat) returns (raised: bool)
      modifies this
      ensures raised <==> !old(page).Usable? && launchFails
      ensures Value() == if raised then old(Value()) else Ensured(old(Value()), now, task)
    {
      if page.Usable? {
        lastUsed := now;
        return false;
      }
      if launchFails {
        return true;
      }
      page, lastUsed := Usable, now;
      if reaperTask.None? {
        reaperTask := Some(task);
      }
      return false;
    }

    /** `_browser_close_locked`: the fields are cleared before anything is awaited. */
    method CloseLocked()
      modifies this`page
      ensures page == NoPage
    {
      page := NoPage;
    }

    /** The locked part of `browser_close`; the task returned is cancelled after it. */
    method Close() returns (task: Option<nat>)
      modifies this
      ensures task == old(reaperTask)
      ensures Value() == Shared(NoPage, old(lastUsed), None)
    {
      CloseLocked();
      task := reaperTask;
      reaperTask := None;
    }

    /** One locked round of `_browser_reaper`. */
    method ReaperRound(now: real, timeout: real) returns (again: bool)
      modifies this
      ensures again <==> Judge(old(Value()), now, timeout) == SleepOn
      ensures Value() == if again then old(Value()) else Shared(NoPage, old(lastUsed), None)
    {
      if page.NoPage? {
        reaperTask := None;
        return false;
      }
      var idle := now - lastUsed;
      if idle >= timeout {
        CloseLocked();
        reaperTask := None;
        return false;
      }
      return true;
    }
  }

  // ---------- everyone together ----------

  datatype Phase = Sleeping(due: real) | Waiting | Closing | Finished

  datatype Reaper = Reaper(phase: Phase, cancelled: bool)

  /** Who holds `_browser_lock`: an operation launching a browser, an operation using the page,
      `browser_close`, or reaper `i` while it closes. */
  datatype Holder = Free | Launching | Using | Closer | ByReaper(i: nat)

  /** `lastEnd` and `lastOk` record when the latest operation ended and whether it succeeded. */
  datatype State = State(b: Shared, holder: Holder, reapers: seq<Reaper>, now: real, lastEnd: real, lastOk: bool)

  datatype Action =
    | Start(needsPage: bool)   // an operation takes the lock; only `browser_snapshot` does without `_ensure_page`
    | Launched(ok: bool)      // the launch awaited in `_ensure_page` ends
    | Done(ok: bool)          // the operation ends and releases the lock
    | Crash                   // the page dies
    | CloseStart              // `browser_close` takes the lock and clears the fields
    | CloseEnd                // it releases the lock and cancels the reaper it found
    | Wake(i: nat)            // a reaper's sleep ends; it asks for the lock
    | Look(i: nat)            // a reaper gets the lock and looks at the page
    | Reaped(i: nat)          // a reaper has closed the page and returns
    | Unwind(i: nat)          // a cancelled reaper ends
    | Pass(d: real)           // time passes

  predicate Live(s: State, i: nat) {
    i < |s.reapers| && !s.reapers[i].cancelled && !s.reapers[i].phase.Finished?
  }

  predicate Enabled(s: State, a: Action) {
    match a
    case Start(_) => s.holder.Free?
    case Launched(_) => s.holder.Launching?
    case Done(_) => s.holder.Using?
    case Crash => s.b.page.Usable?
    case CloseStart => s.holder.Free?
    case CloseEnd => s.holder.Closer?
    case Wake(i) => Live(s, i) && s.reapers[i].phase.Sleeping? && s.now >= s.reapers[i].phase.due
    case Look(i) => Live(s, i) && s.reapers[i].phase.Waiting? && s.holder.Free?
    case Reaped(i) => s.holder == ByReaper(i) && i < |s.reapers|
    case Unwind(i) => i < |s.reapers| && s.reapers[i].cancelled && !s.reapers[i].phase.Finished?
    case Pass(d) => d > 0.0
  }

  function SetPhase(s: State, i: nat, phase: Phase): State
    requires i < |s.reapers|
  {
    s.(reapers := s.reapers[i := s.reapers[i].(phase := phase)])
  }

  /** The page is there after a launch; the first one starts a reaper. */
  function AfterLaunch(timeout: real, s: State): State {
    var started := if s.b.reaper.None? then [Reaper(Sleeping(s.now + Period(timeout)), false)] else [];
    s.(b := Ensured(s.b, s.now, |s.reapers|), holder := Using, reapers := s.reapers + started)
  }

  function AfterOperation(s: State, ok: bool): State {
    s.(holder := Free, lastEnd := s.now, lastOk := ok)
  }

  function AfterClose(s: State): State {
    match s.b.reaper
    case None => s.(holder := Free)
    case Some(i) =>
      s.(holder := Free, b := s.b.(reaper := None),
         reapers := if i < |s.reapers| && !s.reapers[i].phase.Finished?
                    then s.reapers[i := s.reapers[i].(cancelled := true)] else s.reapers)
  }

  function AfterLook(timeout: real, s: State, i: nat): State
    requires i < |s.reapers|
  {
    match Judge(s.b, s.now, timeout)
    case Gone => SetPhase(s, i, Finished).(b := s.b.(reaper := None))
    case CloseIt => SetPhase(s, i, Closing).(b := s.b.(page := NoPage), holder := ByReaper(i))
    case SleepOn => SetPhase(s, i, Sleeping(s.now + Period(timeout)))
  }

  function Next(timeout: real, s: State, a: Action): State
    requires Enabled(s, a)
  {
    match a
    case Start(needsPage) =>
      if s.b.page.Usable? then
        s.(holder := Using, b := if needsPage then s.b.(lastUsed := s.now) else s.b)
      else if needsPage then s.(holder := Launching)
      else s
    case Launched(ok) => if ok then AfterLaunch(timeout, s) else AfterOperation(s, false)
    case Done(ok) =>
      AfterOperation(s.(b := if ok then s.b.(lastUsed := s.now) else s.b), ok)
    case Crash => s.(b := s.b.(page := Dead))
    case CloseStart => s.(b := s.b.(page := NoPage), holder := Closer)
    case CloseEnd => AfterClose(s)
    case Wake(i) => SetPhase(s, i, Waiting)
    case Look(i) => AfterLook(timeout, s, i)
    case Reaped(i) => SetPhase(s, i, Finished).(b := s.b.(reaper := None), holder := Free)
    case Unwind(i) => SetPhase(s, i, Finished)
    case Pass(d) => s.(now := s.now + d)
  }

  function Init(start: real): State {
    State(Shared(NoPage, 0.0, None), Free, [], start, start, true)
  }

  ghost predicate IsRun(timeout: real, start: real, states: seq<State>, actions: seq<Action>) {
    && |states| == |actions| + 1
    && states[0] == Init(start)
    && forall k :: 0 <= k < |actions| ==>
         Enabled(states[k], actions[k]) && states[k + 1] == Next(timeout, states[k], actions[k])
  }

  // ---------- the invariant ----------

  /** The registered reaper, and no other, is alive. */
  ghost predicate OneReaper(s: State) {
    && (s.b.reaper.Some? ==> Live(s, s.b.reaper.value))
    && (forall i: nat :: Live(s, i) ==> s.b.reaper == Some(i))
  }

  /** A page has a reaper; without the lock in other hands, a reaper has a page. */
  ghost predicate PageAndReaper(s: State) {
    && (!s.b.page.NoPage? ==> s.b.reaper.Some?)
    && (s.holder.Free? && s.b.reaper.Some? ==> !s.b.page.NoPage?)
    && (s.holder.Launching? ==> !s.b.page.Usable? && (s.b.reaper.Some? ==> s.b.page.Dead?))
    && (s.holder.Using? ==> !s.b.page.NoPage?)
    && (s.holder.Closer? || s.holder.ByReaper? ==> s.b.page.NoPage?)
  }

  /** A reaper is closing exactly while it holds the lock. */
  ghost predicate ClosingHolds(s: State) {
    && (s.holder.ByReaper? ==> s.b.reaper == Some(s.holder.i))
    && (forall i: nat :: i < |s.reapers| && s.reapers[i].phase.Closing? <==> s.holder == ByReaper(i))
  }

  /** `last_used` lies in the past, and is the end of the last operation if that succeeded. */
  ghost predicate Clocks(s: State) {
    && (s.b.page.NoPage? || s.b.lastUsed <= s.now)
    && s.lastEnd <= s.now
    && (s.lastOk && (s.holder.Free? || s.holder.ByReaper?) && !s.b.page.NoPage? ==> s.b.lastUsed >= s.lastEnd)
  }

  ghost predicate Inv(s: State) {
    OneReaper(s) && PageAndReaper(s) && ClosingHolds(s) && Clocks(s)
  }

  lemma InitInv(start: real)
    ensures Inv(Init(start))
  {
  }

  lemma KeepsOneReaper(timeout: real, s: State, a: Action)
    requires Inv(s) && Enabled(s, a)
    ensures OneReaper(Next(timeout, s, a))
  {
  }

  lemma KeepsPageAndReaper(timeout: real, s: State, a: Action)
    requires Inv(s) && Enabled(s, a)
    ensures PageAndReaper(Next(timeout, s, a))
  {
  }

  lemma KeepsClosingHolds(timeout: real, s: State, a: Action)
    requires Inv(s) && Enabled(s, a)
    ensures ClosingHolds(Next(timeout, s, a))
  {
  }

  lemma KeepsClocks(timeout: real, s: State, a: Action)
    requires Inv(s) && Enabled(s, a)
    ensures Clocks(Next(timeout, s, a))
  {
  }

  lemma StepKeeps(timeout: real, s: State, a: Action)
    requires Inv(s) && Enabled(s, a)
    ensures Inv(Next(timeout, s, a))
  {
    KeepsOneReaper(timeout, s, a);
    KeepsPageAndReaper(timeout, s, a);
    KeepsClosingHolds(timeout, s, a);
    KeepsClocks(timeout, s, a);
  }

  lemma {:induction false} RunKeeps(timeout: real, start: real, states: seq<State>, actions: seq<Action>, k: nat)
    requires IsRun(timeout, start, states, actions) && k < |states|
    ensures Inv(states[k])
  {
    if k == 0 {
      InitInv(start);
    } else {
      RunKeeps(timeout, start, states, actions, k - 1);
      StepKeeps(timeout, states[k - 1], actions[k - 1]);
    }
  }

  /** The machine's split steps add up to the methods: clearing and retiring is `Close`, a look
      and what follows it is `ReaperRound`, and both give the lock back. */
  lemma StepsMatchMethods(timeout: real, s: State, i: nat)
    requires Inv(s) && s.holder.Free?
    ensures Enabled(s, CloseStart) && Enabled(Next(timeout, s, CloseStart), CloseEnd)
    ensures var closed := Next(timeout, Next(timeout, s, CloseStart), CloseEnd);
      && closed.b == Shared(NoPage, s.b.lastUsed, None) && closed.holder.Free?
      && forall k :: !Live(closed, k)
    ensures Enabled(s, Look(i)) ==>
      var looked := Next(timeout, s, Look(i));
      if Judge(s.b, s.now, timeout) == SleepOn then
        looked.b == s.b && looked.holder.Free? && looked.reapers[i] == Reaper(Sleeping(s.now + MaxFive(timeout)), false)
      else
        && Enabled(looked, Reaped(i))
        && var reaped := Next(timeout, looked, Reaped(i));
           reaped.b == Shared(NoPage, s.b.lastUsed, None) && reaped.holder.Free? && reaped.reapers[i].phase.Finished?
  {
    StepKeeps(timeout, s, CloseStart);
    StepKeeps(timeout, Next(timeout, s, CloseStart), CloseEnd);
  }

  /** A quarter of the timeout, or five seconds if that is longer. */
  function MaxFive(timeout: real): (p: real)
    ensures p == 5.0 || p == timeout / 4.0
    ensures p >= 5.0 && p >= timeout / 4.0
  {
    Period(timeout)
  }

  /** An operation that needs a page gets it as from `EnsurePage`: at once if there is a usable one, after a
      launch otherwise, with a reaper started if none is registered; a failed launch leaves everything as it
      was. An operation that does without takes a usable page as it is, or does nothing. */
  lemma StepsMatchEnsurePage(timeout: real, s: State)
    requires Inv(s) && s.holder.Free?
    ensures forall needsPage :: Enabled(s, Start(needsPage))
    ensures s.b.page.Usable? ==>
      && Next(timeout, s, Start(true)) == s.(holder := Using, b := Ensured(s.b, s.now, |s.reapers|))
      && Next(timeout, s, Start(false)) == s.(holder := Using)
    ensures !s.b.page.Usable? ==>
      && Next(timeout, s, Start(false)) == s
      && var launching := Next(timeout, s, Start(true));
         && (forall ok :: Enabled(launching, Launched(ok)))
         && Next(timeout, launching, Launched(false)) == s.(lastEnd := s.now, lastOk := false)
         && var launched := Next(timeout, launching, Launched(true));
            && launched.holder.Using? && launched.b == Ensured(s.b, s.now, |s.reapers|)
            && launched.reapers == s.reapers +
                 (if s.b.reaper.Some? then [] else [Reaper(Sleeping(s.now + MaxFive(timeout)), false)])
  {
  }

  /** At its end an operation gives the lock back, and counts as a use exactly if it succeeded. A page that
      has crashed is not used again. */
  lemma OperationEnds(timeout: real, s: State, ok: bool)
    requires Inv(s)
    ensures s.holder.Using? ==>
      && Enabled(s, Done(ok)) && Next(timeout, s, Done(ok)).holder.Free?
      && Next(timeout, s, Done(ok)).b == s.b.(lastUsed := if ok then s.now else s.b.lastUsed)
    ensures s.b.page.Usable? ==>
      && Enabled(s, Crash) && Next(timeout, s, Crash).b == s.b.(page := Dead)
      && (s.holder.Free? ==> Next(timeout, Next(timeout, s, Crash), Start(true)).holder.Launching?)
  {
  }

  // ---------- safety over whole runs ----------

  /** In every interleaving: a page with the lock free has a live registered reaper, a
      registered reaper with the lock free has a page, and no two reapers are alive. */
  lemma PageIsWatched(timeout: real, start: real, states: seq<State>, actions: seq<Action>, k: nat, i: nat, j: nat)
    requires IsRun(timeout, start, states, actions) && k < |states|
    ensures var s := states[k];
      && (s.holder.Free? ==> (!s.b.page.NoPage? <==> s.b.reaper.Some?))
      && (s.b.reaper.Some? ==> Live(s, s.b.reaper.value))
      && (Live(s, i) && Live(s, j) ==> i == j)
  {
    RunKeeps(timeout, start, states, actions, k);
  }

  /** A page goes away only by `browser_close`, or by the registered reaper after the full idle
      time since the last use; the lock is free, so no operation is under way. If the last
      operation succeeded, the full idle time has passed since its end. */
  lemma PageClosesOnlyWhenIdle(timeout: real, start: real, states: seq<State>, actions: seq<Action>, k: nat)
    requires IsRun(timeout, start, states, actions) && k < |actions|
    requires !states[k].b.page.NoPage? && states[k + 1].b.page.NoPage?
    ensures var s, a := states[k], actions[k];
      && s.holder.Free?
      && (a == CloseStart || (
            && a.Look? && s.b.reaper == Some(a.i)
            && s.now - s.b.lastUsed >= timeout
            && (s.lastOk ==> s.now - s.lastEnd >= timeout)))
  {
    RunKeeps(timeout, start, states, actions, k);
  }

  /** The reaper never finds the page gone: whoever clears the page also retires the reaper
      before it lets the lock go. */
  lemma ReaperFindsThePage(timeout: real, start: real, states: seq<State>, actions: seq<Action>, k: nat)
    requires IsRun(timeout, start, states, actions) && k < |actions| && actions[k].Look?
    ensures Judge(states[k].b, states[k].now, timeout) != Gone
  {
    RunKeeps(timeout, start, states, actions, k);
  }

  /** A reaper looks only after a sleep of its own that is over. */
  lemma {:induction false} LookComesAfterSleep(timeout: real, start: real, states: seq<State>, actions: seq<Action>,
                                               k: nat, i: nat) returns (j: nat)
    requires IsRun(timeout, start, states, actions) && k < |states|
    requires (k < |actions| && actions[k] == Look(i)) || (i < |states[k].reapers| && states[k].reapers[i].phase.Waiting?)
    ensures j < k && actions[j] == Wake(i) && i < |states[j].reapers| && states[j].reapers[i].phase.Sleeping?
    ensures states[j].reapers[i].phase.due <= states[j].now <= states[k].now
  {
    assert k > 0;
    assert states[k] == Next(timeout, states[k - 1], actions[k - 1]);
    if actions[k - 1] == Wake(i) {
      j := k - 1;
    } else {
      j := LookComesAfterSleep(timeout, start, states, actions, k - 1, i);
    }
  }

  /** What holds the lock keeps it until its own last step. */
  lemma LockIsKept(timeout: real, start: real, states: seq<State>, actions: seq<Action>, k: nat)
    requires IsRun(timeout, start, states, actions) && k < |actions| && !states[k].holder.Free?
    ensures var s, a, s' := states[k], actions[k], states[k + 1];
      || s'.holder == s.holder
      || (a.Launched? && s.holder.Launching? && (s'.holder.Using? || s'.holder.Free?))
      || (s'.holder.Free? && ((a.Done? && s.holder.Using?) || (a.CloseEnd? && s.holder.Closer?)
                              || (a.Reaped? && s.holder == ByReaper(a.i))))
  {
  }

  /** From the point where an operation has its page to the end of the operation, in every
      interleaving: the lock is its own, so no other operation, closer or reaper gets to the page;
      the page stays there (it may crash), watched by the same reaper, and `last_used` does not move. */
  lemma {:induction false} OperationKeepsThePage(timeout: real, start: real, states: seq<State>,
                                                 actions: seq<Action>, i: nat, j: nat)
    requires IsRun(timeout, start, states, actions) && i <= j < |states|
    requires states[i].holder.Using? && forall k :: i <= k < j ==> !actions[k].Done?
    ensures states[j].holder.Using? && !states[j].b.page.NoPage?
    ensures states[j].b.reaper == states[i].b.reaper && states[j].b.lastUsed == states[i].b.lastUsed
    ensures forall a :: Enabled(states[j], a) ==> !a.Start? && !a.CloseStart? && !a.Look?
    decreases j
  {
    RunKeeps(timeout, start, states, actions, j);
    if i < j {
      OperationKeepsThePage(timeout, start, states, actions, i, j - 1);
      LockIsKept(timeout, start, states, actions, j - 1);
      RunKeeps(timeout, start, states, actions, j - 1);
    }
  }

  /** A reaper that looks at a page idle for the timeout closes it. */
  lemma OverdueLookCloses(timeout: real, start: real, states: seq<State>, actions: seq<Action>, k: nat)
    requires IsRun(timeout, start, states, actions) && k < |actions| && actions[k].Look?
    ensures states[k + 1].b.page.NoPage? <==> states[k].now - states[k].b.lastUsed >= timeout
  {
    RunKeeps(timeout, start, states, actions, k);
  }

  /** After an operation, and until another one starts, `last_used` stays what the operation left. */
  lemma {:induction false} IdleTimeRuns(timeout: real, start: real, states: seq<State>, actions: seq<Action>, j: nat, m: nat)
    requires IsRun(timeout, start, states, actions) && j < m < |states| && actions[j].Done?
    requires forall k :: j < k < m ==> !actions[k].Start?
    ensures states[m].b.lastUsed == states[j + 1].b.lastUsed
    ensures !states[m].holder.Launching? && !states[m].holder.Using?
    decreases m
  {
    if j + 1 < m {
      IdleTimeRuns(timeout, start, states, actions, j, m - 1);
      IdleStep(timeout, states[m - 1], actions[m - 1]);
    }
  }

  lemma IdleStep(timeout: real, s: State, a: Action)
    requires Enabled(s, a) && !a.Start? && !s.holder.Launching? && !s.holder.Using?
    ensures var s' := Next(timeout, s, a);
      s'.b.lastUsed == s.b.lastUsed && !s'.holder.Launching? && !s'.holder.Using?
  {
  }

  /** An operation has its page at `i` and ends at `j`; the next to start is still to come when a reaper
      looks at `m`. In every interleaving the look closes the page exactly when the idle time has passed:
      since the end of the operation if it succeeded, since the `last_used` it ran under if it failed. So a
      look sooner after the end closes the page exactly behind a failed operation for which that time
      has run out. */
  lemma LookAfterOperation(timeout: real, start: real, states: seq<State>, actions: seq<Action>,
                           i: nat, j: nat, m: nat)
    requires IsRun(timeout, start, states, actions) && i <= j < m < |actions|
    requires states[i].holder.Using? && (forall k :: i <= k < j ==> !actions[k].Done?) && actions[j].Done?
    requires (forall k :: j < k < m ==> !actions[k].Start?) && actions[m].Look?
    ensures var since := if actions[j] == Done(true) then states[j].now else states[i].b.lastUsed;
      states[m + 1].b.page.NoPage? <==> states[m].now - since >= timeout
    ensures states[m].now - states[j].now < timeout ==>
      (states[m + 1].b.page.NoPage? <==>
        actions[j] == Done(false) && states[m].now - states[i].b.lastUsed >= timeout)
  {
    OperationKeepsThePage(timeout, start, states, actions, i, j);
    IdleTimeRuns(timeout, start, states, actions, j, m);
    OverdueLookCloses(timeout, start, states, actions, m);
  }

  /** Such a close does occur, and with no time between: behind an operation that starts right after
      the launch, lasts for the whole idle time and then fails. */
  lemma FailedOperationIsFollowedByClose(timeout: real, start: real)
    returns (states: seq<State>, actions: seq<Action>)
    requires timeout > 0.0
    ensures IsRun(timeout, start, states, actions) && |actions| >= 2
    ensures var n := |actions|;
      && actions[n - 2] == Done(false) && actions[n - 1] == Look(0)
      && states[n - 1].now == states[n - 1].lastEnd
      && states[n - 1].b.page.Usable? && states[n].b.page.NoPage?
  {
    var p := Period(timeout);
    var more := if timeout > p then timeout - p else 1.0;
    var asleep, awake := Reaper(Sleeping(start + p), false), Reaper(Waiting, false);
    var b := Shared(Usable, start, Some(0));
    var t, end := start + p, start + p + more;
    actions := [Start(true), Launched(true), Pass(p), Wake(0), Pass(more), Done(false), Look(0)];
    var s0 := Init(start);
    var s1 := s0.(holder := Launching);
    var s2 := State(b, Using, [asleep], start, start, true);
    var s3 := s2.(now := t);
    var s4 := s3.(reapers := [awake]);
    var s5 := s4.(now := end);
    var s6 := State(b, Free, [awake], end, end, false);
    var s7 := s6.(b := b.(page := NoPage), holder := ByReaper(0), reapers := [Reaper(Closing, false)]);
    states := [s0, s1, s2, s3, s4, s5, s6, s7];
    FirstSteps(timeout, start);
    assert s4 == Next(timeout, s3, Wake(0));
    assert s5 == Next(timeout, s4, Pass(more));
    assert s6 == Next(timeout, s5, Done(false));
    assert s7 == Next(timeout, s6, Look(0));
  }

  lemma FirstSteps(timeout: real, start: real)
    ensures var p := Period(timeout);
      var s1 := Init(start).(holder := Launching);
      var s2 := State(Shared(Usable, start, Some(0)), Using, [Reaper(Sleeping(start + p), false)], start, start, true);
      && Next(timeout, Init(start), Start(true)) == s1
      && Next(timeout, s1, Launched(true)) == s2
      && p > 0.0 && Next(timeout, s2, Pass(p)) == s2.(now := start + p)
  {
  }

  // ---------- the page does not stay open ----------

  /** Time passes promptly when no reaper oversleeps and a reaper that waits for a free lock
      gets it first. */
  ghost predicate Prompt(s: State, a: Action) {
    a.Pass? ==>
      && (forall i: nat :: Live(s, i) && s.reapers[i].phase.Sleeping? ==> s.now + a.d <= s.reapers[i].phase.due)
      && (s.holder.Free? ==> forall i: nat :: Live(s, i) ==> !s.reapers[i].phase.Waiting?)
  }

  ghost predicate IsPromptRun(timeout: real, start: real, states: seq<State>, actions: seq<Action>) {
    && IsRun(timeout, start, states, actions)
    && forall k :: 0 <= k < |actions| ==> Prompt(states[k], actions[k])
  }

  /** The sleeping reaper will look while the page can at most have been idle for the timeout
      and one period. */
  ghost predicate NextLookInTime(timeout: real, s: State) {
    forall i: nat :: Live(s, i) && s.reapers[i].phase.Sleeping? && !s.b.page.NoPage? ==>
      s.now <= s.reapers[i].phase.due <= s.b.lastUsed + timeout + Period(timeout)
  }

  lemma StepKeepsLook(timeout: real, s: State, a: Action)
    requires timeout >= 0.0
    requires Inv(s) && NextLookInTime(timeout, s) && Enabled(s, a) && Prompt(s, a)
    ensures NextLookInTime(timeout, Next(timeout, s, a))
  {
    var s' := Next(timeout, s, a);
    forall i: nat | Live(s', i) && s'.reapers[i].phase.Sleeping? && !s'.b.page.NoPage?
      ensures s'.now <= s'.reapers[i].phase.due <= s'.b.lastUsed + timeout + Period(timeout)
    {
      if Live(s, i) {
        assert s.b.reaper == Some(i);
      }
    }
  }

  lemma {:induction false} RunKeepsLook(timeout: real, start: real, states: seq<State>, actions: seq<Action>, k: nat)
    requires timeout >= 0.0 && IsPromptRun(timeout, start, states, actions) && k < |states|
    ensures NextLookInTime(timeout, states[k])
  {
    if k > 0 {
      RunKeepsLook(timeout, start, states, actions, k - 1);
      RunKeeps(timeout, start, states, actions, k - 1);
      StepKeepsLook(timeout, states[k - 1], actions[k - 1]);
    }
  }

  /** While the lock is free, time does not take an unused page past the timeout and one
      reaper period: by then the reaper has looked, and it closes the page. */
  lemma PageClosesInTime(timeout: real, start: real, states: seq<State>, actions: seq<Action>, k: nat)
    requires timeout >= 0.0 && IsPromptRun(timeout, start, states, actions) && k < |actions|
    requires actions[k].Pass? && states[k].holder.Free? && !states[k].b.page.NoPage?
    ensures states[k + 1].now <= states[k].b.lastUsed + timeout + (if timeout > 20.0 then timeout / 4.0 else 5.0)
  {
    RunKeeps(timeout, start, states, actions, k);
    RunKeepsLook(timeout, start, states, actions, k);
    var i := states[k].b.reaper.value;
    assert Live(states[k], i);
  }
}
