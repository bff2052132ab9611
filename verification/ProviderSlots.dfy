/** The per-provider slot of the LLM dispatcher: an `asyncio.Semaphore` together with the
    `_waiters` counter that serves as the provider's queue depth.

    The semaphore follows CPython 3.12: a permit that is released goes to the oldest pending
    waiter at once, that waiter stays "granted" until its coroutine runs again, and newcomers
    queue behind a granted waiter even when a permit is free. */
module ProviderSlots {
  import opened Common

  type CallId = nat

  /** `waiters` is the counter the dispatcher maintains by hand. `queue` and `granted` are the
      semaphore's pending and woken waiters, `active` the calls between acquire and release.
      `abandoned` observes how many calls were cancelled inside `acquire`. */
  datatype Slot = Slot(
    concurrency: nat,
    free: int,
    waiters: int,
    queue: seq<CallId>,
    granted: set<CallId>,
    active: set<CallId>,
    abandoned: nat)
  {
    predicate Knows(c: CallId) {
      c in queue || c in granted || c in active
    }
  }

  /** Validity without the wake-up guarantee; what holds while permits are being handed out. */
  ghost predicate Balanced(s: Slot) {
    && 1 <= s.concurrency
    && 0 <= s.free
    && s.free + |s.granted| + |s.active| == s.concurrency
    && s.waiters == |s.queue| + |s.granted| + |s.active| + s.abandoned
    && Distinct(s.queue)
    && s.granted !! s.active
    && (forall i :: 0 <= i < |s.queue| ==> s.queue[i] !in s.granted && s.queue[i] !in s.active)
  }

  /** What every slot keeps. The last line is the wake-up guarantee: a waiter is left pending
      beside a free permit only while an older waiter has yet to run. */
  ghost predicate ValidSlot(s: Slot) {
    && Balanced(s)
    && (s.queue != [] && 0 < s.free ==> s.granted != {})
  }

  function NewSlot(concurrency: nat): Slot {
    Slot(concurrency, concurrency, 0, [], {}, {}, 0)
  }

  /** Hands one free permit to the oldest pending waiter, if there are both. */
  function WakeNext(s: Slot): Slot {
    if s.queue != [] && 0 < s.free then
      s.(free := s.free - 1, queue := s.queue[1..], granted := s.granted + {s.queue[0]})
    else
      s
  }

  function WakeAll(s: Slot): Slot
    decreases |s.queue|
  {
    if s.queue != [] && 0 < s.free then WakeAll(WakeNext(s)) else s
  }

  /** The synchronous part of `acquire`: count the caller, then enter or line up. */
  function BeginAcquire(s: Slot, c: CallId): Slot {
    var counted := s.(waiters := s.waiters + 1);
    if 0 < s.free && s.queue == [] && s.granted == {} then
      counted.(free := s.free - 1, active := s.active + {c})
    else
      counted.(queue := s.queue + [c])
  }

  /** A granted waiter runs again and `acquire` returns. */
  function FinishAcquire(s: Slot, c: CallId): Slot {
    WakeAll(s.(granted := s.granted - {c}, active := s.active + {c}))
  }

  function Release(s: Slot, c: CallId): Slot {
    WakeNext(s.(waiters := s.waiters - 1, free := s.free + 1, active := s.active - {c}))
  }

  function Without(q: seq<CallId>, c: CallId): (r: seq<CallId>)
    ensures |r| <= |q|
    ensures forall x :: x in r <==> x in q && x != c
  {
    if q == [] then []
    else if q[0] == c then Without(q[1..], c)
    else [q[0]] + Without(q[1..], c)
  }

  /** Cancellation inside `acquire`: the semaphore cleans up after itself, nothing lowers the
      counter, because `acquire` is awaited outside the `try` that releases. */
  function Abandon(s: Slot, c: CallId): Slot {
    if c in s.granted then
      WakeAll(s.(free := s.free + 1, granted := s.granted - {c}, abandoned := s.abandoned + 1))
    else
      WakeAll(s.(queue := Without(s.queue, c), abandoned := s.abandoned + 1))
  }

  // ---------- every operation keeps the slot valid ----------

  lemma WakeNextBalanced(s: Slot)
    requires Balanced(s)
    ensures Balanced(WakeNext(s))
    ensures WakeNext(s).active == s.active && WakeNext(s).concurrency == s.concurrency
    ensures forall c :: WakeNext(s).Knows(c) <==> s.Knows(c)
    ensures forall c :: c in s.granted ==> c in WakeNext(s).granted
    ensures s.queue != [] && 0 < s.free ==> WakeNext(s).granted != {}
  {
    if s.queue != [] && 0 < s.free {
      assert s.queue == [s.queue[0]] + s.queue[1..];
      var w := WakeNext(s);
      assert w.granted == s.granted + {s.queue[0]} && s.queue[0] !in s.granted;
      forall i | 0 <= i < |w.queue|
        ensures w.queue[i] !in w.granted && w.queue[i] !in w.active
      {
        assert w.queue[i] == s.queue[i + 1];
      }
    }
  }

  /** After `WakeAll` the wake-up guarantee holds, and no one but queue members was touched. */
  lemma {:induction false} WakeAllValid(s: Slot)
    requires Balanced(s)
    ensures ValidSlot(WakeAll(s))
    ensures WakeAll(s).active == s.active && WakeAll(s).concurrency == s.concurrency
    ensures WakeAll(s).abandoned == s.abandoned
    ensures forall c :: WakeAll(s).Knows(c) <==> s.Knows(c)
    ensures forall c :: c in s.granted ==> c in WakeAll(s).granted
    decreases |s.queue|
  {
    if s.queue != [] && 0 < s.free {
      WakeNextBalanced(s);
      WakeAllValid(WakeNext(s));
    }
  }

  lemma BeginAcquireValid(s: Slot, c: CallId)
    requires ValidSlot(s) && !s.Knows(c)
    ensures ValidSlot(BeginAcquire(s, c))
    ensures forall d :: BeginAcquire(s, c).Knows(d) <==> s.Knows(d) || d == c
    ensures forall d :: d in BeginAcquire(s, c).active ==> d in s.active || d == c
    ensures forall d :: d in s.active ==> d in BeginAcquire(s, c).active
  {
    var r := BeginAcquire(s, c);
    if !(0 < s.free && s.queue == [] && s.granted == {}) {
      forall i | 0 <= i < |r.queue|
        ensures r.queue[i] !in r.granted && r.queue[i] !in r.active
      {
        assert r.queue[i] == if i < |s.queue| then s.queue[i] else c;
      }
    }
  }

  lemma FinishAcquireValid(s: Slot, c: CallId)
    requires ValidSlot(s) && c in s.granted
    ensures ValidSlot(FinishAcquire(s, c))
    ensures FinishAcquire(s, c).active == s.active + {c}
    ensures FinishAcquire(s, c).abandoned == s.abandoned
    ensures forall d :: FinishAcquire(s, c).Knows(d) <==> s.Knows(d)
  {
    WakeAllValid(s.(granted := s.granted - {c}, active := s.active + {c}));
  }

  lemma ReleaseValid(s: Slot, c: CallId)
    requires ValidSlot(s) && c in s.active
    ensures ValidSlot(Release(s, c))
    ensures Release(s, c).active == s.active - {c}
    ensures Release(s, c).abandoned == s.abandoned
    ensures forall d :: Release(s, c).Knows(d) <==> s.Knows(d) && d != c
  {
    WakeNextBalanced(s.(waiters := s.waiters - 1, free := s.free + 1, active := s.active - {c}));
  }

  lemma {:induction false} WithoutOne(q: seq<CallId>, c: CallId)
    requires Distinct(q)
    ensures Distinct(Without(q, c))
    ensures |Without(q, c)| == |q| - if c in q then 1 else 0
  {
    if q != [] {
      WithoutOne(q[1..], c);
      var r := Without(q[1..], c);
      if q[0] == c {
        assert c !in q[1..];
      } else {
        assert forall i :: 0 <= i < |r| ==> r[i] in q[1..] && r[i] != q[0];
      }
    }
  }

  lemma AbandonValid(s: Slot, c: CallId)
    requires ValidSlot(s) && (c in s.granted || c in s.queue)
    ensures ValidSlot(Abandon(s, c))
    ensures Abandon(s, c).active == s.active
    ensures Abandon(s, c).abandoned == s.abandoned + 1
    ensures forall d :: Abandon(s, c).Knows(d) <==> s.Knows(d) && d != c
  {
    if c in s.granted {
      WakeAllValid(s.(free := s.free + 1, granted := s.granted - {c}, abandoned := s.abandoned + 1));
    } else {
      WithoutOne(s.queue, c);
      var r := s.(queue := Without(s.queue, c), abandoned := s.abandoned + 1);
      assert forall i :: 0 <= i < |r.queue| ==> r.queue[i] in s.queue;
      WakeAllValid(r);
    }
  }

  // ---------- first come, first served ----------

  /** `a` lines up before `b`. */
  ghost predicate Ahead(q: seq<CallId>, a: CallId, b: CallId) {
    exists i, j :: 0 <= i < j < |q| && q[i] == a && q[j] == b
  }

  lemma WakeNextOrder(s: Slot, a: CallId, b: CallId)
    requires Ahead(s.queue, a, b)
    ensures Ahead(WakeNext(s).queue, a, b) || a in WakeNext(s).granted
    ensures forall c :: c in s.granted ==> c in WakeNext(s).granted
  {
    var i, j :| 0 <= i < j < |s.queue| && s.queue[i] == a && s.queue[j] == b;
    if 0 < i {
      assert s.queue[1..][i - 1] == a && s.queue[1..][j - 1] == b;
    }
  }

  lemma {:induction false} WakeAllOrder(s: Slot, a: CallId, b: CallId)
    requires Ahead(s.queue, a, b) || a in s.granted
    ensures Ahead(WakeAll(s).queue, a, b) || a in WakeAll(s).granted
    decreases |s.queue|
  {
    if s.queue != [] && 0 < s.free {
      if a !in s.granted {
        WakeNextOrder(s, a, b);
      }
      WakeAllOrder(WakeNext(s), a, b);
    }
  }

  lemma {:induction false} WithoutOrder(q: seq<CallId>, c: CallId, a: CallId, b: CallId)
    requires Ahead(q, a, b) && c != a && c != b
    ensures Ahead(Without(q, c), a, b)
  {
    var i, j :| 0 <= i < j < |q| && q[i] == a && q[j] == b;
    var rest, r := q[1..], Without(q[1..], c);
    if 0 < i {
      assert rest[i - 1] == a && rest[j - 1] == b;
      WithoutOrder(rest, c, a, b);
      if q[0] != c {
        var m, n :| 0 <= m < n < |r| && r[m] == a && r[n] == b;
        assert ([q[0]] + r)[m + 1] == a && ([q[0]] + r)[n + 1] == b;
      }
    } else {
      assert rest[j - 1] == b && b in rest && b in r;
      var n :| 0 <= n < |r| && r[n] == b;
      assert Without(q, c) == [a] + r;
      assert Without(q, c)[0] == a && Without(q, c)[n + 1] == b;
    }
  }

  lemma BeginAcquireOrder(s: Slot, c: CallId, a: CallId, b: CallId)
    requires Ahead(s.queue, a, b)
    ensures Ahead(BeginAcquire(s, c).queue, a, b)
  {
    var i, j :| 0 <= i < j < |s.queue| && s.queue[i] == a && s.queue[j] == b;
    var q := BeginAcquire(s, c).queue;
    assert q[i] == a && q[j] == b;
  }

  /** `a` is still before `b`, or no longer waiting. */
  ghost predicate StillAhead(s: Slot, a: CallId, b: CallId) {
    Ahead(s.queue, a, b) || a !in s.queue
  }

  lemma FinishAcquireOrder(s: Slot, c: CallId, a: CallId, b: CallId)
    requires ValidSlot(s) && c in s.granted && Ahead(s.queue, a, b)
    ensures StillAhead(FinishAcquire(s, c), a, b)
  {
    FinishAcquireValid(s, c);
    WakeAllOrder(s.(granted := s.granted - {c}, active := s.active + {c}), a, b);
  }

  lemma ReleaseOrder(s: Slot, c: CallId, a: CallId, b: CallId)
    requires ValidSlot(s) && c in s.active && Ahead(s.queue, a, b)
    ensures StillAhead(Release(s, c), a, b)
  {
    ReleaseValid(s, c);
    WakeNextOrder(s.(waiters := s.waiters - 1, free := s.free + 1, active := s.active - {c}), a, b);
  }

  lemma AbandonOrder(s: Slot, c: CallId, a: CallId, b: CallId)
    requires ValidSlot(s) && (c in s.granted || c in s.queue) && c != b && Ahead(s.queue, a, b)
    ensures StillAhead(Abandon(s, c), a, b)
  {
    AbandonValid(s, c);
    if c in s.granted {
      WakeAllOrder(s.(free := s.free + 1, granted := s.granted - {c}, abandoned := s.abandoned + 1), a, b);
    } else if c != a {
      WithoutOrder(s.queue, c, a, b);
      WakeAllOrder(s.(queue := Without(s.queue, c), abandoned := s.abandoned + 1), a, b);
    } else {
      assert !Abandon(s, c).Knows(a);
    }
  }

  // ---------- how long a waiter waits ----------

  /** How many are in line before `a`. */
  function Place(q: seq<CallId>, a: CallId): nat
    requires a in q
  {
    if q[0] == a then 0 else 1 + Place(q[1..], a)
  }

  /** The waiters to whom a step from `s` to `t` hands a permit. */
  function Handed(s: Slot, t: Slot): set<CallId> {
    t.granted - s.granted
  }

  /** `a`, if it is still in line, has come as many places nearer as permits were handed out. */
  ghost predicate ComesNearer(s: Slot, t: Slot, a: CallId)
    requires a in s.queue
  {
    a in t.queue ==> Place(t.queue, a) + |Handed(s, t)| <= Place(s.queue, a)
  }

  lemma {:induction false} PlaceAfterDrop(q: seq<CallId>, k: nat, a: CallId)
    requires Distinct(q) && k <= |q| && a in q[k..]
    ensures a in q && Place(q, a) == k + Place(q[k..], a)
    decreases k
  {
    if k == 0 {
      assert q[0..] == q;
    } else {
      assert q[1..][k - 1..] == q[k..];
      PlaceAfterDrop(q[1..], k - 1, a);
      assert q[0] != a;
    }
  }

  lemma {:induction false} PlaceAppend(q: seq<CallId>, r: seq<CallId>, a: CallId)
    requires a in q
    ensures Place(q + r, a) == Place(q, a)
  {
    if q[0] != a {
      assert (q + r)[1..] == q[1..] + r;
      PlaceAppend(q[1..], r, a);
    }
  }

  lemma {:induction false} PlaceWithout(q: seq<CallId>, c: CallId, a: CallId)
    requires a in q && a != c
    ensures a in Without(q, c) && Place(Without(q, c), a) <= Place(q, a)
  {
    if q[0] != a {
      PlaceWithout(q[1..], c, a);
      if q[0] != c {
        var r := Without(q[1..], c);
        assert ([q[0]] + r)[1..] == r;
      }
    }
  }

  lemma {:induction false} ElementsBound(q: seq<CallId>)
    ensures |Elements(q)| <= |q|
  {
    if q != [] {
      ElementsBound(q[1..]);
      assert q == [q[0]] + q[1..];
      assert Elements(q) == {q[0]} + Elements(q[1..]);
    }
  }

  /** Waking takes waiters off the front of the line. */
  lemma {:induction false} WakeAllTakesFront(s: Slot) returns (k: nat)
    ensures k <= |s.queue|
    ensures WakeAll(s).queue == s.queue[k..] && WakeAll(s).granted == s.granted + Elements(s.queue[..k])
    decreases |s.queue|
  {
    if s.queue != [] && 0 < s.free {
      var rest := WakeNext(s);
      var m := WakeAllTakesFront(rest);
      k := m + 1;
      assert rest.queue[m..] == s.queue[k..];
      assert s.queue[..k] == [s.queue[0]] + rest.queue[..m];
      assert Elements(s.queue[..k]) == {s.queue[0]} + Elements(rest.queue[..m]);
    } else {
      k := 0;
      assert s.queue[..0] == [] && s.queue[0..] == s.queue;
    }
  }

  /** Taking `k` waiters off the front of `s0`'s line hands out at most `k` permits. */
  lemma FrontTaken(s: Slot, s0: Slot, t: Slot, k: nat, a: CallId)
    requires a in s.queue && Distinct(s0.queue) && k <= |s0.queue|
    requires a in s0.queue ==> Place(s0.queue, a) <= Place(s.queue, a)
    requires s0.granted <= s.granted
    requires t.queue == s0.queue[k..] && t.granted == s0.granted + Elements(s0.queue[..k])
    ensures ComesNearer(s, t, a)
  {
    ElementsBound(s0.queue[..k]);
    SubsetCardinality(Handed(s, t), Elements(s0.queue[..k]));
    if a in t.queue {
      PlaceAfterDrop(s0.queue, k, a);
    }
  }

  lemma BeginAcquireNearer(s: Slot, c: CallId, a: CallId)
    requires a in s.queue
    ensures ComesNearer(s, BeginAcquire(s, c), a)
  {
    PlaceAppend(s.queue, [c], a);
    assert Handed(s, BeginAcquire(s, c)) == {};
  }

  lemma FinishAcquireNearer(s: Slot, c: CallId, a: CallId)
    requires ValidSlot(s) && a in s.queue
    ensures ComesNearer(s, FinishAcquire(s, c), a)
  {
    var s0 := s.(granted := s.granted - {c}, active := s.active + {c});
    var k := WakeAllTakesFront(s0);
    FrontTaken(s, s0, FinishAcquire(s, c), k, a);
  }

  lemma ReleaseNearer(s: Slot, c: CallId, a: CallId)
    requires ValidSlot(s) && a in s.queue
    ensures ComesNearer(s, Release(s, c), a)
  {
    var s0 := s.(waiters := s.waiters - 1, free := s.free + 1, active := s.active - {c});
    assert s.queue[0..] == s.queue && s.queue[..0] == [] && s.queue[..1] == [s.queue[0]];
    FrontTaken(s, s0, Release(s, c), if 0 < s0.free then 1 else 0, a);
  }

  lemma AbandonGrantedNearer(s: Slot, c: CallId, a: CallId)
    requires ValidSlot(s) && a in s.queue && c in s.granted
    ensures ComesNearer(s, Abandon(s, c), a)
  {
    var s0 := s.(free := s.free + 1, granted := s.granted - {c}, abandoned := s.abandoned + 1);
    var k := WakeAllTakesFront(s0);
    FrontTaken(s, s0, Abandon(s, c), k, a);
  }

  lemma AbandonQueuedNearer(s: Slot, c: CallId, a: CallId)
    requires ValidSlot(s) && a in s.queue && c !in s.granted && a != c
    ensures ComesNearer(s, Abandon(s, c), a)
  {
    var s0 := s.(queue := Without(s.queue, c), abandoned := s.abandoned + 1);
    WithoutOne(s.queue, c);
    PlaceWithout(s.queue, c, a);
    var k := WakeAllTakesFront(s0);
    FrontTaken(s, s0, Abandon(s, c), k, a);
  }

  lemma AbandonNearer(s: Slot, c: CallId, a: CallId)
    requires ValidSlot(s) && a in s.queue && a != c
    ensures ComesNearer(s, Abandon(s, c), a)
  {
    if c in s.granted {
      AbandonGrantedNearer(s, c, a);
    } else {
      AbandonQueuedNearer(s, c, a);
    }
  }

  // ---------- the object the dispatcher shares ----------

  /** `_ProviderSlot` with its semaphore. The counter and the semaphore are updated by separate
      statements, as in the source; `View` is the value the model above reasons about. */
  class ProviderSlot {
    const concurrency: nat
    var value: int
    var waiters: int
    var pending: seq<CallId>
    var granted: set<CallId>
    var active: set<CallId>
    ghost var abandoned: nat

    ghost function View(): Slot
      reads this
    {
      Slot(concurrency, value, waiters, pending, granted, active, abandoned)
    }

    constructor (concurrency: nat)
      ensures View() == NewSlot(concurrency)
    {
      this.concurrency, value, waiters := concurrency, concurrency, 0;
      pending, granted, active, abandoned := [], {}, {}, 0;
    }

    method WakeUpNext() returns (woken: bool)
      requires 0 < value
      modifies this
      ensures View() == WakeNext(old(View()))
      ensures woken <==> old(pending) != []
    {
      if pending == [] {
        return false;
      }
      value := value - 1;
      granted := granted + {pending[0]};
      pending := pending[1..];
      return true;
    }

    /** The semaphore's clean-up loop: wake as many waiters as there are permits. */
    method WakeUpAll()
      modifies this
      ensures View() == WakeAll(old(View()))
    {
      while 0 < value
        invariant WakeAll(View()) == WakeAll(old(View()))
        decreases |pending|
      {
        var woken := WakeUpNext();
        if !woken {
          return;
        }
      }
    }

    method Acquire(c: CallId) returns (entered: bool)
      requires c !in active && c !in pending && c !in granted
      modifies this
      ensures View() == BeginAcquire(old(View()), c)
      ensures entered <==> c in active
    {
      waiters := waiters + 1;
      if 0 < value && pending == [] && granted == {} {
        value := value - 1;
        active := active + {c};
        return true;
      }
      pending := pending + [c];
      return false;
    }

    method Resume(c: CallId)
      requires c in granted
      modifies this
      ensures View() == FinishAcquire(old(View()), c)
    {
      granted := granted - {c};
      active := active + {c};
      WakeUpAll();
    }

    method CancelAcquire(c: CallId)
      requires c in granted || c in pending
      modifies this
      ensures View() == Abandon(old(View()), c)
    {
      if c in granted {
        granted := granted - {c};
        value := value + 1;
      } else {
        pending := Without(pending, c);
      }
      abandoned := abandoned + 1;
      WakeUpAll();
    }

    method ReleasePermit(c: CallId)
      requires c in active && 0 <= value
      modifies this
      ensures View() == Release(old(View()), c)
    {
      waiters := waiters - 1;
      active := active - {c};
      value := value + 1;
      var _ := WakeUpNext();
    }
  }
}
