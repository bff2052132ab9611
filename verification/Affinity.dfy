/** Caller affinity: in which order a call tries its providers, and how that order spreads the
    callers of a lab over the providers. */
module Affinity {
  import opened Common

  type Pins = map<(LabId, CallerName), ProviderId>

  /** A candidate with the sort key it gets: tier first, queue depth second. */
  datatype Ranked = Ranked(tier: nat, depth: int, provider: ProviderId)

  predicate Before(a: Ranked, b: Ranked) {
    a.tier < b.tier || (a.tier == b.tier && a.depth <= b.depth)
  }

  predicate SameKey(a: Ranked, b: Ranked) {
    a.tier == b.tier && a.depth == b.depth
  }

  // ---------- a stable sort, and what makes it the only one ----------

  function Insert(x: Ranked, s: seq<Ranked>): seq<Ranked> {
    if s == [] || Before(x, s[0]) then [x] + s else [s[0]] + Insert(x, s[1..])
  }

  /** Python's `sorted`: insertion from the right keeps equal keys in their order. */
  function StableSort(s: seq<Ranked>): seq<Ranked> {
    if s == [] then [] else Insert(s[0], StableSort(s[1..]))
  }

  ghost predicate Sorted(s: seq<Ranked>) {
    forall i, j :: 0 <= i < j < |s| ==> Before(s[i], s[j])
  }

  /** The entries of `s` with the key of `k`, in order. */
  function WithKey(s: seq<Ranked>, k: Ranked): seq<Ranked> {
    if s == [] then []
    else (if SameKey(s[0], k) then [s[0]] else []) + WithKey(s[1..], k)
  }

  lemma {:induction false} InsertKeepsEntries(x: Ranked, s: seq<Ranked>)
    ensures multiset(Insert(x, s)) == multiset{x} + multiset(s)
  {
    if s != [] && !Before(x, s[0]) {
      InsertKeepsEntries(x, s[1..]);
      assert s == [s[0]] + s[1..];
    }
  }

  lemma {:induction false} InsertHas(x: Ranked, s: seq<Ranked>, y: Ranked)
    requires y in Insert(x, s)
    ensures y == x || y in s
  {
    if s != [] && !Before(x, s[0]) && y != s[0] {
      InsertHas(x, s[1..], y);
    }
  }

  lemma {:induction false} InsertSorted(x: Ranked, s: seq<Ranked>)
    requires Sorted(s)
    ensures Sorted(Insert(x, s))
  {
    if s != [] && !Before(x, s[0]) {
      InsertSorted(x, s[1..]);
      var r := Insert(x, s[1..]);
      forall j | 0 <= j < |r| ensures Before(s[0], r[j]) {
        InsertHas(x, s[1..], r[j]);
      }
    }
  }

  lemma {:induction false} InsertStable(x: Ranked, s: seq<Ranked>, k: Ranked)
    requires Sorted(s)
    ensures WithKey(Insert(x, s), k) == (if SameKey(x, k) then [x] else []) + WithKey(s, k)
  {
    if s == [] || Before(x, s[0]) {
      assert ([x] + s)[1..] == s;
    } else {
      InsertStable(x, s[1..], k);
      assert ([s[0]] + Insert(x, s[1..]))[1..] == Insert(x, s[1..]);
    }
  }

  /** The sort is a sorted permutation, and entries with equal keys keep their order. */
  lemma {:induction false} StableSortCorrect(s: seq<Ranked>)
    ensures Sorted(StableSort(s))
    ensures multiset(StableSort(s)) == multiset(s)
    ensures forall k :: WithKey(StableSort(s), k) == WithKey(s, k)
  {
    if s != [] {
      StableSortCorrect(s[1..]);
      InsertSorted(s[0], StableSort(s[1..]));
      InsertKeepsEntries(s[0], StableSort(s[1..]));
      assert s == [s[0]] + s[1..];
      forall k ensures WithKey(StableSort(s), k) == WithKey(s, k) {
        InsertStable(s[0], StableSort(s[1..]), k);
      }
    }
  }

  lemma {:induction false} FirstWithKey(s: seq<Ranked>, k: Ranked)
    ensures forall x :: x in WithKey(s, k) <==> x in s && SameKey(x, k)
  {
    if s != [] {
      FirstWithKey(s[1..], k);
      assert s == [s[0]] + s[1..];
    }
  }

  lemma {:induction false} HeadHasItsKey(s: seq<Ranked>)
    requires s != []
    ensures WithKey(s, s[0]) != [] && WithKey(s, s[0])[0] == s[0]
  {
  }

  /** Sortedness and stability together determine the result: there is no other order. */
  lemma {:induction false} StableSortUnique(s: seq<Ranked>, t: seq<Ranked>)
    requires Sorted(s) && Sorted(t)
    requires forall k :: WithKey(s, k) == WithKey(t, k)
    ensures s == t
  {
    if s == [] {
      if t != [] {
        HeadHasItsKey(t);
      }
    } else if t == [] {
      HeadHasItsKey(s);
    } else {
      HeadHasItsKey(s);
      HeadHasItsKey(t);
      FirstWithKey(s, s[0]);
      FirstWithKey(t, s[0]);
      assert s[0] in WithKey(s, s[0]);
      assert s[0] in t;
      FirstWithKey(s, t[0]);
      FirstWithKey(t, t[0]);
      assert t[0] in WithKey(t, t[0]);
      assert t[0] in s;
      assert SameKey(s[0], t[0]);
      assert WithKey(s, s[0])[0] == s[0] && WithKey(t, s[0])[0] == t[0];
      forall k ensures WithKey(s[1..], k) == WithKey(t[1..], k) {
        var head := if SameKey(s[0], k) then [s[0]] else [];
        assert WithKey(s, k) == head + WithKey(s[1..], k);
        assert WithKey(t, k) == head + WithKey(t[1..], k);
        assert WithKey(s, k)[|head|..] == WithKey(t, k)[|head|..];
      }
      StableSortUnique(s[1..], t[1..]);
      assert s == [s[0]] + s[1..] && t == [t[0]] + t[1..];
    }
  }

  // ---------- the order in which one call tries its providers ----------

  function Unranked(rows: seq<ProviderId>, depth: map<ProviderId, int>): (r: seq<Ranked>)
    requires forall p :: p in rows ==> p in depth
    ensures |r| == |rows|
    ensures forall i :: 0 <= i < |rows| ==> r[i] == Ranked(0, depth[rows[i]], rows[i])
  {
    seq(|rows|, i requires 0 <= i < |rows| => Ranked(0, depth[rows[i]], rows[i]))
  }

  /** All providers of a model, least loaded first. */
  function FindAll(rows: seq<ProviderId>, depth: map<ProviderId, int>): seq<Ranked>
    requires forall p :: p in rows ==> p in depth
  {
    StableSort(Unranked(rows, depth))
  }

  function Pinned(pins: Pins, lab: LabId, caller: CallerName): Option<ProviderId> {
    if (lab, caller) in pins then Some(pins[(lab, caller)]) else None
  }

  /** Providers pinned by the other callers of the lab. */
  function OtherPinned(pins: Pins, lab: LabId, caller: CallerName): set<ProviderId> {
    set k | k in pins && k.0 == lab && k.1 != caller :: pins[k]
  }

  function Tier(p: ProviderId, own: Option<ProviderId>, others: set<ProviderId>): nat {
    if own == Some(p) then 0 else if p !in others then 1 else 2
  }

  function Retier(s: seq<Ranked>, own: Option<ProviderId>, others: set<ProviderId>): (r: seq<Ranked>)
    ensures |r| == |s|
    ensures forall i :: 0 <= i < |s| ==> r[i] == s[i].(tier := Tier(s[i].provider, own, others))
  {
    seq(|s|, i requires 0 <= i < |s| => s[i].(tier := Tier(s[i].provider, own, others)))
  }

  function SortWithAffinity(s: seq<Ranked>, pins: Pins, lab: Option<LabId>, caller: CallerName): seq<Ranked> {
    match lab
    case None => s
    case Some(l) => StableSort(Retier(s, Pinned(pins, l, caller), OtherPinned(pins, l, caller)))
  }

  function Providers(s: seq<Ranked>): (r: seq<ProviderId>)
    ensures |r| == |s|
    ensures forall i :: 0 <= i < |s| ==> r[i] == s[i].provider
  {
    seq(|s|, i requires 0 <= i < |s| => s[i].provider)
  }

  /** The provider order of a call by `caller`, from the model's rows and the queue depths. */
  function Order(rows: seq<ProviderId>, depth: map<ProviderId, int>,
                 pins: Pins, lab: Option<LabId>, caller: CallerName): seq<ProviderId>
    requires forall p :: p in rows ==> p in depth
  {
    Providers(SortWithAffinity(FindAll(rows, depth), pins, lab, caller))
  }

  lemma {:induction false} InsertProviders(x: Ranked, s: seq<Ranked>)
    ensures multiset(Providers(Insert(x, s))) == multiset{x.provider} + multiset(Providers(s))
  {
    if s == [] || Before(x, s[0]) {
      assert Providers([x] + s) == [x.provider] + Providers(s);
    } else {
      InsertProviders(x, s[1..]);
      assert Providers(Insert(x, s)) == [s[0].provider] + Providers(Insert(x, s[1..]));
      assert Providers(s) == [s[0].provider] + Providers(s[1..]);
    }
  }

  lemma {:induction false} SortKeepsProviders(s: seq<Ranked>)
    ensures multiset(Providers(StableSort(s))) == multiset(Providers(s))
  {
    if s != [] {
      SortKeepsProviders(s[1..]);
      InsertProviders(s[0], StableSort(s[1..]));
      assert Providers(s) == [s[0].provider] + Providers(s[1..]);
    }
  }

  /** Ordering drops no candidate and invents none. */
  lemma OrderIsPermutation(rows: seq<ProviderId>, depth: map<ProviderId, int>,
                           pins: Pins, lab: Option<LabId>, caller: CallerName)
    requires forall p :: p in rows ==> p in depth
    ensures multiset(Order(rows, depth, pins, lab, caller)) == multiset(rows)
    ensures forall p :: p in Order(rows, depth, pins, lab, caller) <==> p in rows
  {
    var u := Unranked(rows, depth);
    var s := FindAll(rows, depth);
    SortKeepsProviders(u);
    assert Providers(u) == rows;
    match lab {
      case None =>
      case Some(l) =>
        var r := Retier(s, Pinned(pins, l, caller), OtherPinned(pins, l, caller));
        SortKeepsProviders(r);
        assert Providers(r) == Providers(s);
    }
    SameMembers(Order(rows, depth, pins, lab, caller), rows);
  }

  lemma SameMembers<T>(a: seq<T>, b: seq<T>)
    requires multiset(a) == multiset(b)
    ensures forall x :: x in a <==> x in b
  {
    forall x ensures x in a <==> x in b {
      assert x in a <==> x in multiset(a);
      assert x in b <==> x in multiset(b);
    }
  }

  /** The sorted list holds every candidate, under its tier and depth. */
  lemma TieredEntries(rows: seq<ProviderId>, depth: map<ProviderId, int>,
                      pins: Pins, lab: LabId, caller: CallerName)
    requires forall p :: p in rows ==> p in depth
    ensures var t := SortWithAffinity(FindAll(rows, depth), pins, Some(lab), caller);
            var own := Pinned(pins, lab, caller);
            var others := OtherPinned(pins, lab, caller);
            && |t| == |rows| && Sorted(t)
            && (forall x :: x in t ==>
                  x.provider in rows && x == Ranked(Tier(x.provider, own, others), depth[x.provider], x.provider))
            && forall p :: p in rows ==> Ranked(Tier(p, own, others), depth[p], p) in t
  {
    var own, others := Pinned(pins, lab, caller), OtherPinned(pins, lab, caller);
    var r := Retier(FindAll(rows, depth), own, others);
    RetieredEntries(rows, depth, own, others);
    SortKeepsEntries(r);
  }

  lemma SortKeepsEntries(r: seq<Ranked>)
    ensures |StableSort(r)| == |r| && Sorted(StableSort(r))
    ensures forall x :: x in StableSort(r) <==> x in r
  {
    StableSortCorrect(r);
    SameMembers(StableSort(r), r);
    assert |StableSort(r)| == |multiset(StableSort(r))| == |multiset(r)| == |r|;
  }

  lemma RetieredEntries(rows: seq<ProviderId>, depth: map<ProviderId, int>,
                        own: Option<ProviderId>, others: set<ProviderId>)
    requires forall p :: p in rows ==> p in depth
    ensures var r := Retier(FindAll(rows, depth), own, others);
            && |r| == |rows|
            && (forall x :: x in r ==>
                  x.provider in rows && x == Ranked(Tier(x.provider, own, others), depth[x.provider], x.provider))
            && forall p :: p in rows ==> Ranked(Tier(p, own, others), depth[p], p) in r
  {
    var u, s := Unranked(rows, depth), FindAll(rows, depth);
    var r := Retier(s, own, others);
    SortKeepsEntries(u);
    forall p | p in rows
      ensures Ranked(Tier(p, own, others), depth[p], p) in r
    {
      var i :| 0 <= i < |rows| && rows[i] == p;
      assert u[i] in s;
      var j :| 0 <= j < |s| && s[j] == u[i];
      assert r[j] in r;
    }
    forall x | x in r
      ensures x.provider in rows && x == Ranked(Tier(x.provider, own, others), depth[x.provider], x.provider)
    {
      var j :| 0 <= j < |r| && r[j] == x;
      assert s[j] in u;
    }
  }

  /** The three tiers, seen from the provider that is tried first: the caller's own pin wins;
      otherwise a provider no other caller of the lab has pinned, the least loaded of those. */
  lemma FirstChoice(rows: seq<ProviderId>, depth: map<ProviderId, int>,
                    pins: Pins, lab: LabId, caller: CallerName)
    requires rows != [] && forall p :: p in rows ==> p in depth
    ensures var o := Order(rows, depth, pins, Some(lab), caller);
            var own := Pinned(pins, lab, caller);
            var others := OtherPinned(pins, lab, caller);
            && o != [] && o[0] in rows
            && (own.Some? && own.value in rows ==> o[0] == own.value)
            && (!(own.Some? && own.value in rows) && (exists p :: p in rows && p !in others) ==>
                && o[0] !in others
                && forall p :: p in rows && p !in others ==> depth[o[0]] <= depth[p])
  {
    var own := Pinned(pins, lab, caller);
    var others := OtherPinned(pins, lab, caller);
    var t := SortWithAffinity(FindAll(rows, depth), pins, Some(lab), caller);
    TieredEntries(rows, depth, pins, lab, caller);
    assert t[0] in t;
    forall p | p in rows
      ensures Before(t[0], Ranked(Tier(p, own, others), depth[p], p))
    {
      var i :| 0 <= i < |t| && t[i] == Ranked(Tier(p, own, others), depth[p], p);
    }
  }

  // ---------- exactly which provider comes first ----------

  /** The candidates in the order of the rows, with the keys of the final sort. */
  function Keyed(rows: seq<ProviderId>, depth: map<ProviderId, int>,
                 own: Option<ProviderId>, others: set<ProviderId>): (r: seq<Ranked>)
    requires forall p :: p in rows ==> p in depth
    ensures |r| == |rows|
    ensures forall i :: 0 <= i < |rows| ==> r[i] == Ranked(Tier(rows[i], own, others), depth[rows[i]], rows[i])
  {
    Retier(Unranked(rows, depth), own, others)
  }

  /** The entries of `s` in tier `t`. */
  function InTier(s: seq<Ranked>, own: Option<ProviderId>, others: set<ProviderId>, t: nat): seq<Ranked> {
    if s == [] then []
    else (if Tier(s[0].provider, own, others) == t then [s[0].(tier := t)] else []) + InTier(s[1..], own, others, t)
  }

  /** Retiering entries of one tier and then picking a key is picking the depth and then the tier. */
  lemma {:induction false} RetierWithKey(s: seq<Ranked>, own: Option<ProviderId>, others: set<ProviderId>, k: Ranked)
    requires forall x :: x in s ==> x.tier == 0
    ensures WithKey(Retier(s, own, others), k) == InTier(WithKey(s, k.(tier := 0)), own, others, k.tier)
  {
    if s != [] {
      var rest := s[1..];
      RetierWithKey(rest, own, others, k);
      assert s[0] in s && Retier(s, own, others)[1..] == Retier(rest, own, others);
      if s[0].depth == k.depth {
        assert WithKey(s, k.(tier := 0)) == [s[0]] + WithKey(rest, k.(tier := 0));
        assert ([s[0]] + WithKey(rest, k.(tier := 0)))[1..] == WithKey(rest, k.(tier := 0));
      } else {
        assert [] + WithKey(rest, k.(tier := 0)) == WithKey(rest, k.(tier := 0));
      }
    }
  }

  /** Sorting by load and then, stably, by tier and load is one stable sort of the rows. */
  lemma TwoSortsAreOne(rows: seq<ProviderId>, depth: map<ProviderId, int>,
                       pins: Pins, lab: LabId, caller: CallerName)
    requires forall p :: p in rows ==> p in depth
    ensures SortWithAffinity(FindAll(rows, depth), pins, Some(lab), caller)
         == StableSort(Keyed(rows, depth, Pinned(pins, lab, caller), OtherPinned(pins, lab, caller)))
  {
    var own, others := Pinned(pins, lab, caller), OtherPinned(pins, lab, caller);
    var u, s := Unranked(rows, depth), FindAll(rows, depth);
    var twice, once := Retier(s, own, others), Keyed(rows, depth, own, others);
    StableSortCorrect(u);
    SortKeepsEntries(u);
    StableSortCorrect(twice);
    StableSortCorrect(once);
    forall k ensures WithKey(StableSort(twice), k) == WithKey(StableSort(once), k) {
      RetierWithKey(s, own, others, k);
      RetierWithKey(u, own, others, k);
      assert WithKey(s, k.(tier := 0)) == WithKey(u, k.(tier := 0));
    }
    StableSortUnique(StableSort(twice), StableSort(once));
  }

  /** Entry `i` is the first of the least entries of `s`. */
  ghost predicate FirstLeast(s: seq<Ranked>, i: nat) {
    && i < |s|
    && (forall j :: 0 <= j < |s| ==> Before(s[i], s[j]))
    && (forall j :: 0 <= j < i ==> !Before(s[j], s[i]))
  }

  lemma {:induction false} SortStartsWithFirstLeast(s: seq<Ranked>) returns (i: nat)
    requires s != []
    ensures FirstLeast(s, i) && StableSort(s) != [] && StableSort(s)[0] == s[i]
  {
    var rest := s[1..];
    if rest == [] {
      i := 0;
    } else {
      var k := SortStartsWithFirstLeast(rest);
      assert forall j :: 0 < j < |s| ==> s[j] == rest[j - 1];
      i := if Before(s[0], rest[k]) then 0 else k + 1;
    }
  }

  /** Row `i` is the first, in the order of the rows, of the least loaded candidates outside `taken`. */
  ghost predicate LeastLoadedAt(rows: seq<ProviderId>, depth: map<ProviderId, int>, taken: set<ProviderId>, i: nat)
    requires forall p :: p in rows ==> p in depth
  {
    && i < |rows| && rows[i] !in taken
    && (forall j :: 0 <= j < |rows| && rows[j] !in taken ==> depth[rows[i]] <= depth[rows[j]])
    && (forall j :: 0 <= j < i && rows[j] !in taken ==> depth[rows[i]] < depth[rows[j]])
  }

  ghost predicate LeastLoaded(rows: seq<ProviderId>, depth: map<ProviderId, int>, taken: set<ProviderId>, p: ProviderId)
    requires forall q :: q in rows ==> q in depth
  {
    exists i: nat :: LeastLoadedAt(rows, depth, taken, i) && rows[i] == p
  }

  /** What an unpinned caller tries first when some candidate is pinned by nobody else: exactly
      the first of the least loaded of those. */
  lemma FirstChoiceExactly(rows: seq<ProviderId>, depth: map<ProviderId, int>,
                           pins: Pins, lab: LabId, caller: CallerName, p: ProviderId)
    requires forall q :: q in rows ==> q in depth
    requires (lab, caller) !in pins && exists q :: q in rows && q !in OtherPinned(pins, lab, caller)
    ensures var o := Order(rows, depth, pins, Some(lab), caller);
      o != [] && (o[0] == p <==> LeastLoaded(rows, depth, OtherPinned(pins, lab, caller), p))
  {
    var own, taken := Pinned(pins, lab, caller), OtherPinned(pins, lab, caller);
    var s := Keyed(rows, depth, own, taken);
    TwoSortsAreOne(rows, depth, pins, lab, caller);
    var i := SortStartsWithFirstLeast(s);
    var q :| q in rows && q !in taken;
    var k :| 0 <= k < |rows| && rows[k] == q;
    assert Before(s[i], s[k]);
    assert LeastLoadedAt(rows, depth, taken, i) by {
      forall j | 0 <= j < |rows| && rows[j] !in taken
        ensures depth[rows[i]] <= depth[rows[j]] && (j < i ==> depth[rows[i]] < depth[rows[j]])
      {
        assert Before(s[i], s[j]);
        assert j < i ==> !Before(s[j], s[i]);
      }
    }
    if LeastLoaded(rows, depth, taken, p) {
      var m: nat :| LeastLoadedAt(rows, depth, taken, m) && rows[m] == p;
      assert depth[rows[i]] == depth[rows[m]];
      assert i == m;
    }
  }

  // ---------- the whole order, with a lab or without ----------

  /** How well a provider suits the caller: without a lab all suit alike; in a lab the caller's own pin
      comes first, and what another caller has pinned comes last. */
  ghost function Class(pins: Pins, lab: Option<LabId>, caller: CallerName, p: ProviderId): nat {
    if lab.None? then 0
    else if (lab.value, caller) in pins && pins[(lab.value, caller)] == p then 0
    else if exists c :: c != caller && (lab.value, c) in pins && pins[(lab.value, c)] == p then 2
    else 1
  }

  ghost function Classes(pins: Pins, lab: Option<LabId>, caller: CallerName): ProviderId -> nat {
    p => Class(pins, lab, caller, p)
  }

  /** Those of `ps` that satisfy `keep`, in order. */
  function Filter(ps: seq<ProviderId>, keep: ProviderId -> bool): seq<ProviderId> {
    if ps == [] then [] else (if keep(ps[0]) then [ps[0]] else []) + Filter(ps[1..], keep)
  }

  function Having(cls: ProviderId -> nat, depth: map<ProviderId, int>, c: nat, d: int): ProviderId -> bool {
    p => p in depth && cls(p) == c && depth[p] == d
  }

  /** `o` goes by class, then by load, and leaves the order of the rows where both are equal. */
  ghost predicate GoesBy(o: seq<ProviderId>, rows: seq<ProviderId>, cls: ProviderId -> nat, depth: map<ProviderId, int>) {
    && (forall p :: p in o ==> p in depth)
    && (forall i, j :: 0 <= i < j < |o| ==>
          cls(o[i]) < cls(o[j]) || (cls(o[i]) == cls(o[j]) && depth[o[i]] <= depth[o[j]]))
    && (forall c: nat, d: int :: Filter(o, Having(cls, depth, c, d)) == Filter(rows, Having(cls, depth, c, d)))
  }

  /** Every entry has its class and load for a key. */
  ghost predicate KeyedBy(s: seq<Ranked>, cls: ProviderId -> nat, depth: map<ProviderId, int>) {
    forall x :: x in s ==> x.provider in depth && x.tier == cls(x.provider) && x.depth == depth[x.provider]
  }

  lemma {:induction false} FilterByKey(s: seq<Ranked>, cls: ProviderId -> nat, depth: map<ProviderId, int>, k: Ranked)
    requires KeyedBy(s, cls, depth)
    ensures Providers(WithKey(s, k)) == Filter(Providers(s), Having(cls, depth, k.tier, k.depth))
  {
    if s != [] {
      FilterByKey(s[1..], cls, depth, k);
      assert s[0] in s && Providers(s)[0] == s[0].provider && Providers(s)[1..] == Providers(s[1..]);
      var head := if SameKey(s[0], k) then [s[0]] else [];
      assert Providers(head + WithKey(s[1..], k)) == Providers(head) + Providers(WithKey(s[1..], k));
    }
  }

  lemma SortGoesBy(s: seq<Ranked>, cls: ProviderId -> nat, depth: map<ProviderId, int>)
    requires KeyedBy(s, cls, depth)
    ensures GoesBy(Providers(StableSort(s)), Providers(s), cls, depth)
  {
    var t := StableSort(s);
    SortKeepsEntries(s);
    assert KeyedBy(t, cls, depth);
    SortedGoesBy(t, cls, depth);
    forall c: nat, d: int
      ensures Filter(Providers(t), Having(cls, depth, c, d)) == Filter(Providers(s), Having(cls, depth, c, d))
    {
      SortKeepsFilter(s, cls, depth, c, d);
    }
  }

  lemma SortKeepsFilter(s: seq<Ranked>, cls: ProviderId -> nat, depth: map<ProviderId, int>, c: nat, d: int)
    requires KeyedBy(s, cls, depth) && KeyedBy(StableSort(s), cls, depth)
    ensures Filter(Providers(StableSort(s)), Having(cls, depth, c, d)) == Filter(Providers(s), Having(cls, depth, c, d))
  {
    var k := Ranked(c, d, 0);
    StableSortCorrect(s);
    FilterByKey(s, cls, depth, k);
    FilterByKey(StableSort(s), cls, depth, k);
  }

  lemma SortedGoesBy(t: seq<Ranked>, cls: ProviderId -> nat, depth: map<ProviderId, int>)
    requires Sorted(t) && KeyedBy(t, cls, depth)
    ensures GoesBy(Providers(t), Providers(t), cls, depth)
  {
    forall i | 0 <= i < |t|
      ensures t[i].provider in depth && t[i].tier == cls(t[i].provider) && t[i].depth == depth[t[i].provider]
    {
      assert t[i] in t;
    }
  }

  /** The order in which any call tries its providers, exactly: by class, then least loaded first, then as
      the query gave them. */
  lemma OrderExactly(rows: seq<ProviderId>, depth: map<ProviderId, int>,
                     pins: Pins, lab: Option<LabId>, caller: CallerName)
    requires forall p :: p in rows ==> p in depth
    ensures GoesBy(Order(rows, depth, pins, lab, caller), rows, Classes(pins, lab, caller), depth)
  {
    var cls := Classes(pins, lab, caller);
    match lab {
      case None =>
        SortGoesBy(Unranked(rows, depth), cls, depth);
        assert Providers(Unranked(rows, depth)) == rows;
      case Some(l) =>
        var own, others := Pinned(pins, l, caller), OtherPinned(pins, l, caller);
        TwoSortsAreOne(rows, depth, pins, l, caller);
        var s := Keyed(rows, depth, own, others);
        forall p ensures Tier(p, own, others) == cls(p) {
          TierIsClass(pins, l, caller, p);
        }
        SortGoesBy(s, cls, depth);
        assert Providers(s) == rows;
    }
  }

  lemma TierIsClass(pins: Pins, lab: LabId, caller: CallerName, p: ProviderId)
    ensures Tier(p, Pinned(pins, lab, caller), OtherPinned(pins, lab, caller)) == Class(pins, Some(lab), caller, p)
  {
    assert p in OtherPinned(pins, lab, caller)
      <==> exists c :: c != caller && (lab, c) in pins && pins[(lab, c)] == p by {
      if c :| c != caller && (lab, c) in pins && pins[(lab, c)] == p {
        assert (lab, c).0 == lab && (lab, c).1 != caller;
      }
      if p in OtherPinned(pins, lab, caller) {
        var k :| k in pins && k.0 == lab && k.1 != caller && pins[k] == p;
        assert k == (lab, k.1);
      }
    }
  }

  /** A call without a lab tries the first of the least loaded rows first, and no other. */
  lemma FirstWithoutLab(rows: seq<ProviderId>, depth: map<ProviderId, int>, pins: Pins, caller: CallerName, p: ProviderId)
    requires rows != [] && forall q :: q in rows ==> q in depth
    ensures var o := Order(rows, depth, pins, None, caller);
      o != [] && (o[0] == p <==> LeastLoaded(rows, depth, {}, p))
  {
    var s := Unranked(rows, depth);
    var i := SortStartsWithFirstLeast(s);
    assert LeastLoadedAt(rows, depth, {}, i) by {
      forall j | 0 <= j < |rows| ensures depth[rows[i]] <= depth[rows[j]] && (j < i ==> depth[rows[i]] < depth[rows[j]]) {
        assert Before(s[i], s[j]);
        assert j < i ==> !Before(s[j], s[i]);
      }
    }
    if LeastLoaded(rows, depth, {}, p) {
      var m: nat :| LeastLoadedAt(rows, depth, {}, m) && rows[m] == p;
      assert depth[rows[i]] == depth[rows[m]];
      assert i == m;
    }
  }

  // ---------- spreading the callers of one lab ----------

  /** The lab's own part of the pin table. */
  function LabPins(pins: Pins, lab: LabId): (m: map<CallerName, ProviderId>)
    ensures forall c :: c in m <==> (lab, c) in pins
    ensures forall c :: c in m ==> m[c] == pins[(lab, c)]
  {
    map k | k in pins && k.0 == lab :: k.1 := pins[k]
  }

  /** One call that starts and answers alone: who calls, the candidates in the order the query gave
      them, and the queue depths the call finds. */
  datatype Visit = Visit(caller: CallerName, rows: seq<ProviderId>, depth: map<ProviderId, int>)

  predicate Answerable(v: Visit) {
    v.rows != [] && forall p :: p in v.rows ==> p in v.depth
  }

  /** The query gives these providers, in any order. */
  predicate Offers(v: Visit, providers: set<ProviderId>) {
    Answerable(v) && Elements(v.rows) == providers
  }

  predicate AllOffer(visits: seq<Visit>, providers: set<ProviderId>) {
    forall i :: 0 <= i < |visits| ==> Offers(visits[i], providers)
  }

  /** A call answered by the first provider it tried pins that provider. */
  function PinsAfterVisit(pins: Pins, lab: LabId, v: Visit): Pins
    requires Answerable(v)
  {
    FirstChoice(v.rows, v.depth, pins, lab, v.caller);
    pins[(lab, v.caller) := Order(v.rows, v.depth, pins, Some(lab), v.caller)[0]]
  }

  function PinsAfter(pins: Pins, lab: LabId, visits: seq<Visit>): Pins
    requires forall i :: 0 <= i < |visits| ==> Answerable(visits[i])
  {
    if visits == [] then pins
    else
      var before := PinsAfter(pins, lab, visits[..|visits| - 1]);
      PinsAfterVisit(before, lab, visits[|visits| - 1])
  }

  function Callers(visits: seq<Visit>): (r: set<CallerName>) {
    set i | 0 <= i < |visits| :: visits[i].caller
  }

  /** The lab's pins are one-to-one, within the candidates, and held by known callers. */
  ghost predicate Spread(pins: Pins, lab: LabId, providers: set<ProviderId>, callers: set<CallerName>) {
    var m := LabPins(pins, lab);
    && Injective(m)
    && m.Keys <= callers
    && forall c :: c in m ==> m[c] in providers
  }

  /** An unpinned caller always finds a provider nobody else in the lab has pinned. */
  lemma FreeProviderExists(pins: Pins, lab: LabId, providers: set<ProviderId>, callers: set<CallerName>, c: CallerName)
    requires c in callers && |callers| <= |providers|
    requires Spread(pins, lab, providers, callers) && (lab, c) !in pins
    ensures exists p :: p in providers && p !in OtherPinned(pins, lab, c)
  {
    var m := LabPins(pins, lab);
    var others := OtherPinned(pins, lab, c);
    InjectiveValues(m);
    forall p | p in others ensures p in m.Values {
      var k :| k in pins && k.0 == lab && k.1 != c && pins[k] == p;
      assert k.1 in m && m[k.1] == p;
    }
    SubsetCardinality(others, m.Values);
    SubsetCardinality(m.Keys, callers - {c});
    if providers <= others {
      SubsetCardinality(providers, others);
    } else {
      var p :| p in providers && p !in others;
    }
  }

  lemma VisitKeepsSpread(pins: Pins, lab: LabId, providers: set<ProviderId>, callers: set<CallerName>, v: Visit)
    requires Offers(v, providers) && v.caller in callers && |callers| <= |providers|
    requires Spread(pins, lab, providers, callers)
    ensures Spread(PinsAfterVisit(pins, lab, v), lab, providers, callers)
    ensures forall k :: k in pins ==>
              k in PinsAfterVisit(pins, lab, v) && PinsAfterVisit(pins, lab, v)[k] == pins[k]
  {
    var pins' := PinsAfterVisit(pins, lab, v);
    FirstChoice(v.rows, v.depth, pins, lab, v.caller);
    if (lab, v.caller) in pins {
      assert v.caller in LabPins(pins, lab);
      assert pins' == pins;
    } else {
      FreeProviderExists(pins, lab, providers, callers, v.caller);
      var m, m' := LabPins(pins, lab), LabPins(pins', lab);
      forall c | c in m' && c != v.caller
        ensures c in m && m'[c] == m[c] && m[c] != m'[v.caller]
      {
        assert (lab, c) in pins && pins[(lab, c)] in OtherPinned(pins, lab, v.caller);
      }
    }
  }

  /** Affinity spreads callers: whatever the queue depths and the order of the rows at each call, as
      long as the lab has no more callers than candidate providers its pins stay one-to-one, and no
      pin ever moves. */
  lemma {:induction false} AffinitySpreadsCallers(pins: Pins, lab: LabId, providers: set<ProviderId>,
                                                  callers: set<CallerName>, visits: seq<Visit>)
    requires AllOffer(visits, providers)
    requires Callers(visits) <= callers && |callers| <= |providers|
    requires Spread(pins, lab, providers, callers)
    ensures Spread(PinsAfter(pins, lab, visits), lab, providers, callers)
    ensures forall k :: k in pins ==>
              k in PinsAfter(pins, lab, visits) && PinsAfter(pins, lab, visits)[k] == pins[k]
    decreases |visits|
  {
    if visits != [] {
      var earlier := visits[..|visits| - 1];
      var v := visits[|visits| - 1];
      CallersGrow(visits);
      AffinitySpreadsCallers(pins, lab, providers, callers, earlier);
      VisitKeepsSpread(PinsAfter(pins, lab, earlier), lab, providers, callers, v);
    }
  }

  ghost predicate PinsWithin(pins: Pins, lab: LabId, providers: set<ProviderId>) {
    forall c :: c in LabPins(pins, lab) ==> LabPins(pins, lab)[c] in providers
  }

  lemma VisitAddsCaller(pins: Pins, lab: LabId, providers: set<ProviderId>, v: Visit)
    requires Offers(v, providers) && PinsWithin(pins, lab, providers)
    ensures LabPins(PinsAfterVisit(pins, lab, v), lab).Keys == LabPins(pins, lab).Keys + {v.caller}
    ensures PinsWithin(PinsAfterVisit(pins, lab, v), lab, providers)
  {
    FirstChoice(v.rows, v.depth, pins, lab, v.caller);
    var m, m' := LabPins(pins, lab), LabPins(PinsAfterVisit(pins, lab, v), lab);
    forall c | c in m' ensures m'[c] in providers {
      assert c != v.caller ==> c in m && m'[c] == m[c];
    }
  }

  lemma {:induction false} PinsCoverCallers(pins: Pins, lab: LabId, providers: set<ProviderId>, visits: seq<Visit>)
    requires AllOffer(visits, providers) && LabPins(pins, lab) == map[]
    ensures LabPins(PinsAfter(pins, lab, visits), lab).Keys == Callers(visits)
    ensures PinsWithin(PinsAfter(pins, lab, visits), lab, providers)
    decreases |visits|
  {
    if visits != [] {
      var earlier := visits[..|visits| - 1];
      PinsCoverCallers(pins, lab, providers, earlier);
      VisitAddsCaller(PinsAfter(pins, lab, earlier), lab, providers, visits[|visits| - 1]);
      CallersGrow(visits);
    }
  }

  lemma CallersGrow(visits: seq<Visit>)
    requires visits != []
    ensures Callers(visits) == Callers(visits[..|visits| - 1]) + {visits[|visits| - 1].caller}
  {
    var earlier := visits[..|visits| - 1];
    forall c ensures c in Callers(visits) <==> c in Callers(earlier) + {visits[|visits| - 1].caller} {
      if c in Callers(visits) {
        var i :| 0 <= i < |visits| && visits[i].caller == c;
        assert i < |earlier| ==> earlier[i].caller == c;
      }
      if c in Callers(earlier) {
        var i :| 0 <= i < |earlier| && earlier[i].caller == c;
        assert visits[i].caller == c;
      }
    }
  }

  /** The exact condition, from an unpinned lab: once these callers have called, their pins
      are one-to-one if and only if there are at least as many providers as callers. */
  lemma SpreadExactlyWhenProvidersSuffice(pins: Pins, lab: LabId, providers: set<ProviderId>, visits: seq<Visit>)
    requires AllOffer(visits, providers) && LabPins(pins, lab) == map[]
    ensures Injective(LabPins(PinsAfter(pins, lab, visits), lab)) <==> |Callers(visits)| <= |providers|
  {
    PinsCoverCallers(pins, lab, providers, visits);
    var m := LabPins(PinsAfter(pins, lab, visits), lab);
    if Injective(m) {
      InjectiveValues(m);
      assert m.Values <= providers;
      SubsetCardinality(m.Values, providers);
    }
    if |Callers(visits)| <= |providers| {
      AffinitySpreadsCallers(pins, lab, providers, Callers(visits), visits);
    }
  }

  // ---------- calls that overlap ----------

  lemma SameOthers(pins: Pins, lab: LabId, a: CallerName, b: CallerName)
    requires (lab, a) !in pins && (lab, b) !in pins
    ensures OtherPinned(pins, lab, a) == OtherPinned(pins, lab, b)
  {
    assert forall k :: k in pins && k.0 == lab ==> k.1 != a && k.1 != b;
  }

  lemma OneMoreKey<K, V>(m: map<K, V>, k: K, v: V)
    requires k !in m
    ensures Injective(m[k := v]) <==> Injective(m) && v !in m.Values
  {
    var m' := m[k := v];
    if Injective(m') {
      forall x, y | x in m && y in m && x != y ensures m[x] != m[y] {
        assert m'[x] != m'[y];
      }
      forall x | x in m ensures m[x] != v {
        assert m'[x] != m'[k];
      }
    }
  }

  lemma OneMorePin(pins: Pins, lab: LabId, a: CallerName, p: ProviderId)
    requires (lab, a) !in pins
    ensures LabPins(pins[(lab, a) := p], lab) == LabPins(pins, lab)[a := p]
  {
  }

  lemma FreeIsUnused(pins: Pins, lab: LabId, a: CallerName, p: ProviderId)
    requires (lab, a) !in pins && p !in OtherPinned(pins, lab, a)
    ensures p !in LabPins(pins, lab).Values
  {
    var m := LabPins(pins, lab);
    forall c | c in m ensures m[c] != p {
      assert (lab, c) in pins && pins[(lab, c)] in OtherPinned(pins, lab, a);
    }
  }

  lemma TwoMorePins(pins: Pins, lab: LabId, a: CallerName, b: CallerName, p: ProviderId, q: ProviderId)
    requires a != b && (lab, a) !in pins && (lab, b) !in pins
    requires p !in OtherPinned(pins, lab, a) && q !in OtherPinned(pins, lab, a)
    ensures Injective(LabPins(pins[(lab, a) := p][(lab, b) := q], lab)) <==> Injective(LabPins(pins, lab)) && p != q
  {
    var m := LabPins(pins, lab);
    OneMorePin(pins, lab, a, p);
    OneMorePin(pins[(lab, a) := p], lab, b, q);
    FreeIsUnused(pins, lab, a, p);
    FreeIsUnused(pins, lab, a, q);
    OneMoreKey(m, a, p);
    OneMoreKey(m[a := p], b, q);
    assert q in m[a := p].Values <==> p == q by {
      assert m[a := p][a] == p;
    }
  }

  /** Two unpinned callers of a lab that overlap: both sort before either is answered, the one the
      rows `rows1` at the depths `d1`, the other `rows2` at `d2`. The second is led to the first one's
      provider exactly when that is still the first of the least loaded free candidates; and exactly
      then, with both answered there, the lab's pins stop being one-to-one. */
  lemma OverlappingFirstCalls(rows1: seq<ProviderId>, d1: map<ProviderId, int>,
                              rows2: seq<ProviderId>, d2: map<ProviderId, int>,
                              pins: Pins, lab: LabId, a: CallerName, b: CallerName)
    requires (forall p :: p in rows1 ==> p in d1) && (forall p :: p in rows2 ==> p in d2)
    requires a != b && (lab, a) !in pins && (lab, b) !in pins
    requires exists p :: p in rows1 && p !in OtherPinned(pins, lab, a)
    requires exists p :: p in rows2 && p !in OtherPinned(pins, lab, b)
    ensures var o1, o2 := Order(rows1, d1, pins, Some(lab), a), Order(rows2, d2, pins, Some(lab), b);
      && o1 != [] && o2 != []
      && (o2[0] == o1[0] <==> LeastLoaded(rows2, d2, OtherPinned(pins, lab, a), o1[0]))
      && (Injective(LabPins(pins, lab)) ==>
            (Injective(LabPins(pins[(lab, a) := o1[0]][(lab, b) := o2[0]], lab))
             <==> !LeastLoaded(rows2, d2, OtherPinned(pins, lab, a), o1[0])))
  {
    SameOthers(pins, lab, a, b);
    var p := Order(rows1, d1, pins, Some(lab), a)[0];
    FirstChoiceExactly(rows1, d1, pins, lab, a, p);
    FirstChoiceExactly(rows2, d2, pins, lab, b, p);
    var q := Order(rows2, d2, pins, Some(lab), b)[0];
    FirstChoiceExactly(rows2, d2, pins, lab, b, q);
    TwoMorePins(pins, lab, a, b, p, q);
  }

  /** With neither the depths nor the rows changed in between they always collide. */
  lemma OverlappingFirstCallsCollide(rows: seq<ProviderId>, depth: map<ProviderId, int>,
                                     pins: Pins, lab: LabId, a: CallerName, b: CallerName)
    requires rows != [] && forall p :: p in rows ==> p in depth
    requires (lab, a) !in pins && (lab, b) !in pins
    ensures Order(rows, depth, pins, Some(lab), a) == Order(rows, depth, pins, Some(lab), b)
    ensures a != b ==>
              var o := Order(rows, depth, pins, Some(lab), a);
              o != [] && !Injective(LabPins(pins[(lab, a) := o[0]][(lab, b) := o[0]], lab))
  {
    SameOthers(pins, lab, a, b);
    FirstChoice(rows, depth, pins, lab, a);
    var o := Order(rows, depth, pins, Some(lab), a);
    var m := LabPins(pins[(lab, a) := o[0]][(lab, b) := o[0]], lab);
    assert a in m && b in m && m[a] == m[b];
  }

  predicate NotAmong(rows: seq<ProviderId>, n: nat, p: ProviderId)
    requires n <= |rows|
  {
    forall k :: 0 <= k < n ==> rows[k] != p
  }

  /** Another free candidate than `p` has the load `p` had, or one unit more and a row before all of `p`. */
  ghost predicate OtherIsBetter(rows: seq<ProviderId>, d: map<ProviderId, int>, taken: set<ProviderId>, p: ProviderId)
    requires p in d && forall q :: q in rows ==> q in d
  {
    exists j :: 0 <= j < |rows| && rows[j] != p && rows[j] !in taken
      && (d[rows[j]] == d[p] || (d[rows[j]] == d[p] + 1 && NotAmong(rows, j, p)))
  }

  lemma {:induction false} FirstRowOf(rows: seq<ProviderId>, p: ProviderId) returns (i: nat)
    requires p in rows
    ensures i < |rows| && rows[i] == p && NotAmong(rows, i, p)
  {
    if rows[0] == p {
      i := 0;
    } else {
      i := FirstRowOf(rows[1..], p);
      assert forall k :: 0 < k < |rows| ==> rows[k] == rows[1..][k - 1];
      i := i + 1;
    }
  }

  /** One unit more on the least loaded candidate `p`: it stays the choice unless another is better. */
  lemma LeastLoadedAfterOneMore(rows: seq<ProviderId>, d: map<ProviderId, int>, taken: set<ProviderId>, p: ProviderId)
    requires p in rows && p !in taken && forall q :: q in rows ==> q in d
    requires forall q :: q in rows && q !in taken ==> d[p] <= d[q]
    ensures LeastLoaded(rows, d[p := d[p] + 1], taken, p) <==> !OtherIsBetter(rows, d, taken, p)
  {
    var d2 := d[p := d[p] + 1];
    var i := FirstRowOf(rows, p);
    if OtherIsBetter(rows, d, taken, p) {
      var j :| 0 <= j < |rows| && rows[j] != p && rows[j] !in taken
        && (d[rows[j]] == d[p] || (d[rows[j]] == d[p] + 1 && NotAmong(rows, j, p)));
      forall k: nat | k < |rows| && rows[k] == p ensures !LeastLoadedAt(rows, d2, taken, k) {
        assert d2[rows[j]] <= d2[rows[k]];
      }
    } else {
      forall j | 0 <= j < |rows| && rows[j] !in taken
        ensures d2[p] <= d2[rows[j]] && (j < i ==> d2[p] < d2[rows[j]])
      {
        assert j < i ==> NotAmong(rows, j, p);
      }
      assert LeastLoadedAt(rows, d2, taken, i);
    }
  }

  /** If the first caller has lined up at its provider before the second one sorts, and no other load
      has changed, the second goes elsewhere exactly when another free candidate had the same load,
      or one unit more and, in the second one's rows, an earlier row. */
  lemma QueuedFirstCallSpreads(rows1: seq<ProviderId>, rows2: seq<ProviderId>, d1: map<ProviderId, int>,
                               pins: Pins, lab: LabId, a: CallerName, b: CallerName, p: ProviderId)
    requires Elements(rows1) == Elements(rows2) && forall q :: q in rows1 ==> q in d1
    requires a != b && (lab, a) !in pins && (lab, b) !in pins
    requires LeastLoaded(rows1, d1, OtherPinned(pins, lab, a), p)
    ensures var o := Order(rows1, d1, pins, Some(lab), a); o != [] && o[0] == p
    ensures forall q :: q in rows2 ==> q in d1
    ensures var o := Order(rows2, d1[p := d1[p] + 1], pins, Some(lab), b);
      o != [] && (o[0] != p <==> OtherIsBetter(rows2, d1, OtherPinned(pins, lab, a), p))
  {
    assert forall q :: q in rows2 <==> q in rows1;
    SameOthers(pins, lab, a, b);
    FirstChoiceExactly(rows1, d1, pins, lab, a, p);
    LeastLoadedAfterOneMore(rows2, d1, OtherPinned(pins, lab, a), p);
    FirstChoiceExactly(rows2, d1[p := d1[p] + 1], pins, lab, b, p);
  }

  // ---------- the table that the dispatcher updates in place ----------

  class AffinityTable {
    var pins: Pins

    constructor ()
      ensures pins == map[]
    {
      pins := map[];
    }

    /** Pins the caller after an answer: in its lab the caller has the provider and everyone else
        what they had, and no other lab sees a difference; calls outside a lab leave no trace. */
    method Record(lab: Option<LabId>, caller: CallerName, p: ProviderId)
      modifies this
      ensures lab.None? ==> pins == old(pins)
      ensures lab.Some? ==> Pinned(pins, lab.value, caller) == Some(p)
      ensures lab.Some? ==>
        LabPins(pins, lab.value) - {caller} == LabPins(old(pins), lab.value) - {caller}
      ensures forall l: LabId :: lab != Some(l) ==> LabPins(pins, l) == LabPins(old(pins), l)
    {
      match lab {
        case None =>
        case Some(l) => pins := pins[(l, caller) := p];
      }
    }

    /** `clear_lab_affinity`: collects the lab's keys, then deletes them one by one. */
    method ClearLab(lab: LabId)
      modifies this
      ensures pins == map k | k in old(pins) && k.0 != lab :: old(pins)[k]
      ensures LabPins(pins, lab) == map[]
      ensures forall l :: l != lab ==> LabPins(pins, l) == LabPins(old(pins), l)
    {
      var keysToRemove := set k | k in pins && k.0 == lab;
      while keysToRemove != {}
        invariant forall k :: k in keysToRemove ==> k in pins && k.0 == lab
        invariant forall k :: k in pins ==> k in old(pins) && pins[k] == old(pins)[k]
        invariant forall k :: k in old(pins) && k !in pins ==> k.0 == lab
        invariant forall k :: k in pins && k.0 == lab ==> k in keysToRemove
        decreases |keysToRemove|
      {
        var k :| k in keysToRemove;
        pins := pins - {k};
        keysToRemove := keysToRemove - {k};
      }
    }

    /** `_sort_with_affinity`: a pass over the table for the other callers' providers, then
        the sort by tier and queue depth. */
    method Sort(candidates: seq<Ranked>, lab: Option<LabId>, caller: CallerName) returns (sorted: seq<Ranked>)
      ensures sorted == SortWithAffinity(candidates, pins, lab, caller)
    {
      if lab.None? {
        return candidates;
      }
      var others: set<ProviderId> := {};
      var remaining := pins.Keys;
      while remaining != {}
        invariant remaining <= pins.Keys
        invariant others == set k | k in pins && k !in remaining && k.0 == lab.value && k.1 != caller :: pins[k]
        decreases |remaining|
      {
        var k :| k in remaining;
        if k.0 == lab.value && k.1 != caller {
          others := others + {pins[k]};
        }
        remaining := remaining - {k};
      }
      assert others == OtherPinned(pins, lab.value, caller);
      sorted := StableSort(Retier(candidates, Pinned(pins, lab.value, caller), others));
    }
  }
}
