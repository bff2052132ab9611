/** Identifiers and the two small datatypes shared by the models. */
module Common {
  /** Providers, labs and callers are opaque keys: only equality matters. */
  type ProviderId = nat
  type LabId = nat
  type CallerName = string

  datatype Option<+T> = None | Some(value: T)

  /** Injectivity of a finite map. */
  ghost predicate Injective<K, V>(m: map<K, V>) {
    forall x, y :: x in m && y in m && x != y ==> m[x] != m[y]
  }

  /** The set of a sequence's elements. */
  function Elements<T(!new)>(s: seq<T>): (r: set<T>)
    ensures forall x :: x in r <==> x in s
  {
    set x | x in s
  }

  lemma SubsetCardinality<T>(a: set<T>, b: set<T>)
    requires a <= b
    ensures |a| <= |b|
    ensures |a| == |b| ==> a == b
  {
    var rest := b - a;
    assert b == a + rest && a !! rest;
  }

  lemma Associative<T>(a: seq<T>, b: seq<T>, c: seq<T>)
    ensures a + (b + c) == a + b + c
  {
  }

  /** The parts one behind the other. */
  function Concat<T>(parts: seq<seq<T>>): seq<T> {
    if parts == [] then [] else parts[0] + Concat(parts[1..])
  }

  lemma ConcatCons<T>(head: seq<T>, tail: seq<seq<T>>)
    ensures Concat([head] + tail) == head + Concat(tail)
  {
    assert ([head] + tail)[1..] == tail;
  }

  lemma {:induction false} ConcatSplit<T>(a: seq<seq<T>>, b: seq<seq<T>>)
    ensures Concat(a + b) == Concat(a) + Concat(b)
  {
    if a == [] {
      assert a + b == b;
    } else {
      assert (a + b)[1..] == a[1..] + b;
      ConcatSplit(a[1..], b);
    }
  }

  ghost predicate Distinct<T>(s: seq<T>) {
    forall i, j :: 0 <= i < j < |s| ==> s[i] != s[j]
  }

  ghost predicate Ascending(s: seq<nat>) {
    forall i, j :: 0 <= i < j < |s| ==> s[i] < s[j]
  }

  /** The pigeonhole principle: distinct elements of `b` are no more than `b` has places. */
  lemma {:induction false} Pigeonhole<T(!new)>(a: seq<T>, b: seq<T>)
    requires Distinct(a) && forall x :: x in a ==> x in b
    ensures |a| <= |b|
  {
    if a != [] {
      assert a[0] in b;
      var k :| 0 <= k < |b| && b[k] == a[0];
      forall x | x in a[1..] ensures x in b[..k] + b[k + 1..] {
        assert x in a && x != a[0];
      }
      Pigeonhole(a[1..], b[..k] + b[k + 1..]);
    }
  }

  /** An injective map has as many values as keys. */
  lemma {:induction false} InjectiveValues<K, V>(m: map<K, V>)
    requires Injective(m)
    ensures |m.Values| == |m.Keys|
    decreases |m|
  {
    if m.Keys == {} {
      assert m.Values == {};
    } else {
      var k :| k in m.Keys;
      var rest := m - {k};
      assert rest.Keys == m.Keys - {k};
      assert rest.Values == m.Values - {m[k]} by {
        forall v ensures v in rest.Values <==> v in m.Values - {m[k]} {
          if v in m.Values - {m[k]} {
            var j :| j in m && m[j] == v;
            assert j in rest && rest[j] == v;
          }
        }
      }
      assert m[k] in m.Values;
      InjectiveValues(rest);
    }
  }

  // ---------- performing actions in a row ----------

  /** The state after `acts`, if each of them can be done when its turn comes. */
  function Perform<S, A>(step: (S, A) -> Option<S>, s: S, acts: seq<A>): Option<S>
    decreases |acts|
  {
    if acts == [] then Some(s)
    else
      match step(s, acts[0])
      case None => None
      case Some(s') => Perform(step, s', acts[1..])
  }

  lemma PerformCons<S, A>(step: (S, A) -> Option<S>, s: S, a: A, acts: seq<A>)
    requires step(s, a).Some?
    ensures Perform(step, s, [a] + acts) == Perform(step, step(s, a).value, acts)
  {
    assert ([a] + acts)[1..] == acts;
  }

  lemma {:induction false} PerformAppend<S, A>(step: (S, A) -> Option<S>, s: S, a: seq<A>, b: seq<A>)
    requires Perform(step, s, a).Some?
    ensures Perform(step, s, a + b) == Perform(step, Perform(step, s, a).value, b)
    decreases |a|
  {
    if a == [] {
      assert a + b == b;
    } else {
      PerformAppend(step, step(s, a[0]).value, a[1..], b);
      assert (a + b)[1..] == a[1..] + b;
    }
  }

  /** Five actions in a row, one by one. */
  lemma PerformFive<S, A>(step: (S, A) -> Option<S>, s: S, a: A, b: A, c: A, d: A, e: A)
    requires step(s, a).Some?
    requires step(step(s, a).value, b).Some?
    requires step(step(step(s, a).value, b).value, c).Some?
    requires step(step(step(step(s, a).value, b).value, c).value, d).Some?
    ensures Perform(step, s, [a, b, c, d, e]) == step(step(step(step(step(s, a).value, b).value, c).value, d).value, e)
  {
    var s1 := step(s, a).value;
    var s2 := step(s1, b).value;
    var s3 := step(s2, c).value;
    var s4 := step(s3, d).value;
    assert [a, b, c, d, e] == [a] + [b, c, d, e] && [b, c, d, e] == [b] + [c, d, e];
    assert [c, d, e] == [c] + [d, e] && [d, e] == [d] + [e] && [e] == [e] + [];
    PerformCons(step, s, a, [b, c, d, e]);
    PerformCons(step, s1, b, [c, d, e]);
    PerformCons(step, s2, c, [d, e]);
    PerformCons(step, s3, d, [e]);
    if step(s4, e).Some? {
      PerformCons(step, s4, e, []);
    }
  }

  // ---------- decimal numerals ----------

  function Digit(d: nat): (c: char)
    requires d < 10
    ensures '0' <= c <= '9' && c as int == 48 + d
  {
    (48 + d) as char
  }

  function Decimal(n: nat): (s: string)
    ensures s != []
    ensures forall i :: 0 <= i < |s| ==> '0' <= s[i] <= '9'
  {
    if n < 10 then [Digit(n)] else Decimal(n / 10) + [Digit(n % 10)]
  }

  /** The number a numeral stands for. */
  function Value(s: string): int {
    if s == "" then 0 else 10 * Value(s[..|s| - 1]) + (s[|s| - 1] as int - '0' as int)
  }

  /** The numeral of a number stands for it, and has no leading zero. */
  lemma {:induction false} DecimalMeans(n: nat)
    ensures Value(Decimal(n)) == n
    ensures Decimal(n)[0] == '0' ==> n == 0 && Decimal(n) == "0"
  {
    var s := Decimal(n);
    if n >= 10 {
      DecimalMeans(n / 10);
      assert s[..|s| - 1] == Decimal(n / 10);
    } else {
      assert s[..|s| - 1] == "" && Value("") == 0;
    }
  }

  lemma {:induction false} DecimalLength(m: nat, n: nat)
    requires m <= n
    ensures |Decimal(m)| <= |Decimal(n)|
    decreases n
  {
    if n >= 10 && m >= 10 {
      DecimalLength(m / 10, n / 10);
    }
  }

  lemma DecimalInjective(m: nat, n: nat)
    requires Decimal(m) == Decimal(n)
    ensures m == n
  {
    DecimalMeans(m);
    DecimalMeans(n);
  }
}
