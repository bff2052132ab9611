/** One call's walk over its ordered candidates: try, log, fail over. The event log is read by
    a small automaton whose accepted language is `queue (dispatch failed)* (dispatch response)?`. */
module Failover {
  import opened Common

  datatype Event =
    | Queue(maxAttempts: nat)
    | Dispatch(provider: ProviderId, attempt: nat)
    | Failed(provider: ProviderId, attempt: nat)
    | Response(provider: ProviderId, attempt: nat)

  datatype Result = Answer(provider: ProviderId) | AllFailed

  // ---------- the event language ----------

  /** Where a log stands: the announced maximum, then the attempt numbers and providers of the
      attempts that have failed, oldest first. */
  datatype Progress =
    | Unlogged
    | Between(max: nat, attempts: seq<nat>, failed: seq<ProviderId>)
    | InFlight(max: nat, attempts: seq<nat>, failed: seq<ProviderId>, attempt: nat, provider: ProviderId)
    | Answered(max: nat, attempts: seq<nat>, failed: seq<ProviderId>, attempt: nat, provider: ProviderId)
    | Malformed

  function Last(attempts: seq<nat>): nat {
    if attempts == [] then 0 else attempts[|attempts| - 1]
  }

  function Advance(s: Progress, e: Event): Progress {
    match (s, e)
    case (Unlogged, Queue(max)) => Between(max, [], [])
    case (Between(max, ns, ps), Dispatch(p, n)) =>
      if Last(ns) < n <= max then InFlight(max, ns, ps, n, p) else Malformed
    case (InFlight(max, ns, ps, n, p), Failed(q, m)) =>
      if p == q && n == m then Between(max, ns + [n], ps + [p]) else Malformed
    case (InFlight(max, ns, ps, n, p), Response(q, m)) =>
      if p == q && n == m then Answered(max, ns, ps, n, p) else Malformed
    case _ => Malformed
  }

  function Read(log: seq<Event>): Progress {
    if log == [] then Unlogged else Advance(Read(log[..|log| - 1]), log[|log| - 1])
  }

  lemma ReadAppend(log: seq<Event>, e: Event)
    ensures Read(log + [e]) == Advance(Read(log), e)
  {
    assert (log + [e])[..|log|] == log;
  }

  /** A log is an opening `queue` and then dispatch/failed pairs, the attempt numbers strictly
      increasing and within the announced maximum. */
  ghost predicate FailedRounds(log: seq<Event>, max: nat, ns: seq<nat>, ps: seq<ProviderId>) {
    && |ns| == |ps|
    && |log| == 1 + 2 * |ps|
    && log[0] == Queue(max)
    && (forall i :: 0 <= i < |ps| ==>
          log[2 * i + 1] == Dispatch(ps[i], ns[i]) && log[2 * i + 2] == Failed(ps[i], ns[i]))
    && (forall i :: 0 <= i < |ns| ==> 1 <= ns[i] <= max)
    && Ascending(ns)
  }

  lemma ExtendRounds(rounds: seq<Event>, max: nat, ns: seq<nat>, ps: seq<ProviderId>, n: nat, p: ProviderId)
    requires FailedRounds(rounds, max, ns, ps) && Last(ns) < n <= max
    ensures FailedRounds(rounds + [Dispatch(p, n), Failed(p, n)], max, ns + [n], ps + [p])
  {
    var log := rounds + [Dispatch(p, n), Failed(p, n)];
    forall i | 0 <= i <= |ps|
      ensures log[2 * i + 1] == Dispatch((ps + [p])[i], (ns + [n])[i])
      ensures log[2 * i + 2] == Failed((ps + [p])[i], (ns + [n])[i])
    {
      if i < |ps| {
        assert log[2 * i + 1] == rounds[2 * i + 1] && log[2 * i + 2] == rounds[2 * i + 2];
      }
    }
  }

  /** `log` is `init` and then the given events. */
  ghost predicate EndsWith(log: seq<Event>, init: seq<Event>, events: seq<Event>) {
    log == init + events
  }

  /** What a verdict of the automaton says about the log itself, event by event: an accepted log
      is `queue (dispatch failed)*`, possibly with an open `dispatch` or a final
      `dispatch response`. */
  ghost predicate HasShape(log: seq<Event>, verdict: Progress) {
    match verdict
    case Unlogged => log == []
    case Between(max, ns, ps) => FailedRounds(log, max, ns, ps)
    case InFlight(max, ns, ps, n, p) =>
      exists rounds :: EndsWith(log, rounds, [Dispatch(p, n)]) && FailedRounds(rounds, max, ns, ps) && Last(ns) < n <= max
    case Answered(max, ns, ps, n, p) =>
      exists rounds :: EndsWith(log, rounds, [Dispatch(p, n), Response(p, n)])
        && FailedRounds(rounds, max, ns, ps) && Last(ns) < n <= max
    case Malformed => true
  }

  lemma ShapeAfterFlight(log: seq<Event>, s: Progress, e: Event)
    requires s.InFlight? && HasShape(log, s)
    ensures HasShape(log + [e], Advance(s, e))
  {
    var n, p := s.attempt, s.provider;
    var rounds :| EndsWith(log, rounds, [Dispatch(p, n)]) && FailedRounds(rounds, s.max, s.attempts, s.failed);
    assert log + [e] == rounds + [Dispatch(p, n), e];
    if e == Failed(p, n) {
      ExtendRounds(rounds, s.max, s.attempts, s.failed, n, p);
    } else if e == Response(p, n) {
      assert EndsWith(log + [e], rounds, [Dispatch(p, n), Response(p, n)]);
    }
  }

  lemma ShapeStep(log: seq<Event>, s: Progress, e: Event)
    requires HasShape(log, s)
    ensures HasShape(log + [e], Advance(s, e))
  {
    if s.InFlight? {
      ShapeAfterFlight(log, s, e);
    } else if s.Between? {
      assert e.Dispatch? ==> EndsWith(log + [e], log, [Dispatch(e.provider, e.attempt)]);
    } else if s.Unlogged? {
      assert log + [e] == [e];
    }
  }

  /** Every log has the shape its verdict says. */
  lemma {:induction false} ReadShape(log: seq<Event>)
    ensures HasShape(log, Read(log))
  {
    if log != [] {
      var init, e := log[..|log| - 1], log[|log| - 1];
      assert log == init + [e];
      ReadShape(init);
      ShapeStep(init, Read(init), e);
    }
  }

  // ---------- each provider at most once, in order ----------

  /** The distinct elements of `s`, each at its first position. */
  function FirstOccurrences(s: seq<ProviderId>): seq<ProviderId> {
    if s == [] then []
    else
      var earlier := FirstOccurrences(s[..|s| - 1]);
      var p := s[|s| - 1];
      if p in earlier then earlier else earlier + [p]
  }

  lemma {:induction false} FirstOccurrencesDistinct(s: seq<ProviderId>)
    ensures forall p :: p in FirstOccurrences(s) <==> p in s
    ensures Distinct(FirstOccurrences(s))
    ensures |FirstOccurrences(s)| <= |s|
  {
    if s != [] {
      FirstOccurrencesDistinct(s[..|s| - 1]);
      assert s == s[..|s| - 1] + [s[|s| - 1]];
    }
  }

  lemma FirstOccurrencesStep(s: seq<ProviderId>, k: nat)
    requires k < |s|
    ensures FirstOccurrences(s[..k + 1]) ==
            if s[k] in FirstOccurrences(s[..k]) then FirstOccurrences(s[..k])
            else FirstOccurrences(s[..k]) + [s[k]]
  {
    assert s[..k + 1][..k] == s[..k];
  }

  lemma {:induction false} FirstOccurrencesPrefix(s: seq<ProviderId>, k: nat)
    requires k <= |s|
    ensures FirstOccurrences(s[..k]) <= FirstOccurrences(s)
    decreases |s| - k
  {
    if k == |s| {
      assert s[..k] == s;
    } else {
      FirstOccurrencesStep(s, k);
      FirstOccurrencesPrefix(s, k + 1);
    }
  }

  /** Candidate `i` is the first one with its provider; only such candidates are contacted. */
  predicate Fresh(order: seq<ProviderId>, i: nat)
    requires i < |order|
  {
    order[i] !in order[..i]
  }

  /** Among the first `n` candidates every provider that is contacted fails. */
  ghost predicate AllFail(order: seq<ProviderId>, answers: seq<bool>, n: nat)
    requires n <= |order| == |answers|
  {
    forall i :: 0 <= i < n && Fresh(order, i) ==> !answers[i]
  }

  /** The first success is candidate `i`'s. */
  ghost predicate FirstSuccess(order: seq<ProviderId>, answers: seq<bool>, i: nat)
    requires i < |order| == |answers|
  {
    Fresh(order, i) && answers[i] && AllFail(order, answers, i)
  }

  lemma ReadAttempt(log: seq<Event>, max: nat, ns: seq<nat>, ps: seq<ProviderId>, n: nat, p: ProviderId)
    requires Read(log) == Between(max, ns, ps) && Last(ns) < n <= max
    ensures Read(log + [Dispatch(p, n)] + [Response(p, n)]) == Answered(max, ns, ps, n, p)
    ensures Read(log + [Dispatch(p, n)] + [Failed(p, n)]) == Between(max, ns + [n], ps + [p])
  {
    ReadAppend(log, Dispatch(p, n));
    ReadAppend(log + [Dispatch(p, n)], Response(p, n));
    ReadAppend(log + [Dispatch(p, n)], Failed(p, n));
  }

  /** Candidate `i` answers: it is the first success, and the log ends with its response. */
  ghost predicate AnsweredBy(order: seq<ProviderId>, answers: seq<bool>, log: seq<Event>, contacted: seq<ProviderId>, i: nat)
    requires i < |order| == |answers|
  {
    && FirstSuccess(order, answers, i)
    && contacted == FirstOccurrences(order[..i + 1])
    && var r := Read(log);
       r.Answered? && r.max == |order| && r.attempt == i + 1 && r.provider == order[i] && r.failed + [order[i]] == contacted
  }

  /** The state of the loop before candidate `k`. */
  ghost predicate BeforeCandidate(order: seq<ProviderId>, answers: seq<bool>, log: seq<Event>,
      attempts: seq<nat>, contacted: seq<ProviderId>, k: nat)
    requires k <= |order| == |answers|
  {
    && contacted == FirstOccurrences(order[..k])
    && Read(log) == Between(|order|, attempts, contacted) && Last(attempts) <= k
    && AllFail(order, answers, k)
  }

  lemma CandidateAnswers(order: seq<ProviderId>, answers: seq<bool>, log: seq<Event>,
      attempts: seq<nat>, contacted: seq<ProviderId>, k: nat)
    requires k < |order| == |answers| && BeforeCandidate(order, answers, log, attempts, contacted, k)
    requires order[k] !in contacted && answers[k]
    ensures AnsweredBy(order, answers, log + [Dispatch(order[k], k + 1)] + [Response(order[k], k + 1)],
              contacted + [order[k]], k)
    ensures contacted + [order[k]] <= FirstOccurrences(order)
  {
    FirstOccurrencesStep(order, k);
    FirstOccurrencesDistinct(order[..k]);
    FirstOccurrencesPrefix(order, k + 1);
    ReadAttempt(log, |order|, attempts, contacted, k + 1, order[k]);
  }

  lemma OneMoreFails(order: seq<ProviderId>, answers: seq<bool>, k: nat)
    requires k < |order| == |answers| && AllFail(order, answers, k) && !answers[k]
    ensures AllFail(order, answers, k + 1)
  {
  }

  lemma CandidateFails(order: seq<ProviderId>, answers: seq<bool>, log: seq<Event>,
      attempts: seq<nat>, contacted: seq<ProviderId>, k: nat)
    requires k < |order| == |answers| && BeforeCandidate(order, answers, log, attempts, contacted, k)
    requires order[k] !in contacted && !answers[k]
    ensures BeforeCandidate(order, answers, log + [Dispatch(order[k], k + 1)] + [Failed(order[k], k + 1)],
              attempts + [k + 1], contacted + [order[k]], k + 1)
  {
    FirstOccurrencesStep(order, k);
    ReadAttempt(log, |order|, attempts, contacted, k + 1, order[k]);
    OneMoreFails(order, answers, k);
  }

  lemma CandidateSkipped(order: seq<ProviderId>, answers: seq<bool>, log: seq<Event>,
      attempts: seq<nat>, contacted: seq<ProviderId>, k: nat)
    requires k < |order| == |answers| && BeforeCandidate(order, answers, log, attempts, contacted, k)
    requires order[k] in contacted
    ensures BeforeCandidate(order, answers, log, attempts, contacted, k + 1)
  {
    FirstOccurrencesStep(order, k);
    FirstOccurrencesDistinct(order[..k]);
  }

  /** Every provider was contacted once and failed. */
  ghost predicate NobodyAnswered(order: seq<ProviderId>, answers: seq<bool>, log: seq<Event>, contacted: seq<ProviderId>)
    requires |order| == |answers|
  {
    && AllFail(order, answers, |order|)
    && contacted == FirstOccurrences(order)
    && var r := Read(log);
       r.Between? && r.max == |order| && r.failed == contacted
  }

  lemma AllTried(order: seq<ProviderId>, answers: seq<bool>, log: seq<Event>, attempts: seq<nat>, contacted: seq<ProviderId>)
    requires |order| == |answers| && BeforeCandidate(order, answers, log, attempts, contacted, |order|)
    ensures NobodyAnswered(order, answers, log, contacted)
    ensures contacted <= FirstOccurrences(order)
  {
    assert order[..|order|] == order;
  }

  ghost predicate Same(tried: set<ProviderId>, contacted: seq<ProviderId>) {
    forall p :: p in tried <==> p in contacted
  }

  lemma SameMembers(tried: set<ProviderId>, contacted: seq<ProviderId>, p: ProviderId)
    requires Same(tried, contacted)
    ensures p in tried <==> p in contacted
    ensures Same(tried + {p}, contacted + [p])
  {
  }

  /** The failover loop. `answers[i]` says whether candidate `i`'s provider answers when it is
      contacted; any exception of the provider is a failure. The attempt number is the
      candidate's position, so it also grows over skipped duplicates. */
  method CallWithLoadbalance(order: seq<ProviderId>, answers: seq<bool>)
    returns (result: Result, log: seq<Event>, contacted: seq<ProviderId>, ghost winner: nat)
    requires |answers| == |order|
    ensures contacted <= FirstOccurrences(order)
    ensures result.Answer? ==>
      winner < |order| && result.provider == order[winner] && AnsweredBy(order, answers, log, contacted, winner)
    ensures result.AllFailed? ==> NobodyAnswered(order, answers, log, contacted)
  {
    ReadAppend([], Queue(|order|));
    log := [] + [Queue(|order|)];
    contacted := [];
    ghost var attempts: seq<nat> := [];
    var tried: set<ProviderId> := {};
    for k := 0 to |order|
      invariant Same(tried, contacted)
      invariant BeforeCandidate(order, answers, log, attempts, contacted, k)
    {
      var p, idx := order[k], k + 1;
      SameMembers(tried, contacted, p);
      if p in tried {
        CandidateSkipped(order, answers, log, attempts, contacted, k);
        continue;
      }
      tried := tried + {p};
      ghost var log0, contacted0 := log, contacted;
      contacted := contacted + [p];
      log := log + [Dispatch(p, idx)];
      if answers[k] {
        log := log + [Response(p, idx)];
        CandidateAnswers(order, answers, log0, attempts, contacted0, k);
        return Answer(p), log, contacted, k;
      }
      log := log + [Failed(p, idx)];
      CandidateFails(order, answers, log0, attempts, contacted0, k);
      attempts := attempts + [idx];
    }
    AllTried(order, answers, log, attempts, contacted);
    return AllFailed, log, contacted, 0;
  }
}
