/** The Hermes adapter: a session's bounded transcript, the markers that end a task, and the
    rounds of one turn. */
module Hermes {
  import opened Common
  import opened Text

  const HISTORY_MAX_MSGS := 60

  // ---------- the transcript ----------

  datatype Message = Message(role: string, content: string)

  /** A message of a turn as the agent reports it: not a dictionary, or one with a role and a
      content, either of which may be missing or not text. */
  datatype Raw = Other | Dict(role: Option<string>, content: Option<string>)

  predicate Keeps(m: Raw) {
    && m.Dict? && m.role.Some? && m.content.Some?
    && (m.role.value == "user" || m.role.value == "assistant")
    && Trim(m.content.value) != ""
  }

  function Kept(turn: seq<Raw>): seq<Message> {
    if turn == [] then []
    else (if Keeps(turn[0]) then [Message(turn[0].role.value, turn[0].content.value)] else []) + Kept(turn[1..])
  }

  lemma {:induction false} KeptOneMore(turn: seq<Raw>, i: nat)
    requires i < |turn|
    ensures Kept(turn[..i + 1]) == Kept(turn[..i]) + Kept([turn[i]])
  {
    if i == 0 {
      assert turn[..1] == [turn[0]] && turn[..0] == [];
    } else {
      KeptOneMore(turn[1..], i - 1);
      assert turn[..i + 1][1..] == turn[1..][..i] && turn[..i][1..] == turn[1..][..i - 1];
    }
  }

  /** `m` reports the message `msg` of the user or the assistant, and it says something. */
  ghost predicate Reports(m: Raw, msg: Message) {
    && m == Dict(Some(msg.role), Some(msg.content)) && msg.role in {"user", "assistant"}
    && Ink(msg.content) != ""
  }

  /** The history keeps exactly those messages of a turn, in order. */
  lemma KeptExactly(turn: seq<Raw>, more: seq<Raw>, m: Raw)
    ensures Kept(turn + more) == Kept(turn) + Kept(more)
    ensures forall msg :: Reports(m, msg) ==> Kept([m]) == [msg]
    ensures (forall msg :: !Reports(m, msg)) ==> Kept([m]) == []
  {
    KeptConcat(turn, more);
    assert [m][1..] == [];
    if m.Dict? && m.role.Some? && m.content.Some? {
      KeepsIfReports(m.role.value, m.content.value);
    }
  }

  lemma {:induction false} KeptConcat(turn: seq<Raw>, more: seq<Raw>)
    ensures Kept(turn + more) == Kept(turn) + Kept(more)
  {
    if turn == [] {
      assert turn + more == more;
    } else {
      KeptConcat(turn[1..], more);
      assert (turn + more)[0] == turn[0] && (turn + more)[1..] == turn[1..] + more;
      var m := turn[0];
      var head := if Keeps(m) then [Message(m.role.value, m.content.value)] else [];
      assert Kept(turn) == head + Kept(turn[1..]);
      Associative(head, Kept(turn[1..]), Kept(more));
    }
  }

  lemma KeepsIfReports(role: string, content: string)
    ensures Keeps(Dict(Some(role), Some(content))) <==> Reports(Dict(Some(role), Some(content)), Message(role, content))
  {
    InkOfTrim(content);
    if Ink(content) == "" {
      NoInkIsSpace(Trim(content));
    }
  }

  /** `del history[:-60]` leaves these. */
  function LastMessages(h: seq<Message>): seq<Message> {
    if |h| > HISTORY_MAX_MSGS then h[|h| - HISTORY_MAX_MSGS..] else h
  }

  lemma LastSixty(h: seq<Message>)
    ensures var r := LastMessages(h);
      |r| <= |h| && r == h[|h| - |r|..] && |r| == if |h| < 60 then |h| else 60
  {
  }

  /** Trimming now and later is trimming later. */
  lemma TrimmingIsLazy(a: seq<Message>, b: seq<Message>)
    ensures LastMessages(LastMessages(a) + b) == LastMessages(a + b)
  {
    var cut := |a| - |LastMessages(a)|;
    assert a + b == a[..cut] + (LastMessages(a) + b);
  }

  class Session {
    var history: seq<Message>

    constructor (loaded: seq<Message>)
      ensures history == loaded
    {
      history := loaded;
    }

    /** `_append_turn_messages`. */
    method AppendTurnMessages(turn: seq<Raw>)
      modifies this
      ensures history == LastMessages(old(history) + Kept(turn))
    {
      var i := 0;
      assert turn[..0] == [] && history + [] == history;
      while i < |turn|
        invariant 0 <= i <= |turn|
        invariant history == old(history) + Kept(turn[..i])
      {
        KeptOneMore(turn, i);
        var m := turn[i];
        assert [m][1..] == [];
        if Keeps(m) {
          history := history + [Message(m.role.value, m.content.value)];
        }
        i := i + 1;
      }
      assert turn[..i] == turn;
      if |history| > HISTORY_MAX_MSGS {
        history := history[|history| - HISTORY_MAX_MSGS..];
      }
    }
  }

  // ---------- markers ----------

  function TaskDone(): string {
    "TASK_DONE"
  }

  function NeedsInput(): string {
    "NEEDS_INPUT:"
  }

  predicate IsBreak(c: char) {
    var n := c as int;
    10 <= n <= 13 || 28 <= n <= 30 || n == 0x85 || n == 0x2028 || n == 0x2029
  }

  /** `splitlines()`. */
  function SplitLines(s: string, start: nat, i: nat): seq<string>
    requires start <= i <= |s|
    decreases |s| - i
  {
    if i == |s| then (if start < i then [s[start..]] else [])
    else if IsBreak(s[i]) then
      var next := if s[i] == '\r' && i + 1 < |s| && s[i + 1] == '\n' then i + 2 else i + 1;
      [s[start..i]] + SplitLines(s, next, next)
    else SplitLines(s, start, i + 1)
  }

  function LinesOf(reply: string): seq<string> {
    SplitLines(TrimRight(reply), 0, 0)
  }

  predicate IsMark(c: char) {
    c == '*' || c == '_' || c == '`' || c == '#' || c == ' '
  }

  function StripMarksLeft(s: string): string {
    if s != "" && IsMark(s[0]) then StripMarksLeft(s[1..]) else s
  }

  function StripMarksRight(s: string): string {
    if s != "" && IsMark(s[|s| - 1]) then StripMarksRight(s[..|s| - 1]) else s
  }

  /** ``strip("*_`# ").strip()``. */
  function Unmark(s: string): string {
    Trim(StripMarksRight(StripMarksLeft(s)))
  }

  function Bare(line: string): string {
    Unmark(Trim(line))
  }

  predicate IsDone(line: string) {
    var bare := Bare(line);
    |bare| >= |TaskDone()| && bare[|bare| - |TaskDone()|..] == TaskDone()
  }

  /** What a done line says before the marker. */
  function Remainder(line: string): string
    requires IsDone(line)
  {
    Unmark(Trim(Bare(line)[..|Bare(line)| - |TaskDone()|]))
  }

  /** `upper` is `str.upper`. */
  predicate AsksInput(upper: string -> string, line: string) {
    StartsWith(upper(Bare(line)), 0, NeedsInput())
  }

  predicate Blank(line: string) {
    Trim(line) == ""
  }

  /** `[i for i in range(n) if p(i)]`. */
  function Indices(p: nat -> bool, n: nat): seq<nat> {
    if n == 0 then [] else Indices(p, n - 1) + (if p(n - 1) then [n - 1] else [])
  }

  lemma {:induction false} IndicesAre(p: nat -> bool, n: nat)
    ensures forall i :: i in Indices(p, n) <==> 0 <= i < n && p(i)
    ensures Ascending(Indices(p, n))
  {
    if n > 0 {
      IndicesAre(p, n - 1);
      if p(n - 1) {
        AscendingAppend(Indices(p, n - 1), n - 1);
      }
    }
  }

  lemma AscendingAppend(r: seq<nat>, m: nat)
    requires Ascending(r) && forall x :: x in r ==> x < m
    ensures Ascending(r + [m])
  {
    forall j | 0 <= j < |r| ensures r[j] < m {
      assert r[j] in r;
    }
  }

  /** `r[-2:]`. */
  function LastTwo(r: seq<nat>): seq<nat> {
    if |r| > 2 then r[|r| - 2..] else r
  }

  lemma OrderedPlaces(r: seq<nat>, i: nat, j: nat) returns (p: nat, q: nat)
    requires Ascending(r) && i in r && j in r && i < j
    ensures p < q < |r| && r[p] == i && r[q] == j
  {
    p :| p < |r| && r[p] == i;
    q :| q < |r| && r[q] == j;
  }

  /** At most one index of `p` comes after `i`. */
  ghost predicate FewFollow(p: nat -> bool, n: nat, i: nat) {
    forall j: nat, k: nat :: i < j < k < n ==> !p(j) || !p(k)
  }

  lemma TwoFollow(r: seq<nat>, i: nat, j: nat, k: nat)
    requires Ascending(r) && j in r && k in r && i < j < k
    ensures i !in LastTwo(r)
  {
    var q, s := OrderedPlaces(r, j, k);
    forall t | 0 <= t < |r| && (|r| > 2 ==> |r| - 2 <= t) ensures r[t] >= j {
      assert q <= |r| - 2;
    }
  }

  lemma TwoMore(p: nat -> bool, n: nat, t: nat)
    requires t + 2 < |Indices(p, n)|
    ensures !FewFollow(p, n, Indices(p, n)[t])
  {
    IndicesAre(p, n);
    var r := Indices(p, n);
    var j, k := r[t + 1], r[t + 2];
    assert j in r && k in r;
    assert r[t] < j < k < n && p(j) && p(k);
  }

  lemma LastTwoAre(p: nat -> bool, n: nat, i: nat)
    ensures i in LastTwo(Indices(p, n)) <==> i < n && p(i) && FewFollow(p, n, i)
  {
    IndicesAre(p, n);
    var r := Indices(p, n);
    forall j: nat, k: nat | i < j < k < n && p(j) && p(k) ensures i !in LastTwo(r) {
      TwoFollow(r, i, j, k);
    }
    if i < n && p(i) && FewFollow(p, n, i) {
      var t :| 0 <= t < |r| && r[t] == i;
      if t + 2 < |r| {
        TwoMore(p, n, t);
      } else if |r| > 2 {
        assert r[|r| - 2..][t - (|r| - 2)] == i;
      }
    }
  }

  function Inked(lines: seq<string>): nat -> bool {
    (i: nat) => i < |lines| && !Blank(lines[i])
  }

  /** The indices of the last two lines that are not blank. */
  function Tail(lines: seq<string>): seq<nat> {
    LastTwo(Indices(Inked(lines), |lines|))
  }

  /** Line `i` says something. */
  ghost predicate Says(lines: seq<string>, i: nat) {
    i < |lines| && Ink(lines[i]) != ""
  }

  lemma InkedSays(lines: seq<string>, i: nat)
    ensures Inked(lines)(i) <==> Says(lines, i)
  {
    if i < |lines| {
      InkOfTrim(lines[i]);
      if Ink(lines[i]) == "" {
        NoInkIsSpace(Trim(lines[i]));
      }
    }
  }

  /** A line is in the tail if it says something and at most one line that follows does. */
  lemma TailIsLastTwo(lines: seq<string>, i: nat)
    ensures i in Tail(lines) <==>
      Says(lines, i) && forall j: nat, k: nat :: i < j < k ==> !Says(lines, j) || !Says(lines, k)
  {
    LastTwoAre(Inked(lines), |lines|, i);
    forall j: nat ensures Inked(lines)(j) <==> Says(lines, j) {
      InkedSays(lines, j);
    }
  }

  /** The result of the marker check: the flags and the cleaned reply. */
  datatype Verdict = Verdict(done: bool, blocked: bool, cleaned: string)

  /** What line `i` adds to the reply that is returned. */
  function KeptLine(lines: seq<string>, i: nat): seq<string>
    requires i < |lines|
  {
    if i in Tail(lines) && IsDone(lines[i]) then
      (if Remainder(lines[i]) != "" then [Remainder(lines[i])] else [])
    else [lines[i]]
  }

  function KeptIn(lines: seq<string>): nat -> seq<string> {
    (i: nat) => if i < |lines| then KeptLine(lines, i) else []
  }

  /** `f(0) + … + f(n - 1)`. */
  function Gather(f: nat -> seq<string>, n: nat): seq<string> {
    if n == 0 then [] else Gather(f, n - 1) + f(n - 1)
  }

  lemma {:induction false} GatherGrows(f: nat -> seq<string>, n: nat, m: nat)
    requires n <= m
    ensures Gather(f, n) <= Gather(f, m)
  {
    if n < m {
      GatherGrows(f, n, m - 1);
    }
  }

  function KeptLines(lines: seq<string>, n: nat): seq<string> {
    Gather(KeptIn(lines), n)
  }

  predicate DoneAt(lines: seq<string>, i: nat) {
    i < |lines| && i in Tail(lines) && IsDone(lines[i])
  }

  predicate BlockedAt(upper: string -> string, lines: seq<string>, i: nat) {
    i < |lines| && i in Tail(lines) && !IsDone(lines[i]) && AsksInput(upper, lines[i])
  }

  ghost predicate SaysDone(lines: seq<string>) {
    exists i: nat :: i < |lines| && DoneIn(lines)(i)
  }

  ghost predicate SaysBlocked(upper: string -> string, lines: seq<string>) {
    exists i: nat :: i < |lines| && BlockedIn(upper, lines)(i)
  }

  predicate AnyTo(p: nat -> bool, n: nat) {
    n > 0 && (AnyTo(p, n - 1) || p(n - 1))
  }

  lemma {:induction false} AnyToIs(p: nat -> bool, n: nat)
    ensures AnyTo(p, n) <==> exists k: nat :: k < n && p(k)
  {
    if n > 0 {
      AnyToIs(p, n - 1);
    }
  }

  function DoneIn(lines: seq<string>): nat -> bool {
    (i: nat) => DoneAt(lines, i)
  }

  function BlockedIn(upper: string -> string, lines: seq<string>): nat -> bool {
    (i: nat) => BlockedAt(upper, lines, i)
  }

  lemma CheckIs(upper: string -> string, reply: string)
    ensures var lines := LinesOf(reply);
      Check(upper)(reply) == Verdict(AnyTo(DoneIn(lines), |lines|), AnyTo(BlockedIn(upper, lines), |lines|),
                                     Trim(JoinLines(KeptLines(lines, |lines|))))
  {
  }

  lemma DoneMeans(lines: seq<string>)
    ensures AnyTo(DoneIn(lines), |lines|) <==> SaysDone(lines)
  {
    AnyToIs(DoneIn(lines), |lines|);
  }

  lemma BlockedMeans(upper: string -> string, lines: seq<string>)
    ensures AnyTo(BlockedIn(upper, lines), |lines|) <==> SaysBlocked(upper, lines)
  {
    AnyToIs(BlockedIn(upper, lines), |lines|);
  }

  /** The flags say that some line of the tail is a done line, or asks for input. */
  lemma FlagsMean(upper: string -> string, reply: string)
    ensures Check(upper)(reply).done <==> SaysDone(LinesOf(reply))
    ensures Check(upper)(reply).blocked <==> SaysBlocked(upper, LinesOf(reply))
  {
    CheckIs(upper, reply);
    DoneMeans(LinesOf(reply));
    BlockedMeans(upper, LinesOf(reply));
  }

  /** Where every line is kept as it is, the lines are. */
  lemma {:induction false} GatherAll(f: nat -> seq<string>, lines: seq<string>, n: nat)
    requires n <= |lines| && forall i: nat :: i < n ==> f(i) == [lines[i]]
    ensures Gather(f, n) == lines[..n]
  {
    if n > 0 {
      GatherAll(f, lines, n - 1);
      assert lines[..n] == lines[..n - 1] + [lines[n - 1]];
    }
  }

  lemma LineIsKept(lines: seq<string>, i: nat)
    requires i < |lines| && !DoneIn(lines)(i)
    ensures KeptIn(lines)(i) == [lines[i]]
  {
    assert !DoneAt(lines, i);
  }

  /** All lines before the first end marker are kept as they are, in order. */
  lemma LinesBeforeMarkerAreKept(lines: seq<string>, n: nat)
    requires n <= |lines| && forall i: nat :: i < n ==> !DoneIn(lines)(i)
    ensures KeptLines(lines, n) == lines[..n]
    ensures lines[..n] <= KeptLines(lines, |lines|)
  {
    forall i: nat | i < n ensures KeptIn(lines)(i) == [lines[i]] {
      LineIsKept(lines, i);
    }
    GatherAll(KeptIn(lines), lines, n);
    GatherGrows(KeptIn(lines), n, |lines|);
  }

  /** `"\n".join(lines)`. */
  function JoinLines(lines: seq<string>): string {
    if lines == [] then ""
    else if |lines| == 1 then lines[0]
    else lines[0] + "\n" + JoinLines(lines[1..])
  }

  /** `_check_markers`. The cleaned reply is the lines without the end markers. */
  method CheckMarkers(upper: string -> string, reply: string) returns (v: Verdict)
    ensures v == Check(upper)(reply)
  {
    var lines := LinesOf(reply);
    var tail := Tail(lines);
    var done, blocked := false, false;
    var kept: seq<string> := [];
    for i := 0 to |lines|
      invariant done == AnyTo(DoneIn(lines), i)
      invariant blocked == AnyTo(BlockedIn(upper, lines), i)
      invariant kept == KeptLines(lines, i)
    {
      var done', blocked', kept' := CheckLine(upper, lines, i, tail);
      done, blocked, kept := done || done', blocked || blocked', kept + kept';
    }
    return Verdict(done, blocked, Trim(JoinLines(kept)));
  }

  function Check(upper: string -> string): string -> Verdict {
    (reply: string) =>
      var lines := LinesOf(reply);
      Verdict(AnyTo(DoneIn(lines), |lines|), AnyTo(BlockedIn(upper, lines), |lines|),
              Trim(JoinLines(KeptLines(lines, |lines|))))
  }

  /** The body of the loop: what line `i` sets and what it keeps. */
  method CheckLine(upper: string -> string, lines: seq<string>, i: nat, tail: seq<nat>)
    returns (done: bool, blocked: bool, kept: seq<string>)
    requires i < |lines| && tail == Tail(lines)
    ensures done <==> DoneAt(lines, i)
    ensures blocked <==> BlockedAt(upper, lines, i)
    ensures kept == KeptLine(lines, i)
  {
    var line := lines[i];
    if i in tail && IsDone(line) {
      var remainder := Remainder(line);
      return true, false, if remainder != "" then [remainder] else [];
    }
    return false, i in tail && AsksInput(upper, line), [line];
  }

  // ---------- which lines carry a marker ----------

  /** Markdown as it stands around a marker: its characters, and blanks between them. */
  predicate Markdown(s: string) {
    && (forall k :: 0 <= k < |s| ==> s[k] in {'*', '_', '`', '#', ' '})
    && (s != "" ==> s[0] != ' ' && s[|s| - 1] != ' ')
  }

  /** White space, markdown, white space. */
  ghost predicate Wrapping(s: string) {
    exists a, b, c :: s == a + (b + c) && AllSpace(a) && Markdown(b) && AllSpace(c)
  }

  /** No white space and no markdown at either end. */
  predicate Solid(core: string) {
    core != "" && Trimmed(core) && !IsMark(core[0]) && !IsMark(core[|core| - 1])
  }

  lemma {:induction false} StripsLeft(b: string, c: string, rest: string) returns (k: nat)
    requires Markdown(b) && AllSpace(c) && rest != "" && !IsMark(rest[0])
    ensures k <= |c| && StripMarksLeft(b + (c + rest)) == c[k..] + rest
    decreases |b| + |c|
  {
    var s := b + (c + rest);
    if b != "" {
      StripsMarkdownLeft(b, c + rest);
      k := StripsLeft("", c, rest);
      assert "" + (c + rest) == c + rest;
    } else if c != "" && IsMark(c[0]) {
      assert s == c + rest && s[1..] == "" + (c[1..] + rest);
      k := StripsLeft("", c[1..], rest);
      assert c[1..][k..] == c[k + 1..];
      k := k + 1;
    } else {
      k := 0;
      assert s == c[0..] + rest && !IsMark(s[0]);
    }
  }

  lemma {:induction false} StripsMarkdownLeft(b: string, rest: string)
    requires forall k :: 0 <= k < |b| ==> IsMark(b[k])
    ensures StripMarksLeft(b + rest) == StripMarksLeft(rest)
  {
    if b == "" {
      assert b + rest == rest;
    } else {
      assert (b + rest)[1..] == b[1..] + rest;
      StripsMarkdownLeft(b[1..], rest);
    }
  }

  lemma {:induction false} StripsRight(rest: string, d: string, e: string) returns (k: nat)
    requires Markdown(e) && AllSpace(d) && rest != "" && !IsMark(rest[|rest| - 1])
    ensures k <= |d| && StripMarksRight((rest + d) + e) == rest + d[..k]
    decreases |d| + |e|
  {
    var s := (rest + d) + e;
    if e != "" {
      StripsMarkdownRight(rest + d, e);
      k := StripsRight(rest, d, "");
      assert (rest + d) + "" == rest + d;
    } else if d != "" && IsMark(d[|d| - 1]) {
      var shorter := d[..|d| - 1];
      assert s == rest + d && s[..|s| - 1] == (rest + shorter) + "";
      k := StripsRight(rest, shorter, "");
      assert shorter[..k] == d[..k];
    } else {
      k := |d|;
      assert s == rest + d[..k] && !IsMark(s[|s| - 1]);
    }
  }

  lemma {:induction false} StripsMarkdownRight(rest: string, e: string)
    requires forall k :: 0 <= k < |e| ==> IsMark(e[k])
    ensures StripMarksRight(rest + e) == StripMarksRight(rest)
    decreases |e|
  {
    if e == "" {
      assert rest + e == rest;
    } else {
      var s, shorter := rest + e, e[..|e| - 1];
      assert s[..|s| - 1] == rest + shorter && s[|s| - 1] == e[|e| - 1];
      StripsMarkdownRight(rest, shorter);
    }
  }

  /** What `Trim` leaves of a wrapping on one side: the white space outside the markdown goes. */
  lemma TrimsWrapped(a: string, b: string, c: string, core: string, d: string, e: string, f: string)
    requires AllSpace(a) && Markdown(b) && AllSpace(c) && Solid(core) && AllSpace(d) && Markdown(e) && AllSpace(f)
    requires (b == "" ==> c == "") && (e == "" ==> d == "")
    ensures Trim(a + ((b + (c + ((core + d) + e))) + f)) == b + (c + ((core + d) + e))
  {
    var m := b + (c + ((core + d) + e));
    assert m != "" && m[0] == (if b != "" then b[0] else core[0]);
    assert m[|m| - 1] == if e != "" then e[|e| - 1] else core[|core| - 1];
    MarkdownIsInk(b);
    MarkdownIsInk(e);
    TrimWithin(a, m, f);
  }

  lemma MarkdownIsInk(b: string)
    requires Markdown(b)
    ensures b != "" ==> !IsSpace(b[0]) && !IsSpace(b[|b| - 1])
  {
  }

  /** Where there is no markdown, all the white space counts as outside. */
  lemma UnwrapLeft(s: string) returns (a: string, b: string, c: string)
    requires Wrapping(s)
    ensures s == a + (b + c) && AllSpace(a) && Markdown(b) && AllSpace(c) && (b == "" ==> c == "")
  {
    a, b, c :| s == a + (b + c) && AllSpace(a) && Markdown(b) && AllSpace(c);
    if b == "" {
      a, c := a + c, "";
    }
  }

  lemma UnwrapRight(s: string) returns (d: string, e: string, f: string)
    requires Wrapping(s)
    ensures s == d + (e + f) && AllSpace(d) && Markdown(e) && AllSpace(f) && (e == "" ==> d == "")
  {
    d, e, f :| s == d + (e + f) && AllSpace(d) && Markdown(e) && AllSpace(f);
    if e == "" {
      d, f := "", d + f;
    }
  }

  /** All the ways to bracket a wrapped core. */
  lemma Brackets(a: string, b: string, c: string, core: string, d: string, e: string, f: string)
    ensures (a + (b + c)) + (core + (d + (e + f))) == a + ((b + (c + ((core + d) + e))) + f)
  {
    Associative(a, b + c, core + (d + (e + f)));
    Associative(b + c, core + (d + e), f);
    Associative(core, d + e, f);
    Associative(d, e, f);
    Associative(core, d, e);
    Associative(b, c, core + (d + e));
  }

  lemma StripsBoth(b: string, c: string, core: string, d: string, e: string) returns (k: nat, l: nat)
    requires Markdown(b) && AllSpace(c) && Solid(core) && AllSpace(d) && Markdown(e)
    ensures k <= |c| && l <= |d|
    ensures StripMarksRight(StripMarksLeft(b + (c + ((core + d) + e)))) == c[k..] + (core + d[..l])
  {
    var rest := (core + d) + e;
    assert rest[0] == core[0];
    k := StripsLeft(b, c, rest);
    var core' := c[k..] + core;
    assert c[k..] + rest == (core' + d) + e;
    assert core'[|core'| - 1] == core[|core| - 1];
    l := StripsRight(core', d, e);
    Associative(c[k..], core, d[..l]);
  }

  /** The solid core of a wrapped line is what the check looks at. */
  lemma BareIsCore(left: string, core: string, right: string)
    requires Wrapping(left) && Solid(core) && Wrapping(right)
    ensures Bare(left + (core + right)) == core
  {
    var a, b, c := UnwrapLeft(left);
    var d, e, f := UnwrapRight(right);
    Brackets(a, b, c, core, d, e, f);
    TrimsWrapped(a, b, c, core, d, e, f);
    var k, l := StripsBoth(b, c, core, d, e);
    TrimWithin(c[k..], core, d[..l]);
  }

  lemma EndsWithMarker(core: string)
    ensures |core| >= |TaskDone()| && core[|core| - |TaskDone()|..] == TaskDone()
      <==> exists said :: core == said + "TASK_DONE"
  {
    if said :| core == said + "TASK_DONE" {
      assert core[|said|..] == "TASK_DONE";
    }
    if |core| >= |TaskDone()| && core[|core| - |TaskDone()|..] == TaskDone() {
      assert core == core[..|core| - |TaskDone()|] + "TASK_DONE";
    }
  }

  /** A wrapped line is a done line exactly when its core ends with the marker. */
  lemma DoneLineExactly(left: string, core: string, right: string)
    requires Wrapping(left) && Solid(core) && Wrapping(right)
    ensures IsDone(left + (core + right)) <==> exists said :: core == said + "TASK_DONE"
  {
    BareIsCore(left, core, right);
    EndsWithMarker(core);
  }

  /** What a done line says before the marker is kept without its wrapping. */
  lemma RemainderIs(left: string, said: string, gap: string, right: string)
    requires Wrapping(left) && Wrapping(gap) && Wrapping(right) && Solid(said)
    ensures var line := left + ((said + gap + "TASK_DONE") + right);
      IsDone(line) && Remainder(line) == said
  {
    var core := said + gap + "TASK_DONE";
    assert core[0] == said[0] && core[|core| - 1] == 'E';
    DoneLineExactly(left, core, right);
    BareIsCore(left, core, right);
    assert core[..|core| - |TaskDone()|] == said + gap;
    NothingIsWrapping();
    BareIsCore("", said, gap);
    assert "" + (said + gap) == said + gap;
  }

  lemma NothingIsWrapping()
    ensures Wrapping("")
  {
    assert "" == "" + ("" + "");
  }

  /** A marker alone leaves nothing. */
  lemma MarkerAlone(left: string, right: string)
    requires Wrapping(left) && Wrapping(right)
    ensures IsDone(left + ("TASK_DONE" + right)) && Remainder(left + ("TASK_DONE" + right)) == ""
  {
    assert "TASK_DONE" == "" + "TASK_DONE";
    DoneLineExactly(left, "TASK_DONE", right);
    BareIsCore(left, "TASK_DONE", right);
    assert "TASK_DONE"[..0] == "";
  }

  /** A wrapped line asks for input exactly when its core does, in any case. */
  lemma AskingLineExactly(upper: string -> string, left: string, core: string, right: string)
    requires Wrapping(left) && Solid(core) && Wrapping(right)
    ensures AsksInput(upper, left + (core + right)) <==> "NEEDS_INPUT:" <= upper(core)
  {
    BareIsCore(left, core, right);
  }

  // ---------- lines ----------

  /** What ends a line. */
  predicate Break(s: string) {
    s in {"\n", "\r\n", "\r", "\U{0B}", "\U{0C}", "\U{1C}", "\U{1D}", "\U{1E}", "\U{85}", "\U{2028}", "\U{2029}"}
  }

  predicate Unbroken(line: string) {
    forall k :: 0 <= k < |line| ==> !Break([line[k]])
  }

  /** Lines and their breaks; only a last line that says something may go without. A `\r` is a break of its
      own only where no `\n` follows. */
  ghost predicate WellLined(lines: seq<string>, breaks: seq<string>) {
    && |lines| == |breaks|
    && (forall i :: 0 <= i < |lines| ==> Unbroken(lines[i]))
    && (forall i :: 0 <= i < |lines| ==> Break(breaks[i]) || (i == |lines| - 1 && breaks[i] == "" && lines[i] != ""))
    && (forall i :: 0 < i < |lines| && breaks[i - 1] == "\r" && lines[i] == "" ==> breaks[i] != "\n")
  }

  function Lined(lines: seq<string>, breaks: seq<string>): string
    requires |lines| == |breaks|
  {
    if lines == [] then "" else lines[0] + (breaks[0] + Lined(lines[1..], breaks[1..]))
  }

  lemma BreakIs(s: string)
    ensures Break(s) <==> s == "\r\n" || (|s| == 1 && IsBreak(s[0]))
  {
    if |s| == 1 {
      assert s == [s[0]];
    }
  }

  lemma {:induction false} LineIsRead(text: string, start: nat, i: nat, end: nat)
    requires start <= i <= end <= |text| && Unbroken(text[start..end])
    ensures SplitLines(text, start, i) == SplitLines(text, start, end)
    decreases end - i
  {
    if i < end {
      assert text[i] == text[start..end][i - start];
      BreakIs([text[i]]);
      LineIsRead(text, start, i + 1, end);
    }
  }

  /** A line, its break, and what comes then. */
  lemma LineThenBreak(text: string, n: nat, line: string, br: string, rest: string)
    requires n <= |text| && text[n..] == line + (br + rest) && Unbroken(line) && Break(br)
    requires br == "\r" && rest != "" ==> rest[0] != '\n'
    ensures var m := n + |line| + |br|;
      m <= |text| && text[m..] == rest && SplitLines(text, n, n) == [line] + SplitLines(text, m, m)
  {
    var t, end, m := text[n..], n + |line|, n + |line| + |br|;
    assert t[..|line|] == line && t[|line|..] == br + rest && t[|line| + |br|..] == rest;
    assert text[n..end] == line && text[end..] == br + rest && text[m..] == rest;
    LineIsRead(text, n, n, end);
    BreakIs(br);
    assert text[end] == br[0] && (|br| == 2 ==> text[end + 1] == br[1]);
    assert br == [br[0]] || br == "\r\n";
    assert rest != "" ==> text[m] == rest[0];
  }

  lemma LinedStarts(lines: seq<string>, breaks: seq<string>)
    requires WellLined(lines, breaks) && lines != [] && (lines[0] == "" ==> breaks[0] != "\n")
    ensures Lined(lines, breaks) != "" ==> Lined(lines, breaks)[0] != '\n'
  {
    var rest := Lined(lines[1..], breaks[1..]);
    if lines[0] != "" {
      assert !Break([lines[0][0]]) && Lined(lines, breaks)[0] == lines[0][0];
    } else {
      BreakIs(breaks[0]);
      assert breaks[0] == [breaks[0][0]] || breaks[0] == "\r\n";
      assert Lined(lines, breaks) == breaks[0] + rest;
    }
  }

  lemma WellLinedRest(lines: seq<string>, breaks: seq<string>)
    requires WellLined(lines, breaks) && lines != []
    ensures WellLined(lines[1..], breaks[1..])
    ensures |lines| > 1 && breaks[0] == "\r" && lines[1] == "" ==> breaks[1] != "\n"
  {
  }

  lemma {:induction false} SplitsAt(text: string, n: nat, lines: seq<string>, breaks: seq<string>)
    requires WellLined(lines, breaks) && n <= |text| && text[n..] == Lined(lines, breaks)
    ensures SplitLines(text, n, n) == lines
    decreases |lines|
  {
    if lines != [] {
      var rest := Lined(lines[1..], breaks[1..]);
      WellLinedRest(lines, breaks);
      if breaks[0] == "" {
        assert rest == "" && text[n..] == lines[0] && text[n..|text|] == lines[0];
        LineIsRead(text, n, n, |text|);
      } else {
        if |lines| > 1 && breaks[0] == "\r" {
          LinedStarts(lines[1..], breaks[1..]);
        }
        LineThenBreak(text, n, lines[0], breaks[0], rest);
        SplitsAt(text, n + |lines[0]| + |breaks[0]|, lines[1..], breaks[1..]);
      }
    }
  }

  /** A text written as lines with breaks is split into exactly those lines. */
  lemma SplitLinesRoundTrip(lines: seq<string>, breaks: seq<string>)
    requires WellLined(lines, breaks)
    ensures SplitLines(Lined(lines, breaks), 0, 0) == lines
  {
    var text := Lined(lines, breaks);
    assert text[0..] == text;
    SplitsAt(text, 0, lines, breaks);
  }

  /** White space behind the last line makes no lines. */
  lemma LinesOfReply(lines: seq<string>, breaks: seq<string>, after: string)
    requires WellLined(lines, breaks) && AllSpace(after)
    requires var text := Lined(lines, breaks); text != "" && !IsSpace(text[|text| - 1])
    ensures LinesOf(Lined(lines, breaks) + after) == lines
  {
    TrimTrailing(Lined(lines, breaks), after);
    SplitLinesRoundTrip(lines, breaks);
  }

  /** A `\n` behind every line but the last. */
  function Newlines(n: nat): (r: seq<string>)
    ensures |r| == n && forall i :: 0 <= i < n ==> r[i] == if i < n - 1 then "\n" else ""
  {
    if n == 0 then [] else if n == 1 then [""] else ["\n"] + Newlines(n - 1)
  }

  lemma {:induction false} JoinIsLined(lines: seq<string>)
    ensures JoinLines(lines) == Lined(lines, Newlines(|lines|))
  {
    if |lines| > 1 {
      JoinIsLined(lines[1..]);
      assert Newlines(|lines|)[1..] == Newlines(|lines[1..]|);
      Associative(lines[0], "\n", JoinLines(lines[1..]));
    } else if |lines| == 1 {
      assert Lined(lines[1..], Newlines(1)[1..]) == "" && lines[0] + ("" + "") == lines[0];
    }
  }

  lemma NewlinesAreBreaks(lines: seq<string>)
    requires forall i :: 0 <= i < |lines| ==> Unbroken(lines[i])
    requires lines != [] ==> lines[|lines| - 1] != ""
    ensures WellLined(lines, Newlines(|lines|))
  {
    assert Break("\n");
  }

  /** Joining lines and splitting the text again gives the lines; nothing but `\n` comes between them. */
  lemma JoinLinesRoundTrip(lines: seq<string>)
    requires forall i :: 0 <= i < |lines| ==> Unbroken(lines[i])
    requires lines != [] ==> lines[|lines| - 1] != ""
    ensures SplitLines(JoinLines(lines), 0, 0) == lines
    ensures JoinLines(lines) == Lined(lines, Newlines(|lines|))
  {
    JoinIsLined(lines);
    NewlinesAreBreaks(lines);
    SplitLinesRoundTrip(lines, Newlines(|lines|));
  }

  // ---------- the flags depend on two lines ----------

  /** The lines of the tail, in order. */
  function TailLines(lines: seq<string>): seq<string> {
    seq(|Tail(lines)|, (k: int) requires 0 <= k < |Tail(lines)| =>
      if Tail(lines)[k] < |lines| then lines[Tail(lines)[k]] else "")
  }

  lemma TailLineIs(lines: seq<string>, line: string)
    ensures line in TailLines(lines) <==> exists i: nat :: i < |lines| && i in Tail(lines) && lines[i] == line
  {
    IndicesAre(Inked(lines), |lines|);
    var tail := Tail(lines);
    if line in TailLines(lines) {
      var k :| 0 <= k < |tail| && TailLines(lines)[k] == line;
      assert tail[k] in tail && tail[k] in Indices(Inked(lines), |lines|);
    }
    if i: nat :| i in tail && i < |lines| && lines[i] == line {
      var k :| 0 <= k < |tail| && tail[k] == i;
      assert TailLines(lines)[k] == line;
    }
  }

  lemma SameLineInTail(a: seq<string>, b: seq<string>, i: nat) returns (j: nat)
    requires TailLines(a) == TailLines(b) && i < |a| && i in Tail(a)
    ensures j < |b| && j in Tail(b) && b[j] == a[i]
  {
    TailLineIs(a, a[i]);
    TailLineIs(b, a[i]);
    j :| j < |b| && j in Tail(b) && b[j] == a[i];
  }

  /** Replies with the same last two lines that are not blank get the same flags, whatever
      stands before: a marker further up never ends a task. */
  lemma FlagsDependOnTailOnly(upper: string -> string, a: string, b: string)
    requires TailLines(LinesOf(a)) == TailLines(LinesOf(b))
    ensures Check(upper)(a).done == Check(upper)(b).done
    ensures Check(upper)(a).blocked == Check(upper)(b).blocked
  {
    FlagsMean(upper, a);
    FlagsMean(upper, b);
    FlagsCarryOver(upper, LinesOf(a), LinesOf(b));
    FlagsCarryOver(upper, LinesOf(b), LinesOf(a));
  }

  lemma FlagsCarryOver(upper: string -> string, a: seq<string>, b: seq<string>)
    requires TailLines(a) == TailLines(b)
    ensures SaysDone(a) ==> SaysDone(b)
    ensures SaysBlocked(upper, a) ==> SaysBlocked(upper, b)
  {
    if SaysDone(a) {
      var i: nat :| i < |a| && DoneIn(a)(i);
      var j := SameLineInTail(a, b, i);
      assert DoneIn(b)(j);
    }
    if SaysBlocked(upper, a) {
      var i: nat :| i < |a| && BlockedIn(upper, a)(i);
      var j := SameLineInTail(a, b, i);
      assert BlockedIn(upper, b)(j);
    }
  }

  // ---------- the rounds of a turn ----------

  /** What `run_conversation` returns in one round. */
  datatype Round = Round(reply: string, failed: bool, messages: seq<Raw>)

  /** The agent: what it does in round `k` with the message it is sent and the transcript it is
      given. None is an exception. */
  type Agent = (nat, string, seq<Message>) -> Option<Round>

  /** The task as the agent gets it: who works on it, the first message (workspace preamble,
      instruction and protocol), and the reminder that every later round is sent, `_CONTINUE_MSG`. */
  datatype Task = Task(agent: Agent, first: string, reminder: string)

  /** What round `k` is sent. */
  function MessageAt(task: Task, k: nat): string {
    if k <= 1 then task.first else task.reminder
  }

  function RunRound(task: Task, k: nat, history: seq<Message>): Option<Round> {
    task.agent(k, MessageAt(task, k), history)
  }

  /** A round that ends the turn, by the marker check `check`. */
  predicate Terminal(check: string -> Verdict, r: Round) {
    var v := check(r.reply);
    v.done || v.blocked || r.failed || Trim(r.reply) == ""
  }

  /** The reply a turn ends with. */
  function FinalReply(check: string -> Verdict, r: Round): string {
    var v := check(r.reply);
    if v.done || v.blocked then v.cleaned else r.reply
  }

  /** The session's transcript after `k` rounds. */
  function HistoryAt(task: Task, loaded: seq<Message>, k: nat): seq<Message> {
    if k == 0 then loaded
    else
      var before := HistoryAt(task, loaded, k - 1);
      match RunRound(task, k, before)
      case None => before
      case Some(r) => LastMessages(before + Kept(r.messages))
  }

  /** Everything the session was ever told, untrimmed. */
  function TranscriptAt(task: Task, loaded: seq<Message>, k: nat): seq<Message> {
    if k == 0 then loaded
    else
      TranscriptAt(task, loaded, k - 1)
      + (match RunRound(task, k, HistoryAt(task, loaded, k - 1)) case None => [] case Some(r) => Kept(r.messages))
  }

  /** What round `k` brings, given that the turn gets that far. */
  function RoundAt(task: Task, loaded: seq<Message>, k: nat): Option<Round>
    requires k > 0
  {
    RunRound(task, k, HistoryAt(task, loaded, k - 1))
  }

  /** What the agent is given is the last sixty messages of the whole transcript, however it
      was cut up into rounds. A longer history from disk is trimmed by the first round. */
  lemma {:induction false} HistoryIsWindow(task: Task, loaded: seq<Message>, k: nat)
    requires |loaded| <= HISTORY_MAX_MSGS || (k > 0 && RoundAt(task, loaded, 1).Some?)
    ensures HistoryAt(task, loaded, k) == LastMessages(TranscriptAt(task, loaded, k))
  {
    if k > 0 {
      var before := TranscriptAt(task, loaded, k - 1);
      var r := RoundAt(task, loaded, k);
      if k > 1 || |loaded| <= HISTORY_MAX_MSGS {
        HistoryIsWindow(task, loaded, k - 1);
        if r.Some? {
          TrimmingIsLazy(before, Kept(r.value.messages));
        } else {
          assert before + [] == before;
        }
      }
    }
  }

  /** The turn goes on after each of the first `n` rounds. */
  predicate GoesOn(check: string -> Verdict, task: Task, loaded: seq<Message>, n: nat) {
    n > 0 ==>
      var r := RoundAt(task, loaded, n);
      GoesOn(check, task, loaded, n - 1) && r.Some? && !Terminal(check, r.value)
  }

  /** One round and the continuations, however few are allowed. */
  function MaxRounds(maxContinuations: int): (n: nat)
    ensures n >= 1 && n >= 1 + maxContinuations
    ensures n == 1 || n == 1 + maxContinuations
  {
    1 + if maxContinuations > 0 then maxContinuations else 0
  }

  datatype Step = Step(round: nat, done: bool, blocked: bool)

  datatype Outcome =
    | Raised
    | Answered(reply: string, steps: seq<Step>, exhausted: bool)

  /** The steps reported so far: the number of each round, and the flags of its reply. */
  predicate StepsAre(check: string -> Verdict, task: Task, loaded: seq<Message>, steps: seq<Step>) {
    steps == [] || (
      && StepsAre(check, task, loaded, steps[..|steps| - 1])
      && var k, r := |steps|, RoundAt(task, loaded, |steps|);
         r.Some? && steps[k - 1] == Step(k, check(r.value.reply).done, check(r.value.reply).blocked))
  }

  /** `n` rounds have been played and reported, the last with this reply. */
  predicate Played(check: string -> Verdict, task: Task, loaded: seq<Message>, n: nat, steps: seq<Step>, reply: string) {
    && |steps| == n && StepsAre(check, task, loaded, steps)
    && (n > 0 ==> var last := RoundAt(task, loaded, n); last.Some? && reply == last.value.reply)
  }

  lemma OneRoundMore(check: string -> Verdict, task: Task, loaded: seq<Message>, n: nat, steps: seq<Step>, r: Round)
    requires |steps| == n && StepsAre(check, task, loaded, steps) && RoundAt(task, loaded, n + 1) == Some(r)
    ensures var v := check(r.reply);
      Played(check, task, loaded, n + 1, steps + [Step(n + 1, v.done, v.blocked)], r.reply)
  {
    OneStepMore(check, task, loaded, steps);
  }

  lemma OneStepMore(check: string -> Verdict, task: Task, loaded: seq<Message>, steps: seq<Step>)
    requires StepsAre(check, task, loaded, steps) && RoundAt(task, loaded, |steps| + 1).Some?
    ensures var v := check(RoundAt(task, loaded, |steps| + 1).value.reply);
      StepsAre(check, task, loaded, steps + [Step(|steps| + 1, v.done, v.blocked)])
  {
    var v := check(RoundAt(task, loaded, |steps| + 1).value.reply);
    assert (steps + [Step(|steps| + 1, v.done, v.blocked)])[..|steps|] == steps;
  }

  /** The rounds of `_turn`: at most one and the allowed continuations, up to the first one that
      ends the turn; the transcript is kept up to date even when the agent raises. */
  method Turn(check: string -> Verdict, task: Task, session: Session, maxContinuations: int)
    returns (outcome: Outcome, ghost rounds: nat)
    modifies session
    ensures 1 <= rounds <= MaxRounds(maxContinuations)
    ensures GoesOn(check, task, old(session.history), rounds - 1)
    ensures session.history == HistoryAt(task, old(session.history), rounds)
    ensures var last := RoundAt(task, old(session.history), rounds);
      && (outcome.Raised? <==> last.None?)
      && (outcome.Answered? ==>
            && |outcome.steps| == rounds
            && StepsAre(check, task, old(session.history), outcome.steps)
            && (outcome.exhausted <==> !Terminal(check, last.value))
            && (outcome.exhausted ==> rounds == MaxRounds(maxContinuations) && outcome.reply == last.value.reply)
            && (!outcome.exhausted ==> outcome.reply == FinalReply(check, last.value)))
  {
    var maxRounds := MaxRounds(maxContinuations);
    ghost var loaded := session.history;
    var reply := "";
    var steps: seq<Step> := [];
    var message := task.first;
    rounds := 0;
    for roundNo := 1 to maxRounds + 1
      invariant rounds == roundNo - 1 && message == MessageAt(task, roundNo)
      invariant session.history == HistoryAt(task, loaded, rounds)
      invariant GoesOn(check, task, loaded, rounds) && Played(check, task, loaded, rounds, steps, reply)
    {
      rounds := roundNo;
      var result := task.agent(roundNo, message, session.history);
      if result.None? {
        return Raised, rounds;
      }
      reply := result.value.reply;
      session.AppendTurnMessages(result.value.messages);
      var v := check(reply);
      OneRoundMore(check, task, loaded, roundNo - 1, steps, result.value);
      steps := steps + [Step(roundNo, v.done, v.blocked)];
      if v.done || v.blocked || result.value.failed || Trim(reply) == "" {
        reply := if v.done || v.blocked then v.cleaned else reply;
        return Answered(reply, steps, false), rounds;
      }
      message := task.reminder;
    }
    return Answered(reply, steps, true), rounds;
  }
}
