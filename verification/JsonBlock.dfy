/** The balanced-brace scanner that lifts a JSON object out of a script's docstring, and the
    JSON texts of RFC 8259 it is meant for. */
module JsonBlock {
  import opened Common

  // ---------- the scanner ----------

  /** The scanner's three variables. */
  datatype Scan = Scan(depth: int, inString: bool, escape: bool)

  function Feed(st: Scan, ch: char): Scan {
    if st.escape then st.(escape := false)
    else if ch == '\\' then (if st.inString then st.(escape := true) else st)
    else if ch == '"' then st.(inString := !st.inString)
    else if st.inString then st
    else if ch == '{' then st.(depth := st.depth + 1)
    else if ch == '}' then st.(depth := st.depth - 1)
    else st
  }

  function ExtractFrom(text: string, start: nat, i: nat, st: Scan): Option<string>
    requires start <= i <= |text|
    decreases |text| - i
  {
    if i == |text| then None
    else
      var next := Feed(st, text[i]);
      if Closes(st, next) then Some(text[start..i + 1])
      else ExtractFrom(text, start, i + 1, next)
  }

  function Extract(text: string, start: nat): Option<string> {
    if start >= |text| || text[start] != '{' then None
    else ExtractFrom(text, start, start, Scan(0, false, false))
  }

  predicate Closes(st: Scan, next: Scan) {
    next.depth < st.depth && next.depth == 0
  }

  lemma ExtractStep(text: string, start: nat, i: nat, st: Scan)
    requires start <= i < |text|
    ensures ExtractFrom(text, start, i, st)
            == if Closes(st, Feed(st, text[i])) then Some(text[start..i + 1])
               else ExtractFrom(text, start, i + 1, Feed(st, text[i]))
  {
  }

  /** `_extract_json_block`, statement for statement. */
  method ExtractJsonBlock(text: string, start: nat) returns (block: Option<string>)
    ensures block == Extract(text, start)
  {
    if start >= |text| || text[start] != '{' {
      return None;
    }
    var depth, inString, escape := 0, false, false;
    ghost var rest := Extract(text, start);
    ghost var st := Scan(0, false, false);
    for i := start to |text|
      invariant st == Scan(depth, inString, escape)
      invariant ExtractFrom(text, start, i, st) == rest
    {
      var ch := text[i];
      ExtractStep(text, start, i, st);
      ghost var before := st;
      st := Feed(before, ch);
      if escape {
        escape := false;
        continue;
      }
      if ch == '\\' {
        if inString {
          escape := true;
        }
        continue;
      }
      if ch == '"' {
        inString := !inString;
        continue;
      }
      if inString {
        continue;
      }
      if ch == '{' {
        depth := depth + 1;
      } else if ch == '}' {
        depth := depth - 1;
        if depth == 0 {
          return Some(text[start..i + 1]);
        }
      }
    }
    return None;
  }

  // ---------- what it returns ----------

  function Run(st: Scan, s: string): Scan
    decreases |s|
  {
    if s == [] then st else Run(Feed(st, s[0]), s[1..])
  }

  lemma {:induction false} RunConcat(st: Scan, a: string, b: string)
    ensures Run(st, a + b) == Run(Run(st, a), b)
    decreases |a|
  {
    if a == [] {
      assert a + b == b;
    } else {
      assert (a + b)[1..] == a[1..] + b;
      RunConcat(Feed(st, a[0]), a[1..], b);
    }
  }

  /** Structural brace depth after the first `n` characters of `text` from `start` on. */
  function DepthAfter(text: string, start: nat, n: nat): int
    requires start + n <= |text|
  {
    Run(Scan(0, false, false), text[start..start + n]).depth
  }

  /** The first point where the structural depth is back at zero. */
  ghost predicate FirstReturn(text: string, start: nat, n: nat) {
    && 0 < n && start + n <= |text|
    && DepthAfter(text, start, n) == 0
    && forall m :: 0 < m < n ==> DepthAfter(text, start, m) != 0
  }

  lemma {:induction false} ExtractFromSpec(text: string, start: nat, i: nat)
    requires start < i <= |text|
    requires forall m :: 0 < m <= i - start ==> DepthAfter(text, start, m) > 0
    ensures var r := ExtractFrom(text, start, i, Run(Scan(0, false, false), text[start..i]));
            && (r.None? ==> forall n :: 0 < n <= |text| - start ==> DepthAfter(text, start, n) > 0)
            && (r.Some? ==> |r.value| > 0 && FirstReturn(text, start, |r.value|)
                            && r.value == text[start..start + |r.value|])
    decreases |text| - i
  {
    if i < |text| {
      var st := Run(Scan(0, false, false), text[start..i]);
      assert text[start..i + 1] == text[start..i] + [text[i]];
      RunConcat(Scan(0, false, false), text[start..i], [text[i]]);
      assert Run(st, [text[i]]) == Feed(st, text[i]);
      assert DepthAfter(text, start, i - start) == st.depth;
      var next := Feed(st, text[i]);
      assert DepthAfter(text, start, i + 1 - start) == next.depth;
      if !Closes(st, next) {
        ExtractFromSpec(text, start, i + 1);
      }
    }
  }

  /** The scanner returns exactly the stretch up to the first point where the structural depth
      is back at zero; and it returns nothing exactly when there is no opening brace at
      `start` or the depth never gets back to zero. */
  lemma ExtractIsFirstReturn(text: string, start: nat)
    ensures match Extract(text, start)
            case Some(block) =>
              && start < |text| && text[start] == '{'
              && FirstReturn(text, start, |block|) && block == text[start..start + |block|]
            case None =>
              || start >= |text| || text[start] != '{'
              || forall n :: 0 < n <= |text| - start ==> DepthAfter(text, start, n) != 0
  {
    if start < |text| && text[start] == '{' {
      var st0 := Scan(0, false, false);
      assert text[start..start + 1] == ['{'];
      assert Run(st0, ['{']) == Feed(st0, '{');
      assert DepthAfter(text, start, 1) == 1;
      ExtractFromSpec(text, start, start + 1);
    }
  }

  lemma FirstReturnDecides(text: string, start: nat, n: nat)
    requires start < |text| && text[start] == '{' && FirstReturn(text, start, n)
    ensures Extract(text, start) == Some(text[start..start + n])
  {
    ExtractIsFirstReturn(text, start);
  }

  // ---------- JSON texts (RFC 8259, sections 2 to 7) ----------

  /** One character of a string body: unescaped, a two-character escape, or `\uXXXX`. */
  datatype StringChar =
    | Plain(c: char)
    | Escaped(c: char)
    | Unicode(h: string)

  /** A value with the white space its text may contain. `Scalar` is a literal or a number. */
  datatype Value =
    | Scalar(text: string)
    | String(chars: seq<StringChar>)
    | Array(open: string, elements: Elements)
    | Object(open: string, members: Members)

  datatype Elements =
    | NoElements
    | Element(before: string, value: Value, after: string, rest: Elements)

  datatype Members =
    | NoMembers
    | Member(before: string, key: seq<StringChar>, beforeColon: string, afterColon: string,
             value: Value, after: string, rest: Members)

  predicate WhiteSpace(s: string) {
    forall i :: 0 <= i < |s| ==> s[i] in {' ', '\t', '\n', '\r'}
  }

  predicate ScalarText(s: string) {
    && s != []
    && forall i :: 0 <= i < |s| ==>
         'a' <= s[i] <= 'z' || 'A' <= s[i] <= 'Z' || '0' <= s[i] <= '9' || s[i] in {'+', '-', '.'}
  }

  predicate HexDigits(s: string) {
    forall i :: 0 <= i < |s| ==> '0' <= s[i] <= '9' || 'a' <= s[i] <= 'f' || 'A' <= s[i] <= 'F'
  }

  predicate ValidChar(c: StringChar) {
    match c
    case Plain(ch) => ch != '"' && ch != '\\' && ch >= ' '
    case Escaped(ch) => ch in {'"', '\\', '/', 'b', 'f', 'n', 'r', 't'}
    case Unicode(h) => |h| == 4 && HexDigits(h)
  }

  predicate ValidChars(cs: seq<StringChar>) {
    forall i :: 0 <= i < |cs| ==> ValidChar(cs[i])
  }

  predicate Valid(v: Value) {
    match v
    case Scalar(text) => ScalarText(text)
    case String(chars) => ValidChars(chars)
    case Array(open, elements) => WhiteSpace(open) && ValidElements(elements)
    case Object(open, members) => WhiteSpace(open) && ValidMembers(members)
  }

  predicate ValidElements(e: Elements) {
    match e
    case NoElements => true
    case Element(before, value, after, rest) =>
      WhiteSpace(before) && Valid(value) && WhiteSpace(after) && ValidElements(rest)
  }

  predicate ValidMembers(m: Members) {
    match m
    case NoMembers => true
    case Member(before, key, beforeColon, afterColon, value, after, rest) =>
      && WhiteSpace(before) && ValidChars(key) && WhiteSpace(beforeColon) && WhiteSpace(afterColon)
      && Valid(value) && WhiteSpace(after) && ValidMembers(rest)
  }

  function PrintChar(c: StringChar): string {
    match c
    case Plain(ch) => [ch]
    case Escaped(ch) => ['\\', ch]
    case Unicode(h) => ['\\', 'u'] + h
  }

  function PrintChars(cs: seq<StringChar>): string {
    if cs == [] then [] else PrintChar(cs[0]) + PrintChars(cs[1..])
  }

  function PrintString(cs: seq<StringChar>): string {
    "\"" + PrintChars(cs) + "\""
  }

  function Print(v: Value): string {
    match v
    case Scalar(text) => text
    case String(chars) => PrintString(chars)
    case Array(open, elements) => "[" + open + PrintElements(elements) + "]"
    case Object(open, members) => "{" + open + PrintMembers(members) + "}"
  }

  function PrintElements(e: Elements): string {
    match e
    case NoElements => ""
    case Element(before, value, after, rest) =>
      before + Print(value) + after + (if rest.NoElements? then "" else ",") + PrintElements(rest)
  }

  function PrintMembers(m: Members): string {
    match m
    case NoMembers => ""
    case Member(before, key, beforeColon, afterColon, value, after, rest) =>
      before + PrintString(key) + beforeColon + ":" + afterColon + Print(value) + after
      + (if rest.NoMembers? then "" else ",") + PrintMembers(rest)
  }

  // ---------- values leave the scanner where it was ----------

  function Outside(d: int): Scan {
    Scan(d, false, false)
  }

  function InString(d: int): Scan {
    Scan(d, true, false)
  }

  /** Scanning `s` never takes the depth below `floor`. */
  ghost predicate Stays(st: Scan, s: string, floor: int) {
    forall i :: 0 <= i <= |s| ==> Run(st, s[..i]).depth >= floor
  }

  lemma StaysConcat(st: Scan, a: string, b: string, floor: int)
    requires Stays(st, a, floor) && Stays(Run(st, a), b, floor)
    ensures Stays(st, a + b, floor)
  {
    forall i | 0 <= i <= |a + b| ensures Run(st, (a + b)[..i]).depth >= floor {
      if i <= |a| {
        assert (a + b)[..i] == a[..i];
      } else {
        assert (a + b)[..i] == a + b[..i - |a|];
        RunConcat(st, a, b[..i - |a|]);
      }
    }
  }

  /** From outside any string at depth `d`, scanning `s` comes back to the same point and stays
      at or above `d` on the way. */
  ghost predicate Neutral(s: string, d: int) {
    Run(Outside(d), s) == Outside(d) && Stays(Outside(d), s, d)
  }

  lemma NeutralConcat(a: string, b: string, d: int)
    requires Neutral(a, d) && Neutral(b, d)
    ensures Neutral(a + b, d)
  {
    RunConcat(Outside(d), a, b);
    StaysConcat(Outside(d), a, b, d);
  }

  lemma OneStep(st: Scan, ch: char, floor: int)
    requires st.depth >= floor && Feed(st, ch).depth >= floor
    ensures Run(st, [ch]) == Feed(st, ch) && Stays(st, [ch], floor)
  {
    assert Run(st, [ch]) == Run(Feed(st, ch), []);
    forall i | 0 <= i <= 1 ensures Run(st, [ch][..i]).depth >= floor {
      assert i == 0 ==> [ch][..i] == [];
      assert i == 1 ==> [ch][..i] == [ch];
    }
  }

  lemma {:induction false} QuietNeutral(s: string, d: int)
    requires forall i :: 0 <= i < |s| ==> s[i] !in {'{', '}', '"', '\\'}
    ensures Neutral(s, d)
  {
    if s == [] {
      assert forall i :: 0 <= i <= |s| ==> s[..i] == [];
    } else {
      OneStep(Outside(d), s[0], d);
      QuietNeutral(s[1..], d);
      NeutralConcat([s[0]], s[1..], d);
      assert s == [s[0]] + s[1..];
    }
  }

  /** Inside a string the depth does not move, whatever the characters. */
  lemma {:induction false} PlainInString(s: string, d: int)
    requires forall i :: 0 <= i < |s| ==> s[i] != '"' && s[i] != '\\'
    ensures Run(InString(d), s) == InString(d) && Stays(InString(d), s, d)
  {
    if s == [] {
      assert forall i :: 0 <= i <= |s| ==> s[..i] == [];
    } else {
      OneStep(InString(d), s[0], d);
      PlainInString(s[1..], d);
      RunConcat(InString(d), [s[0]], s[1..]);
      StaysConcat(InString(d), [s[0]], s[1..], d);
      assert s == [s[0]] + s[1..];
    }
  }

  lemma EscapeInString(ch: char, d: int)
    ensures Run(InString(d), ['\\', ch]) == InString(d) && Stays(InString(d), ['\\', ch], d)
  {
    var mid := Feed(InString(d), '\\');
    OneStep(InString(d), '\\', d);
    OneStep(mid, ch, d);
    RunConcat(InString(d), ['\\'], [ch]);
    StaysConcat(InString(d), ['\\'], [ch], d);
    assert ['\\'] + [ch] == ['\\', ch];
  }

  lemma CharInString(c: StringChar, d: int)
    requires ValidChar(c)
    ensures Run(InString(d), PrintChar(c)) == InString(d) && Stays(InString(d), PrintChar(c), d)
  {
    match c {
      case Plain(ch) => PlainInString([ch], d);
      case Escaped(ch) => EscapeInString(ch, d);
      case Unicode(h) =>
        EscapeInString('u', d);
        PlainInString(h, d);
        RunConcat(InString(d), ['\\', 'u'], h);
        StaysConcat(InString(d), ['\\', 'u'], h, d);
    }
  }

  lemma {:induction false} CharsInString(cs: seq<StringChar>, d: int)
    requires ValidChars(cs)
    ensures Run(InString(d), PrintChars(cs)) == InString(d) && Stays(InString(d), PrintChars(cs), d)
  {
    if cs == [] {
      PlainInString([], d);
    } else {
      CharInString(cs[0], d);
      CharsInString(cs[1..], d);
      RunConcat(InString(d), PrintChar(cs[0]), PrintChars(cs[1..]));
      StaysConcat(InString(d), PrintChar(cs[0]), PrintChars(cs[1..]), d);
    }
  }

  /** A string literal, with any braces and escapes inside it. */
  lemma StringNeutral(cs: seq<StringChar>, d: int)
    requires ValidChars(cs)
    ensures Neutral(PrintString(cs), d)
  {
    var body := PrintChars(cs);
    OneStep(Outside(d), '"', d);
    OneStep(InString(d), '"', d);
    CharsInString(cs, d);
    RunConcat(Outside(d), "\"", body);
    StaysConcat(Outside(d), "\"", body, d);
    RunConcat(Outside(d), "\"" + body, "\"");
    StaysConcat(Outside(d), "\"" + body, "\"", d);
  }

  /** Braces around something neutral one level deeper. */
  lemma BracesNeutral(body: string, d: int)
    requires Neutral(body, d + 1)
    ensures Neutral("{" + body + "}", d)
    ensures Stays(Outside(d + 1), body, d + 1)
    ensures Run(Outside(d), "{" + body) == Outside(d + 1)
  {
    OneStep(Outside(d), '{', d);
    OneStep(Outside(d + 1), '}', d);
    RunConcat(Outside(d), "{", body);
    assert Stays(Outside(d + 1), body, d);
    StaysConcat(Outside(d), "{", body, d);
    RunConcat(Outside(d), "{" + body, "}");
    StaysConcat(Outside(d), "{" + body, "}", d);
  }

  lemma PrintObject(v: Value)
    requires v.Object?
    ensures Print(v) == "{" + (v.open + PrintMembers(v.members)) + "}"
  {
  }

  lemma BracketsNeutral(open: string, body: string, d: int)
    requires Neutral(open, d) && Neutral(body, d)
    ensures Neutral("[" + open + body + "]", d)
  {
    QuietNeutral("[", d);
    QuietNeutral("]", d);
    NeutralConcat("[", open, d);
    NeutralConcat("[" + open, body, d);
    NeutralConcat("[" + open + body, "]", d);
  }

  lemma {:induction false} ValueNeutral(v: Value, d: int)
    requires Valid(v)
    ensures Neutral(Print(v), d)
    decreases v
  {
    match v {
      case Scalar(text) => QuietNeutral(text, d);
      case String(chars) => StringNeutral(chars, d);
      case Array(open, elements) =>
        QuietNeutral(open, d);
        ElementsNeutral(elements, d);
        BracketsNeutral(open, PrintElements(elements), d);
      case Object(open, members) =>
        QuietNeutral(open, d + 1);
        MembersNeutral(members, d + 1);
        NeutralConcat(open, PrintMembers(members), d + 1);
        BracesNeutral(open + PrintMembers(members), d);
        PrintObject(v);
    }
  }

  lemma {:induction false} ElementsNeutral(e: Elements, d: int)
    requires ValidElements(e)
    ensures Neutral(PrintElements(e), d)
    decreases e
  {
    match e {
      case NoElements => QuietNeutral("", d);
      case Element(before, value, after, rest) =>
        var comma := if rest.NoElements? then "" else ",";
        QuietNeutral(before, d);
        ValueNeutral(value, d);
        QuietNeutral(after, d);
        QuietNeutral(comma, d);
        ElementsNeutral(rest, d);
        NeutralConcat(before, Print(value), d);
        NeutralConcat(before + Print(value), after, d);
        NeutralConcat(before + Print(value) + after, comma, d);
        NeutralConcat(before + Print(value) + after + comma, PrintElements(rest), d);
    }
  }

  lemma {:induction false} MembersNeutral(m: Members, d: int)
    requires ValidMembers(m)
    ensures Neutral(PrintMembers(m), d)
    decreases m
  {
    match m {
      case NoMembers => QuietNeutral("", d);
      case Member(before, key, beforeColon, afterColon, value, after, rest) =>
        var comma := if rest.NoMembers? then "" else ",";
        QuietNeutral(before, d);
        StringNeutral(key, d);
        QuietNeutral(beforeColon, d);
        QuietNeutral(":", d);
        QuietNeutral(afterColon, d);
        ValueNeutral(value, d);
        QuietNeutral(after, d);
        QuietNeutral(comma, d);
        MembersNeutral(rest, d);
        var s := before + PrintString(key);
        NeutralConcat(before, PrintString(key), d);
        NeutralConcat(s, beforeColon, d);
        NeutralConcat(s + beforeColon, ":", d);
        NeutralConcat(s + beforeColon + ":", afterColon, d);
        s := s + beforeColon + ":" + afterColon;
        NeutralConcat(s, Print(value), d);
        NeutralConcat(s + Print(value), after, d);
        NeutralConcat(s + Print(value) + after, comma, d);
        NeutralConcat(s + Print(value) + after + comma, PrintMembers(rest), d);
    }
  }

  // ---------- the round trip ----------

  /** An object's text returns to depth zero at its closing brace and not before. */
  lemma ObjectReturnsAtItsEnd(v: Value, n: nat)
    requires v.Object? && Valid(v) && 0 < n <= |Print(v)|
    ensures Run(Outside(0), Print(v)[..n]).depth == 0 <==> n == |Print(v)|
  {
    var body := v.open + PrintMembers(v.members);
    QuietNeutral(v.open, 1);
    MembersNeutral(v.members, 1);
    NeutralConcat(v.open, PrintMembers(v.members), 1);
    BracesNeutral(body, 0);
    PrintObject(v);
    if n < |Print(v)| {
      assert Print(v)[..n] == "{" + body[..n - 1];
      RunConcat(Outside(0), "{", body[..n - 1]);
      OneStep(Outside(0), '{', 0);
    } else {
      assert Print(v)[..n] == Print(v);
    }
  }

  lemma ObjectStartsWithBrace(v: Value)
    requires v.Object?
    ensures Print(v) != [] && Print(v)[0] == '{'
  {
  }

  /** Whatever surrounds it, the scanner started at the opening brace of any JSON object text
      returns exactly that text: nesting, escapes, and braces or quotes inside strings included. */
  lemma ExtractInvertsPrint(prefix: string, v: Value, suffix: string)
    requires v.Object? && Valid(v)
    ensures Extract(prefix + Print(v) + suffix, |prefix|) == Some(Print(v))
  {
    var text, start := prefix + Print(v) + suffix, |prefix|;
    assert text[start] == Print(v)[0] == '{';
    forall n | 0 < n <= |Print(v)|
      ensures DepthAfter(text, start, n) == 0 <==> n == |Print(v)|
    {
      assert text[start..start + n] == Print(v)[..n];
      ObjectReturnsAtItsEnd(v, n);
    }
    FirstReturnDecides(text, start, |Print(v)|);
    assert text[start..start + |Print(v)|] == Print(v);
  }
}
