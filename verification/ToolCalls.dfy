/** Reading tool calls out of a reply, and giving each distinct call one id. How JSON text is
    decoded, and how arguments are written canonically, are parameters. */
module ToolCalls {
  import opened Common
  import opened Text
  import opened TextScan
  import opened ToolBridge

  datatype Json =
    | Null
    | Bool(b: bool)
    | Num(value: real)
    | Str(s: string)
    | Arr(items: seq<Json>)
    | Obj(fields: map<string, Json>)

  /** Python's truth value of a decoded value. */
  predicate Truthy(j: Json) {
    match j
    case Null => false
    case Bool(b) => b
    case Num(v) => v != 0.0
    case Str(s) => s != ""
    case Arr(items) => items != []
    case Obj(fields) => fields != map[]
  }

  /** `obj.get(key)`: a missing key and a null value are both None. */
  function Get(obj: Json, key: string): Json
    requires obj.Obj?
  {
    if key in obj.fields then obj.fields[key] else Null
  }

  datatype Call = Call(name: Json, arguments: Json)

  function OrEmpty(j: Json): Json {
    if Truthy(j) then j else Obj(map[])
  }

  function ArgumentsOf(args: Json): Json {
    if args.Obj? then args else if args.Null? then Obj(map[]) else Obj(map["value" := args])
  }

  // ---------- parsing ----------

  type Decoder = string -> Option<Json>

  /** Text that starts with a brace decodes to an object, if it decodes at all. */
  ghost predicate ObjectsFromBraces(decode: Decoder) {
    forall s: string :: |s| > 0 && s[0] == '{' && decode(s).Some? ==> decode(s).value.Obj?
  }

  /** The call in a payload: none if the payload does not decode or has no name. */
  function CallIn(decode: Decoder, payload: string): Option<Call> {
    match decode(payload)
    case None => None
    case Some(obj) =>
      if !obj.Obj? || !Truthy(Get(obj, "name")) then None
      else Some(Call(Get(obj, "name"), ArgumentsOf(Get(obj, "arguments"))))
  }

  function CallsIn(decode: Decoder, payloads: seq<string>): seq<Call> {
    if payloads == [] then []
    else
      AsList(CallIn(decode, payloads[0])) + CallsIn(decode, payloads[1..])
  }

  lemma CallsInCons(decode: Decoder, payload: string, rest: seq<string>)
    ensures CallsIn(decode, [payload] + rest)
         == AsList(CallIn(decode, payload)) + CallsIn(decode, rest)
  {
    assert ([payload] + rest)[1..] == rest;
  }

  function AsList(c: Option<Call>): seq<Call> {
    match c case Some(v) => [v] case None => []
  }

  /** What reading needs of a matcher: its groups start with a brace. */
  ghost predicate FindsBraces(text: string, at: nat -> Option<Match>) {
    && Proper(at, |text|)
    && forall i: nat :: at(i).Some? ==> text[at(i).value.first] == '{'
  }

  lemma MatcherFindsBraces(text: string)
    ensures FindsBraces(text, Matcher(text))
  {
    MatcherIsProper(text);
    forall i: nat | Matcher(text)(i).Some? ensures text[Matcher(text)(i).value.first] == '{' {
      MatchStartsWithBrace(text, i);
    }
  }

  /** The calls found by a pass that starts at position `i`. */
  ghost function CallsFrom(decode: Decoder, text: string, at: nat -> Option<Match>, i: nat): seq<Call>
    requires Proper(at, |text|)
  {
    CallsIn(decode, Groups(text, at, i))
  }

  lemma PassStep(decode: Decoder, text: string, at: nat -> Option<Match>, i: nat)
    requires FindsBraces(text, at) && i < |text|
    ensures at(i).None? ==> CallsFrom(decode, text, at, i) == CallsFrom(decode, text, at, i + 1)
    ensures at(i).Some? ==>
      var m := at(i).value;
      && i < m.first <= m.last < m.end <= |text| && text[m.first] == '{'
      && CallsFrom(decode, text, at, i)
         == AsList(CallIn(decode, text[m.first..m.last + 1])) + CallsFrom(decode, text, at, m.end)
  {
    if at(i).Some? {
      var m := at(i).value;
      ScanMatch(text, at, i, m);
      CallsInCons(decode, text[m.first..m.last + 1], Groups(text, at, m.end));
    }
  }

  /** `_parse_bridge_tool_calls`: one pass over the matches of the expression. */
  method ParseBridgeToolCalls(text: string, decode: Decoder) returns (calls: seq<Call>)
    requires ObjectsFromBraces(decode)
    ensures calls == CallsIn(decode, Payloads(text))
  {
    MatcherFindsBraces(text);
    calls := ReadMatches(text, Matcher(text), decode);
  }

  /** The `finditer` loop, for any matcher. */
  method ReadMatches(text: string, at: nat -> Option<Match>, decode: Decoder) returns (calls: seq<Call>)
    requires ObjectsFromBraces(decode) && FindsBraces(text, at)
    ensures calls == CallsFrom(decode, text, at, 0)
  {
    calls := [];
    var i := 0;
    ghost var all := CallsFrom(decode, text, at, 0);
    while i < |text|
      invariant 0 <= i <= |text| && ReadUpTo(decode, text, at, all, calls, i)
      decreases |text| - i
    {
      var found, next := ReadAt(text, at, decode, i);
      ReadOn(decode, text, at, all, calls, i, found, next);
      calls, i := calls + found, next;
    }
    ReadToTheEnd(decode, text, at, all, calls, i);
  }

  /** One position: a match is read and jumped over, anything else is one character. */
  method ReadAt(text: string, at: nat -> Option<Match>, decode: Decoder, i: nat) returns (found: seq<Call>, next: nat)
    requires ObjectsFromBraces(decode) && FindsBraces(text, at) && i < |text|
    ensures i < next <= |text|
    ensures CallsFrom(decode, text, at, i) == found + CallsFrom(decode, text, at, next)
  {
    PassStep(decode, text, at, i);
    match at(i) {
      case None =>
        found, next := [], i + 1;
        assert [] + CallsFrom(decode, text, at, next) == CallsFrom(decode, text, at, next);
      case Some(m) =>
        found := ReadPayload(text[m.first..m.last + 1], decode);
        next := m.end;
    }
  }

  /** `calls` are those of `all` that are read before position `i`. */
  ghost predicate ReadUpTo(decode: Decoder, text: string, at: nat -> Option<Match>, all: seq<Call>, calls: seq<Call>, i: nat)
    requires Proper(at, |text|)
  {
    all == calls + CallsFrom(decode, text, at, i)
  }

  lemma ReadOn(decode: Decoder, text: string, at: nat -> Option<Match>, all: seq<Call>, calls: seq<Call>,
               i: nat, found: seq<Call>, next: nat)
    requires Proper(at, |text|) && ReadUpTo(decode, text, at, all, calls, i)
    requires CallsFrom(decode, text, at, i) == found + CallsFrom(decode, text, at, next)
    ensures ReadUpTo(decode, text, at, all, calls + found, next)
  {
    Associative(calls, found, CallsFrom(decode, text, at, next));
  }

  lemma ReadToTheEnd(decode: Decoder, text: string, at: nat -> Option<Match>, all: seq<Call>, calls: seq<Call>, i: nat)
    requires Proper(at, |text|) && ReadUpTo(decode, text, at, all, calls, i) && i >= |text|
    ensures calls == all
  {
    assert calls + [] == calls;
  }

  /** The body of the loop: a payload that does not decode, or has no name, is passed over. */
  method ReadPayload(payload: string, decode: Decoder) returns (calls: seq<Call>)
    requires ObjectsFromBraces(decode) && payload != [] && payload[0] == '{'
    ensures calls == AsList(CallIn(decode, payload))
  {
    var decoded := decode(payload);
    if decoded.None? {
      return [];
    }
    var obj := decoded.value;
    var name := Get(obj, "name");
    if !Truthy(name) {
      return [];
    }
    var args := Get(obj, "arguments");
    if !args.Obj? {
      args := if args.Null? then Obj(map[]) else Obj(map["value" := args]);
    }
    return [Call(name, args)];
  }

  /** Every call read out has a name, and its arguments are an object. */
  lemma {:induction false} ReadCallsAreNamed(decode: Decoder, payloads: seq<string>, k: nat)
    requires k < |CallsIn(decode, payloads)|
    ensures Truthy(CallsIn(decode, payloads)[k].name) && CallsIn(decode, payloads)[k].arguments.Obj?
  {
    var head := CallIn(decode, payloads[0]);
    if head.None? {
      ReadCallsAreNamed(decode, payloads[1..], k);
    } else if k > 0 {
      ReadCallsAreNamed(decode, payloads[1..], k - 1);
    }
  }

  /** How the protocol asks the model to write a call. */
  function Wire(c: Call): Json {
    Obj(map["name" := c.name, "arguments" := c.arguments])
  }

  /** `decode` undoes `encode`, which writes objects without the closing tag. */
  ghost predicate Codec(encode: Json -> string, decode: Decoder, calls: seq<Call>) {
    forall c :: c in calls ==>
      GoodPayload(encode(Wire(c))) && decode(encode(Wire(c))) == Some(Wire(c))
  }

  /** The calls as they stand in a document. */
  ghost predicate Carries(d: Doc, encode: Json -> string, calls: seq<Call>) {
    match d
    case End(_) => calls == []
    case Then(_, _, payload, _, rest) =>
      calls != [] && payload == encode(Wire(calls[0])) && Carries(rest, encode, calls[1..])
  }

  lemma {:induction false} CarriedCallsAreRead(d: Doc, encode: Json -> string, decode: Decoder, calls: seq<Call>)
    requires Carries(d, encode, calls) && Codec(encode, decode, calls)
    requires forall c :: c in calls ==> Truthy(c.name) && c.arguments.Obj?
    ensures CallsIn(decode, DocPayloads(d)) == calls
    decreases d
  {
    match d {
      case End(_) =>
      case Then(_, _, payload, _, rest) =>
        CarriedCallsAreRead(rest, encode, decode, calls[1..]);
        CallsInCons(decode, payload, DocPayloads(rest));
        assert calls[0] in calls;
        assert CallIn(decode, payload) == Some(calls[0]);
        assert calls == [calls[0]] + calls[1..];
    }
  }

  /** The protocol round trip: calls written by the protocol between pieces of prose are read
      back exactly, in order, and what is left of the reply is the trimmed prose. */
  lemma ProtocolRoundTrip(d: Doc, encode: Json -> string, decode: Decoder, calls: seq<Call>)
    requires GoodDoc(d) && Carries(d, encode, calls) && Codec(encode, decode, calls)
    requires forall c :: c in calls ==> Truthy(c.name) && c.arguments.Obj?
    ensures CallsIn(decode, Payloads(Render(d))) == calls
    ensures StripToolCalls(Render(d)) == Trim(DocProse(d))
  {
    RenderRoundTrip(d);
    CarriedCallsAreRead(d, encode, decode, calls);
  }

  // ---------- one id per distinct call ----------

  type Canonical = Json -> string

  /** Lists and dictionaries cannot be in a key of `seen`. */
  predicate Hashable(name: Json) {
    !name.Arr? && !name.Obj?
  }

  /** A name as a member of a Python tuple: True is 1, False is 0. */
  function NameKey(name: Json): Json {
    if name.Bool? then Num(if name.b then 1.0 else 0.0) else name
  }

  function Key(canon: Canonical, c: Call): (Json, string) {
    (NameKey(c.name), canon(OrEmpty(c.arguments)))
  }

  // ---------- what makes two calls the same ----------

  /** The values Python takes for false. */
  predicate Falsy(j: Json) {
    j in {Null, Bool(false), Num(0.0), Str(""), Arr([]), Obj(map[])}
  }

  /** Equal in Python: the same value, or a truth value and the number it stands for. */
  predicate EqualNames(a: Json, b: Json) {
    || a == b
    || (a == Bool(true) && b == Num(1.0)) || (a == Num(1.0) && b == Bool(true))
    || (a == Bool(false) && b == Num(0.0)) || (a == Num(0.0) && b == Bool(false))
  }

  /** What a call's arguments are when it is handed on: missing or falsy ones are the empty object. */
  function HandedOn(arguments: Json): Json {
    if Falsy(arguments) then Obj(map[]) else arguments
  }

  /** The same tool with the same arguments, up to how they are written. */
  predicate SameCall(canon: Canonical, a: Call, b: Call) {
    EqualNames(a.name, b.name) && canon(HandedOn(a.arguments)) == canon(HandedOn(b.arguments))
  }

  lemma KeyIsCall(canon: Canonical, a: Call, b: Call)
    ensures Key(canon, a) == Key(canon, b) <==> SameCall(canon, a, b)
  {
  }

  datatype ToolCall = ToolCall(id: string, name: Json, arguments: Json)

  function IdOf(j: nat): string {
    "call_" + Decimal(j)
  }

  predicate Named(calls: seq<Call>, k: nat) {
    k < |calls| && !Falsy(calls[k].name)
  }

  /** A named call, and no named call before it is the same. */
  ghost predicate IsFirst(canon: Canonical, calls: seq<Call>, k: nat) {
    && Named(calls, k)
    && (forall i: nat :: i < k && Named(calls, i) ==> !SameCall(canon, calls[i], calls[k]))
  }

  /** `pos` lists, in order, the first occurrences among the first `n` calls. */
  ghost predicate ListsFirsts(canon: Canonical, calls: seq<Call>, n: nat, pos: seq<nat>) {
    && Ascending(pos)
    && (forall k: nat :: k in pos <==> k < n && IsFirst(canon, calls, k))
  }

  /** What comes out for the calls at `pos`: their names and arguments under the ids of their places. */
  ghost predicate Lists(out: seq<ToolCall>, calls: seq<Call>, pos: seq<nat>) {
    && |out| == |pos|
    && forall j :: 0 <= j < |pos| ==>
         && pos[j] < |calls|
         && out[j] == ToolCall("call_" + Decimal(j), calls[pos[j]].name, HandedOn(calls[pos[j]].arguments))
  }

  lemma OneMoreOut(out: seq<ToolCall>, calls: seq<Call>, pos: seq<nat>, n: nat)
    requires Lists(out, calls, pos) && n < |calls|
    ensures Lists(out + [ToolCall(IdOf(|out|), calls[n].name, OrEmpty(calls[n].arguments))], calls, pos + [n])
  {
  }

  /** The named calls among the first `n` have names that can be hashed. */
  ghost predicate AllHashable(calls: seq<Call>, n: nat)
    requires n <= |calls|
  {
    forall k: nat :: k < n && Named(calls, k) ==> !calls[k].name.Arr? && !calls[k].name.Obj?
  }

  /** `seen` holds the keys of the named calls among the first `n`. */
  ghost predicate HasSeen(canon: Canonical, calls: seq<Call>, n: nat, seen: set<(Json, string)>)
    requires n <= |calls|
  {
    && (forall k: nat :: k < n && Named(calls, k) ==> Key(canon, calls[k]) in seen)
    && (forall key :: key in seen ==> exists k: nat :: k < n && Named(calls, k) && Key(canon, calls[k]) == key)
  }

  lemma SeenBefore(canon: Canonical, calls: seq<Call>, n: nat, seen: set<(Json, string)>)
    requires n < |calls| && HasSeen(canon, calls, n, seen) && Named(calls, n)
    ensures Key(canon, calls[n]) in seen <==> !IsFirst(canon, calls, n)
    ensures HasSeen(canon, calls, n + 1, seen + {Key(canon, calls[n])})
  {
    forall k: nat | k < n && Named(calls, k)
      ensures Key(canon, calls[k]) == Key(canon, calls[n]) <==> SameCall(canon, calls[k], calls[n])
    {
      KeyIsCall(canon, calls[k], calls[n]);
    }
  }

  lemma NotNamed(canon: Canonical, calls: seq<Call>, n: nat, seen: set<(Json, string)>, pos: seq<nat>)
    requires n < |calls| && HasSeen(canon, calls, n, seen) && ListsFirsts(canon, calls, n, pos)
    requires !IsFirst(canon, calls, n) && (Named(calls, n) ==> Key(canon, calls[n]) in seen)
    ensures HasSeen(canon, calls, n + 1, seen) && ListsFirsts(canon, calls, n + 1, pos)
  {
  }

  /** The loop of `_bridge_run`. It raises TypeError for a name that cannot be hashed. */
  method Deduplicate(native: seq<Call>, text: seq<Call>, canon: Canonical)
    returns (r: Option<seq<ToolCall>>, ghost pos: seq<nat>)
    ensures r.None? <==>
      exists k: nat :: Named(native + text, k) && ((native + text)[k].name.Arr? || (native + text)[k].name.Obj?)
    ensures r.Some? ==>
      ListsFirsts(canon, native + text, |native + text|, pos) && Lists(r.value, native + text, pos)
  {
    var combined := native + text;
    var seen: set<(Json, string)> := {};
    var out: seq<ToolCall> := [];
    pos := [];
    var n := 0;
    while n < |combined|
      invariant 0 <= n <= |combined|
      invariant AllHashable(combined, n)
      invariant HasSeen(canon, combined, n, seen) && ListsFirsts(canon, combined, n, pos)
      invariant Lists(out, combined, pos)
    {
      var c := combined[n];
      if !Truthy(c.name) {
        NotNamed(canon, combined, n, seen, pos);
        n := n + 1;
        continue;
      }
      if !Hashable(c.name) {
        assert Named(combined, n);
        return None, pos;
      }
      var key := Key(canon, c);
      SeenBefore(canon, combined, n, seen);
      if key in seen {
        NotNamed(canon, combined, n, seen, pos);
        n := n + 1;
        continue;
      }
      seen := seen + {key};
      OneMoreOut(out, combined, pos, n);
      out := out + [ToolCall(IdOf(|out|), c.name, OrEmpty(c.arguments))];
      AppendFirst(canon, combined, n, pos);
      pos := pos + [n];
      n := n + 1;
    }
    r := Some(out);
  }

  lemma AppendFirst(canon: Canonical, calls: seq<Call>, n: nat, pos: seq<nat>)
    requires ListsFirsts(canon, calls, n, pos) && IsFirst(canon, calls, n)
    ensures ListsFirsts(canon, calls, n + 1, pos + [n])
  {
    forall i | 0 <= i < |pos| ensures pos[i] < n {
      assert pos[i] in pos;
    }
    forall k: nat ensures k in pos + [n] <==> k < n + 1 && IsFirst(canon, calls, k) {
    }
  }

  lemma SameAlong(canon: Canonical, a: Call, b: Call, c: Call)
    requires SameCall(canon, a, b) && SameCall(canon, b, c)
    ensures SameCall(canon, a, c) && SameCall(canon, b, a)
  {
    KeyIsCall(canon, a, b);
    KeyIsCall(canon, b, a);
    KeyIsCall(canon, b, c);
    KeyIsCall(canon, a, c);
  }

  lemma {:induction false} FirstOfKind(canon: Canonical, calls: seq<Call>, k: nat) returns (f: nat)
    requires Named(calls, k)
    ensures f <= k && IsFirst(canon, calls, f) && SameCall(canon, calls[f], calls[k])
  {
    KeyIsCall(canon, calls[k], calls[k]);
    if i: nat :| i < k && Named(calls, i) && SameCall(canon, calls[i], calls[k]) {
      f := FirstOfKind(canon, calls, i);
      SameAlong(canon, calls[f], calls[i], calls[k]);
    } else {
      f := k;
    }
  }

  /** Every named call has exactly one representative, which comes no later than the call. */
  lemma OneRepresentative(canon: Canonical, calls: seq<Call>, pos: seq<nat>, k: nat) returns (j: nat)
    requires ListsFirsts(canon, calls, |calls|, pos) && Named(calls, k)
    ensures j < |pos| && pos[j] <= k && Named(calls, pos[j]) && SameCall(canon, calls[pos[j]], calls[k])
    ensures forall i: nat :: i < |pos| && Named(calls, pos[i]) && SameCall(canon, calls[pos[i]], calls[k]) ==> i == j
  {
    var f := FirstOfKind(canon, calls, k);
    assert f in pos;
    j :| j < |pos| && pos[j] == f;
    forall i: nat | i < |pos| && Named(calls, pos[i]) && SameCall(canon, calls[pos[i]], calls[k])
      ensures i == j
    {
      SameFirst(canon, calls, pos, i, j, k);
    }
  }

  lemma SameFirst(canon: Canonical, calls: seq<Call>, pos: seq<nat>, i: nat, j: nat, k: nat)
    requires ListsFirsts(canon, calls, |calls|, pos) && i < |pos| && j < |pos| && k < |calls|
    requires Named(calls, pos[i]) && SameCall(canon, calls[pos[i]], calls[k])
    requires Named(calls, pos[j]) && SameCall(canon, calls[pos[j]], calls[k])
    ensures i == j
  {
    assert pos[i] in pos && pos[j] in pos;
    KeyIsCall(canon, calls[pos[i]], calls[k]);
    KeyIsCall(canon, calls[pos[j]], calls[k]);
    KeyIsCall(canon, calls[pos[i]], calls[pos[j]]);
    KeyIsCall(canon, calls[pos[j]], calls[pos[i]]);
    assert IsFirst(canon, calls, pos[i]) && IsFirst(canon, calls, pos[j]);
  }

  /** A named call is left out exactly when an earlier one has an equal name and the same canonical
      arguments. So calls of one tool whose arguments differ both come out. */
  lemma LeftOutExactly(canon: Canonical, calls: seq<Call>, pos: seq<nat>, k: nat)
    requires ListsFirsts(canon, calls, |calls|, pos) && Named(calls, k)
    ensures k !in pos <==> exists i: nat :: i < k && Named(calls, i) && SameCall(canon, calls[i], calls[k])
    ensures (forall i: nat :: i < k ==> canon(HandedOn(calls[i].arguments)) != canon(HandedOn(calls[k].arguments)))
              ==> k in pos
  {
  }

  /** No two calls in the reply share an id. */
  lemma IdsAreDistinct(i: nat, j: nat)
    requires IdOf(i) == IdOf(j)
    ensures i == j
  {
    assert IdOf(i)[5..] == Decimal(i) && IdOf(j)[5..] == Decimal(j);
    DecimalInjective(i, j);
  }
}
