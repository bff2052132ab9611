/** Repeated search in a text: what `finditer` and `sub` do with any way of matching. */
module TextScan {
  import opened Common

  /** A match: its group `text[first..last + 1]` and the position after it. */
  datatype Match = Match(first: nat, last: nat, end: nat)

  /** Matches begin before their group, which ends before they do, within the text. */
  ghost predicate Proper(at: nat -> Option<Match>, n: nat) {
    forall i: nat :: at(i).Some? ==> i < at(i).value.first <= at(i).value.last < at(i).value.end <= n
  }

  /** `finditer`: the groups of the non-overlapping matches from position `i` on. */
  ghost function Groups(text: string, at: nat -> Option<Match>, i: nat): seq<string>
    requires Proper(at, |text|)
    decreases |text| - i
  {
    if i >= |text| then []
    else
      match at(i)
      case None => Groups(text, at, i + 1)
      case Some(m) => [text[m.first..m.last + 1]] + Groups(text, at, m.end)
  }

  /** `sub("", …)`: the text from `i` on without those matches. */
  ghost function Without(text: string, at: nat -> Option<Match>, i: nat): string
    requires Proper(at, |text|)
    decreases |text| - i
  {
    if i >= |text| then []
    else
      match at(i)
      case None => [text[i]] + Without(text, at, i + 1)
      case Some(m) => Without(text, at, m.end)
  }

  /** The first position from `k` on, below `n`, that satisfies `p`. */
  function FirstWhere(p: nat -> bool, k: nat, n: nat): (r: Option<nat>)
    ensures r.Some? ==> k <= r.value < n && p(r.value)
    decreases n - k
  {
    if k >= n then None else if p(k) then Some(k) else FirstWhere(p, k + 1, n)
  }

  lemma {:induction false} FirstWhereIs(p: nat -> bool, k: nat, n: nat, m: nat)
    requires k <= m < n && p(m) && forall j :: k <= j < m ==> !p(j)
    ensures FirstWhere(p, k, n) == Some(m)
    decreases m - k
  {
    if k < m {
      FirstWhereIs(p, k + 1, n, m);
    }
  }

  lemma SkipOne(text: string, at: nat -> Option<Match>, i: nat)
    requires Proper(at, |text|) && i < |text| && at(i) == None
    ensures Groups(text, at, i) == Groups(text, at, i + 1)
    ensures Without(text, at, i) == [text[i]] + Without(text, at, i + 1)
  {
  }

  lemma {:induction false} SkipUnmatched(text: string, at: nat -> Option<Match>, i: nat, j: nat)
    requires Proper(at, |text|) && i <= j <= |text|
    requires forall k :: i <= k < j ==> at(k) == None
    ensures Groups(text, at, i) == Groups(text, at, j)
    ensures Without(text, at, i) == text[i..j] + Without(text, at, j)
    decreases j - i
  {
    if i < j {
      SkipUnmatched(text, at, i + 1, j);
      SkipOne(text, at, i);
      Associative([text[i]], text[i + 1..j], Without(text, at, j));
      assert text[i..j] == [text[i]] + text[i + 1..j];
    } else {
      assert text[i..j] == [];
    }
  }

  lemma ScanMatch(text: string, at: nat -> Option<Match>, i: nat, m: Match)
    requires Proper(at, |text|) && i < |text| && at(i) == Some(m)
    ensures Groups(text, at, i) == [text[m.first..m.last + 1]] + Groups(text, at, m.end)
    ensures Without(text, at, i) == Without(text, at, m.end)
  {
  }
}

/** The text protocol by which a model drives the caller's tools: finding `<tool_call>` blocks,
    stripping them, and deduplicating the calls. JSON values are opaque. */
module ToolBridge {
  import opened Common
  import opened Text
  import opened TextScan

  const OPEN := "<tool_call>"
  const CLOSE := "</tool_call>"

  // ---------- the regular expression ----------

  /** A payload may end at `k`: a closing brace, white space, the closing tag. */
  predicate EndsAt(text: string, k: nat) {
    k < |text| && text[k] == '}' && StartsWith(text, SkipSpace(text, k + 1), CLOSE)
  }

  function Ends(text: string): nat -> bool {
    (k: nat) => EndsAt(text, k)
  }

  /** The rest of a match whose payload would start at `first`: the lazy `.*?` stops at the
      first place where the payload may end. */
  function MatchPayload(text: string, first: nat): (m: Option<Match>)
    ensures m.Some? ==> first == m.value.first < m.value.last < m.value.end <= |text|
  {
    if first >= |text| || text[first] != '{' then None
    else
      match FirstWhere(Ends(text), first + 1, |text|)
      case None => None
      case Some(last) => Some(Match(first, last, SkipSpace(text, last + 1) + |CLOSE|))
  }

  function MatchAt(text: string, i: nat): (m: Option<Match>)
    ensures m.Some? ==> i < m.value.first < m.value.last < m.value.end <= |text|
  {
    if StartsWith(text, i, OPEN) then MatchPayload(text, SkipSpace(text, i + |OPEN|)) else None
  }

  function Matcher(text: string): nat -> Option<Match> {
    (i: nat) => MatchAt(text, i)
  }

  lemma MatcherIsProper(text: string)
    ensures Proper(Matcher(text), |text|)
  {
  }

  lemma MatchStartsWithBrace(text: string, i: nat)
    requires MatchAt(text, i).Some?
    ensures text[MatchAt(text, i).value.first] == '{'
  {
  }

  ghost function Payloads(text: string): seq<string> {
    MatcherIsProper(text);
    Groups(text, Matcher(text), 0)
  }

  ghost function StripToolCalls(text: string): string {
    MatcherIsProper(text);
    Trim(Without(text, Matcher(text), 0))
  }

  // ---------- documents of the protocol ----------

  /** Prose interleaved with rendered calls. */
  datatype Doc =
    | End(prose: string)
    | Then(prose: string, pad1: string, payload: string, pad2: string, rest: Doc)

  /** A JSON object's text that does not contain the closing tag. */
  predicate GoodPayload(s: string) {
    2 <= |s| && s[0] == '{' && s[|s| - 1] == '}' && !Contains(s, CLOSE)
  }

  predicate GoodDoc(d: Doc) {
    match d
    case End(prose) => !Contains(prose, OPEN)
    case Then(prose, pad1, payload, pad2, rest) =>
      !Contains(prose, OPEN) && AllSpace(pad1) && GoodPayload(payload) && AllSpace(pad2) && GoodDoc(rest)
  }

  function Block(pad1: string, payload: string, pad2: string): (block: string)
    ensures block == "<tool_call>" + pad1 + payload + pad2 + "</tool_call>"
  {
    OPEN + pad1 + payload + pad2 + CLOSE
  }

  function Render(d: Doc): string {
    match d
    case End(prose) => prose
    case Then(prose, pad1, payload, pad2, rest) => prose + Block(pad1, payload, pad2) + Render(rest)
  }

  function DocPayloads(d: Doc): seq<string> {
    match d
    case End(_) => []
    case Then(_, _, payload, _, rest) => [payload] + DocPayloads(rest)
  }

  function DocProse(d: Doc): string {
    match d
    case End(prose) => prose
    case Then(prose, _, _, _, rest) => prose + DocProse(rest)
  }

  // ---------- the round trip ----------

  lemma TagChar(text: string, i: nat, s: string, k: nat)
    requires StartsWith(text, i, s) && k < |s|
    ensures text[i + k] == s[k]
  {
    assert text[i + k] == text[i..i + |s|][k];
  }

  lemma TagInside(text: string, first: nat, end: nat, i: nat, s: string)
    requires first <= i && i + |s| <= end <= |text| && StartsWith(text, i, s)
    ensures Contains(text[first..end], s)
  {
    var w, j := text[first..end], i - first;
    forall k | 0 <= k < |s| ensures w[j + k] == s[k] {
      TagChar(text, i, s, k);
    }
    assert w[j..j + |s|] == s;
    assert StartsWith(w, j, s);
  }

  /** No payload end is seen inside the payload: the closing tag would have to contain the
      payload's last brace, or lie inside the payload. */
  lemma NoEarlierEnd(text: string, first: nat, last: nat, k: nat)
    requires first < k < last < |text| && text[last] == '}'
    requires !Contains(text[first..last + 1], CLOSE)
    ensures !EndsAt(text, k)
  {
    var q := SkipSpace(text, k + 1);
    assert !IsSpace(text[last]);
    assert q <= last;
    if StartsWith(text, q, CLOSE) {
      if q + |CLOSE| <= last + 1 {
        TagInside(text, first, last + 1, q, CLOSE);
      } else {
        TagChar(text, q, CLOSE, last - q);
      }
    }
  }

  /** `text` holds, from `at` on, an opening tag, white space, a payload, white space and a
      closing tag; the payload starts at `first` and ends at `last`, the block at `end`. */
  ghost predicate BlockAt(text: string, at: nat, first: nat, last: nat, end: nat) {
    && at + |OPEN| <= first < last < end <= |text|
    && StartsWith(text, at, OPEN)
    && (forall k :: at + |OPEN| <= k < first ==> IsSpace(text[k]))
    && GoodPayload(text[first..last + 1])
    && last + |CLOSE| < end
    && (forall k :: last < k < end - |CLOSE| ==> IsSpace(text[k]))
    && StartsWith(text, end - |CLOSE|, CLOSE)
  }

  lemma PayloadBraces(text: string, at: nat, first: nat, last: nat, end: nat)
    requires BlockAt(text, at, first, last, end)
    ensures text[first] == '{' && text[last] == '}' && !Contains(text[first..last + 1], CLOSE)
  {
    var payload := text[first..last + 1];
    assert payload[0] == text[first] && payload[last - first] == text[last];
  }

  lemma CloseFollows(text: string, at: nat, first: nat, last: nat, end: nat)
    requires BlockAt(text, at, first, last, end)
    ensures SkipSpace(text, last + 1) == end - |CLOSE|
  {
    TagChar(text, end - |CLOSE|, CLOSE, 0);
    SkipsExactly(text, last + 1, end - |CLOSE|);
  }

  lemma PayloadEndsAtLast(text: string, at: nat, first: nat, last: nat, end: nat)
    requires BlockAt(text, at, first, last, end)
    ensures FirstWhere(Ends(text), first + 1, |text|) == Some(last)
  {
    PayloadBraces(text, at, first, last, end);
    CloseFollows(text, at, first, last, end);
    var p := Ends(text);
    forall k | first < k < last ensures !p(k) {
      NoEarlierEnd(text, first, last, k);
    }
    assert p(last);
    FirstWhereIs(p, first + 1, |text|, last);
  }

  lemma PayloadMatches(text: string, at: nat, first: nat, last: nat, end: nat)
    requires BlockAt(text, at, first, last, end)
    ensures MatchPayload(text, first) == Some(Match(first, last, end))
    ensures !IsSpace(text[first])
  {
    PayloadBraces(text, at, first, last, end);
    CloseFollows(text, at, first, last, end);
    PayloadEndsAtLast(text, at, first, last, end);
  }

  /** A block matches as a whole, and its group is the payload. */
  lemma BlockMatches(text: string, at: nat, first: nat, last: nat, end: nat)
    requires BlockAt(text, at, first, last, end)
    ensures MatchAt(text, at) == Some(Match(first, last, end))
  {
    PayloadMatches(text, at, first, last, end);
    assert SkipSpace(text, at + |OPEN|) == first by {
      SkipsExactly(text, at + |OPEN|, first);
    }
  }

  lemma Middle(a: string, b: string, c: string)
    ensures (a + b + c)[|a|..|a| + |b|] == b
    ensures forall k :: |a| <= k < |a| + |b| ==> (a + b + c)[k] == b[k - |a|]
  {
  }

  /** The places of the pieces of a rendered block. */
  lemma RenderedPieces(pre: string, pad1: string, payload: string, pad2: string, post: string)
    ensures var text := pre + Block(pad1, payload, pad2) + post;
            && text == pre + OPEN + (pad1 + payload + pad2 + CLOSE + post)
            && text == (pre + OPEN) + pad1 + (payload + pad2 + CLOSE + post)
            && text == (pre + OPEN + pad1) + payload + (pad2 + CLOSE + post)
            && text == (pre + OPEN + pad1 + payload) + pad2 + (CLOSE + post)
            && text == (pre + OPEN + pad1 + payload + pad2) + CLOSE + post
  {
  }

  /** A rendered block is a block, wherever it stands. */
  lemma RenderedBlock(text: string, pre: string, pad1: string, payload: string, pad2: string, post: string)
    returns (first: nat, last: nat, end: nat)
    requires text == pre + Block(pad1, payload, pad2) + post
    requires AllSpace(pad1) && GoodPayload(payload) && AllSpace(pad2)
    ensures BlockAt(text, |pre|, first, last, end)
    ensures text[first..last + 1] == payload && end == |pre + Block(pad1, payload, pad2)|
  {
    first := |pre| + |OPEN| + |pad1|;
    last := first + |payload| - 1;
    end := |pre| + |Block(pad1, payload, pad2)|;
    RenderedPieces(pre, pad1, payload, pad2, post);
    Middle(pre, OPEN, pad1 + payload + pad2 + CLOSE + post);
    Middle(pre + OPEN, pad1, payload + pad2 + CLOSE + post);
    Middle(pre + OPEN + pad1, payload, pad2 + CLOSE + post);
    Middle(pre + OPEN + pad1 + payload, pad2, CLOSE + post);
    Middle(pre + OPEN + pad1 + payload + pad2, CLOSE, post);
  }

  /** What the proofs below need of the expression: it matches only at opening tags, and a
      block as a whole with the payload as its group. */
  ghost predicate MatchesBlocks(at: nat -> Option<Match>, text: string) {
    && Proper(at, |text|)
    && (forall i: nat :: !StartsWith(text, i, OPEN) ==> at(i) == None)
    && (forall i: nat, first: nat, last: nat, end: nat ::
          BlockAt(text, i, first, last, end) ==> at(i) == Some(Match(first, last, end)))
  }

  lemma MatcherMatchesBlocks(text: string)
    ensures MatchesBlocks(Matcher(text), text)
  {
    MatcherIsProper(text);
    forall i: nat, first: nat, last: nat, end: nat | BlockAt(text, i, first, last, end)
      ensures Matcher(text)(i) == Some(Match(first, last, end))
    {
      BlockMatches(text, i, first, last, end);
    }
  }

  /** In prose, and across its border to a block, no opening tag begins. */
  lemma NoTagInProse(pre: string, prose: string, post: string, i: nat)
    requires !Contains(prose, OPEN) && |pre| <= i < |pre| + |prose|
    requires post == [] || post[0] == '<'
    ensures !StartsWith(pre + prose + post, i, OPEN)
  {
    var text := pre + prose + post;
    if StartsWith(text, i, OPEN) {
      assert text[|pre|..|pre| + |prose|] == prose;
      if i + |OPEN| <= |pre| + |prose| {
        TagInside(text, |pre|, |pre| + |prose|, i, OPEN);
      } else {
        TagChar(text, i, OPEN, |pre| + |prose| - i);
      }
    }
  }

  lemma ScanProse(at: nat -> Option<Match>, text: string, pre: string, prose: string, post: string)
    requires text == pre + prose + post && MatchesBlocks(at, text)
    requires !Contains(prose, OPEN) && (post == [] || post[0] == '<')
    ensures Groups(text, at, |pre|) == Groups(text, at, |pre + prose|)
    ensures Without(text, at, |pre|) == prose + Without(text, at, |pre + prose|)
  {
    forall k | |pre| <= k < |pre| + |prose| ensures at(k) == None {
      NoTagInProse(pre, prose, post, k);
    }
    SkipUnmatched(text, at, |pre|, |pre| + |prose|);
    Middle(pre, prose, post);
  }

  lemma BlockAtMatches(at: nat -> Option<Match>, text: string, i: nat, first: nat, last: nat, end: nat)
    requires MatchesBlocks(at, text) && BlockAt(text, i, first, last, end)
    ensures at(i) == Some(Match(first, last, end)) && i < first < last < end <= |text|
  {
  }

  lemma ScanBlock(at: nat -> Option<Match>, text: string, i: nat, first: nat, last: nat, end: nat)
    requires MatchesBlocks(at, text) && BlockAt(text, i, first, last, end)
    ensures i < first < last < end <= |text|
    ensures Groups(text, at, i) == [text[first..last + 1]] + Groups(text, at, end)
    ensures Without(text, at, i) == Without(text, at, end)
  {
    BlockAtMatches(at, text, i, first, last, end);
    ScanMatch(text, at, i, Match(first, last, end));
  }

  lemma ScanRendered(at: nat -> Option<Match>, text: string, pre: string,
      pad1: string, payload: string, pad2: string, post: string)
    requires text == pre + Block(pad1, payload, pad2) + post && MatchesBlocks(at, text)
    requires AllSpace(pad1) && GoodPayload(payload) && AllSpace(pad2)
    ensures Groups(text, at, |pre|) == [payload] + Groups(text, at, |pre + Block(pad1, payload, pad2)|)
    ensures Without(text, at, |pre|) == Without(text, at, |pre + Block(pad1, payload, pad2)|)
  {
    var first, last, end := RenderedBlock(text, pre, pad1, payload, pad2, post);
    ScanBlock(at, text, |pre|, first, last, end);
  }

  lemma Regroup(a: string, b: string, c: string, d: string)
    ensures a + (b + c + d) == a + b + (c + d)
    ensures a + (b + c + d) == (a + b) + c + d
    ensures a + (b + c + d) == (a + b + c) + d
  {
  }

  lemma BlockStarts(pad1: string, payload: string, pad2: string, post: string)
    ensures (Block(pad1, payload, pad2) + post)[0] == '<'
  {
  }

  lemma {:induction false} ScanDoc(at: nat -> Option<Match>, text: string, pre: string, d: Doc)
    requires GoodDoc(d) && text == pre + Render(d) && MatchesBlocks(at, text)
    ensures Groups(text, at, |pre|) == DocPayloads(d)
    ensures Without(text, at, |pre|) == DocProse(d)
    decreases d
  {
    match d {
      case End(prose) =>
        assert text == pre + prose + [];
        ScanProse(at, text, pre, prose, []);
      case Then(prose, pad1, payload, pad2, rest) =>
        var tail := Render(rest);
        BlockStarts(pad1, payload, pad2, tail);
        ScanThen(at, text, pre, prose, pad1, payload, pad2, tail);
        ScanDoc(at, text, pre + prose + Block(pad1, payload, pad2), rest);
    }
  }

  lemma ScanThen(at: nat -> Option<Match>, text: string, pre: string, prose: string,
      pad1: string, payload: string, pad2: string, tail: string)
    requires text == pre + (prose + Block(pad1, payload, pad2) + tail) && MatchesBlocks(at, text)
    requires !Contains(prose, OPEN) && AllSpace(pad1) && GoodPayload(payload) && AllSpace(pad2)
    ensures var next := pre + prose + Block(pad1, payload, pad2);
            && text == next + tail
            && Groups(text, at, |pre|) == [payload] + Groups(text, at, |next|)
            && Without(text, at, |pre|) == prose + Without(text, at, |next|)
  {
    var block := Block(pad1, payload, pad2);
    Regroup(pre, prose, block, tail);
    BlockStarts(pad1, payload, pad2, tail);
    ScanProse(at, text, pre, prose, block + tail);
    ScanRendered(at, text, pre + prose, pad1, payload, pad2, tail);
  }

  /** Parsing a rendering gives back exactly the payloads in order, and stripping it gives
      exactly the trimmed prose. */
  lemma RenderRoundTrip(d: Doc)
    requires GoodDoc(d)
    ensures Payloads(Render(d)) == DocPayloads(d)
    ensures StripToolCalls(Render(d)) == Trim(DocProse(d))
  {
    var text := Render(d);
    MatcherMatchesBlocks(text);
    assert text == "" + text;
    ScanDoc(Matcher(text), text, "", d);
  }
}
