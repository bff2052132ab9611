/** Bark's splitting of a long text into segments at sentence boundaries. */
module Segmenter {
  import opened Common
  import opened Text

  predicate EndsSentence(c: char) {
    c == '.' || c == '!' || c == '?' || c == ';'
  }

  /** White space starts at `i` behind a sentence's mark. */
  predicate PieceEnds(text: string, i: nat)
    requires i < |text|
  {
    i > 0 && EndsSentence(text[i - 1]) && IsSpace(text[i])
  }

  /** `re.split(r"(?<=[.!?;])\s+", text)`, looking from `i` on for the end of the piece that
      starts at `start`. */
  function SplitFrom(text: string, start: nat, i: nat): (pieces: seq<string>)
    requires start <= i <= |text|
    ensures pieces != []
    decreases |text| - i
  {
    if i == |text| then [text[start..]]
    else if PieceEnds(text, i) then
      var next := SkipSpace(text, i);
      [text[start..i]] + SplitFrom(text, next, next)
    else SplitFrom(text, start, i + 1)
  }

  function Sentences(text: string): (pieces: seq<string>)
    ensures pieces != []
  {
    SplitFrom(text, 0, 0)
  }

  // ---------- which pieces a text has ----------

  predicate Mark(c: char) {
    c in {'.', '!', '?', ';'}
  }

  /** Inside a piece no white space follows a mark. */
  predicate Unbroken(piece: string) {
    forall k :: 0 < k < |piece| ==> !(Mark(piece[k - 1]) && IsSpace(piece[k]))
  }

  predicate EndsWithMark(piece: string) {
    piece != "" && Mark(piece[|piece| - 1])
  }

  predicate StartsWithSpace(piece: string) {
    piece != "" && IsSpace(piece[0])
  }

  predicate WhiteGap(gap: string) {
    gap != "" && AllSpace(gap)
  }

  /** Pieces with the white space between them: every piece but the last ends with a mark, and no piece
      but the first begins with white space. */
  predicate WellCut(pieces: seq<string>, gaps: seq<string>) {
    && |pieces| == |gaps| + 1 && Unbroken(pieces[0])
    && (gaps != [] ==>
          && EndsWithMark(pieces[0]) && WhiteGap(gaps[0]) && !StartsWithSpace(pieces[1])
          && WellCut(pieces[1..], gaps[1..]))
  }

  function Woven(pieces: seq<string>, gaps: seq<string>): string
    requires |pieces| == |gaps| + 1
  {
    if gaps == [] then pieces[0] else pieces[0] + (gaps[0] + Woven(pieces[1..], gaps[1..]))
  }

  lemma PieceEndsIs(text: string, i: nat)
    requires i < |text|
    ensures PieceEnds(text, i) <==> i > 0 && Mark(text[i - 1]) && IsSpace(text[i])
  {
  }

  lemma SpaceIsNoMark(c: char)
    requires IsSpace(c)
    ensures !Mark(c)
  {
  }

  /** Before `n` stands no mark. */
  predicate FreshAt(text: string, n: nat) {
    n <= |text| && (n > 0 ==> !Mark(text[n - 1]))
  }

  lemma {:induction false} PieceIsRead(text: string, start: nat, i: nat, end: nat)
    requires start <= i <= end <= |text| && FreshAt(text, start) && Unbroken(text[start..end])
    ensures SplitFrom(text, start, i) == SplitFrom(text, start, end)
    decreases end - i
  {
    if i < end {
      PieceEndsIs(text, i);
      if i > start {
        var piece := text[start..end];
        assert text[i - 1] == piece[i - start - 1] && text[i] == piece[i - start];
      }
      assert !PieceEnds(text, i);
      PieceIsRead(text, start, i + 1, end);
    }
  }

  /** Where the piece and the gap lie in the text. */
  lemma Places(text: string, n: nat, piece: string, gap: string, rest: string)
    requires n <= |text| && text[n..] == piece + (gap + rest)
    ensures var end, m := n + |piece|, n + |piece| + |gap|;
      m <= |text| && text[n..end] == piece && text[end..m] == gap && text[m..] == rest
  {
    var t := text[n..];
    assert t[..|piece|] == piece && t[|piece|..] == gap + rest && t[|piece|..][..|gap|] == gap;
    assert t[|piece|..][|gap|..] == rest;
  }

  lemma GapIsSkipped(text: string, end: nat, m: nat)
    requires end < m <= |text| && AllSpace(text[end..m]) && !StartsWithSpace(text[m..])
    ensures IsSpace(text[end]) && SkipSpace(text, end) == m && FreshAt(text, m)
  {
    var gap := text[end..m];
    forall k | end <= k < m ensures IsSpace(text[k]) {
      assert IsSpace(gap[k - end]) && gap[k - end] == text[k];
    }
    assert m < |text| ==> text[m] == text[m..][0];
    SkipsExactly(text, end, m);
    SpaceIsNoMark(text[m - 1]);
  }

  /** A piece, the gap behind it, and what comes then. */
  lemma PieceThenGap(text: string, n: nat, piece: string, gap: string, rest: string)
    requires FreshAt(text, n) && text[n..] == piece + (gap + rest)
    requires EndsWithMark(piece) && Unbroken(piece) && WhiteGap(gap) && !StartsWithSpace(rest)
    ensures var m := n + |piece| + |gap|;
      FreshAt(text, m) && text[m..] == rest && SplitFrom(text, n, n) == [piece] + SplitFrom(text, m, m)
  {
    var end, m := n + |piece|, n + |piece| + |gap|;
    Places(text, n, piece, gap, rest);
    PieceIsRead(text, n, n, end);
    GapIsSkipped(text, end, m);
    assert text[end - 1] == text[n..end][|piece| - 1];
    PieceEndsIs(text, end);
  }

  lemma {:induction false} CutsAt(text: string, n: nat, pieces: seq<string>, gaps: seq<string>)
    requires WellCut(pieces, gaps) && FreshAt(text, n) && text[n..] == Woven(pieces, gaps)
    ensures SplitFrom(text, n, n) == pieces
    decreases |pieces|
  {
    if gaps == [] {
      assert text[n..|text|] == pieces[0];
      PieceIsRead(text, n, n, |text|);
    } else {
      WovenStarts(pieces[1..], gaps[1..]);
      PieceThenGap(text, n, pieces[0], gaps[0], Woven(pieces[1..], gaps[1..]));
      CutsAt(text, n + |pieces[0]| + |gaps[0]|, pieces[1..], gaps[1..]);
    }
  }

  lemma WovenStarts(pieces: seq<string>, gaps: seq<string>)
    requires WellCut(pieces, gaps)
    ensures StartsWithSpace(Woven(pieces, gaps)) ==> StartsWithSpace(pieces[0])
  {
  }

  /** A text written as pieces with gaps is split into exactly those pieces. */
  lemma SentencesRoundTrip(pieces: seq<string>, gaps: seq<string>)
    requires WellCut(pieces, gaps)
    ensures Sentences(Woven(pieces, gaps)) == pieces
  {
    var text := Woven(pieces, gaps);
    assert text[0..] == text;
    CutsAt(text, 0, pieces, gaps);
  }

  lemma UnbrokenGrows(text: string, start: nat, i: nat)
    requires start <= i < |text| && Unbroken(text[start..i]) && !PieceEnds(text, i)
    ensures Unbroken(text[start..i + 1])
  {
    var shorter, piece := text[start..i], text[start..i + 1];
    PieceEndsIs(text, i);
    forall k | 0 < k < |piece| ensures !(Mark(piece[k - 1]) && IsSpace(piece[k])) {
      if k < i - start {
        assert piece[k - 1] == shorter[k - 1] && piece[k] == shorter[k];
      }
    }
  }

  /** The pieces from `start` on begin as the text does there. */
  predicate BeginsAt(text: string, start: nat, pieces: seq<string>) {
    && start <= |text| && pieces != []
    && (StartsWithSpace(pieces[0]) ==> start < |text| && IsSpace(text[start]))
  }

  lemma OnlyPiece(text: string, start: nat)
    requires start <= |text| && Unbroken(text[start..|text|])
    ensures WellCut([text[start..]], []) && Woven([text[start..]], []) == text[start..]
    ensures BeginsAt(text, start, [text[start..]])
  {
    assert text[start..|text|] == text[start..];
  }

  lemma OnePieceMore(text: string, start: nat, i: nat, next: nat, pieces: seq<string>, gaps: seq<string>)
    requires start < i < next <= |text| && Mark(text[i - 1]) && Unbroken(text[start..i])
    requires AllSpace(text[i..next]) && (next < |text| ==> !IsSpace(text[next]))
    requires WellCut(pieces, gaps) && Woven(pieces, gaps) == text[next..] && BeginsAt(text, next, pieces)
    ensures WellCut([text[start..i]] + pieces, [text[i..next]] + gaps)
    ensures Woven([text[start..i]] + pieces, [text[i..next]] + gaps) == text[start..]
    ensures BeginsAt(text, start, [text[start..i]] + pieces)
  {
    var piece, ps, gs := text[start..i], [text[start..i]] + pieces, [text[i..next]] + gaps;
    assert ps[1..] == pieces && gs[1..] == gaps;
    assert piece[|piece| - 1] == text[i - 1] && piece[0] == text[start];
    assert text[start..] == text[start..i] + (text[i..next] + text[next..]);
  }

  lemma {:induction false} GapsFrom(text: string, start: nat, i: nat) returns (gaps: seq<string>)
    requires start <= i <= |text| && FreshAt(text, start) && Unbroken(text[start..i])
    ensures var pieces := SplitFrom(text, start, i);
      WellCut(pieces, gaps) && Woven(pieces, gaps) == text[start..] && BeginsAt(text, start, pieces)
    decreases |text| - i
  {
    if i == |text| {
      gaps := [];
      OnlyPiece(text, start);
    } else if PieceEnds(text, i) {
      var next := SkipSpace(text, i);
      PieceEndsIs(text, i);
      SpaceIsNoMark(text[next - 1]);
      var rest := GapsFrom(text, next, next);
      gaps := [text[i..next]] + rest;
      OnePieceMore(text, start, i, next, SplitFrom(text, next, next), rest);
    } else {
      UnbrokenGrows(text, start, i);
      gaps := GapsFrom(text, start, i + 1);
    }
  }

  /** Every text is pieces with gaps, and its split gives them. */
  lemma SentencesAreCut(text: string) returns (gaps: seq<string>)
    ensures WellCut(Sentences(text), gaps) && Woven(Sentences(text), gaps) == text
  {
    gaps := GapsFrom(text, 0, 0);
    assert text[0..] == text;
  }

  // ---------- the loop ----------

  predicate Fits(current: string, sentence: string, maxChars: int) {
    |current| + |sentence| + 1 <= maxChars
  }

  function Extend(current: string, sentence: string): string {
    if current != "" then Trim(current + " " + sentence) else sentence
  }

  /** The segments still to come, with `current` open and `sentences` unread. */
  ghost function Pack(current: string, sentences: seq<string>, maxChars: int): seq<string>
    decreases |sentences|
  {
    if sentences == [] then Closed(current)
    else if Fits(current, sentences[0], maxChars) then
      Pack(Extend(current, sentences[0]), sentences[1..], maxChars)
    else Closed(current) + Pack(sentences[0], sentences[1..], maxChars)
  }

  ghost function Closed(current: string): seq<string> {
    if current != "" then [current] else []
  }

  ghost function Segments(text: string, maxChars: int): seq<string> {
    if |text| <= maxChars then [text]
    else
      var packed := Pack("", Sentences(text), maxChars);
      if packed != [] then packed else [text]
  }

  /** What one round of the loop does. */
  lemma PackStep(segments: seq<string>, current: string, sentences: seq<string>, i: nat, maxChars: int)
    requires i < |sentences|
    ensures var sentence, rest := sentences[i], sentences[i + 1..];
      segments + Pack(current, sentences[i..], maxChars)
        == if Fits(current, sentence, maxChars) then segments + Pack(Extend(current, sentence), rest, maxChars)
           else segments + Closed(current) + Pack(sentence, rest, maxChars)
  {
    var sentence, rest := sentences[i], sentences[i + 1..];
    assert sentences[i..][0] == sentence && sentences[i..][1..] == rest;
    Associative(segments, Closed(current), Pack(sentence, rest, maxChars));
  }

  /** `_split_text`. */
  method SplitText(text: string, maxChars: int) returns (segments: seq<string>)
    ensures segments == Segments(text, maxChars)
  {
    if |text| <= maxChars {
      return [text];
    }
    segments := [];
    var current := "";
    var sentences := Sentences(text);
    var i := 0;
    assert sentences[0..] == sentences;
    while i < |sentences|
      invariant 0 <= i <= |sentences|
      invariant Pack("", sentences, maxChars) == segments + Pack(current, sentences[i..], maxChars)
    {
      var sentence := sentences[i];
      PackStep(segments, current, sentences, i, maxChars);
      if Fits(current, sentence, maxChars) {
        current := if current != "" then Trim(current + " " + sentence) else sentence;
      } else {
        if current != "" {
          segments := segments + [current];
        }
        current := sentence;
      }
      i := i + 1;
    }
    if current != "" {
      segments := segments + [current];
    }
    if segments == [] {
      segments := [text];
    }
  }

  // ---------- nothing is lost or reordered ----------

  lemma InkOfConcat(head: string, tail: seq<string>)
    ensures Concat([head] + tail) == head + Concat(tail)
    ensures Ink(Concat([head] + tail)) == Ink(head) + Ink(Concat(tail))
  {
    ConcatCons(head, tail);
    InkConcat(head, Concat(tail));
  }

  lemma InkOfClosed(current: string, rest: seq<string>)
    ensures Ink(Concat(Closed(current) + rest)) == Ink(current) + Ink(Concat(rest))
  {
    if current != "" {
      InkOfConcat(current, rest);
    } else {
      assert Closed(current) + rest == rest;
    }
  }

  lemma {:induction false} InkOfPack(current: string, sentences: seq<string>, maxChars: int)
    ensures Ink(Concat(Pack(current, sentences, maxChars))) == Ink(current) + Ink(Concat(sentences))
    decreases |sentences|
  {
    if sentences == [] {
      InkOfClosed(current, []);
      assert Closed(current) + [] == Closed(current);
    } else {
      var head, tail := sentences[0], sentences[1..];
      assert sentences == [head] + tail;
      InkOfConcat(head, tail);
      var a, b, c := Ink(current), Ink(head), Ink(Concat(tail));
      assert (a + b) + c == a + (b + c);
      if Fits(current, head, maxChars) {
        InkOfPack(Extend(current, head), tail, maxChars);
        InkOfExtend(current, head);
      } else {
        InkOfPack(head, tail, maxChars);
        InkOfClosed(current, Pack(head, tail, maxChars));
      }
    }
  }

  lemma InkOfExtend(current: string, sentence: string)
    ensures Ink(Extend(current, sentence)) == Ink(current) + Ink(sentence)
  {
    if current != "" {
      InkOfTrim(current + " " + sentence);
      InkConcat(current + " ", sentence);
      InkConcat(current, " ");
      InkOfSpace(" ");
      assert Ink(current) + [] == Ink(current);
    }
  }

  lemma InkAcrossGap(text: string, start: nat, i: nat, next: nat)
    requires start <= i <= next <= |text|
    requires forall k :: i <= k < next ==> IsSpace(text[k])
    ensures Ink(text[start..]) == Ink(text[start..i]) + Ink(text[next..])
  {
    var gap := text[i..next];
    InkOfSpace(gap);
    InkConcat(gap, text[next..]);
    InkConcat(text[start..i], gap + text[next..]);
    assert text[i..] == gap + text[next..];
    assert text[start..] == text[start..i] + text[i..];
  }

  lemma {:induction false} InkOfSplit(text: string, start: nat, i: nat)
    requires start <= i <= |text|
    ensures Ink(Concat(SplitFrom(text, start, i))) == Ink(text[start..])
    decreases |text| - i
  {
    if i == |text| {
      InkOfConcat(text[start..], []);
      assert [text[start..]] + [] == [text[start..]];
      assert text[start..] + "" == text[start..];
    } else if PieceEnds(text, i) {
      var next := SkipSpace(text, i);
      InkOfSplit(text, next, next);
      InkOfConcat(text[start..i], SplitFrom(text, next, next));
      InkAcrossGap(text, start, i, next);
    } else {
      InkOfSplit(text, start, i + 1);
    }
  }

  /** For every text and limit, the segments hold exactly the text's characters in order,
      white space aside. */
  lemma NothingIsLost(text: string, maxChars: int)
    ensures Ink(Concat(Segments(text, maxChars))) == Ink(text)
  {
    InkOfConcat(text, []);
    assert [text] + [] == [text];
    InkOfPack("", Sentences(text), maxChars);
    InkOfSplit(text, 0, 0);
    assert text[0..] == text;
  }

  // ---------- the limit ----------

  lemma {:induction false} PackIsBounded(current: string, sentences: seq<string>, maxChars: int, k: nat)
    requires |current| <= maxChars || current in sentences || current == ""
    requires k < |Pack(current, sentences, maxChars)|
    ensures var segment := Pack(current, sentences, maxChars)[k];
      segment != "" && (|segment| <= maxChars || segment in sentences)
    decreases |sentences|
  {
    BoundedWith(current, sentences, sentences, maxChars, k);
  }

  lemma {:induction false} BoundedWith(current: string, sentences: seq<string>, all: seq<string>, maxChars: int, k: nat)
    requires |current| <= maxChars || current in all || current == ""
    requires forall s :: s in sentences ==> s in all
    requires k < |Pack(current, sentences, maxChars)|
    ensures var segment := Pack(current, sentences, maxChars)[k];
      segment != "" && (|segment| <= maxChars || segment in all)
    decreases |sentences|
  {
    if sentences != [] {
      var head, tail := sentences[0], sentences[1..];
      if Fits(current, head, maxChars) {
        BoundedWith(Extend(current, head), tail, all, maxChars, k);
      } else if current == "" {
        BoundedWith(head, tail, all, maxChars, k);
      } else if k > 0 {
        BoundedWith(head, tail, all, maxChars, k - 1);
      }
    }
  }

  lemma {:induction false} BlankIsOnePiece(text: string, i: nat)
    requires i <= |text| && AllSpace(text)
    ensures SplitFrom(text, 0, i) == [text]
    decreases |text| - i
  {
    if i == |text| {
      assert text[0..] == text;
    } else {
      BlankIsOnePiece(text, i + 1);
    }
  }

  /** Every segment of a text that is split is within the limit or one whole sentence. */
  lemma SegmentsAreBounded(text: string, maxChars: int, k: nat)
    requires k < |Segments(text, maxChars)|
    ensures var segment := Segments(text, maxChars)[k];
      |segment| <= maxChars || segment in Sentences(text)
  {
    if |text| > maxChars {
      if Pack("", Sentences(text), maxChars) != [] {
        PackIsBounded("", Sentences(text), maxChars, k);
      } else {
        NothingIsPacked(text, maxChars);
        BlankIsOnePiece(text, 0);
      }
    }
  }

  lemma NothingIsPacked(text: string, maxChars: int)
    requires Pack("", Sentences(text), maxChars) == []
    ensures AllSpace(text)
  {
    InkOfPack("", Sentences(text), maxChars);
    InkOfSplit(text, 0, 0);
    assert text[0..] == text;
    NoInkIsSpace(text);
  }

  // ---------- no grouping uses fewer segments ----------

  /** A sentence as it should be: not empty, no white space around it. */
  predicate Clean(s: string) {
    s != "" && Trimmed(s)
  }

  predicate AllClean(sentences: seq<string>) {
    forall s :: s in sentences ==> Clean(s)
  }

  lemma {:induction false} SplitIsClean(text: string, start: nat, i: nat)
    requires text != "" && Trimmed(text)
    requires start <= i < |text| && !IsSpace(text[start])
    ensures AllClean(SplitFrom(text, start, i))
    decreases |text| - i
  {
    if PieceEnds(text, i) {
      var next := SkipSpace(text, i);
      SplitIsClean(text, next, next);
      assert Clean(text[start..i]);
    } else if i + 1 < |text| {
      SplitIsClean(text, start, i + 1);
    } else {
      assert SplitFrom(text, start, i + 1) == [text[start..]];
    }
  }

  /** The sentences of a text without white space around it are clean. */
  lemma SentencesAreClean(text: string)
    requires Clean(text)
    ensures AllClean(Sentences(text))
  {
    SplitIsClean(text, 0, 0);
  }

  lemma ExtendIsJoin(current: string, sentence: string)
    requires Clean(current) && Clean(sentence)
    ensures Extend(current, sentence) == current + " " + sentence
    ensures Clean(Extend(current, sentence))
  {
    TrimKeepsTrimmed(current + " " + sentence);
  }

  lemma LastSentence(current: string, sentence: string, maxChars: int)
    requires Ink(current) != ""
    ensures |Pack(current, [sentence], maxChars)|
         == if Fits(current, sentence, maxChars) || sentence == "" then 1 else 2
  {
    InkOfExtend(current, sentence);
    assert [sentence][1..] == [];
  }

  lemma CleanHasInk(s: string)
    requires Clean(s)
    ensures Ink(s) != ""
  {
    InkConcat([s[0]], s[1..]);
    assert s == [s[0]] + s[1..];
  }

  /** With any two open segments, packing the same sentences ends within one segment of each
      other, and a shorter open segment never ends with more. */
  lemma {:induction false} PackAhead(a: string, b: string, sentences: seq<string>, maxChars: int)
    requires Clean(a) && Clean(b) && AllClean(sentences)
    ensures |Pack(a, sentences, maxChars)| <= 1 + |Pack(b, sentences, maxChars)|
    ensures |a| <= |b| ==> |Pack(a, sentences, maxChars)| <= |Pack(b, sentences, maxChars)|
    decreases |sentences|
  {
    if sentences != [] {
      var head, tail := sentences[0], sentences[1..];
      ExtendIsJoin(a, head);
      ExtendIsJoin(b, head);
      var a' := if Fits(a, head, maxChars) then Extend(a, head) else head;
      var b' := if Fits(b, head, maxChars) then Extend(b, head) else head;
      PackAhead(a', b', tail, maxChars);
    }
  }

  /** A group of sentences joined by single spaces. */
  function Join(group: seq<string>): string
    requires group != []
  {
    if |group| == 1 then group[0] else Join(group[..|group| - 1]) + " " + group[|group| - 1]
  }

  /** A group is one sentence, or fits within the limit. */
  predicate ValidGroup(group: seq<string>, maxChars: int) {
    group != [] && (|group| == 1 || |Join(group)| <= maxChars)
  }

  predicate ValidGrouping(groups: seq<seq<string>>, maxChars: int) {
    forall g :: g in groups ==> ValidGroup(g, maxChars)
  }

  /** `groups` cut `sentences` into valid groups, in order. */
  ghost predicate Groups(groups: seq<seq<string>>, sentences: seq<string>, maxChars: int) {
    ValidGrouping(groups, maxChars) && Concat(groups) == sentences
  }

  /** Such a grouping with the fewest groups. */
  ghost predicate FewestGroups(groups: seq<seq<string>>, sentences: seq<string>, maxChars: int) {
    && Groups(groups, sentences, maxChars)
    && forall other :: Groups(other, sentences, maxChars) ==> |groups| <= |other|
  }

  lemma {:induction false} JoinIsClean(group: seq<string>)
    requires group != [] && AllClean(group)
    ensures Clean(Join(group))
  {
    if |group| > 1 {
      var init, last := group[..|group| - 1], group[|group| - 1];
      JoinIsClean(init);
      ExtendIsJoin(Join(init), last);
    }
  }

  /** The packing reads the whole rest of a group that fits into the open segment. */
  lemma {:induction false} PackReadsGroup(open: seq<string>, unread: seq<string>, rest: seq<string>, maxChars: int)
    requires open != [] && AllClean(open + unread)
    requires unread == [] || |Join(open + unread)| <= maxChars
    ensures Pack(Join(open), unread + rest, maxChars) == Pack(Join(open + unread), rest, maxChars)
    decreases |unread|
  {
    if unread == [] {
      assert open + unread == open && unread + rest == rest;
    } else {
      var head, tail := unread[0], unread[1..];
      var grown := open + [head];
      assert grown + tail == open + unread && (unread + rest)[1..] == tail + rest;
      PackReadsGroup(grown, tail, rest, maxChars);
      CleanParts(open, unread);
      assert head in unread;
      JoinGrows(open + unread, |grown|);
      JoinOneMore(open, head, tail);
      assert Fits(Join(open), head, maxChars);
    }
  }

  lemma JoinOneMore(open: seq<string>, head: string, tail: seq<string>)
    requires open != [] && AllClean(open) && Clean(head)
    ensures (open + [head] + tail)[..|open| + 1] == open + [head]
    ensures Join(open + [head]) == Join(open) + " " + head == Extend(Join(open), head)
    ensures AllClean(open + [head])
  {
    var grown := open + [head];
    assert grown[..|grown| - 1] == open && grown[|grown| - 1] == head;
    assert (grown + tail)[..|grown|] == grown;
    JoinIsClean(open);
    ExtendIsJoin(Join(open), head);
  }

  lemma CleanParts(a: seq<string>, b: seq<string>)
    requires AllClean(a + b)
    ensures AllClean(a) && AllClean(b)
  {
    forall s | s in a || s in b ensures Clean(s) {
      assert s in a + b;
    }
  }

  lemma {:induction false} JoinGrows(group: seq<string>, n: nat)
    requires 1 <= n <= |group|
    ensures |Join(group[..n])| <= |Join(group)|
    decreases |group|
  {
    if n == |group| {
      assert group[..n] == group;
    } else {
      var init := group[..|group| - 1];
      JoinGrows(init, n);
      assert init[..n] == group[..n];
    }
  }

  /** No valid grouping of the same sentences, kept in order, has fewer groups than the
      packing has segments. */
  lemma {:induction false} PackingIsOptimal(groups: seq<seq<string>>, maxChars: int)
    requires ValidGrouping(groups, maxChars) && AllClean(Concat(groups))
    ensures |Pack("", Concat(groups), maxChars)| <= |groups|
  {
    if groups != [] {
      var group, rest := groups[0], Concat(groups[1..]);
      assert AllClean(group) by {
        forall s | s in group ensures Clean(s) { assert s in Concat(groups); }
      }
      assert AllClean(rest) by {
        forall s | s in rest ensures Clean(s) { assert s in Concat(groups); }
      }
      PackingIsOptimal(groups[1..], maxChars);
      assert ValidGroup(group, maxChars) by { assert group in groups; }
      PackStartsGroup(group, rest, maxChars);
      JoinIsClean(group);
      ClosingCostsOne(Join(group), rest, maxChars);
    }
  }

  lemma PackStartsGroup(group: seq<string>, rest: seq<string>, maxChars: int)
    requires AllClean(group) && ValidGroup(group, maxChars)
    ensures Pack("", group + rest, maxChars) == Pack(Join(group), rest, maxChars)
  {
    var head, tail := group[0], group[1..];
    assert group == [head] + tail && (group + rest)[1..] == tail + rest;
    PackReadsGroup([head], tail, rest, maxChars);
    assert Pack("", group + rest, maxChars) == Pack(head, tail + rest, maxChars);
  }

  lemma ClosingCostsOne(current: string, sentences: seq<string>, maxChars: int)
    requires Clean(current) && AllClean(sentences)
    ensures |Pack(current, sentences, maxChars)| <= 1 + |Pack("", sentences, maxChars)|
  {
    if sentences != [] {
      var head, tail := sentences[0], sentences[1..];
      assert Pack("", sentences, maxChars) == Pack(head, tail, maxChars);
      ExtendIsJoin(current, head);
      PackAhead(if Fits(current, head, maxChars) then Extend(current, head) else head, head, tail, maxChars);
    }
  }

  /** The packing is itself such a grouping: `groups[k]` joined is segment `k`. */
  lemma {:induction false} PackingIsValid(open: seq<string>, sentences: seq<string>, maxChars: int)
    returns (groups: seq<seq<string>>)
    requires open != [] && AllClean(open) && AllClean(sentences) && ValidGroup(open, maxChars)
    ensures Groups(groups, open + sentences, maxChars)
    ensures JoinedAre(groups, Pack(Join(open), sentences, maxChars))
    decreases |sentences|
  {
    JoinIsClean(open);
    if sentences == [] {
      groups := [open];
      ConcatCons(open, []);
      assert [open] + [] == [open] && open + [] == open;
    } else {
      var head, tail := sentences[0], sentences[1..];
      assert sentences == [head] + tail;
      CleanParts([head], tail);
      assert head in [head];
      if Fits(Join(open), head, maxChars) {
        JoinOneMore(open, head, []);
        groups := PackingIsValid(open + [head], tail, maxChars);
        Associative(open, [head], tail);
      } else {
        var rest := PackingIsValid([head], tail, maxChars);
        groups := [open] + rest;
        ClosedGroup(open, head, tail, rest, maxChars);
      }
    }
  }

  /** A group that is closed stands before the groups that follow. */
  lemma ClosedGroup(open: seq<string>, head: string, tail: seq<string>, rest: seq<seq<string>>, maxChars: int)
    requires open != [] && AllClean(open) && ValidGroup(open, maxChars) && !Fits(Join(open), head, maxChars)
    requires ValidGrouping(rest, maxChars) && Concat(rest) == [head] + tail
    requires JoinedAre(rest, Pack(head, tail, maxChars))
    ensures ValidGrouping([open] + rest, maxChars) && Concat([open] + rest) == open + ([head] + tail)
    ensures JoinedAre([open] + rest, Pack(Join(open), [head] + tail, maxChars))
  {
    JoinIsClean(open);
    ConcatCons(open, rest);
    JoinedOneMore(open, rest, Pack(head, tail, maxChars));
    assert ([head] + tail)[1..] == tail;
    assert Pack(Join(open), [head] + tail, maxChars) == [Join(open)] + Pack(head, tail, maxChars);
  }

  lemma JoinedOneMore(group: seq<string>, rest: seq<seq<string>>, segments: seq<string>)
    requires group != [] && JoinedAre(rest, segments)
    ensures JoinedAre([group] + rest, [Join(group)] + segments)
  {
  }

  /** `segments[k]` is group `k` joined. */
  ghost predicate JoinedAre(groups: seq<seq<string>>, segments: seq<string>) {
    && |segments| == |groups|
    && forall k :: 0 <= k < |groups| ==> groups[k] != [] && segments[k] == Join(groups[k])
  }

  lemma NoneHasFewer(clean: seq<string>, size: nat, maxChars: int)
    requires AllClean(clean) && |Pack("", clean, maxChars)| == size
    ensures forall other :: Groups(other, clean, maxChars) ==> size <= |other|
  {
    forall other | Groups(other, clean, maxChars) ensures size <= |other| {
      PackingIsOptimal(other, maxChars);
    }
  }

  /** The packing is such a grouping with the fewest groups. */
  lemma PackingIsFewest(clean: seq<string>, maxChars: int) returns (best: seq<seq<string>>)
    requires clean != [] && AllClean(clean)
    ensures FewestGroups(best, clean, maxChars) && JoinedAre(best, Pack("", clean, maxChars))
  {
    var first, rest := clean[0], clean[1..];
    assert clean == [first] + rest;
    CleanParts([first], rest);
    assert Pack("", clean, maxChars) == Pack(Join([first]), rest, maxChars);
    best := PackingIsValid([first], rest, maxChars);
    NoneHasFewer(clean, |best|, maxChars);
  }

  /** The split of a text without white space around it: the fewest valid groups of its sentences,
      in order, each joined. */
  lemma SplitIsOptimal(text: string, maxChars: int) returns (groups: seq<seq<string>>)
    requires Clean(text) && |text| > maxChars
    ensures FewestGroups(groups, Sentences(text), maxChars) && JoinedAre(groups, Segments(text, maxChars))
  {
    SentencesAreClean(text);
    groups := PackingIsFewest(Sentences(text), maxChars);
  }

  // ---------- texts with white space around them ----------

  lemma TrimSplits(text: string) returns (before: string, after: string)
    requires Trim(text) != ""
    ensures text == before + Trim(text) + after && AllSpace(before) && AllSpace(after) && Clean(Trim(text))
  {
    var j := SkipSpace(text, 0);
    var rest := text[j..];
    before, after := text[..j], rest[|TrimRight(rest)|..];
    assert text == before + rest && rest == TrimRight(rest) + after;
    assert Trim(text)[0] == rest[0];
  }

  /** The split looks for the end of a piece regardless of where the piece began. */
  lemma {:induction false} EarlierStart(text: string, a: nat, b: nat, i: nat)
    requires a <= b <= i <= |text|
    ensures var q := SplitFrom(text, b, i); SplitFrom(text, a, i) == [text[a..b] + q[0]] + q[1..]
    decreases |text| - i
  {
    if i == |text| {
      assert text[a..] == text[a..b] + text[b..];
    } else if PieceEnds(text, i) {
      assert text[a..i] == text[a..b] + text[b..i];
    } else {
      EarlierStart(text, a, b, i + 1);
    }
  }

  lemma SkipSpaceShifted(text: string, n: nat, t: string, i: nat)
    requires n <= |text| && t == text[n..] && i <= |t|
    ensures SkipSpace(text, n + i) == n + SkipSpace(t, i)
  {
    var j := SkipSpace(t, i);
    assert forall k :: n <= k < |text| ==> text[k] == t[k - n];
    SkipsExactly(text, n + i, n + j);
  }

  lemma PieceEndsShifted(text: string, n: nat, t: string, i: nat)
    requires n <= |text| && t == text[n..] && i < |t| && !IsSpace(t[0])
    ensures PieceEnds(text, n + i) == PieceEnds(t, i)
  {
  }

  /** From its first sentence on, a text is split as if nothing stood before it. */
  lemma {:induction false} SplitShifted(text: string, n: nat, t: string, start: nat, i: nat)
    requires n <= |text| && t == text[n..] && start <= i <= |t| && t != "" && !IsSpace(t[0])
    ensures SplitFrom(text, n + start, n + i) == SplitFrom(t, start, i)
    decreases |t| - i
  {
    if i == |t| {
      assert text[n + start..] == t[start..];
    } else {
      PieceEndsShifted(text, n, t, i);
      if PieceEnds(t, i) {
        var next := SkipSpace(t, i);
        SkipSpaceShifted(text, n, t, i);
        SplitShifted(text, n, t, next, next);
        assert text[n + start..n + i] == t[start..i];
      } else {
        SplitShifted(text, n, t, start, i + 1);
      }
    }
  }

  /** In leading white space no sentence ends. */
  lemma {:induction false} LeadingIsSkipped(before: string, t: string, i: nat)
    requires AllSpace(before) && i <= |before|
    ensures SplitFrom(before + t, 0, i) == SplitFrom(before + t, 0, |before|)
    decreases |before| - i
  {
    if i < |before| {
      assert i > 0 ==> !EndsSentence((before + t)[i - 1]);
      LeadingIsSkipped(before, t, i + 1);
    }
  }

  lemma LeadingSentence(before: string, t: string)
    requires AllSpace(before) && t != "" && !IsSpace(t[0])
    ensures Sentences(before + t) == [before + Sentences(t)[0]] + Sentences(t)[1..]
  {
    LeadingIsSkipped(before, t, 0);
    EarlierStart(before + t, 0, |before|, |before|);
    assert (before + t)[0..|before|] == before && (before + t)[|before|..] == t;
    SplitShifted(before + t, |before|, t, 0, 0);
  }

  /** What white space behind the text makes of its pieces: a sentence that is closed by its mark
      is followed by an empty piece, an open one keeps the white space. */
  function WithTail(pieces: seq<string>, closed: bool, after: string): seq<string>
    requires pieces != []
  {
    if after == "" then pieces
    else if closed then pieces + [""]
    else pieces[..|pieces| - 1] + [pieces[|pieces| - 1] + after]
  }

  /** The pieces of a text with white space around it. */
  function Padded(before: string, clean: seq<string>, closed: bool, after: string): seq<string>
    requires clean != []
  {
    var pieces := WithTail(clean, closed, after);
    [before + pieces[0]] + pieces[1..]
  }

  lemma {:induction false} TrailingIsKept(text: string, start: nat, i: nat)
    requires start <= i <= |text| && 0 < i
    requires forall k :: i - 1 <= k < |text| ==> !EndsSentence(text[k])
    ensures SplitFrom(text, start, i) == [text[start..]]
    decreases |text| - i
  {
    if i < |text| {
      TrailingIsKept(text, start, i + 1);
    }
  }

  lemma AtClosedEnd(core: string, after: string, start: nat)
    requires core != "" && AllSpace(after) && after != "" && start <= |core| && EndsSentence(core[|core| - 1])
    ensures SplitFrom(core + after, start, |core|) == [core[start..], ""]
  {
    var text, n := core + after, |core|;
    assert text[n - 1] == core[n - 1];
    assert forall k :: n <= k < |text| ==> text[k] == after[k - n];
    SkipsExactly(text, n, |text|);
    assert IsSpace(text[n]);
    assert text[start..n] == core[start..];
    assert text[|text|..] == "";
  }

  lemma AtOpenEnd(core: string, after: string, start: nat)
    requires core != "" && AllSpace(after) && start <= |core| && !EndsSentence(core[|core| - 1])
    ensures SplitFrom(core + after, start, |core|) == [core[start..] + after]
  {
    var text, n := core + after, |core|;
    forall k | n - 1 <= k < |text| ensures !EndsSentence(text[k]) {
      assert text[k] == if k < n then core[k] else after[k - n];
    }
    TrailingIsKept(text, start, n);
    assert text[start..] == core[start..] + after;
  }

  lemma AtTheEnd(core: string, after: string, start: nat)
    requires core != "" && AllSpace(after) && start <= |core|
    ensures SplitFrom(core + after, start, |core|)
         == WithTail([core[start..]], EndsSentence(core[|core| - 1]), after)
  {
    if after == "" {
      assert core + after == core;
    } else if EndsSentence(core[|core| - 1]) {
      AtClosedEnd(core, after, start);
    } else {
      AtOpenEnd(core, after, start);
    }
  }

  lemma WithTailCons(piece: string, pieces: seq<string>, closed: bool, after: string)
    requires pieces != []
    ensures WithTail([piece] + pieces, closed, after) == [piece] + WithTail(pieces, closed, after)
  {
  }

  lemma {:induction false} TrailingSentence(core: string, after: string, start: nat, i: nat)
    requires Clean(core) && AllSpace(after) && start <= i <= |core|
    ensures SplitFrom(core + after, start, i)
         == WithTail(SplitFrom(core, start, i), EndsSentence(core[|core| - 1]), after)
    decreases |core| - i
  {
    var text, closed := core + after, EndsSentence(core[|core| - 1]);
    if i == |core| {
      AtTheEnd(core, after, start);
    } else {
      assert text[i] == core[i] && (i > 0 ==> text[i - 1] == core[i - 1]);
      if PieceEnds(core, i) {
        var next := SkipSpace(core, i);
        assert next < |core| && text[next] == core[next];
        SkipsExactly(text, i, next);
        assert text[start..i] == core[start..i];
        TrailingSentence(core, after, next, next);
        WithTailCons(core[start..i], SplitFrom(core, next, next), closed, after);
      } else {
        TrailingSentence(core, after, start, i + 1);
      }
    }
  }

  /** The pieces of a padded text, and what `strip()` leaves of it. */
  lemma PaddedPieces(before: string, core: string, after: string)
    requires Clean(core) && AllSpace(before) && AllSpace(after)
    ensures Trim(before + core + after) == core
    ensures Sentences(before + core + after) == Padded(before, Sentences(core), EndsSentence(core[|core| - 1]), after)
  {
    var text := before + core + after;
    assert text == before + (core + after);
    LeadingSentence(before, core + after);
    TrailingSentence(core, after, 0, 0);
    TrimWithin(before, core, after);
  }

  // ---------- what the white space costs ----------

  function Last(segments: seq<string>): string
    requires segments != []
  {
    segments[|segments| - 1]
  }

  lemma PackAfterHead(current: string, head: string, tail: seq<string>, maxChars: int)
    requires current != ""
    ensures var next := if Fits(current, head, maxChars) then Extend(current, head) else head;
      var closed := if Fits(current, head, maxChars) then [] else [current];
      Pack(current, [head] + tail, maxChars) == closed + Pack(next, tail, maxChars)
  {
    assert ([head] + tail)[1..] == tail;
  }

  /** One more sentence goes into the last segment if it fits there, and behind it otherwise. */
  lemma {:induction false} PackOneMore(current: string, sentences: seq<string>, sentence: string, maxChars: int)
    requires Ink(current) != "" && AllClean(sentences)
    ensures var packed := Pack(current, sentences, maxChars);
      packed != [] && |Pack(current, sentences + [sentence], maxChars)|
        == |packed| + (if Fits(Last(packed), sentence, maxChars) || sentence == "" then 0 else 1)
    decreases |sentences|
  {
    if sentences == [] {
      assert sentences + [sentence] == [sentence];
      LastSentence(current, sentence, maxChars);
    } else {
      var head, tail := sentences[0], sentences[1..];
      assert sentences == [head] + tail;
      CleanParts([head], tail);
      assert head in [head];
      CleanHasInk(head);
      InkOfExtend(current, head);
      var next := if Fits(current, head, maxChars) then Extend(current, head) else head;
      PackOneMore(next, tail, sentence, maxChars);
      PackAfterHead(current, head, tail, maxChars);
      PackAfterHead(current, head, tail + [sentence], maxChars);
      assert sentences + [sentence] == [head] + (tail + [sentence]);
    }
  }

  lemma LeadIsStripped(before: string, first: string, head: string)
    requires AllSpace(before) && Clean(first) && Clean(head)
    ensures Extend(before + first, head) == Extend(first, head)
  {
    var joined := first + " " + head;
    assert before + first + " " + head == before + joined;
    ExtendIsJoin(first, head);
    SkipsExactly(before + joined, 0, |before|);
    assert (before + joined)[|before|..] == joined;
  }

  /** White space in front costs a segment exactly when it keeps the second sentence out of the first
      segment, and the first sentence was no segment of its own anyway: the others need as many. */
  ghost predicate LeadCosts(before: string, clean: seq<string>, maxChars: int) {
    && |clean| > 1 && !Fits(before + clean[0], clean[1], maxChars)
    && |Pack("", clean[1..], maxChars)| == |Pack("", clean, maxChars)|
  }

  lemma LeadCostsExactly(before: string, first: string, rest: seq<string>, maxChars: int)
    requires AllSpace(before) && Clean(first) && AllClean(rest)
    ensures |Pack(before + first, rest, maxChars)|
         == |Pack(first, rest, maxChars)| + (if LeadCosts(before, [first] + rest, maxChars) then 1 else 0)
  {
    var clean := [first] + rest;
    assert clean[1..] == rest && Pack("", clean, maxChars) == Pack(first, rest, maxChars);
    if rest != [] {
      var head, tail := rest[0], rest[1..];
      assert clean[1] == head && head in rest;
      assert Pack("", rest, maxChars) == Pack(head, tail, maxChars);
      if Fits(before + first, head, maxChars) {
        LeadIsStripped(before, first, head);
      } else {
        assert |Pack(before + first, rest, maxChars)| == 1 + |Pack(head, tail, maxChars)|;
        ClosingCostsOne(first, rest, maxChars);
        OpeningCostsNone(first, rest, maxChars);
      }
    }
  }

  lemma OpeningCostsNone(current: string, sentences: seq<string>, maxChars: int)
    requires Clean(current) && AllClean(sentences)
    ensures |Pack("", sentences, maxChars)| <= |Pack(current, sentences, maxChars)|
  {
    if sentences != [] {
      var head, tail := sentences[0], sentences[1..];
      ExtendIsJoin(current, head);
      PackAhead(head, if Fits(current, head, maxChars) then Extend(current, head) else head, tail, maxChars);
    }
  }

  /** White space behind the text costs a segment exactly when the last sentence has no mark and would
      still fit into the segment that is open before it, but not with the white space. */
  ghost predicate TailCosts(before: string, clean: seq<string>, closed: bool, after: string, maxChars: int) {
    && |clean| > 1 && !closed
    && var packed := Pack(before + clean[0], clean[1..|clean| - 1], maxChars);
       packed != [] && Fits(Last(packed), Last(clean), maxChars) && !Fits(Last(packed), Last(clean) + after, maxChars)
  }

  lemma TailCostsExactly(before: string, first: string, rest: seq<string>, closed: bool, after: string, maxChars: int)
    requires Clean(first) && AllClean(rest) && rest != []
    ensures |Pack(before + first, WithTail(rest, closed, after), maxChars)|
         == |Pack(before + first, rest, maxChars)|
            + (if TailCosts(before, [first] + rest, closed, after, maxChars) then 1 else 0)
  {
    var clean, current := [first] + rest, before + first;
    var init, last := rest[..|rest| - 1], rest[|rest| - 1];
    assert rest == init + [last] && clean[1..|clean| - 1] == init && Last(clean) == last;
    CleanParts(init, [last]);
    assert last in [last];
    CleanHasInk(first);
    InkConcat(before, first);
    PackOneMore(current, init, last, maxChars);
    PackOneMore(current, init, last + after, maxChars);
    PackOneMore(current, rest, "", maxChars);
    if after == "" {
      assert last + after == last;
    }
  }

  /** What white space around clean sentences costs. */
  ghost function Cost(before: string, clean: seq<string>, closed: bool, after: string, maxChars: int): nat {
    (if LeadCosts(before, clean, maxChars) then 1 else 0)
    + (if TailCosts(before, clean, closed, after, maxChars) then 1 else 0)
  }

  lemma OnlySentence(before: string, only: string, closed: bool, after: string, maxChars: int)
    requires Clean(only)
    ensures |Pack("", Padded(before, [only], closed, after), maxChars)| == 1
  {
    var all := Padded(before, [only], closed, after);
    CleanHasInk(only);
    InkConcat(before, only);
    InkConcat(before, only + after);
    InkConcat(only, after);
    assert all[0] != "" && Pack("", all, maxChars) == Pack(all[0], all[1..], maxChars);
    if after != "" && closed {
      assert all[1..] == [""];
      LastSentence(all[0], "", maxChars);
    } else {
      assert all[1..] == [];
    }
  }

  lemma PaddedPack(before: string, clean: seq<string>, closed: bool, after: string, maxChars: int)
    requires AllSpace(before) && AllClean(clean) && clean != []
    ensures |Pack("", Padded(before, clean, closed, after), maxChars)|
         == |Pack("", clean, maxChars)| + Cost(before, clean, closed, after, maxChars)
  {
    var first, rest := clean[0], clean[1..];
    assert clean == [first] + rest;
    CleanParts([first], rest);
    assert first in [first];
    assert Pack("", clean, maxChars) == Pack(first, rest, maxChars);
    if rest == [] {
      assert clean == [first];
      OnlySentence(before, first, closed, after, maxChars);
    } else {
      WithTailCons(first, rest, closed, after);
      var padded := WithTail(rest, closed, after);
      LeadCostsExactly(before, first, rest, maxChars);
      TailCostsExactly(before, first, rest, closed, after, maxChars);
      var all := Padded(before, clean, closed, after);
      assert all[0] == before + first && all[1..] == padded;
      assert Pack("", all, maxChars) == Pack(before + first, padded, maxChars);
    }
  }

  // ---------- a text within the limit packs into the one segment it is ----------

  /** The room the pieces need in one segment. */
  ghost function Room(pieces: seq<string>): nat {
    if pieces == [] then 0 else |pieces[0]| + 1 + Room(pieces[1..])
  }

  lemma RoomCons(piece: string, pieces: seq<string>)
    ensures Room([piece] + pieces) == |piece| + 1 + Room(pieces)
  {
    assert ([piece] + pieces)[1..] == pieces;
  }

  lemma {:induction false} PiecesFit(text: string, start: nat, i: nat)
    requires start <= i <= |text|
    ensures Room(SplitFrom(text, start, i)) <= |text| - start + 1
    decreases |text| - i
  {
    if i == |text| {
      RoomCons(text[start..], []);
      assert [text[start..]] + [] == [text[start..]];
    } else if PieceEnds(text, i) {
      var next := SkipSpace(text, i);
      PiecesFit(text, next, next);
      RoomCons(text[start..i], SplitFrom(text, next, next));
    } else {
      PiecesFit(text, start, i + 1);
    }
  }

  lemma {:induction false} PackInOne(current: string, pieces: seq<string>, maxChars: int)
    requires |current| + Room(pieces) <= maxChars
    ensures |Pack(current, pieces, maxChars)| <= 1
    decreases |pieces|
  {
    if pieces != [] {
      PackInOne(Extend(current, pieces[0]), pieces[1..], maxChars);
    }
  }

  /** So the test for short texts saves no segment. */
  lemma SegmentsArePacked(text: string, maxChars: int)
    requires Trim(text) != ""
    ensures |Segments(text, maxChars)| == |Pack("", Sentences(text), maxChars)|
  {
    var pieces := Sentences(text);
    if Pack("", pieces, maxChars) == [] {
      NothingIsPacked(text, maxChars);
      InkOfSpace(text);
      InkOfTrim(text);
      TrimSplitsInk(text);
    } else if |text| <= maxChars {
      PiecesFit(text, 0, 0);
      PackInOne(pieces[0], pieces[1..], maxChars);
      assert Pack("", pieces, maxChars) == Pack(pieces[0], pieces[1..], maxChars);
    }
  }

  lemma TrimSplitsInk(text: string)
    requires Trim(text) != ""
    ensures Ink(Trim(text)) != ""
  {
    var before, after := TrimSplits(text);
    CleanHasInk(Trim(text));
  }

  lemma FewestIsPacking(best: seq<seq<string>>, clean: seq<string>, maxChars: int)
    requires clean != [] && AllClean(clean) && FewestGroups(best, clean, maxChars)
    ensures |best| == |Pack("", clean, maxChars)|
  {
    var packed := PackingIsFewest(clean, maxChars);
    assert |best| <= |packed| && |packed| <= |best|;
  }

  lemma PaddedSegments(before: string, core: string, after: string, maxChars: int)
    requires Clean(core) && AllSpace(before) && AllSpace(after)
    ensures |Segments(before + core + after, maxChars)| == |Pack("", Sentences(core), maxChars)|
              + Cost(before, Sentences(core), EndsSentence(core[|core| - 1]), after, maxChars)
  {
    PaddedPieces(before, core, after);
    SentencesAreClean(core);
    PaddedPack(before, Sentences(core), EndsSentence(core[|core| - 1]), after, maxChars);
    SegmentsArePacked(before + core + after, maxChars);
  }

  /** Any text with something to say, of any length: against the best grouping of its sentences, the
      white space around it costs exactly one segment for each of the two conditions that holds. */
  lemma SplitCostsExactly(text: string, maxChars: int, best: seq<seq<string>>) returns (before: string, after: string)
    requires Trim(text) != "" && FewestGroups(best, Sentences(Trim(text)), maxChars)
    ensures text == before + Trim(text) + after && AllSpace(before) && AllSpace(after)
    ensures var closed := EndsSentence(Trim(text)[|Trim(text)| - 1]);
      |Segments(text, maxChars)| == |best| + Cost(before, Sentences(Trim(text)), closed, after, maxChars)
  {
    before, after := TrimSplits(text);
    SentencesAreClean(Trim(text));
    FewestIsPacking(best, Sentences(Trim(text)), maxChars);
    PaddedSegments(before, Trim(text), after, maxChars);
  }

  /** So no segment is lost exactly when neither condition holds, at most one for white space in front,
      and at most one for white space behind a last sentence without its mark. */
  lemma SplitIsNearlyOptimal(text: string, maxChars: int, best: seq<seq<string>>) returns (before: string, after: string)
    requires Trim(text) != "" && FewestGroups(best, Sentences(Trim(text)), maxChars)
    ensures text == before + Trim(text) + after && AllSpace(before) && AllSpace(after)
    ensures var clean, closed := Sentences(Trim(text)), EndsSentence(Trim(text)[|Trim(text)| - 1]);
      && (|Segments(text, maxChars)| == |best| <==>
            !LeadCosts(before, clean, maxChars) && !TailCosts(before, clean, closed, after, maxChars))
      && |best| <= |Segments(text, maxChars)|
           <= |best| + (if before == "" then 0 else 1) + (if after == "" || closed then 0 else 1)
  {
    before, after := SplitCostsExactly(text, maxChars, best);
    var clean := Sentences(Trim(text));
    SentencesAreCleanOf(text);
    NoLeadIsFree(clean, maxChars);
    assert after == "" ==> Last(clean) + after == Last(clean);
  }

  lemma SentencesAreCleanOf(text: string)
    requires Trim(text) != ""
    ensures AllClean(Sentences(Trim(text)))
  {
    var before, after := TrimSplits(text);
    SentencesAreClean(Trim(text));
  }

  lemma NoLeadIsFree(clean: seq<string>, maxChars: int)
    requires AllClean(clean)
    ensures !LeadCosts("", clean, maxChars)
  {
    if clean != [] {
      var first, rest := clean[0], clean[1..];
      assert clean == [first] + rest && "" + first == first;
      assert first in clean;
      CleanParts([first], rest);
      LeadCostsExactly("", first, rest, maxChars);
    }
  }

  // ---------- a text that pays for both ----------

  function Blank(n: nat): (s: string)
    ensures |s| == n && AllSpace(s)
  {
    seq(n, i => ' ')
  }

  /** At every limit that holds the bare text, the default of 250 included, white space around it can
      cost two segments. */
  lemma PaddingCostsTwo(maxChars: nat) returns (text: string, best: seq<seq<string>>)
    requires maxChars >= 7
    ensures Trim(text) != "" && FewestGroups(best, Sentences(Trim(text)), maxChars)
    ensures |best| == 1 && |Segments(text, maxChars)| == 3
  {
    var core, pad := "a. b. c", Blank(maxChars);
    text := pad + core + pad;
    PaddedPieces(pad, core, pad);
    SmallSentences();
    SmallPack(maxChars);
    var clean := ["a.", "b.", "c"];
    best := PackingIsFewest(clean, maxChars);
    PaddedSegments(pad, core, pad, maxChars);
  }

  lemma SmallPack(maxChars: nat)
    requires maxChars >= 7
    ensures var clean := ["a.", "b.", "c"];
      AllClean(clean) && |Pack("", clean, maxChars)| == 1
      && Cost(Blank(maxChars), clean, false, Blank(maxChars), maxChars) == 2
  {
    var pad, clean := Blank(maxChars), ["a.", "b.", "c"];
    assert clean[1..] == ["b.", "c"] && clean[1..2] == ["b."] && ["b.", "c"][1..] == ["c"];
    RoomCons("c", []);
    assert ["c"] == ["c"] + [] && ["b.", "c"] == ["b."] + ["c"];
    RoomCons("b.", ["c"]);
    PackInOne("a.", ["b.", "c"], maxChars);
    PackInOne("b.", ["c"], maxChars);
    CleanHasInk("a.");
    CleanHasInk("b.");
    NotEmpty("a.", ["b.", "c"], maxChars);
    NotEmpty("b.", ["c"], maxChars);
    assert Pack("", clean, maxChars) == Pack("a.", ["b.", "c"], maxChars);
    assert Pack("", clean[1..], maxChars) == Pack("b.", ["c"], maxChars);
    assert Pack(pad + "a.", ["b."], maxChars) == [pad + "a.", "b."] by {
      assert ["b."][1..] == [];
    }
  }

  lemma NotEmpty(current: string, sentences: seq<string>, maxChars: int)
    requires Ink(current) != ""
    ensures Pack(current, sentences, maxChars) != []
  {
    InkOfPack(current, sentences, maxChars);
  }

  lemma SmallSentences()
    ensures Sentences("a. b. c") == ["a.", "b.", "c"]
  {
    var t := "a. b. c";
    SkipsExactly(t, 2, 3);
    SkipsExactly(t, 5, 6);
    assert t[6..] == "c" && t[3..5] == "b." && t[0..2] == "a.";
    assert SplitFrom(t, 6, 6) == ["c"];
    assert SplitFrom(t, 3, 5) == ["b.", "c"];
    assert SplitFrom(t, 3, 3) == ["b.", "c"];
    assert SplitFrom(t, 0, 2) == ["a.", "b.", "c"];
    assert SplitFrom(t, 0, 1) == SplitFrom(t, 0, 2);
  }
}
