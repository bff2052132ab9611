/** Slugs of blog posts: making one from a title, finding a free one, and inserting it against
    concurrent inserts. */
module Slugs {
  import opened Common

  const LIMIT := 180      // what `slugify` and the suffix loop cut to
  const COLUMN := 200     // the slug column's width

  // ---------- slugify ----------

  predicate IsAlnum(c: char) {
    'a' <= c <= 'z' || 'A' <= c <= 'Z' || '0' <= c <= '9'
  }

  function Lower(c: char): char {
    if 'A' <= c <= 'Z' then (c as int + 32) as char else c
  }

  function LowerAll(s: string): string {
    if s == "" then "" else [Lower(s[0])] + LowerAll(s[1..])
  }

  /** `re.sub(r"[^a-zA-Z0-9]+", "-", text)`; `inRun` when the character before was replaced. */
  function Collapse(text: string, inRun: bool): string {
    if text == "" then ""
    else if IsAlnum(text[0]) then [text[0]] + Collapse(text[1..], false)
    else (if inRun then "" else "-") + Collapse(text[1..], true)
  }

  function StripLeft(s: string): string {
    if s != "" && s[0] == '-' then StripLeft(s[1..]) else s
  }

  function StripRight(s: string): string {
    if s != "" && s[|s| - 1] == '-' then StripRight(s[..|s| - 1]) else s
  }

  function Dashes(text: string): string {
    LowerAll(StripRight(StripLeft(Collapse(text, false))))
  }

  function SlugOf(folded: string): string {
    var s := Dashes(folded);
    var cut := if |s| > LIMIT then s[..LIMIT] else s;
    if cut != "" then cut else "post"
  }

  /** `unicodedata.normalize("NFKD", …)` followed by dropping what is not ASCII. */
  type Folding = string -> string

  /** All that is used of it: ASCII text stays as it is. */
  ghost predicate KeepsAscii(fold: Folding) {
    forall s: string :: (forall i :: 0 <= i < |s| ==> s[i] as int < 128) ==> fold(s) == s
  }

  function Slugify(fold: Folding, text: string): string {
    SlugOf(fold(text))
  }

  predicate SlugChar(c: char) {
    'a' <= c <= 'z' || '0' <= c <= '9' || c == '-'
  }

  /** Lower-case words joined by single dashes; only a cut can leave a dash at the end. */
  predicate Dashed(s: string) {
    && (forall i :: 0 <= i < |s| ==> SlugChar(s[i]))
    && (forall i :: 0 < i < |s| ==> s[i - 1] != '-' || s[i] != '-')
    && (s != "" ==> s[0] != '-')
  }

  predicate WholeSlug(s: string) {
    Dashed(s) && s != "" && s[|s| - 1] != '-'
  }

  /** Letters, digits and single dashes. */
  predicate Collapsed(s: string) {
    && (forall i :: 0 <= i < |s| ==> IsAlnum(s[i]) || s[i] == '-')
    && (forall i :: 0 < i < |s| ==> s[i - 1] != '-' || s[i] != '-')
  }

  lemma {:induction false} CollapseIsCollapsed(text: string, inRun: bool)
    ensures Collapsed(Collapse(text, inRun))
    ensures inRun && Collapse(text, inRun) != "" ==> Collapse(text, inRun)[0] != '-'
  {
    if text != "" {
      if IsAlnum(text[0]) {
        CollapseIsCollapsed(text[1..], false);
      } else {
        CollapseIsCollapsed(text[1..], true);
      }
    }
  }

  lemma {:induction false} StripLeftIs(s: string)
    requires Collapsed(s)
    ensures var r := StripLeft(s); Collapsed(r) && (r != "" ==> r[0] != '-')
  {
    if s != "" && s[0] == '-' {
      StripLeftIs(s[1..]);
    }
  }

  lemma {:induction false} StripRightIs(s: string)
    requires Collapsed(s) && (s != "" ==> s[0] != '-')
    ensures var r := StripRight(s); Collapsed(r) && (r != "" ==> r[0] != '-' && r[|r| - 1] != '-')
  {
    if s != "" && s[|s| - 1] == '-' {
      StripRightIs(s[..|s| - 1]);
    }
  }

  lemma {:induction false} LowerAllAt(s: string)
    ensures |LowerAll(s)| == |s|
    ensures forall i :: 0 <= i < |s| ==> LowerAll(s)[i] == Lower(s[i])
  {
    if s != "" {
      LowerAllAt(s[1..]);
    }
  }

  lemma DashesAre(text: string)
    ensures Dashes(text) == "" || WholeSlug(Dashes(text))
  {
    CollapseIsCollapsed(text, false);
    var c := Collapse(text, false);
    StripLeftIs(c);
    StripRightIs(StripLeft(c));
    LowerAllAt(StripRight(StripLeft(c)));
  }

  /** Every slug is one to 180 lower-case letters, digits and single inner dashes; a dash at the
      end only where 180 characters were cut. This holds for any text, however it is folded. */
  lemma SlugShape(fold: Folding, text: string)
    ensures var s := Slugify(fold, text);
      Dashed(s) && 1 <= |s| <= LIMIT && (s[|s| - 1] == '-' ==> |s| == LIMIT)
  {
    DashesAre(fold(text));
  }

  lemma {:induction false} CollapseKeeps(s: string)
    requires Collapsed(s) && (s != "" ==> s[0] != '-')
    ensures Collapse(s, false) == s
    decreases |s|, 0
  {
    if s != "" {
      assert s == [s[0]] + s[1..];
      if |s| > 1 && s[1] == '-' {
        assert s[1..][1..] == s[2..] && s[1..] == "-" + s[2..];
        assert s[2..] != "" ==> s[2] != '-';
        CollapseKeepsInRun(s[2..]);
        assert Collapse(s[1..], false) == "-" + Collapse(s[2..], true);
      } else {
        CollapseKeeps(s[1..]);
      }
    }
  }

  lemma {:induction false} CollapseKeepsInRun(s: string)
    requires Collapsed(s) && (s != "" ==> s[0] != '-')
    ensures Collapse(s, true) == s
    decreases |s|, 1
  {
    CollapseKeeps(s);
    if s != "" {
      assert Collapse(s, true) == Collapse(s, false);
    }
  }

  lemma {:induction false} LowerKeeps(s: string)
    requires forall i :: 0 <= i < |s| ==> SlugChar(s[i])
    ensures LowerAll(s) == s
  {
    LowerAllAt(s);
  }

  /** A slug made into a slug again stays the same, unless the cut left a dash at its end;
      that dash is then lost. */
  lemma SlugifyAgain(fold: Folding, text: string)
    requires KeepsAscii(fold)
    ensures var s := Slugify(fold, text);
      && (Slugify(fold, s) == s <==> s[|s| - 1] != '-')
      && (s[|s| - 1] == '-' ==> Slugify(fold, s) == s[..|s| - 1])
  {
    var s := Slugify(fold, text);
    SlugShape(fold, text);
    DashedIsFolded(fold, s);
    CollapseKeeps(s);
    var whole := StripRight(s);
    if s[|s| - 1] == '-' {
      var kept := s[..|s| - 1];
      assert kept[|kept| - 1] == s[|s| - 2] != '-';
      assert StripRight(kept) == kept;
    } else {
      assert whole == s;
    }
    LowerKeeps(whole);
  }

  lemma DashedIsFolded(fold: Folding, s: string)
    requires KeepsAscii(fold) && Dashed(s)
    ensures fold(s) == s
  {
    forall i | 0 <= i < |s| ensures s[i] as int < 128 {
      assert SlugChar(s[i]);
    }
  }

  /** A text of words and single dashes that is too long is cut, at a dash if there is one. */
  lemma LongTextIsCut(fold: Folding, text: string)
    requires KeepsAscii(fold) && WholeSlug(text)
    ensures Slugify(fold, text) == if |text| > LIMIT then text[..LIMIT] else text
  {
    DashedIsFolded(fold, text);
    WholeSlugIsItsDashes(text);
  }

  lemma WholeSlugIsItsDashes(s: string)
    requires WholeSlug(s)
    ensures Dashes(s) == s
  {
    CollapseKeeps(s);
    LowerKeeps(s);
  }

  // ---------- what a slug spells ----------

  /** A capital, or what may stand in a slug between its dashes. */
  predicate LetterOrDigit(c: char) {
    'A' <= c <= 'Z' || (SlugChar(c) && c != '-')
  }

  predicate Word(s: string) {
    s != "" && forall i :: 0 <= i < |s| ==> LetterOrDigit(s[i])
  }

  predicate Gap(s: string) {
    forall i :: 0 <= i < |s| ==> !LetterOrDigit(s[i])
  }

  /** Words with what stands behind each; only behind the last there may be nothing. */
  ghost predicate Spaced(words: seq<string>, gaps: seq<string>) {
    && |words| == |gaps|
    && forall i :: 0 <= i < |words| ==> Word(words[i]) && Gap(gaps[i]) && (i + 1 < |words| ==> gaps[i] != "")
  }

  function Spelled(words: seq<string>, gaps: seq<string>): string
    requires |words| == |gaps|
  {
    if words == [] then "" else words[0] + (gaps[0] + Spelled(words[1..], gaps[1..]))
  }

  function Joined(words: seq<string>): string {
    if words == [] then "" else if |words| == 1 then words[0] else words[0] + ("-" + Joined(words[1..]))
  }

  /** `d` is `c`, in lower case if it is a capital. */
  predicate InLowerCase(c: char, d: char) {
    if 'A' <= c <= 'Z' then 'a' <= d <= 'z' && d as int - 'a' as int == c as int - 'A' as int else d == c
  }

  ghost predicate AllInLowerCase(a: string, b: string) {
    |a| == |b| && forall i :: 0 <= i < |a| ==> InLowerCase(a[i], b[i])
  }

  lemma {:induction false} CollapseWord(word: string, rest: string, inRun: bool)
    requires Word(word)
    ensures Collapse(word + rest, inRun) == word + Collapse(rest, false)
    decreases |word|
  {
    assert (word + rest)[0] == word[0] && (word + rest)[1..] == word[1..] + rest;
    if |word| > 1 {
      CollapseWord(word[1..], rest, false);
      assert [word[0]] + (word[1..] + Collapse(rest, false)) == word + Collapse(rest, false);
    } else {
      assert word[1..] + rest == rest && word == [word[0]];
    }
  }

  lemma {:induction false} CollapseGap(gap: string, rest: string, inRun: bool)
    requires Gap(gap) && gap != ""
    ensures Collapse(gap + rest, inRun) == (if inRun then "" else "-") + Collapse(rest, true)
    decreases |gap|
  {
    assert (gap + rest)[0] == gap[0] && (gap + rest)[1..] == gap[1..] + rest;
    if |gap| > 1 {
      CollapseGap(gap[1..], rest, true);
      assert "" + Collapse(rest, true) == Collapse(rest, true);
    } else {
      assert gap[1..] + rest == rest;
    }
  }

  lemma {:induction false} CollapseSpelled(words: seq<string>, gaps: seq<string>, inRun: bool)
    requires words != [] && Spaced(words, gaps)
    ensures Collapse(Spelled(words, gaps), inRun) == Joined(words) + (if gaps[|gaps| - 1] == "" then "" else "-")
    decreases |words|
  {
    var rest := Spelled(words[1..], gaps[1..]);
    CollapseWord(words[0], gaps[0] + rest, inRun);
    if |words| == 1 {
      assert rest == "" && gaps[0] + rest == gaps[0];
      if gaps[0] != "" {
        CollapseGap(gaps[0], "", false);
        assert Collapse("", true) == "" && "-" + "" == "-";
      }
    } else {
      CollapseGap(gaps[0], rest, false);
      assert Spaced(words[1..], gaps[1..]);
      CollapseSpelled(words[1..], gaps[1..], true);
      var end := if gaps[|gaps| - 1] == "" then "" else "-";
      assert words[0] + ("-" + (Joined(words[1..]) + end)) == words[0] + ("-" + Joined(words[1..])) + end;
    }
  }

  lemma {:induction false} JoinedEnds(words: seq<string>, gaps: seq<string>)
    requires words != [] && Spaced(words, gaps)
    ensures var j := Joined(words); j != "" && j[0] != '-' && j[|j| - 1] != '-'
    decreases |words|
  {
    if |words| > 1 {
      assert Spaced(words[1..], gaps[1..]);
      JoinedEnds(words[1..], gaps[1..]);
    }
  }

  lemma StripsTo(core: string, before: string, after: string)
    requires core != "" && core[0] != '-' && core[|core| - 1] != '-'
    requires before in {"", "-"} && after in {"", "-"}
    ensures StripRight(StripLeft(before + (core + after))) == core
  {
    assert StripLeft(core + after) == core + after;
    assert before == "-" ==> (before + (core + after))[1..] == core + after;
    assert before == "" ==> before + (core + after) == core + after;
    assert StripRight(core) == core;
    assert after == "-" ==> (core + after)[..|core + after| - 1] == core;
    assert after == "" ==> core + after == core;
  }

  lemma LowerIs(s: string)
    ensures AllInLowerCase(s, LowerAll(s))
  {
    LowerAllAt(s);
  }

  lemma LeadCollapses(lead: string, rest: string)
    requires Gap(lead)
    ensures Collapse(lead + rest, false) == (if lead == "" then "" else "-") + Collapse(rest, lead != "")
  {
    if lead == "" {
      assert lead + rest == rest && "" + Collapse(rest, false) == Collapse(rest, false);
    } else {
      CollapseGap(lead, rest, false);
    }
  }

  /** What a slug spells: the words of the folded text, in lower case and joined by dashes, cut at 180
      characters; or "post" if there are none. */
  lemma SlugSpellsWords(fold: Folding, text: string, lead: string, words: seq<string>, gaps: seq<string>)
    returns (whole: string)
    requires Gap(lead) && Spaced(words, gaps) && fold(text) == lead + Spelled(words, gaps)
    ensures AllInLowerCase(Joined(words), whole)
    ensures Slugify(fold, text) == if words == [] then "post" else if |whole| > 180 then whole[..180] else whole
  {
    LeadCollapses(lead, Spelled(words, gaps));
    whole := LowerAll(Joined(words));
    LowerIs(Joined(words));
    if words == [] {
      assert "-"[1..] == "" && StripLeft("-") == "";
      assert Collapse("", lead != "") == "" && "-" + "" == "-";
    } else {
      CollapseSpelled(words, gaps, lead != "");
      JoinedEnds(words, gaps);
      StripsTo(Joined(words), if lead == "" then "" else "-", if gaps[|gaps| - 1] == "" then "" else "-");
      assert Dashes(fold(text)) == whole;
    }
  }

  /** Every text is words with gaps around them. */
  lemma {:induction false} HasWords(text: string) returns (lead: string, words: seq<string>, gaps: seq<string>)
    ensures Gap(lead) && Spaced(words, gaps) && text == lead + Spelled(words, gaps)
    decreases |text|
  {
    if text == "" {
      lead, words, gaps := "", [], [];
    } else {
      lead, words, gaps := HasWords(text[1..]);
      var c := [text[0]];
      assert text == c + (lead + Spelled(words, gaps));
      if !LetterOrDigit(text[0]) {
        lead := c + lead;
        assert text == lead + Spelled(words, gaps);
      } else if lead != "" || words == [] {
        OneWordMore(c, lead, words, gaps);
        lead, words, gaps := "", [c] + words, [lead] + gaps;
      } else {
        LongerWord(c, words, gaps);
        words := [c + words[0]] + words[1..];
      }
    }
  }

  lemma OneWordMore(word: string, gap: string, words: seq<string>, gaps: seq<string>)
    requires Word(word) && Gap(gap) && Spaced(words, gaps) && (words != [] ==> gap != "")
    ensures Spaced([word] + words, [gap] + gaps)
    ensures Spelled([word] + words, [gap] + gaps) == word + (gap + Spelled(words, gaps))
    ensures "" + Spelled([word] + words, [gap] + gaps) == word + (gap + Spelled(words, gaps))
  {
    assert ([word] + words)[1..] == words && ([gap] + gaps)[1..] == gaps;
  }

  lemma LongerWord(c: string, words: seq<string>, gaps: seq<string>)
    requires Word(c) && words != [] && Spaced(words, gaps)
    ensures Spaced([c + words[0]] + words[1..], gaps)
    ensures Spelled([c + words[0]] + words[1..], gaps) == c + Spelled(words, gaps)
  {
    var longer := [c + words[0]] + words[1..];
    assert longer[1..] == words[1..];
    var rest := gaps[0] + Spelled(words[1..], gaps[1..]);
    assert (c + words[0]) + rest == c + (words[0] + rest);
  }

  /** Such a slug exists: this title's ends in a dash, and changes when it is made a slug again. */
  lemma CutSlugChangesAgain(fold: Folding) returns (title: string)
    requires KeepsAscii(fold)
    ensures Slugify(fold, Slugify(fold, title)) != Slugify(fold, title)
  {
    title := seq(179, (k: int) => 'a') + "-b";
    LongTextIsCut(fold, title);
    assert Slugify(fold, title)[179] == '-';
    SlugifyAgain(fold, title);
  }

  // ---------- the suffix loop ----------

  /** `s[:n]`, with Python's meaning of a negative bound. */
  function Head(s: string, n: int): string {
    if n >= |s| then s
    else if n >= 0 then s[..n]
    else if |s| + n >= 0 then s[..|s| + n]
    else ""
  }

  function Suffix(i: nat): string {
    "-" + Decimal(i)
  }

  function Candidate(base: string, i: nat): string {
    Head(base, LIMIT - |Suffix(i)|) + Suffix(i)
  }

  /** What the loop tries: the base, then its candidates from 2 on. */
  function Try(base: string, n: nat): string {
    if n == 0 then base else Candidate(base, n + 1)
  }

  lemma CandidateEnd(base: string, i: nat)
    ensures var c := Candidate(base, i);
      && |c| >= |Suffix(i)| && c[|c| - |Suffix(i)|..] == Suffix(i)
      && c[|c| - |Decimal(i)|..] == Decimal(i)
      && c[|c| - |Decimal(i)| - 1] == '-'
  {
    var c, h := Candidate(base, i), Head(base, LIMIT - |Suffix(i)|);
    assert c[|h|..] == Suffix(i);
    assert Suffix(i)[1..] == Decimal(i);
    assert c[|h| + 1..] == c[|h|..][1..];
    assert c[|h|] == Suffix(i)[0];
  }

  lemma LongerNumeral(c: string, short: string, long: string)
    requires |short| <= |c| && |long| <= |c| && c[|c| - |long|..] == long
    requires forall i :: 0 <= i < |long| ==> '0' <= long[i] <= '9'
    ensures |short| < |long| ==> c[|c| - |short| - 1] != '-'
  {
    if |short| < |long| {
      assert c[|c| - |short| - 1] == long[|long| - |short| - 1];
    }
  }

  /** Candidates for different numbers differ, however they were cut. */
  lemma CandidatesDiffer(base: string, i: nat, j: nat)
    requires Candidate(base, i) == Candidate(base, j)
    ensures i == j
  {
    var c, di, dj := Candidate(base, i), Decimal(i), Decimal(j);
    CandidateEnd(base, i);
    CandidateEnd(base, j);
    LongerNumeral(c, di, dj);
    LongerNumeral(c, dj, di);
    DecimalInjective(i, j);
  }

  /** The base is one of its own candidates. */
  ghost predicate SelfCandidate(base: string) {
    exists i: nat :: i >= 2 && Candidate(base, i) == base
  }

  /** That takes exactly a base of 180 characters that already ends in such a suffix. */
  lemma SelfCandidateIs(base: string, i: nat)
    requires base == "" || base[0] != '-'
    ensures Candidate(base, i) == base
      <==> |base| == LIMIT && |Suffix(i)| <= LIMIT && base[LIMIT - |Suffix(i)|..] == Suffix(i)
  {
    var n := |Suffix(i)|;
    CandidateEnd(base, i);
    if |base| == LIMIT && n <= LIMIT {
      assert base == base[..LIMIT - n] + base[LIMIT - n..];
    } else if Head(base, LIMIT - n) == "" {
      assert Candidate(base, i)[0] == '-';
    }
  }

  ghost predicate AllTaken(base: string, rows: seq<string>, n: nat) {
    forall m: nat :: m < n ==> Try(base, m) in rows
  }

  /** Candidates 2 to `n`. */
  function Candidates(base: string, n: nat): seq<string> {
    if n < 2 then [] else Candidates(base, n - 1) + [Candidate(base, n)]
  }

  lemma {:induction false} CandidatesAt(base: string, n: nat)
    ensures |Candidates(base, n)| == if n < 2 then 0 else n - 1
    ensures forall k :: 0 <= k < |Candidates(base, n)| ==> Candidates(base, n)[k] == Candidate(base, k + 2)
  {
    if n >= 2 {
      CandidatesAt(base, n - 1);
    }
  }

  lemma CandidatesAreDistinct(base: string, n: nat)
    ensures Distinct(Candidates(base, n))
  {
    CandidatesAt(base, n);
    var c := Candidates(base, n);
    forall i, j | 0 <= i < j < |c| ensures c[i] != c[j] {
      if c[i] == c[j] {
        CandidatesDiffer(base, i + 2, j + 2);
      }
    }
  }

  lemma TriedCandidatesAreRows(base: string, rows: seq<string>, n: nat)
    requires AllTaken(base, rows, n)
    ensures forall x :: x in Candidates(base, n) ==> x in rows
  {
    CandidatesAt(base, n);
    var c := Candidates(base, n);
    forall k | 0 <= k < |c| ensures c[k] in rows {
      assert Try(base, k + 1) in rows;
    }
  }

  /** The pigeonhole argument: the candidates found taken are distinct rows. */
  lemma TriesAreBounded(base: string, rows: seq<string>, n: nat)
    requires AllTaken(base, rows, n)
    ensures n <= |rows| + 1
    ensures !SelfCandidate(base) ==> n <= |rows|
  {
    if n > 0 {
      var tried := Candidates(base, n);
      CandidatesAt(base, n);
      CandidatesAreDistinct(base, n);
      TriedCandidatesAreRows(base, rows, n);
      Pigeonhole(tried, rows);
      if !SelfCandidate(base) {
        assert base !in tried;
        assert Try(base, 0) in rows;
        Pigeonhole([base] + tried, rows);
      }
    }
  }

  /** The number of the first free try from `n` on. */
  function FirstFree(base: string, rows: seq<string>, n: nat): (r: nat)
    requires AllTaken(base, rows, n)
    ensures n <= r && Try(base, r) !in rows && AllTaken(base, rows, r)
    decreases |rows| + 2 - n
  {
    if Try(base, n) !in rows then n
    else
      TriesAreBounded(base, rows, n + 1);
      FirstFree(base, rows, n + 1)
  }

  /** One INSERT under the UNIQUE constraint: it fails if the slug is there. */
  function InsertRow(rows: seq<string>, slug: string): seq<string> {
    if slug in rows then rows else rows + [slug]
  }

  /** What other transactions insert. */
  function InsertRows(rows: seq<string>, slugs: seq<string>): seq<string>
    decreases |slugs|
  {
    if slugs == [] then rows else InsertRows(InsertRow(rows, slugs[0]), slugs[1..])
  }

  lemma {:induction false} InsertRowsKeeps(rows: seq<string>, slugs: seq<string>)
    ensures forall x :: x in rows ==> x in InsertRows(rows, slugs)
    decreases |slugs|
  {
    if slugs != [] {
      InsertRowsKeeps(InsertRow(rows, slugs[0]), slugs[1..]);
    }
  }

  /** Where a search ends: the table by then, and the number of the first try that is free at the
      time it is looked up. */
  datatype Found = Found(rows: seq<string>, tries: nat)

  /** The suffix loop from try `n` on, with `arrivals[m]` inserted by others before the `m`-th
      lookup from here; nothing arrives after the last of them. */
  function Search(base: string, rows: seq<string>, arrivals: seq<seq<string>>, n: nat): (r: Found)
    requires AllTaken(base, rows, n)
    ensures n <= r.tries && Try(base, r.tries) !in r.rows && AllTaken(base, r.rows, r.tries)
    decreases |arrivals|
  {
    if arrivals == [] then Found(rows, FirstFree(base, rows, n))
    else
      var now := InsertRows(rows, arrivals[0]);
      InsertRowsKeeps(rows, arrivals[0]);
      if Try(base, n) !in now then Found(now, n) else Search(base, now, arrivals[1..], n + 1)
  }

  function Resolve(base: string, rows: seq<string>, arrivals: seq<seq<string>>): string {
    Try(base, Search(base, rows, arrivals, 0).tries)
  }

  function Lookups(base: string, rows: seq<string>, arrivals: seq<seq<string>>): nat {
    Search(base, rows, arrivals, 0).tries + 1
  }

  function TableAfter(base: string, rows: seq<string>, arrivals: seq<seq<string>>): seq<string> {
    Search(base, rows, arrivals, 0).rows
  }

  /** What has arrived by the next lookup, and what has not. */
  function Arriving(arrivals: seq<seq<string>>): seq<string> {
    if arrivals == [] then [] else arrivals[0]
  }

  function Pending(arrivals: seq<seq<string>>): seq<seq<string>> {
    if arrivals == [] then [] else arrivals[1..]
  }

  /** The search, once the lookup of try `n` is made on the table `now`. */
  function FromLookup(base: string, now: seq<string>, pending: seq<seq<string>>, n: nat): Found
    requires AllTaken(base, now, n)
  {
    if Try(base, n) !in now then Found(now, n) else Search(base, now, pending, n + 1)
  }

  lemma LookupIsNext(base: string, rows: seq<string>, arrivals: seq<seq<string>>, n: nat)
    requires AllTaken(base, rows, n)
    ensures AllTaken(base, InsertRows(rows, Arriving(arrivals)), n)
    ensures Search(base, rows, arrivals, n)
         == FromLookup(base, InsertRows(rows, Arriving(arrivals)), Pending(arrivals), n)
  {
    InsertRowsKeeps(rows, Arriving(arrivals));
  }

  /** The loop makes at most one lookup more than there are rows in the end, except that a base
      which is its own candidate can cost one more; others may insert before every lookup. */
  lemma LookupsAreBounded(base: string, rows: seq<string>, arrivals: seq<seq<string>>)
    ensures Lookups(base, rows, arrivals)
         <= |TableAfter(base, rows, arrivals)| + (if SelfCandidate(base) then 2 else 1)
  {
    TriesAreBounded(base, TableAfter(base, rows, arrivals), Search(base, rows, arrivals, 0).tries);
  }

  lemma FirstFreeIs(base: string, rows: seq<string>, n: nat, r: nat)
    requires AllTaken(base, rows, r) && n <= r && Try(base, r) !in rows
    ensures AllTaken(base, rows, n) && FirstFree(base, rows, n) == r
    decreases r - n
  {
    if n < r {
      assert Try(base, n) in rows;
      FirstFreeIs(base, rows, n + 1, r);
    }
  }

  /** A table on which a base that is its own candidate costs the second extra lookup. */
  lemma SelfCandidateCosts(base: string, i: nat) returns (rows: seq<string>)
    requires i >= 2 && Candidate(base, i) == base
    ensures Distinct(rows) && Lookups(base, rows, []) == |rows| + 2
  {
    rows := Candidates(base, i);
    CandidatesAt(base, i);
    CandidatesAreDistinct(base, i);
    forall m: nat | m < i ensures Try(base, m) in rows {
      assert rows[if m == 0 then i - 2 else m - 1] == Try(base, m);
    }
    NextIsFree(base, i);
    FirstFreeIs(base, rows, 0, i);
  }

  lemma NextIsFree(base: string, n: nat)
    requires n >= 2
    ensures Try(base, n) !in Candidates(base, n)
  {
    CandidatesAt(base, n + 1);
    CandidatesAreDistinct(base, n + 1);
    var c, init := Candidates(base, n + 1), Candidates(base, n);
    assert c == init + [Candidate(base, n + 1)];
    forall k | 0 <= k < |init| ensures init[k] != Try(base, n) {
      assert init[k] == c[k] && c[|init|] == Try(base, n);
    }
  }

  /** The bound of one more lookup than rows fails exactly for those bases. */
  lemma OneMoreLookupExactly(base: string)
    ensures SelfCandidate(base)
      <==> exists rows, arrivals :: Distinct(rows)
             && Lookups(base, rows, arrivals) > |TableAfter(base, rows, arrivals)| + 1
  {
    if SelfCandidate(base) {
      var i: nat :| i >= 2 && Candidate(base, i) == base;
      var rows := SelfCandidateCosts(base, i);
      assert Lookups(base, rows, []) > |TableAfter(base, rows, [])| + 1;
    } else {
      forall rows, arrivals ensures Lookups(base, rows, arrivals) <= |TableAfter(base, rows, arrivals)| + 1 {
        LookupsAreBounded(base, rows, arrivals);
      }
    }
  }

  // ---------- which slug comes out ----------

  /** `slug` is the base with number `i` behind it: the whole base if that has at most 180 characters,
      otherwise the longest part of its front that leaves room. A number too long for 180 characters
      cuts the base by what it is too long. */
  ghost predicate IsNumbered(base: string, i: nat, slug: string) {
    var suffix := "-" + Decimal(i);
    && (|base + suffix| <= 180 ==> slug == base + suffix)
    && (|suffix| <= 180 < |base + suffix| ==> |slug| == 180 && slug == base[..180 - |suffix|] + suffix)
    && (180 < |suffix| <= |base| + 180 ==> slug == base[..|base| + 180 - |suffix|] + suffix)
    && (|base| + 180 < |suffix| ==> slug == suffix)
  }

  /** What lookup `n` asks for, counted from 0: the base, and then the base with the numbers from 2 on. */
  ghost predicate IsTry(base: string, n: nat, slug: string) {
    if n == 0 then slug == base else IsNumbered(base, n + 1, slug)
  }

  lemma TryIs(base: string, n: nat)
    ensures IsTry(base, n, Try(base, n))
    ensures forall slug :: IsTry(base, n, slug) ==> slug == Try(base, n)
  {
  }

  /** The table as lookup `n` finds it. */
  function RowsAt(rows: seq<string>, arrivals: seq<seq<string>>, n: nat): seq<string> {
    InsertRows(if n == 0 then rows else RowsAt(rows, arrivals, n - 1), if n < |arrivals| then arrivals[n] else [])
  }

  lemma {:induction false} RowsAtLater(rows: seq<string>, arrivals: seq<seq<string>>, n: nat)
    requires arrivals != []
    ensures RowsAt(InsertRows(rows, arrivals[0]), arrivals[1..], n) == RowsAt(rows, arrivals, n + 1)
  {
    if n == 0 {
      assert RowsAt(rows, arrivals, 0) == InsertRows(rows, arrivals[0]);
    } else {
      RowsAtLater(rows, arrivals, n - 1);
    }
  }

  lemma {:induction false} RowsAtRest(rows: seq<string>, n: nat)
    ensures RowsAt(rows, [], n) == rows
  {
    if n > 0 {
      RowsAtRest(rows, n - 1);
    }
  }

  /** With the lookups counted from try `n` on, that of try `m` finds it taken. */
  predicate TakenAt(base: string, rows: seq<string>, arrivals: seq<seq<string>>, n: nat, m: nat)
    requires n <= m
  {
    Try(base, m) in RowsAt(rows, arrivals, m - n)
  }

  /** Lookups from try `n` on: each before the last finds its try taken, the last finds its own free. */
  ghost predicate EndsAt(base: string, rows: seq<string>, arrivals: seq<seq<string>>, n: nat, last: nat) {
    && n <= last && !TakenAt(base, rows, arrivals, n, last)
    && forall m: nat :: n <= m < last ==> TakenAt(base, rows, arrivals, n, m)
  }

  lemma EndsAtEarlier(base: string, rows: seq<string>, arrivals: seq<seq<string>>, n: nat, last: nat)
    requires arrivals != [] && Try(base, n) in InsertRows(rows, arrivals[0])
    requires EndsAt(base, InsertRows(rows, arrivals[0]), arrivals[1..], n + 1, last)
    ensures EndsAt(base, rows, arrivals, n, last)
    ensures RowsAt(rows, arrivals, last - n) == RowsAt(InsertRows(rows, arrivals[0]), arrivals[1..], last - (n + 1))
  {
    var now := InsertRows(rows, arrivals[0]);
    RowsAtLater(rows, arrivals, last - (n + 1));
    forall m: nat | n <= m < last ensures TakenAt(base, rows, arrivals, n, m) {
      if m == n {
        assert RowsAt(rows, arrivals, m - n) == now;
      } else {
        assert TakenAt(base, now, arrivals[1..], n + 1, m);
        RowsAtLater(rows, arrivals, m - (n + 1));
      }
    }
  }

  lemma EndsAtOnce(base: string, rows: seq<string>, n: nat)
    requires AllTaken(base, rows, n)
    ensures EndsAt(base, rows, [], n, FirstFree(base, rows, n))
    ensures RowsAt(rows, [], FirstFree(base, rows, n) - n) == rows
  {
    forall m: nat ensures RowsAt(rows, [], m) == rows {
      RowsAtRest(rows, m);
    }
  }

  lemma EndsAtFirst(base: string, rows: seq<string>, arrivals: seq<seq<string>>, n: nat)
    requires arrivals != [] && Try(base, n) !in InsertRows(rows, arrivals[0])
    ensures RowsAt(rows, arrivals, n - n) == InsertRows(rows, arrivals[0])
    ensures EndsAt(base, rows, arrivals, n, n)
  {
    assert RowsAt(rows, arrivals, 0) == InsertRows(rows, arrivals[0]);
  }

  lemma SearchStep(base: string, rows: seq<string>, arrivals: seq<seq<string>>, n: nat)
    requires AllTaken(base, rows, n) && arrivals != []
    ensures var now := InsertRows(rows, arrivals[0]);
      if Try(base, n) in now then
        AllTaken(base, now, n + 1) && Search(base, rows, arrivals, n) == Search(base, now, arrivals[1..], n + 1)
      else Search(base, rows, arrivals, n) == Found(now, n)
  {
    InsertRowsKeeps(rows, arrivals[0]);
  }

  ghost predicate Finds(base: string, rows: seq<string>, arrivals: seq<seq<string>>, n: nat, r: Found) {
    EndsAt(base, rows, arrivals, n, r.tries) && r.rows == RowsAt(rows, arrivals, r.tries - n)
  }

  lemma FindsByStep(base: string, rows: seq<string>, arrivals: seq<seq<string>>, n: nat, r: Found)
    requires arrivals != []
    requires var now := InsertRows(rows, arrivals[0]);
      if Try(base, n) in now then Finds(base, now, arrivals[1..], n + 1, r) else r == Found(now, n)
    ensures Finds(base, rows, arrivals, n, r)
  {
    if Try(base, n) in InsertRows(rows, arrivals[0]) {
      EndsAtEarlier(base, rows, arrivals, n, r.tries);
    } else {
      EndsAtFirst(base, rows, arrivals, n);
    }
  }

  lemma {:induction false} SearchFindsFirst(base: string, rows: seq<string>, arrivals: seq<seq<string>>, n: nat)
    requires AllTaken(base, rows, n)
    ensures Finds(base, rows, arrivals, n, Search(base, rows, arrivals, n))
    decreases |arrivals|
  {
    if arrivals == [] {
      EndsAtOnce(base, rows, n);
    } else {
      SearchStep(base, rows, arrivals, n);
      var now := InsertRows(rows, arrivals[0]);
      if Try(base, n) in now {
        SearchFindsFirst(base, now, arrivals[1..], n + 1);
      }
      FindsByStep(base, rows, arrivals, n, Search(base, rows, arrivals, n));
    }
  }

  /** `slug` is what `lookups` lookups end with: the first of the base and its numbered forms that is
      free when it is looked up. */
  ghost predicate FirstFreeSlug(base: string, rows: seq<string>, arrivals: seq<seq<string>>, slug: string, lookups: nat) {
    && lookups > 0
    && IsTry(base, lookups - 1, slug) && slug !in RowsAt(rows, arrivals, lookups - 1)
    && forall m: nat, t :: m < lookups - 1 && IsTry(base, m, t) ==> t in RowsAt(rows, arrivals, m)
  }

  lemma FirstFreeIsOne(base: string, rows: seq<string>, arrivals: seq<seq<string>>,
                       a: string, m: nat, b: string, n: nat)
    requires FirstFreeSlug(base, rows, arrivals, a, m) && FirstFreeSlug(base, rows, arrivals, b, n)
    ensures a == b && m == n
  {
    TryIs(base, m - 1);
    TryIs(base, n - 1);
  }

  lemma SearchFindsIt(base: string, rows: seq<string>, arrivals: seq<seq<string>>)
    ensures FirstFreeSlug(base, rows, arrivals, Resolve(base, rows, arrivals), Lookups(base, rows, arrivals))
    ensures TableAfter(base, rows, arrivals) == RowsAt(rows, arrivals, Lookups(base, rows, arrivals) - 1)
  {
    SearchFindsFirst(base, rows, arrivals, 0);
    var last := Search(base, rows, arrivals, 0).tries;
    TryIs(base, last);
    forall m: nat, t | m < last && IsTry(base, m, t) ensures t in RowsAt(rows, arrivals, m) {
      TryIs(base, m);
      assert TakenAt(base, rows, arrivals, 0, m);
    }
  }

  /** The search finds that slug, and nothing else is it. */
  lemma ResolveExactly(base: string, rows: seq<string>, arrivals: seq<seq<string>>, slug: string, lookups: nat)
    ensures FirstFreeSlug(base, rows, arrivals, slug, lookups)
      <==> slug == Resolve(base, rows, arrivals) && lookups == Lookups(base, rows, arrivals)
  {
    SearchFindsIt(base, rows, arrivals);
    if FirstFreeSlug(base, rows, arrivals, slug, lookups) {
      FirstFreeIsOne(base, rows, arrivals, slug, lookups,
                     Resolve(base, rows, arrivals), Lookups(base, rows, arrivals));
    }
  }

  // ---------- inserting against concurrent inserts ----------

  /** What others insert before each lookup of one suffix search, and between its last lookup and
      the INSERT that follows. */
  datatype Race = Race(beforeLookups: seq<seq<string>>, beforeInsert: seq<string>)

  datatype Outcome = Created(slug: string) | Conflict

  const ATTEMPTS := 5

  /** The base of attempt `k`: after failures the attempt's number is added. */
  function AttemptBase(base: string, k: nat): string {
    if k == 0 then base else base + "-" + Decimal(k + 1)
  }

  /** The table before the search of attempt `k`, when the attempts before have failed. */
  function BeforeAt(base: string, rows: seq<string>, races: nat -> Race, k: nat): seq<string>
    decreases k, 0
  {
    if k == 0 then rows else FoundAt(base, rows, races, k - 1)
  }

  /** The table as the last lookup of that search sees it. */
  function SeenAt(base: string, rows: seq<string>, races: nat -> Race, k: nat): seq<string>
    decreases k, 1
  {
    TableAfter(AttemptBase(base, k), BeforeAt(base, rows, races, k), races(k).beforeLookups)
  }

  /** The table as the INSERT of attempt `k` finds it. */
  function FoundAt(base: string, rows: seq<string>, races: nat -> Race, k: nat): seq<string>
    decreases k, 2
  {
    InsertRows(SeenAt(base, rows, races, k), races(k).beforeInsert)
  }

  function SlugAt(base: string, rows: seq<string>, races: nat -> Race, k: nat): string {
    Resolve(AttemptBase(base, k), BeforeAt(base, rows, races, k), races(k).beforeLookups)
  }

  /** `p` holds below `n`. */
  predicate AllTo(p: nat -> bool, n: nat) {
    n == 0 || (AllTo(p, n - 1) && p(n - 1))
  }

  lemma {:induction false} AllToSame(p: nat -> bool, q: nat -> bool, n: nat)
    requires forall k: nat :: p(k) == q(k)
    ensures AllTo(p, n) == AllTo(q, n)
  {
    if n > 0 {
      AllToSame(p, q, n - 1);
    }
  }

  /** The INSERT of attempt `k` fails. */
  ghost predicate CollidesAt(base: string, rows: seq<string>, races: nat -> Race, k: nat) {
    SlugAt(base, rows, races, k) in FoundAt(base, rows, races, k)
  }

  /** The INSERTs of the first `n` attempts fail. */
  ghost predicate AllCollide(base: string, rows: seq<string>, races: nat -> Race, n: nat) {
    AllTo((k: nat) => CollidesAt(base, rows, races, k), n)
  }

  lemma OneMoreCollides(base: string, rows: seq<string>, races: nat -> Race, n: nat)
    ensures AllCollide(base, rows, races, 0)
    ensures AllCollide(base, rows, races, n + 1)
      <==> AllCollide(base, rows, races, n) && CollidesAt(base, rows, races, n)
  {
  }

  lemma NextAttempt(base: string, rows: seq<string>, races: nat -> Race, k: nat)
    ensures BeforeAt(base, rows, races, k + 1) == FoundAt(base, rows, races, k)
    ensures AttemptBase(base, k + 1) == base + "-" + Decimal(k + 2)
  {
  }

  /** Before the INSERT of attempt `k`: all attempts so far have failed, and `candidate` is the
      first free slug for this one. */
  ghost predicate Ready(base: string, start: seq<string>, races: nat -> Race, k: nat, rows: seq<string>, candidate: string) {
    && AllCollide(base, start, races, k)
    && rows == SeenAt(base, start, races, k)
    && candidate == SlugAt(base, start, races, k)
  }

  /** Attempt `k` was the first to succeed: its slug is the last row. */
  ghost predicate Placed(base: string, start: seq<string>, races: nat -> Race, k: nat, rows: seq<string>, slug: string) {
    && AllCollide(base, start, races, k) && !CollidesAt(base, start, races, k)
    && slug == SlugAt(base, start, races, k)
    && rows == FoundAt(base, start, races, k) + [slug]
  }

  /** The search that began on the table `start` has just looked up try `n` on the table `now`. */
  ghost predicate SearchesOn(base: string, start: seq<string>, arrivals: seq<seq<string>>,
                             now: seq<string>, pending: seq<seq<string>>, n: nat) {
    && AllTaken(base, now, n)
    && Search(base, start, arrivals, 0) == FromLookup(base, now, pending, n)
  }

  lemma SearchBegins(base: string, start: seq<string>, arrivals: seq<seq<string>>)
    ensures SearchesOn(base, start, arrivals, InsertRows(start, Arriving(arrivals)), Pending(arrivals), 0)
    ensures Try(base, 0) == base
  {
    LookupIsNext(base, start, arrivals, 0);
  }

  lemma SearchEnds(base: string, start: seq<string>, arrivals: seq<seq<string>>,
                   now: seq<string>, pending: seq<seq<string>>, n: nat)
    requires SearchesOn(base, start, arrivals, now, pending, n) && Try(base, n) !in now
    ensures Resolve(base, start, arrivals) == Try(base, n) && Lookups(base, start, arrivals) == n + 1
    ensures TableAfter(base, start, arrivals) == now
    ensures FirstFreeSlug(base, start, arrivals, Try(base, n), n + 1) && now == RowsAt(start, arrivals, n)
  {
    SearchFindsIt(base, start, arrivals);
  }

  lemma OneMoreTaken(base: string, now: seq<string>, n: nat)
    requires AllTaken(base, now, n) && Try(base, n) in now
    ensures AllTaken(base, now, n + 1)
  {
  }

  lemma NothingArrives(rows: seq<string>)
    ensures InsertRows(rows, Arriving([])) == rows
  {
  }

  lemma NextTry(base: string, n: nat)
    ensures Try(base, n + 1) == Head(base, LIMIT - |Suffix(n + 2)|) + Suffix(n + 2)
  {
  }

  /** If the try is taken, the next lookup follows. */
  lemma StillTaken(base: string, start: seq<string>, arrivals: seq<seq<string>>,
                   now: seq<string>, pending: seq<seq<string>>, n: nat)
    requires SearchesOn(base, start, arrivals, now, pending, n) && Try(base, n) in now
    ensures SearchesOn(base, start, arrivals, InsertRows(now, Arriving(pending)), Pending(pending), n + 1)
    ensures n <= |now| && (pending == [] ==> InsertRows(now, Arriving(pending)) == now)
    ensures Try(base, n + 1) == Head(base, LIMIT - |Suffix(n + 2)|) + Suffix(n + 2)
  {
    OneMoreTaken(base, now, n);
    assert FromLookup(base, now, pending, n) == Search(base, now, pending, n + 1);
    LookupIsNext(base, now, pending, n + 1);
    TriesAreBounded(base, now, n + 1);
    NothingArrives(now);
    NextTry(base, n);
  }

  /** The posts table: its slugs in order of insertion. That they stay distinct is shown below,
      by `RowsOnlyGrow` and `CreatedRowIsNew`. */
  class BlogPosts {
    var rows: seq<string>

    constructor ()
      ensures rows == []
    {
      rows := [];
    }

    /** An INSERT under the UNIQUE constraint. */
    method Flush(slug: string) returns (inserted: bool)
      modifies this
      ensures rows == InsertRow(old(rows), slug)
      ensures inserted <==> slug !in old(rows)
    {
      inserted := slug !in rows;
      if inserted {
        rows := rows + [slug];
      }
    }

    method Others(slugs: seq<string>)
      modifies this
      ensures rows == InsertRows(old(rows), slugs)
    {
      var i := 0;
      while i < |slugs|
        invariant 0 <= i <= |slugs|
        invariant InsertRows(old(rows), slugs) == InsertRows(rows, slugs[i..])
      {
        var _ := Flush(slugs[i]);
        assert slugs[i..][1..] == slugs[i + 1..];
        i := i + 1;
      }
    }

    /** `get_by_slug`, after what others have inserted by then. */
    method Lookup(slug: string, arrivals: seq<seq<string>>) returns (taken: bool, pending: seq<seq<string>>)
      modifies this
      ensures rows == InsertRows(old(rows), Arriving(arrivals)) && pending == Pending(arrivals)
      ensures taken <==> slug in rows
    {
      Others(Arriving(arrivals));
      return slug in rows, Pending(arrivals);
    }

    /** `_resolve_unique_slug`. */
    method ResolveUniqueSlug(base: string, arrivals: seq<seq<string>>) returns (slug: string, ghost lookups: nat)
      modifies this
      ensures slug == Resolve(base, old(rows), arrivals) && lookups == Lookups(base, old(rows), arrivals)
      ensures rows == TableAfter(base, old(rows), arrivals)
      ensures FirstFreeSlug(base, old(rows), arrivals, slug, lookups) && rows == RowsAt(old(rows), arrivals, lookups - 1)
    {
      slug := base;
      var i := 2;
      ghost var start, n := rows, 0;
      SearchBegins(base, start, arrivals);
      var taken, pending := Lookup(slug, arrivals);
      lookups := 1;
      while taken
        invariant i == n + 2 && lookups == n + 1
        invariant slug == Try(base, n) && (taken <==> slug in rows)
        invariant SearchesOn(base, start, arrivals, rows, pending, n)
        decreases |pending|, |rows| + 1 - n
      {
        StillTaken(base, start, arrivals, rows, pending, n);
        n := n + 1;
        var suffix := Suffix(i);
        slug := Head(base, LIMIT - |suffix|) + suffix;
        i := i + 1;
        taken, pending := Lookup(slug, pending);
        lookups := lookups + 1;
      }
      SearchEnds(base, start, arrivals, rows, pending, n);
    }

    /** One turn of the retry loop: the INSERT, and after a failure the next candidate. */
    method Attempt(base: string, races: nat -> Race, k: nat, candidate: string, ghost start: seq<string>)
      returns (inserted: bool, next: string)
      requires Ready(base, start, races, k, rows, candidate)
      modifies this
      ensures inserted ==> Placed(base, start, races, k, rows, candidate)
      ensures !inserted ==> Ready(base, start, races, k + 1, rows, next)
    {
      Others(races(k).beforeInsert);
      inserted := Flush(candidate);
      if inserted {
        return true, candidate;
      }
      NextAttempt(base, start, races, k);
      OneMoreCollides(base, start, races, k);
      var slug, _ := ResolveUniqueSlug(base + "-" + Decimal(k + 2), races(k + 1).beforeLookups);
      return false, slug;
    }

    /** The search before the first attempt. */
    method FirstCandidate(base: string, races: nat -> Race) returns (candidate: string, ghost none: nat)
      modifies this
      ensures none == 0 && Ready(base, old(rows), races, none, rows, candidate)
    {
      none := 0;
      OneMoreCollides(base, rows, races, none);
      var slug, _ := ResolveUniqueSlug(base, races(0).beforeLookups);
      candidate := slug;
    }

    /** The retry loop, for any number of attempts. */
    method CreateWithin(base: string, races: nat -> Race, attempts: nat) returns (outcome: Outcome, ghost inserts: nat)
      requires attempts > 0
      modifies this
      ensures 1 <= inserts <= attempts
      ensures outcome.Created? ==> Placed(base, old(rows), races, inserts - 1, rows, outcome.slug)
      ensures outcome.Conflict? ==>
        inserts == attempts && exists next :: Ready(base, old(rows), races, inserts, rows, next)
    {
      ghost var start := rows;
      var candidate;
      candidate, inserts := FirstCandidate(base, races);
      for attempt := 0 to attempts
        invariant inserts == attempt
        invariant Ready(base, start, races, inserts, rows, candidate)
      {
        inserts := inserts + 1;
        var inserted, next := Attempt(base, races, attempt, candidate, start);
        if inserted {
          return Created(candidate), inserts;
        }
        candidate := next;
      }
      return Conflict, inserts;
    }

    /** `create` from its slugified base on, with what others do in between. */
    method Create(base: string, races: nat -> Race) returns (outcome: Outcome, ghost inserts: nat)
      modifies this
      ensures 1 <= inserts <= 5
      ensures outcome.Created? ==> Placed(base, old(rows), races, inserts - 1, rows, outcome.slug)
      ensures outcome.Conflict? ==>
        inserts == 5 && exists next :: Ready(base, old(rows), races, inserts, rows, next)
    {
      outcome, inserts := CreateWithin(base, races, ATTEMPTS);
    }
  }

  // ---------- what creating a post guarantees ----------

  lemma {:induction false} InsertRowsIs(rows: seq<string>, slugs: seq<string>)
    requires Distinct(rows)
    ensures Distinct(InsertRows(rows, slugs)) && rows <= InsertRows(rows, slugs)
    ensures forall x :: x in InsertRows(rows, slugs) <==> x in rows || x in slugs
    decreases |slugs|
  {
    if slugs != [] {
      InsertRowsIs(InsertRow(rows, slugs[0]), slugs[1..]);
      assert slugs == [slugs[0]] + slugs[1..];
    }
  }

  lemma {:induction false} SearchGrows(base: string, rows: seq<string>, arrivals: seq<seq<string>>, n: nat)
    requires Distinct(rows) && AllTaken(base, rows, n)
    ensures var r := Search(base, rows, arrivals, n); Distinct(r.rows) && rows <= r.rows
    decreases |arrivals|
  {
    if arrivals != [] {
      var now := InsertRows(rows, arrivals[0]);
      InsertRowsIs(rows, arrivals[0]);
      InsertRowsKeeps(rows, arrivals[0]);
      if Try(base, n) in now {
        SearchGrows(base, now, arrivals[1..], n + 1);
      }
    }
  }

  lemma PrefixAlong(a: seq<string>, b: seq<string>, c: seq<string>)
    requires a <= b <= c
    ensures a <= c
  {
  }

  /** Through all attempts and rivals the slugs stay unique, and no row is lost. */
  lemma {:induction false} RowsOnlyGrow(base: string, rows: seq<string>, races: nat -> Race, k: nat)
    requires Distinct(rows)
    ensures var before, seen, found :=
        BeforeAt(base, rows, races, k), SeenAt(base, rows, races, k), FoundAt(base, rows, races, k);
      && Distinct(before) && Distinct(seen) && Distinct(found)
      && rows <= before <= seen <= found
  {
    if k > 0 {
      RowsOnlyGrow(base, rows, races, k - 1);
      NextAttempt(base, rows, races, k - 1);
      PrefixAlong(rows, BeforeAt(base, rows, races, k - 1), SeenAt(base, rows, races, k - 1));
      PrefixAlong(rows, SeenAt(base, rows, races, k - 1), BeforeAt(base, rows, races, k));
    }
    SearchGrows(AttemptBase(base, k), BeforeAt(base, rows, races, k), races(k).beforeLookups, 0);
    InsertRowsIs(SeenAt(base, rows, races, k), races(k).beforeInsert);
  }

  /** A created post is one new row, with a slug no row had. */
  lemma CreatedRowIsNew(base: string, rows: seq<string>, races: nat -> Race, k: nat)
    requires Distinct(rows) && !CollidesAt(base, rows, races, k)
    ensures var slug := SlugAt(base, rows, races, k);
      slug !in rows && Distinct(FoundAt(base, rows, races, k) + [slug])
  {
    RowsOnlyGrow(base, rows, races, k);
    var slug, found := SlugAt(base, rows, races, k), FoundAt(base, rows, races, k);
    assert rows <= SeenAt(base, rows, races, k) <= found;
    assert slug !in found;
    forall x | x in rows ensures x in found {
      var i :| 0 <= i < |rows| && rows[i] == x;
      assert found[i] == x;
    }
  }

  /** Between the lookup and the INSERT of attempt `k`, someone inserts the slug it found. */
  predicate RacedAt(base: string, rows: seq<string>, races: nat -> Race, k: nat) {
    SlugAt(base, rows, races, k) in races(k).beforeInsert
  }

  /** All of the first `n` attempts are. */
  predicate AllRaced(base: string, rows: seq<string>, races: nat -> Race, n: nat) {
    AllTo((k: nat) => RacedAt(base, rows, races, k), n)
  }

  /** An INSERT fails exactly when it was raced. */
  lemma CollidesExactlyWhenRaced(base: string, rows: seq<string>, races: nat -> Race, k: nat)
    requires Distinct(rows)
    ensures CollidesAt(base, rows, races, k) <==> RacedAt(base, rows, races, k)
  {
    RowsOnlyGrow(base, rows, races, k);
    InsertRowsIs(SeenAt(base, rows, races, k), races(k).beforeInsert);
  }

  /** The 409, which comes when all five INSERTs fail, comes exactly when each was raced. */
  lemma ConflictExactlyWhenRaced(base: string, rows: seq<string>, races: nat -> Race, n: nat)
    requires Distinct(rows)
    ensures AllCollide(base, rows, races, n) <==> AllRaced(base, rows, races, n)
  {
    var collides := (k: nat) => CollidesAt(base, rows, races, k);
    var raced := (k: nat) => RacedAt(base, rows, races, k);
    forall k: nat ensures collides(k) == raced(k) {
      CollidesExactlyWhenRaced(base, rows, races, k);
    }
    AllToSame(collides, raced, n);
  }

  lemma FailedAttemptGrows(base: string, rows: seq<string>, races: nat -> Race, k: nat)
    requires Distinct(rows) && CollidesAt(base, rows, races, k)
    ensures |FoundAt(base, rows, races, k)| > |SeenAt(base, rows, races, k)|
  {
    RowsOnlyGrow(base, rows, races, k);
    NewRowGrows(SeenAt(base, rows, races, k), FoundAt(base, rows, races, k), SlugAt(base, rows, races, k));
  }

  /** Every failed attempt is paid for by a rival's row: a 409 means five rows more. */
  lemma {:induction false} FailuresAreRivalRows(base: string, rows: seq<string>, races: nat -> Race, n: nat)
    requires Distinct(rows) && AllCollide(base, rows, races, n)
    ensures |SeenAt(base, rows, races, n)| >= |rows| + n
  {
    if n == 0 {
      RowsOnlyGrow(base, rows, races, 0);
    } else {
      FailuresAreRivalRows(base, rows, races, n - 1);
      FailedAttemptGrows(base, rows, races, n - 1);
      SeenGrows(base, rows, races, n - 1);
    }
  }

  lemma SeenGrows(base: string, rows: seq<string>, races: nat -> Race, k: nat)
    requires Distinct(rows)
    ensures |SeenAt(base, rows, races, k + 1)| >= |FoundAt(base, rows, races, k)|
  {
    RowsOnlyGrow(base, rows, races, k + 1);
    NextAttempt(base, rows, races, k);
  }

  lemma NewRowGrows(a: seq<string>, b: seq<string>, x: string)
    requires a <= b && x !in a && x in b
    ensures |b| > |a|
  {
    assert b == a + b[|a|..];
    assert x in b[|a|..];
  }

  lemma AttemptBaseIsShort(base: string, k: nat)
    requires k < ATTEMPTS && 1 <= |base| <= LIMIT
    ensures 1 <= |AttemptBase(base, k)| <= LIMIT + 2
  {
    assert |Decimal(k + 1)| == 1;
  }

  lemma TryIsShort(base: string, n: nat)
    requires 1 <= |base| <= LIMIT + 2 && (n > 0 ==> |Decimal(n + 1)| < LIMIT)
    ensures 1 <= |Try(base, n)| <= LIMIT + 2
  {
  }

  /** Every slug that is inserted fits its column, unless the table already holds more rows
      than numbers of 179 digits can count. */
  lemma SlugFitsColumn(fold: Folding, text: string, rows: seq<string>, races: nat -> Race, k: nat)
    requires k < ATTEMPTS
    requires |Decimal(|SeenAt(Slugify(fold, text), rows, races, k)| + 2)| < LIMIT
    ensures 1 <= |SlugAt(Slugify(fold, text), rows, races, k)| <= 182 <= COLUMN == 200
  {
    var slug := Slugify(fold, text);
    var base, before, seen := AttemptBase(slug, k), BeforeAt(slug, rows, races, k), SeenAt(slug, rows, races, k);
    SlugShape(fold, text);
    AttemptBaseIsShort(slug, k);
    var n := Search(base, before, races(k).beforeLookups, 0).tries;
    TriesAreBounded(base, seen, n);
    DecimalLength(n + 1, |seen| + 2);
    TryIsShort(base, n);
  }

  /** The second extra lookup is real: a title whose slug is its own candidate. */
  lemma SelfCandidateSlugExists(fold: Folding) returns (title: string)
    requires KeepsAscii(fold)
    ensures SelfCandidate(Slugify(fold, title))
  {
    title := seq(178, (k: int) => 'a') + "-2";
    assert |title| == LIMIT;
    LongTextIsCut(fold, title);
    assert Suffix(2) == "-2";
    SelfCandidateIs(title, 2);
  }
}
