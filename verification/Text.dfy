/** White space and substrings as the programs' text operations see them. */
module Text {
  import opened Common

  predicate StartsWith(text: string, i: nat, s: string) {
    i + |s| <= |text| && text[i..i + |s|] == s
  }

  predicate Contains(text: string, s: string) {
    exists i :: 0 <= i <= |text| && StartsWith(text, i, s)
  }

  /** `find(s, i)`: the first place from `i` on where `s` stands. */
  function Find(text: string, s: string, i: nat): (r: Option<nat>)
    requires i <= |text|
    ensures r.Some? ==> i <= r.value && StartsWith(text, r.value, s)
    decreases |text| - i
  {
    if StartsWith(text, i, s) then Some(i)
    else if i == |text| then None
    else Find(text, s, i + 1)
  }

  lemma {:induction false} FindIs(text: string, s: string, i: nat, k: nat)
    requires i <= k <= |text| && StartsWith(text, k, s)
    requires forall j :: i <= j < k ==> !StartsWith(text, j, s)
    ensures Find(text, s, i) == Some(k)
    decreases k - i
  {
    if i < k {
      FindIs(text, s, i + 1, k);
    }
  }

  /** What `\s`, `isspace` and `strip` take for white space. */
  predicate IsSpace(c: char) {
    var n := c as int;
    || 9 <= n <= 13 || 28 <= n <= 32 || n == 0x85 || n == 0xA0 || n == 0x1680
    || 0x2000 <= n <= 0x200A || n == 0x2028 || n == 0x2029 || n == 0x202F || n == 0x205F || n == 0x3000
  }

  /** The characters for which `isspace` is true, one by one. */
  lemma SpacesAre(c: char)
    ensures IsSpace(c) <==> c in {
      '\t', '\n', '\U{0B}', '\U{0C}', '\r', '\U{1C}', '\U{1D}', '\U{1E}', '\U{1F}', ' ', '\U{85}', '\U{A0}',
      '\U{1680}', '\U{2000}', '\U{2001}', '\U{2002}', '\U{2003}', '\U{2004}', '\U{2005}', '\U{2006}', '\U{2007}',
      '\U{2008}', '\U{2009}', '\U{200A}', '\U{2028}', '\U{2029}', '\U{202F}', '\U{205F}', '\U{3000}'}
  {
  }

  predicate AllSpace(s: string) {
    forall k :: 0 <= k < |s| ==> IsSpace(s[k])
  }

  /** The first position from `i` on that is not white space. */
  function SkipSpace(text: string, i: nat): (j: nat)
    requires i <= |text|
    ensures i <= j <= |text|
    ensures forall k :: i <= k < j ==> IsSpace(text[k])
    ensures j < |text| ==> !IsSpace(text[j])
    decreases |text| - i
  {
    if i < |text| && IsSpace(text[i]) then SkipSpace(text, i + 1) else i
  }

  lemma {:induction false} SkipsExactly(text: string, i: nat, j: nat)
    requires i <= j <= |text|
    requires forall k :: i <= k < j ==> IsSpace(text[k])
    requires j < |text| ==> !IsSpace(text[j])
    ensures SkipSpace(text, i) == j
    decreases j - i
  {
    if i < j {
      SkipsExactly(text, i + 1, j);
    }
  }

  function TrimRight(s: string): (r: string)
    ensures r <= s && (r != [] ==> !IsSpace(r[|r| - 1]))
    ensures forall k :: |r| <= k < |s| ==> IsSpace(s[k])
  {
    if s != [] && IsSpace(s[|s| - 1]) then TrimRight(s[..|s| - 1]) else s
  }

  /** `strip()`. */
  function Trim(s: string): string {
    TrimRight(s[SkipSpace(s, 0)..])
  }

  /** No white space at either end. */
  predicate Trimmed(s: string) {
    s == "" || (!IsSpace(s[0]) && !IsSpace(s[|s| - 1]))
  }

  lemma TrimKeepsTrimmed(s: string)
    requires Trimmed(s)
    ensures Trim(s) == s
  {
    assert s[0..] == s;
  }

  lemma {:induction false} TrimTrailing(core: string, after: string)
    requires core != "" && !IsSpace(core[|core| - 1]) && AllSpace(after)
    ensures TrimRight(core + after) == core
    decreases |after|
  {
    var text := core + after;
    if after == "" {
      assert text == core;
    } else {
      var shorter := after[..|after| - 1];
      assert text[..|text| - 1] == core + shorter && text[|text| - 1] == after[|after| - 1];
      TrimTrailing(core, shorter);
    }
  }

  /** White space around a trimmed text is what `strip()` takes off. */
  lemma TrimWithin(before: string, core: string, after: string)
    requires AllSpace(before) && core != "" && Trimmed(core) && AllSpace(after)
    ensures Trim(before + (core + after)) == core
  {
    var text := before + (core + after);
    SkipsExactly(text, 0, |before|);
    assert text[|before|..] == core + after;
    TrimTrailing(core, after);
  }

  /** The characters of a text that are not white space, in order. */
  ghost function Ink(s: string): string {
    if s == [] then [] else (if IsSpace(s[0]) then [] else [s[0]]) + Ink(s[1..])
  }

  lemma InkHead(s: string)
    requires s != ""
    ensures Ink(s) == (if IsSpace(s[0]) then [] else [s[0]]) + Ink(s[1..])
  {
  }

  lemma {:induction false} InkConcat(a: string, b: string)
    ensures Ink(a + b) == Ink(a) + Ink(b)
  {
    if a == [] {
      assert a + b == b;
    } else {
      assert (a + b)[1..] == a[1..] + b && (a + b)[0] == a[0];
      InkConcat(a[1..], b);
      InkHead(a);
      InkHead(a + b);
      var head := if IsSpace(a[0]) then [] else [a[0]];
      assert head + (Ink(a[1..]) + Ink(b)) == head + Ink(a[1..]) + Ink(b);
    }
  }

  lemma {:induction false} InkOfSpace(s: string)
    requires AllSpace(s)
    ensures Ink(s) == []
  {
    if s != [] {
      InkOfSpace(s[1..]);
    }
  }

  lemma {:induction false} NoInkIsSpace(s: string)
    requires Ink(s) == []
    ensures AllSpace(s)
  {
    if s != [] {
      NoInkIsSpace(s[1..]);
      assert forall k :: 0 < k < |s| ==> s[k] == s[1..][k - 1];
    }
  }

  /** White space around a text leaves no ink. */
  lemma InkWithin(before: string, s: string, after: string)
    requires AllSpace(before)
    requires AllSpace(after)
    ensures Ink(before + (s + after)) == Ink(s)
  {
    InkConcat(before, s + after);
    InkConcat(s, after);
    InkOfSpace(before);
    InkOfSpace(after);
    assert [] + (Ink(s) + []) == Ink(s);
  }

  lemma InkOfPrefix(before: string, t: string, r: string)
    requires AllSpace(before)
    requires r <= t && forall k :: |r| <= k < |t| ==> IsSpace(t[k])
    ensures Ink(r) == Ink(before + t)
  {
    var after := t[|r|..];
    assert t == r + after;
    InkWithin(before, r, after);
  }

  lemma InkOfTrim(s: string)
    ensures Ink(Trim(s)) == Ink(s)
  {
    var j := SkipSpace(s, 0);
    InkOfPrefix(s[..j], s[j..], TrimRight(s[j..]));
    assert s == s[..j] + s[j..];
  }
}
