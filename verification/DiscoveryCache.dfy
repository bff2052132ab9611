/** The script runner's listing of scripts: what a script's header says, and the cache of the
    last scan. */
module DiscoveryCache {
  import opened Common
  import opened Text
  import JsonBlock

  // ---------- a script's header ----------

  function Marker(): string {
    "BOB_SCRIPT_META:"
  }

  /** The text of the first object after the marker. */
  function HeaderText(source: string): Option<string> {
    match Find(source, Marker(), 0)
    case None => None
    case Some(at) =>
      match Find(source, "{", at + |Marker()|)
      case None => None
      case Some(open) => JsonBlock.Extract(source, open)
  }

  lemma FoundAfter(source: string, pre: string, s: string, post: string, i: nat)
    requires source == pre + s + post && i <= |pre|
    requires forall j :: i <= j < |pre| ==> !StartsWith(source, j, s)
    ensures Find(source, s, i) == Some(|pre|)
  {
    assert source[|pre|..|pre| + |s|] == s;
    FindIs(source, s, i, |pre|);
  }

  lemma BraceFoundAfter(source: string, pre: string, gap: string, post: string)
    requires source == pre + gap + post && '{' !in gap
    requires post != [] && post[0] == '{'
    ensures Find(source, "{", |pre|) == Some(|pre + gap|)
  {
    forall j | |pre| <= j < |pre + gap| ensures !StartsWith(source, j, "{") {
      assert source[j] == gap[j - |pre|];
      assert source[j..j + 1][0] == source[j];
    }
    assert post == "{" + post[1..];
    assert source == (pre + gap) + "{" + post[1..];
    FoundAfter(source, pre + gap, "{", post[1..], |pre|);
  }

  /** A header written as JSON after the first marker is read back exactly, whatever follows. */
  lemma HeaderRoundTrip(before: string, marker: string, gap: string, v: JsonBlock.Value, after: string)
    requires v.Object? && JsonBlock.Valid(v) && marker == "BOB_SCRIPT_META:"
    requires var source := before + marker + gap + JsonBlock.Print(v) + after;
      forall i :: 0 <= i < |before| ==> !StartsWith(source, i, marker)
    requires '{' !in gap
    ensures HeaderText(before + marker + gap + JsonBlock.Print(v) + after) == Some(JsonBlock.Print(v))
  {
    JsonBlock.ObjectStartsWithBrace(v);
    HeaderFound(before, marker, gap, JsonBlock.Print(v), after);
    JsonBlock.ExtractInvertsPrint(before + marker + gap, v, after);
  }

  lemma HeaderFound(before: string, marker: string, gap: string, written: string, after: string)
    requires var source := before + marker + gap + written + after;
      forall i :: 0 <= i < |before| ==> !StartsWith(source, i, marker)
    requires '{' !in gap && written != [] && written[0] == '{'
    ensures var source := before + marker + gap + written + after;
      Find(source, marker, 0) == Some(|before|)
      && Find(source, "{", |before + marker|) == Some(|before + marker + gap|)
  {
    var source := before + marker + gap + written + after;
    var post := gap + written + after;
    assert source == before + marker + post;
    FoundAfter(source, before, marker, post, 0);
    assert source == (before + marker) + gap + (written + after);
    BraceFoundAfter(source, before + marker, gap, written + after);
  }

  // ---------- the scan ----------

  type Content = string
  datatype Stamp = Stamp(name: string, mtime: int)

  /** A file as `scandir` and `stat` show it. */
  datatype File = File(mtime: int, content: Content, regular: bool)

  predicate NameLess(a: string, b: string)
    decreases |a|
  {
    if b == "" then false
    else if a == "" then true
    else a[0] < b[0] || (a[0] == b[0] && NameLess(a[1..], b[1..]))
  }

  lemma {:induction false} NameOrder(a: string, b: string, c: string)
    ensures !NameLess(a, a)
    ensures a == b || NameLess(a, b) || NameLess(b, a)
    ensures NameLess(a, b) && NameLess(b, c) ==> NameLess(a, c)
    decreases |a|
  {
    if a != "" {
      var b', c' := if b == "" then "" else b[1..], if c == "" then "" else c[1..];
      NameOrder(a[1..], b', c');
      if b != "" && a[0] == b[0] && a[1..] == b[1..] {
        assert a == [a[0]] + a[1..] && b == [b[0]] + b[1..];
      }
    }
  }

  predicate IsScript(name: string) {
    && |name| >= 3 && name[|name| - 3..] == ".py"
    && name[0] != '_'
  }

  function Insert(x: Stamp, s: seq<Stamp>): seq<Stamp> {
    if s == [] || NameLess(x.name, s[0].name) then [x] + s else [s[0]] + Insert(x, s[1..])
  }

  /** The signature: the script files of a listing, sorted by name. Names are distinct, so the
      times never decide. */
  function Signature(listing: seq<string>, dir: map<string, File>): seq<Stamp> {
    if listing == [] then []
    else
      var name, rest := listing[0], Signature(listing[1..], dir);
      if name in dir && dir[name].regular && IsScript(name) then Insert(Stamp(name, dir[name].mtime), rest)
      else rest
  }

  ghost predicate InNameOrder(s: seq<Stamp>) {
    forall i, j :: 0 <= i < j < |s| ==> NameLess(s[i].name, s[j].name)
  }

  lemma {:induction false} InsertHas(x: Stamp, s: seq<Stamp>, y: Stamp)
    ensures y in Insert(x, s) <==> y == x || y in s
  {
    if s != [] && !NameLess(x.name, s[0].name) {
      InsertHas(x, s[1..], y);
      assert s == [s[0]] + s[1..];
    }
  }

  lemma HeadBelow(x: Stamp, s: seq<Stamp>)
    requires InNameOrder(s) && s != [] && NameLess(x.name, s[0].name)
    ensures InNameOrder([x] + s)
  {
    forall j | 0 <= j < |s| ensures NameLess(x.name, s[j].name) {
      NameOrder(x.name, s[0].name, s[j].name);
    }
  }

  lemma HeadStays(x: Stamp, s: seq<Stamp>, r: seq<Stamp>)
    requires InNameOrder(s) && s != [] && NameLess(s[0].name, x.name) && InNameOrder(r)
    requires forall y :: y in r ==> y == x || y in s[1..]
    ensures InNameOrder([s[0]] + r)
  {
    forall j | 0 <= j < |r| ensures NameLess(s[0].name, r[j].name) {
      assert r[j] in r;
    }
  }

  lemma {:induction false} InsertAscending(x: Stamp, s: seq<Stamp>)
    requires InNameOrder(s) && forall y :: y in s ==> y.name != x.name
    ensures InNameOrder(Insert(x, s))
  {
    if s != [] {
      NameOrder(x.name, s[0].name, "");
      if NameLess(x.name, s[0].name) {
        HeadBelow(x, s);
      } else {
        assert s[0] in s;
        InsertAscending(x, s[1..]);
        forall y | y in Insert(x, s[1..]) ensures y == x || y in s[1..] {
          InsertHas(x, s[1..], y);
        }
        HeadStays(x, s, Insert(x, s[1..]));
      }
    }
  }

  /** A Python file whose name does not begin with an underscore. */
  ghost predicate PublicPython(name: string) {
    (exists stem :: name == stem + ".py") && !("_" <= name)
  }

  lemma ScriptsArePublicPython(name: string)
    ensures IsScript(name) <==> PublicPython(name)
  {
    BeginsWith(name, '_');
    if IsScript(name) {
      assert name == name[..|name| - 3] + ".py";
    }
    if stem :| name == stem + ".py" {
      assert name[|stem|..] == ".py";
    }
  }

  lemma BeginsWith(s: string, c: char)
    ensures [c] <= s <==> s != "" && s[0] == c
  {
  }

  /** What belongs in the signature of a directory seen as `listing`. */
  ghost predicate Belongs(x: Stamp, listing: seq<string>, dir: map<string, File>) {
    && x.name in listing && x.name in dir && dir[x.name].regular && PublicPython(x.name)
    && x.mtime == dir[x.name].mtime
  }

  lemma {:induction false} SignatureSpec(listing: seq<string>, dir: map<string, File>)
    requires Distinct(listing)
    ensures InNameOrder(Signature(listing, dir))
    ensures forall x :: x in Signature(listing, dir) <==> Belongs(x, listing, dir)
  {
    if listing != [] {
      var name, rest := listing[0], listing[1..];
      SignatureSpec(rest, dir);
      var sig := Signature(rest, dir);
      var x := Stamp(name, if name in dir then dir[name].mtime else 0);
      ScriptsArePublicPython(name);
      assert Belongs(x, listing, dir) <==> name in dir && dir[name].regular && IsScript(name);
      if Belongs(x, listing, dir) {
        assert forall y :: y in sig ==> y.name in rest;
        InsertAscending(x, sig);
        forall y ensures y in Insert(x, sig) <==> y == x || y in sig {
          InsertHas(x, sig, y);
        }
      }
      forall y ensures Belongs(y, listing, dir) <==> Belongs(y, rest, dir) || (y == x && Belongs(x, listing, dir)) {
        assert y.name in listing <==> y.name == name || y.name in rest;
      }
    }
  }

  lemma {:induction false} AscendingIsUnique(s: seq<Stamp>, t: seq<Stamp>)
    requires InNameOrder(s) && InNameOrder(t) && forall x :: x in s <==> x in t
    ensures s == t
  {
    if s == [] {
      if t != [] {
        HeadIsIn(t);
      }
    } else {
      assert s[0] in t && (t != [] ==> t[0] in s);
      HeadIsLeast(s, t[0]);
      HeadIsLeast(t, s[0]);
      NameOrder(s[0].name, t[0].name, s[0].name);
      forall x ensures x in s[1..] <==> x in t[1..] {
        TailHasTheRest(s, x);
        TailHasTheRest(t, x);
      }
      AscendingIsUnique(s[1..], t[1..]);
    }
  }

  lemma HeadIsIn(s: seq<Stamp>)
    requires s != []
    ensures s[0] in s
  {
  }

  lemma HeadIsLeast(s: seq<Stamp>, x: Stamp)
    requires InNameOrder(s) && x in s
    ensures x == s[0] || NameLess(s[0].name, x.name)
  {
  }

  lemma TailHasTheRest(s: seq<Stamp>, x: Stamp)
    requires InNameOrder(s) && s != []
    ensures x in s[1..] <==> x in s && x != s[0]
  {
    NameOrder(x.name, x.name, x.name);
    if x in s && x != s[0] {
      var i :| 0 <= i < |s| && s[i] == x;
      assert s[1..][i - 1] == x;
    }
  }

  /** The order in which the operating system lists a directory does not matter. */
  lemma ListingOrderDoesNotMatter(a: seq<string>, b: seq<string>, dir: map<string, File>)
    requires Distinct(a) && Distinct(b) && forall name :: name in a <==> name in b
    ensures Signature(a, dir) == Signature(b, dir)
  {
    SignatureSpec(a, dir);
    SignatureSpec(b, dir);
    AscendingIsUnique(Signature(a, dir), Signature(b, dir));
  }

  /** A dictionary key: a text, or another JSON value that can be one, up to equality of keys. */
  datatype Key = Str(text: string) | Other(id: nat)

  /** What a header gives under `name`; a list or a dictionary cannot be a key. */
  datatype Name = Missing | Given(key: Key) | Unhashable

  /** A parsed header: its name, and the rest. */
  datatype Meta = Meta(name: Name, rest: string)

  type Parser = (string, Content) -> Option<Meta>

  function ScriptName(fname: string, meta: Meta): Option<Key> {
    match meta.name
    case Given(key) => Some(key)
    case Missing => Some(Str(if |fname| > 3 then fname[..|fname| - 3] else fname))
    case Unhashable => None
  }

  /** A header goes under the name it gives, if that can be a key; without one, under the file's, less
      its ending. */
  lemma GoesUnder(stem: string, meta: Meta)
    ensures meta.name.Missing? && stem != "" ==> ScriptName(stem + ".py", meta) == Some(Str(stem))
    ensures meta.name.Missing? ==> ScriptName(".py", meta) == Some(Str(".py"))
    ensures forall key :: meta.name == Given(key) ==> ScriptName(stem + ".py", meta) == Some(key)
    ensures meta.name.Unhashable? <==> ScriptName(stem + ".py", meta) == None
  {
    assert (stem + ".py")[..|stem + ".py"| - 3] == stem;
  }

  /** One file of the scan: its header goes under its name, in place of an earlier one; nothing comes
      back where the assignment raises TypeError. */
  function AddScript(parse: Parser, scripts: map<Key, Meta>, fname: string, content: Content): Option<map<Key, Meta>> {
    match parse(fname, content)
    case None => Some(scripts)
    case Some(meta) =>
      match ScriptName(fname, meta)
      case None => None
      case Some(key) => Some(scripts[key := meta])
  }

  /** The dictionary built from a signature, if no file raises. */
  function Scan(parse: Parser, sig: seq<Stamp>, read: string -> Content): Option<map<Key, Meta>> {
    if sig == [] then Some(map[])
    else
      match Scan(parse, sig[..|sig| - 1], read)
      case None => None
      case Some(scripts) =>
        var fname := sig[|sig| - 1].name;
        AddScript(parse, scripts, fname, read(fname))
  }

  lemma ScanStep(parse: Parser, sig: seq<Stamp>, read: string -> Content, i: nat)
    requires i < |sig| && Scan(parse, sig[..i], read).Some?
    ensures Scan(parse, sig[..i + 1], read)
         == AddScript(parse, Scan(parse, sig[..i], read).value, sig[i].name, read(sig[i].name))
  {
    assert sig[..i + 1][..i] == sig[..i];
  }

  predicate Raises(parse: Parser, fname: string, content: Content) {
    parse(fname, content).Some? && parse(fname, content).value.name.Unhashable?
  }

  /** A scan raises exactly when some file of the signature has a name that is no key. */
  lemma {:induction false} ScanRaisesExactly(parse: Parser, sig: seq<Stamp>, read: string -> Content)
    ensures Scan(parse, sig, read) == None <==> exists x :: x in sig && Raises(parse, x.name, read(x.name))
  {
    if sig != [] {
      var init, last := sig[..|sig| - 1], sig[|sig| - 1];
      assert sig == init + [last];
      ScanRaisesExactly(parse, init, read);
    }
  }

  lemma {:induction false} ScanStaysRaised(parse: Parser, sig: seq<Stamp>, read: string -> Content, n: nat)
    requires n <= |sig| && Scan(parse, sig[..n], read) == None
    ensures Scan(parse, sig, read) == None
    decreases |sig|
  {
    if n == |sig| {
      assert sig[..n] == sig;
    } else {
      var init := sig[..|sig| - 1];
      assert init[..n] == sig[..n];
      ScanStaysRaised(parse, init, read, n);
    }
  }

  lemma {:induction false} ScanReadsOnlyItsFiles(parse: Parser, sig: seq<Stamp>, a: string -> Content, b: string -> Content)
    requires forall x :: x in sig ==> a(x.name) == b(x.name)
    ensures Scan(parse, sig, a) == Scan(parse, sig, b)
  {
    if sig != [] {
      ScanReadsOnlyItsFiles(parse, sig[..|sig| - 1], a, b);
      assert sig[|sig| - 1] in sig;
    }
  }

  // ---------- the cache ----------

  /** The directory as one call sees it: what `scandir` lists, and the files behind the names
      whose `stat` succeeds. */
  datatype View = View(listing: seq<string>, dir: map<string, File>)

  function Reader(dir: map<string, File>): string -> Content {
    (fname: string) => if fname in dir then dir[fname].content else ""
  }

  function Files(v: View): seq<Stamp> {
    Signature(v.listing, v.dir)
  }

  /** What a call without a cache returns, if it does not raise. A missing directory lists nothing. */
  function Fresh(parse: Parser, view: Option<View>): Option<map<Key, Meta>> {
    match view
    case None => Some(map[])
    case Some(v) => Scan(parse, Files(v), Reader(v.dir))
  }

  datatype Cache = Cache(signature: Option<seq<Stamp>>, result: map<Key, Meta>)

  predicate Hit(c: Cache, v: View) {
    c.signature == Some(Files(v)) && c.result != map[]
  }

  /** What a call returns, if it does not raise. */
  function Reply(parse: Parser, c: Cache, view: Option<View>): Option<map<Key, Meta>> {
    if view.Some? && Hit(c, view.value) then Some(c.result) else Fresh(parse, view)
  }

  /** A scan that raises leaves the cache as it was. */
  function AfterCall(parse: Parser, c: Cache, view: Option<View>): Cache {
    match view
    case None => Cache(None, map[])
    case Some(v) =>
      if Hit(c, v) || Fresh(parse, view).None? then c else Cache(Some(Files(v)), Fresh(parse, view).value)
  }

  /** `_DISCOVERY_CACHE` and the function that keeps it. */
  class ScriptCache {
    var signature: Option<seq<Stamp>>
    var result: map<Key, Meta>

    function Value(): Cache
      reads this
    {
      Cache(signature, result)
    }

    constructor ()
      ensures Value() == Cache(None, map[])
    {
      signature, result := None, map[];
    }

    /** `discover_scripts`; nothing comes back when it raises TypeError. */
    method DiscoverScripts(parse: Parser, view: Option<View>) returns (reply: Option<map<Key, Meta>>)
      modifies this
      ensures reply == Reply(parse, old(Value()), view)
      ensures Value() == AfterCall(parse, old(Value()), view)
    {
      if view.None? {
        signature, result := None, map[];
        return Some(map[]);
      }
      var v := view.value;
      var current := Files(v);
      if signature == Some(current) && result != map[] {
        return Some(result);
      }
      var scripts: map<Key, Meta> := map[];
      var i := 0;
      while i < |current|
        invariant 0 <= i <= |current|
        invariant Scan(parse, current[..i], Reader(v.dir)) == Some(scripts)
        invariant Value() == old(Value())
      {
        ScanStep(parse, current, Reader(v.dir), i);
        var fname := current[i].name;
        var meta := parse(fname, Reader(v.dir)(fname));
        if meta.Some? {
          var name := ScriptName(fname, meta.value);
          if name.None? {
            ScanStaysRaised(parse, current, Reader(v.dir), i + 1);
            return None;
          }
          scripts := scripts[name.value := meta.value];
        }
        i := i + 1;
      }
      assert current[..i] == current;
      signature, result := Some(current), scripts;
      return Some(scripts);
    }
  }

  // ---------- coherence ----------

  /** The cache after the first `n` calls of a run. */
  function CacheAt(parse: Parser, run: seq<Option<View>>, n: nat): Cache
    requires n <= |run|
  {
    if n == 0 then Cache(None, map[]) else AfterCall(parse, CacheAt(parse, run, n - 1), run[n - 1])
  }

  /** What call `k` of a run returns. */
  function ReplyAt(parse: Parser, run: seq<Option<View>>, k: nat): Option<map<Key, Meta>>
    requires k < |run|
  {
    Reply(parse, CacheAt(parse, run, k), run[k])
  }

  function SignatureOf(view: Option<View>): Option<seq<Stamp>> {
    match view
    case None => None
    case Some(v) => Some(Files(v))
  }

  /** From `j` to `k` every call has seen the signature of `k`, or raised. */
  ghost predicate SameOrRaised(parse: Parser, run: seq<Option<View>>, j: nat, k: nat)
    requires j <= k < |run|
  {
    forall i :: j <= i <= k ==> SignatureOf(run[i]) == SignatureOf(run[k]) || Fresh(parse, run[i]).None?
  }

  lemma {:induction false} CachedScan(parse: Parser, run: seq<Option<View>>, n: nat) returns (j: nat)
    requires n <= |run| && CacheAt(parse, run, n).signature.Some?
    ensures j < n && Fresh(parse, run[j]) == Some(CacheAt(parse, run, n).result)
    ensures SignatureOf(run[j]) == CacheAt(parse, run, n).signature
    ensures forall i :: j <= i < n ==>
              SignatureOf(run[i]) == CacheAt(parse, run, n).signature || Fresh(parse, run[i]).None?
    decreases n
  {
    var before, view := CacheAt(parse, run, n - 1), run[n - 1];
    assert CacheAt(parse, run, n) == AfterCall(parse, before, view);
    if Hit(before, view.value) || Fresh(parse, view).None? {
      j := CachedScan(parse, run, n - 1);
    } else {
      j := n - 1;
    }
  }

  /** Whatever happens to the directory between calls, a call returns what a scan gave at that call or
      an earlier one with the same signature; since then every call saw that signature, or raised. */
  lemma ResultIsOfSomeScan(parse: Parser, run: seq<Option<View>>, k: nat) returns (j: nat)
    requires k < |run|
    ensures j <= k && ReplyAt(parse, run, k) == Fresh(parse, run[j])
    ensures SignatureOf(run[j]) == SignatureOf(run[k]) && SameOrRaised(parse, run, j, k)
    ensures j < k ==> run[k].Some? && Fresh(parse, run[j]).Some?
  {
    if run[k].Some? && Hit(CacheAt(parse, run, k), run[k].value) {
      j := CachedScan(parse, run, k);
    } else {
      j := k;
    }
  }

  // ---------- exactly when a call is fresh ----------

  /** Both views show the same content for every file of the second one's signature. */
  predicate SameContents(v: View, w: View) {
    forall x :: x in Files(w) ==> Reader(v.dir)(x.name) == Reader(w.dir)(x.name)
  }

  predicate Lists(v: View, fname: string) {
    exists x :: x in Files(v) && x.name == fname
  }

  predicate Shows(v: View, fname: string, content: Content) {
    Lists(v, fname) && Reader(v.dir)(fname) == content
  }

  /** `w` shows a script, by name and content, that `v` does not show. */
  predicate ShowsMore(w: View, v: View) {
    exists x :: x in Files(w) && !Shows(v, x.name, Reader(w.dir)(x.name))
  }

  /** A call at `i` cannot put the scan of call `j` out of the cache of call `k`, for some parser: it sees
      the signature of `k`, or something that `j` did not see and that can make it raise. */
  ghost predicate MaySurvive(run: seq<Option<View>>, j: nat, i: nat, k: nat)
    requires j < |run| && i < |run| && k < |run| && run[j].Some?
  {
    run[i].Some? && (SignatureOf(run[i]) == SignatureOf(run[k]) || ShowsMore(run[i].value, run[j].value))
  }

  /** The files of call `k` have changed under their signature since call `j`, and every call in between
      may have left the scan of `j` in the cache. */
  ghost predicate SlipsBy(run: seq<Option<View>>, j: nat, k: nat)
    requires j <= k < |run|
  {
    && run[j].Some? && run[k].Some? && SignatureOf(run[j]) == SignatureOf(run[k])
    && !SameContents(run[j].value, run[k].value)
    && forall i: nat :: j < i < k ==> MaySurvive(run, j, i, k)
  }

  ghost predicate NothingSlipsBy(run: seq<Option<View>>, k: nat)
    requires k < |run|
  {
    forall j: nat :: j <= k ==> !SlipsBy(run, j, k)
  }

  /** A parser that knows the scripts of one view, and gives everything else a name that is no key. */
  function Knowing(v: View): Parser {
    (fname: string, content: Content) =>
      Some(Meta(if Shows(v, fname, content) then Given(Str(fname)) else Unhashable, content))
  }

  lemma KnowingRaises(v: View, w: View)
    ensures Fresh(Knowing(v), Some(w)) == None <==> ShowsMore(w, v)
  {
    ScanRaisesExactly(Knowing(v), Files(w), Reader(w.dir));
    forall x | x in Files(w)
      ensures Raises(Knowing(v), x.name, Reader(w.dir)(x.name)) <==> !Shows(v, x.name, Reader(w.dir)(x.name))
    {
    }
  }

  lemma {:induction false} KnowingFinds(v: View, sig: seq<Stamp>, read: string -> Content)
    requires sig != [] && Scan(Knowing(v), sig, read).Some?
    ensures Scan(Knowing(v), sig, read).value != map[]
  {
    var last := sig[|sig| - 1];
    assert Str(last.name) in Scan(Knowing(v), sig, read).value;
  }

  /** Once the scan of `j` is in the cache it stays there, as long as every call sees its signature or raises. */
  lemma {:induction false} ResultSticks(parse: Parser, run: seq<Option<View>>, j: nat, k: nat)
    requires j <= k < |run| && run[j].Some? && CacheAt(parse, run, j + 1).result != map[]
    requires CacheAt(parse, run, j + 1).signature == SignatureOf(run[j])
    requires forall i :: j < i <= k ==>
               run[i].Some? && (SignatureOf(run[i]) == SignatureOf(run[j]) || Fresh(parse, run[i]).None?)
    ensures CacheAt(parse, run, k + 1) == CacheAt(parse, run, j + 1)
    decreases k - j
  {
    if j < k {
      ResultSticks(parse, run, j, k - 1);
      assert CacheAt(parse, run, k + 1) == AfterCall(parse, CacheAt(parse, run, k), run[k]);
    }
  }

  lemma KnownIsCached(run: seq<Option<View>>, j: nat)
    requires j < |run| && run[j].Some? && Files(run[j].value) != []
    ensures var c := CacheAt(Knowing(run[j].value), run, j + 1);
      c.result != map[] && c.signature == SignatureOf(run[j])
  {
    var v := run[j].value;
    var parse := Knowing(v);
    KnowingRaises(v, v);
    KnowingFinds(v, Files(v), Reader(v.dir));
    assert CacheAt(parse, run, j + 1) == AfterCall(parse, CacheAt(parse, run, j), run[j]);
  }

  lemma ChangedShowsMore(v: View, w: View)
    requires !SameContents(v, w)
    ensures Files(w) != [] && ShowsMore(w, v)
  {
    var x :| x in Files(w) && Reader(v.dir)(x.name) != Reader(w.dir)(x.name);
    assert !Shows(v, x.name, Reader(w.dir)(x.name));
  }

  lemma StillCached(parse: Parser, run: seq<Option<View>>, j: nat, k: nat)
    requires j < k < |run| && run[j].Some? && CacheAt(parse, run, j + 1).result != map[]
    requires CacheAt(parse, run, j + 1).signature == SignatureOf(run[j])
    requires forall i: nat :: j < i < k ==>
               run[i].Some? && (SignatureOf(run[i]) == SignatureOf(run[j]) || Fresh(parse, run[i]).None?)
    ensures CacheAt(parse, run, k) == CacheAt(parse, run, j + 1)
  {
    ResultSticks(parse, run, j, k - 1);
  }

  lemma KnownSurvives(run: seq<Option<View>>, j: nat, k: nat)
    requires j < k < |run| && SlipsBy(run, j, k) && Files(run[j].value) != []
    ensures CacheAt(Knowing(run[j].value), run, k) == CacheAt(Knowing(run[j].value), run, j + 1)
  {
    var parse := Knowing(run[j].value);
    KnownIsCached(run, j);
    forall i: nat | j < i < k
      ensures run[i].Some? && (SignatureOf(run[i]) == SignatureOf(run[j]) || Fresh(parse, run[i]).None?)
    {
      assert MaySurvive(run, j, i, k);
      if SignatureOf(run[i]) != SignatureOf(run[j]) {
        KnowingRaises(run[j].value, run[i].value);
      }
    }
    StillCached(parse, run, j, k);
  }

  lemma HitReturnsResult(parse: Parser, run: seq<Option<View>>, k: nat)
    requires k < |run| && run[k].Some? && Hit(CacheAt(parse, run, k), run[k].value)
    ensures ReplyAt(parse, run, k).Some?
  {
  }

  /** What slips by makes the call stale, for a parser that knows the old scripts only. */
  lemma ChangeIsMissed(run: seq<Option<View>>, j: nat, k: nat)
    requires j <= k < |run| && SlipsBy(run, j, k)
    ensures ReplyAt(Knowing(run[j].value), run, k) != Fresh(Knowing(run[j].value), run[k])
  {
    var v, w := run[j].value, run[k].value;
    assert j < k && Files(v) == Files(w);
    ChangedShowsMore(v, w);
    KnownIsCached(run, j);
    KnownSurvives(run, j, k);
    HitReturnsResult(Knowing(v), run, k);
    KnowingRaises(v, w);
  }

  lemma ShownDoesNotRaise(parse: Parser, v: View, fname: string, content: Content)
    requires Fresh(parse, Some(v)).Some? && Shows(v, fname, content)
    ensures !Raises(parse, fname, content)
  {
    ScanRaisesExactly(parse, Files(v), Reader(v.dir));
  }

  /** What makes a call raise that an earlier one survived is something the earlier one did not see. */
  lemma RaisesByMore(parse: Parser, v: View, w: View)
    requires Fresh(parse, Some(v)).Some? && Fresh(parse, Some(w)).None?
    ensures ShowsMore(w, v)
  {
    ScanRaisesExactly(parse, Files(w), Reader(w.dir));
    var x :| x in Files(w) && Raises(parse, x.name, Reader(w.dir)(x.name));
    if Shows(v, x.name, Reader(w.dir)(x.name)) {
      ShownDoesNotRaise(parse, v, x.name, Reader(w.dir)(x.name));
    }
  }

  lemma UnchangedIsFresh(parse: Parser, run: seq<Option<View>>, k: nat)
    requires k < |run| && NothingSlipsBy(run, k)
    ensures ReplyAt(parse, run, k) == Fresh(parse, run[k])
  {
    var j := ResultIsOfSomeScan(parse, run, k);
    if j < k {
      assert run[j].Some?;
      forall i: nat | j < i < k ensures MaySurvive(run, j, i, k) {
        if SignatureOf(run[i]) != SignatureOf(run[k]) {
          RaisesByMore(parse, run[j].value, run[i].value);
        }
      }
      assert !SlipsBy(run, j, k);
      ScanReadsOnlyItsFiles(parse, Files(run[k].value), Reader(run[j].value.dir), Reader(run[k].value.dir));
    }
  }

  /** Over any run of calls, with anything happening to the directory in between: a call returns, or
      raises, as a fresh scan would, whatever the headers mean, if and only if its files have not changed
      under their signature since a call whose scan every call in between may have left in the cache. */
  lemma FreshExactlyWhenNothingSlipsBy(run: seq<Option<View>>, k: nat)
    requires k < |run|
    ensures NothingSlipsBy(run, k) <==> forall parse: Parser :: ReplyAt(parse, run, k) == Fresh(parse, run[k])
  {
    if NothingSlipsBy(run, k) {
      forall parse: Parser ensures ReplyAt(parse, run, k) == Fresh(parse, run[k]) {
        UnchangedIsFresh(parse, run, k);
      }
    } else {
      var j: nat :| j <= k && SlipsBy(run, j, k);
      ChangeIsMissed(run, j, k);
    }
  }

  /** In the smallest case, two calls on a new cache: the second is fresh for every parser exactly
      when the signatures differ or the listed files have the contents they had. */
  lemma SecondCallFreshExactly(v: View, w: View)
    ensures (forall parse: Parser :: ReplyAt(parse, [Some(v), Some(w)], 1) == Fresh(parse, Some(w)))
      <==> Files(v) != Files(w) || SameContents(v, w)
  {
    var run := [Some(v), Some(w)];
    FreshExactlyWhenNothingSlipsBy(run, 1);
    assert run[1] == Some(w) && run[0] == Some(v);
    assert SlipsBy(run, 0, 1) <==> Files(v) == Files(w) && !SameContents(v, w);
    assert !SlipsBy(run, 1, 1);
  }

  /** In every view of the run, a script's name and modification time determine its content. */
  ghost predicate StampsDecide(contentOf: Stamp -> Content, view: Option<View>) {
    view.Some? ==>
      && Distinct(view.value.listing)
      && forall fname :: fname in view.value.dir ==>
           view.value.dir[fname].content == contentOf(Stamp(fname, view.value.dir[fname].mtime))
  }

  lemma StampedContents(contentOf: Stamp -> Content, v: View, w: View)
    requires StampsDecide(contentOf, Some(v)) && StampsDecide(contentOf, Some(w)) && Files(v) == Files(w)
    ensures SameContents(v, w)
  {
    SignatureSpec(v.listing, v.dir);
    SignatureSpec(w.listing, w.dir);
    forall x | x in Files(w) ensures Reader(v.dir)(x.name) == Reader(w.dir)(x.name) {
      assert Belongs(x, v.listing, v.dir) && Belongs(x, w.listing, w.dir);
    }
  }

  /** As long as names and times determine contents, nothing slips by. */
  lemma EveryCallIsFresh(parse: Parser, contentOf: Stamp -> Content, run: seq<Option<View>>, k: nat)
    requires k < |run| && forall view :: view in run ==> StampsDecide(contentOf, view)
    ensures NothingSlipsBy(run, k)
    ensures ReplyAt(parse, run, k) == Fresh(parse, run[k])
  {
    forall j: nat | j <= k ensures !SlipsBy(run, j, k) {
      assert run[j] in run && run[k] in run;
      if run[j].Some? && run[k].Some? && SignatureOf(run[j]) == SignatureOf(run[k]) {
        StampedContents(contentOf, run[j].value, run[k].value);
      }
    }
    UnchangedIsFresh(parse, run, k);
  }

  /** The view of a directory with one script. */
  function OneScript(mtime: int, content: Content): View {
    View(["a.py"], map["a.py" := File(mtime, content, true)])
  }

  lemma OneScriptFiles(mtime: int, content: Content)
    ensures Files(OneScript(mtime, content)) == [Stamp("a.py", mtime)]
    ensures Reader(OneScript(mtime, content).dir)("a.py") == content
  {
    var v := OneScript(mtime, content);
    assert "a.py"[1..] == ".py" && IsScript("a.py");
    assert v.listing[1..] == [] && Signature([], v.dir) == [];
  }

  /** An edit that keeps the modification time is not seen, not even across a call that raises: with
      new text in the file under its old time, the last call returns what the first one found. */
  lemma EditWithinOneTick() returns (parse: Parser, run: seq<Option<View>>)
    ensures |run| == 3 && SignatureOf(run[0]) == SignatureOf(run[2])
    ensures ReplyAt(parse, run, 1) == None
    ensures ReplyAt(parse, run, 2) == Fresh(parse, run[0]) != Fresh(parse, run[2])
  {
    parse := (fname: string, content: Content) => Some(Meta(if content == "bad" then Unhashable else Missing, content));
    run := [Some(OneScript(1, "old")), Some(OneScript(2, "bad")), Some(OneScript(1, "new"))];
    OneScriptFiles(1, "old");
    OneScriptFiles(2, "bad");
    OneScriptFiles(1, "new");
    OneScriptScan(parse, 1, "old");
    OneScriptScan(parse, 2, "bad");
    OneScriptScan(parse, 1, "new");
    var key := Str("a");
    assert "a.py"[..1] == "a";
    assert Fresh(parse, run[0]) == Some(map[key := Meta(Missing, "old")]);
    assert Fresh(parse, run[1]) == None;
    assert Fresh(parse, run[2]).value[key] == Meta(Missing, "new");
    var c := Cache(SignatureOf(run[0]), map[key := Meta(Missing, "old")]);
    assert key in c.result;
    assert Files(run[0].value)[0].mtime != Files(run[1].value)[0].mtime;
    assert Hit(c, run[2].value) && !Hit(c, run[1].value);
    ThreeCalls(parse, run, c);
  }

  lemma ThreeCalls(parse: Parser, run: seq<Option<View>>, c: Cache)
    requires |run| == 3 && run[0].Some? && run[1].Some? && run[2].Some?
    requires Fresh(parse, run[0]) == Some(c.result) && c.signature == SignatureOf(run[0])
    requires Fresh(parse, run[1]) == None && !Hit(c, run[1].value)
    ensures ReplyAt(parse, run, 1) == Reply(parse, c, run[1]) && ReplyAt(parse, run, 2) == Reply(parse, c, run[2])
  {
    assert CacheAt(parse, run, 0) == Cache(None, map[]);
    assert CacheAt(parse, run, 1) == c;
    assert CacheAt(parse, run, 2) == c;
  }

  lemma ScanOne(parse: Parser, x: Stamp, read: string -> Content)
    ensures Scan(parse, [x], read) == AddScript(parse, map[], x.name, read(x.name))
  {
    assert [x][..0] == [];
    assert Scan(parse, [], read) == Some(map[]);
  }

  lemma OneScriptScan(parse: Parser, mtime: int, content: Content)
    ensures Fresh(parse, Some(OneScript(mtime, content))) == AddScript(parse, map[], "a.py", content)
  {
    var v := OneScript(mtime, content);
    OneScriptFiles(mtime, content);
    ScanOne(parse, Stamp("a.py", mtime), Reader(v.dir));
    assert Fresh(parse, Some(v)) == Scan(parse, Files(v), Reader(v.dir));
  }
}
