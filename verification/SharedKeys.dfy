/**
unsharedObjectKeys: which storage keys of the erased rows nothing left in the database
names. Strings are sequences of characters.
*/
module SharedKeys {
  import opened Anonymize
  import opened Trimming

  // ---- Strings -------------------------------------------------------------

  predicate OccursAt(s: string, t: string, i: nat) {
    i + |t| <= |s| && s[i..i + |t|] == t
  }

  predicate Contains(s: string, t: string) {
    exists i: nat :: i <= |s| && OccursAt(s, t, i)
  }

  lemma ContainsWider(s: string, i: nat, j: nat, t: string)
    requires i <= j <= |s| && Contains(s[i..j], t)
    ensures Contains(s, t)
  {
    var k: nat :| k <= |s[i..j]| && OccursAt(s[i..j], t, k);
    assert i + k + |t| <= j;
    forall x | 0 <= x < |t| ensures s[i + k..i + k + |t|][x] == t[x] {
      assert s[i..j][k..k + |t|][x] == s[i..j][k + x] == s[i + k + x];
    }
    assert s[i + k..i + k + |t|] == t;
    assert OccursAt(s, t, i + k);
  }

  // ---- LIKE … ESCAPE '\' ---------------------------------------------------

  function LowerAscii(c: char): char {
    if 'A' <= c <= 'Z' then (c as int + 32) as char else c
  }

  /** SQLite's LIKE folds ASCII case, Postgres's does not. */
  predicate SameChar(fold: bool, a: char, b: char) {
    a == b || (fold && LowerAscii(a) == LowerAscii(b))
  }

  predicate Like(fold: bool, p: string, s: string)
    decreases |p| + |s|
  {
    if p == "" then s == ""
    else if p[0] == '%' then Like(fold, p[1..], s) || (s != "" && Like(fold, p, s[1..]))
    else if p[0] == '\\' && |p| > 1 then s != "" && SameChar(fold, p[1], s[0]) && Like(fold, p[2..], s[1..])
    else s != "" && (p[0] == '_' || SameChar(fold, p[0], s[0])) && Like(fold, p[1..], s[1..])
  }

  lemma {:induction false} PercentMatchesAll(fold: bool, s: string)
    ensures Like(fold, "%", s)
  {
    if s != "" {
      PercentMatchesAll(fold, s[1..]);
    } else {
      assert "%"[1..] == "";
    }
  }

  /** strings.ReplaceAll(s, "_", `\_`). */
  function EscapeLike(s: string): string {
    if s == "" then "" else (if s[0] == '_' then "\\_" else [s[0]]) + EscapeLike(s[1..])
  }

  /** The characters every JSON encoder writes as themselves. */
  predicate Safe(c: char) {
    'a' <= c <= 'z' || 'A' <= c <= 'Z' || '0' <= c <= '9' || c == '.' || c == '-' || c == '_'
  }

  predicate AllSafe(s: string) {
    forall i :: 0 <= i < |s| ==> Safe(s[i])
  }

  lemma {:induction false} LikeLiteral(fold: bool, run: string, p: string, s: string)
    requires AllSafe(run) && |run| <= |s| && s[..|run|] == run && Like(fold, p, s[|run|..])
    ensures Like(fold, EscapeLike(run) + p, s)
  {
    if run == "" {
      assert EscapeLike(run) + p == p && s[0..] == s;
    } else {
      assert run[0] == s[..|run|][0] == s[0];
      assert s[1..][..|run| - 1] == run[1..] && s[1..][|run| - 1..] == s[|run|..];
      LikeLiteral(fold, run[1..], p, s[1..]);
      LikeOne(fold, run[0], EscapeLike(run[1..]) + p, s);
      EscapeStep(run, p);
    }
  }

  function EscapedChar(c: char): string {
    if c == '_' then "\\_" else [c]
  }

  lemma EscapeStep(run: string, p: string)
    requires run != ""
    ensures EscapeLike(run) + p == EscapedChar(run[0]) + (EscapeLike(run[1..]) + p)
  {
  }

  lemma LikeOne(fold: bool, c: char, p: string, s: string)
    requires Safe(c) && s != "" && s[0] == c && Like(fold, p, s[1..])
    ensures Like(fold, EscapedChar(c) + p, s)
  {
    var q := EscapedChar(c) + p;
    assert c == '_' ==> q[2..] == p;
    assert c != '_' ==> q[1..] == p;
  }

  lemma {:induction false} LikeSkips(fold: bool, p: string, s: string, i: nat)
    requires i <= |s| && Like(fold, p, s[i..])
    ensures Like(fold, "%" + p, s)
  {
    assert ("%" + p)[1..] == p;
    if i > 0 {
      assert s[1..][i - 1..] == s[i..];
      LikeSkips(fold, p, s[1..], i - 1);
    } else {
      assert s[0..] == s;
    }
  }

  /** A text that contains the run matches the pattern built from it, either engine's LIKE. */
  lemma LikeKeepsContaining(fold: bool, run: string, s: string)
    requires AllSafe(run) && Contains(s, run)
    ensures Like(fold, "%" + EscapeLike(run) + "%", s)
  {
    var i: nat :| i <= |s| && OccursAt(s, run, i);
    PercentMatchesAll(fold, s[i..][|run|..]);
    LikeLiteral(fold, run, "%", s[i..]);
    LikeSkips(fold, EscapeLike(run) + "%", s, i);
    assert "%" + (EscapeLike(run) + "%") == "%" + EscapeLike(run) + "%";
  }

  const U_PATTERN := "%\\\\u%"

  lemma LikeKeepsUnicodeEscapes(fold: bool, s: string)
    requires Contains(s, "\\u")
    ensures Like(fold, U_PATTERN, s)
  {
    var i: nat :| i <= |s| && OccursAt(s, "\\u", i);
    var t := s[i..];
    assert t[0] == s[i..i + 2][0] == '\\' && t[1] == s[i..i + 2][1] == 'u';
    PercentMatchesAll(fold, t[2..]);
    assert "u%"[1..] == "%" && t[1..][1..] == t[2..];
    assert Like(fold, "u%", t[1..]);
    assert "\\\\u%"[2..] == "u%";
    assert Like(fold, "\\\\u%", t);
    LikeSkips(fold, "\\\\u%", s, i);
    assert "%" + "\\\\u%" == U_PATTERN;
  }

  // ---- How JSON can spell a key --------------------------------------------

  predicate NonAscii(s: string) {
    forall i :: 0 <= i < |s| ==> s[i] as int >= 0x80
  }

  /** What a two-character escape stands for. */
  function ShortEscape(c: char): string {
    if c == '"' then "\"" else if c == '\\' then "\\" else if c == '/' then "/"
    else if c == 'b' then [8 as char] else if c == 'f' then [12 as char]
    else if c == 'n' then "\n" else if c == 'r' then "\r" else if c == 't' then "\t"
    else ""
  }

  /**
  Whether a JSON string body can decode to k. A \u escape may stand for anything; what is not ASCII
  decodes to what is not ASCII, replaced where it is not UTF-8.
  */
  ghost predicate MaySpell(body: string, k: string)
    decreases |body|
  {
    if body == "" then k == ""
    else if body[0] == '\\' then
      |body| > 1 &&
      (body[1] == 'u'
       || (ShortEscape(body[1]) != "" && k != "" && k[0] == ShortEscape(body[1])[0] && MaySpell(body[2..], k[1..])))
    else if body[0] as int >= 0x80 then
      exists m: nat, n: nat :: 0 < m <= |body| && 0 < n <= |k| && NonAscii(body[..m]) && NonAscii(k[..n]) && MaySpell(body[m..], k[n..])
    else k != "" && k[0] == body[0] && MaySpell(body[1..], k[1..])
  }

  /** Some string in the text can decode to k. */
  ghost predicate MayList(text: string, k: string) {
    exists i: nat, j: nat :: i <= j <= |text| && MaySpell(text[i..j], k)
  }

  /** VariantStorageRefs: whatever the parser makes of a text, each key it lists is spelled there. */
  ghost predicate ReadsJson(refs: string -> seq<string>) {
    forall text, k :: k in refs(text) ==> MayList(text, k)
  }

  lemma NoEscapeBelow(body: string, d: nat)
    requires d <= |body| && !Contains(body, "\\u")
    ensures !Contains(body[d..], "\\u")
  {
    if Contains(body[d..], "\\u") {
      assert body[d..|body|] == body[d..];
      ContainsWider(body, d, |body|, "\\u");
    }
  }

  lemma EscapeHere(body: string)
    ensures |body| > 1 && body[0] == '\\' && body[1] == 'u' ==> Contains(body, "\\u")
  {
    if |body| > 1 && body[0] == '\\' && body[1] == 'u' {
      assert body[0..2] == "\\u";
      assert OccursAt(body, "\\u", 0);
    }
  }

  lemma NonAsciiSpellsNonAscii(body: string, k: string)
    ensures MaySpell(body, k) && body != "" && body[0] as int >= 0x80 ==> k != "" && k[0] as int >= 0x80
  {
    if MaySpell(body, k) && body != "" && body[0] as int >= 0x80 {
      var m: nat, n: nat :| 0 < m <= |body| && 0 < n <= |k| && NonAscii(body[..m]) && NonAscii(k[..n]) && MaySpell(body[m..], k[n..]);
      assert k[0] == k[..n][0];
    }
  }

  /** Without \u, safe bytes at the front of the key are at the front of every spelling. */
  lemma {:induction false} SafeFrontIsLiteral(body: string, k: string, n: nat)
    requires MaySpell(body, k) && !Contains(body, "\\u") && n <= |k| && AllSafe(k[..n])
    ensures n <= |body| && body[..n] == k[..n]
    decreases n
  {
    EscapeHere(body);
    NonAsciiSpellsNonAscii(body, k);
    if n > 0 {
      assert k[0] == k[..n][0] && Safe(k[0]);
      if body[0] != '\\' && body[0] as int < 0x80 {
        assert k[1..][..n - 1] == k[..n][1..];
        NoEscapeBelow(body, 1);
        SafeFrontIsLiteral(body[1..], k[1..], n - 1);
        assert body[..n] == [body[0]] + body[1..][..n - 1] && k[..n] == [k[0]] + k[1..][..n - 1];
      }
    }
  }

  /** The first element of a spelling and the bytes it stands for: one, or a stretch that is not ASCII. */
  lemma Peel(body: string, k: string) returns (m: nat, n: nat)
    requires MaySpell(body, k) && k != "" && !Contains(body, "\\u")
    ensures 0 < m <= |body| && 0 < n <= |k| && MaySpell(body[m..], k[n..]) && (n == 1 || NonAscii(k[..n]))
  {
    EscapeHere(body);
    if body[0] == '\\' {
      m, n := 2, 1;
    } else if body[0] as int >= 0x80 {
      m, n :| 0 < m <= |body| && 0 < n <= |k| && NonAscii(body[..m]) && NonAscii(k[..n]) && MaySpell(body[m..], k[n..]);
    } else {
      m, n := 1, 1;
    }
  }

  /** Without \u, every run of safe bytes of the key stands in every spelling. */
  lemma {:induction false} SafeRunIsLiteral(body: string, k: string, a: nat, b: nat)
    requires MaySpell(body, k) && !Contains(body, "\\u") && a < b <= |k| && AllSafe(k[a..b])
    ensures Contains(body, k[a..b])
    decreases |body|, 1
  {
    hide MaySpell, Contains;
    assert k[a] == k[a..b][0] && Safe(k[a]);
    if a == 0 {
      SafeFrontIsLiteral(body, k, b);
      AtFront(body, k[0..b]);
    } else {
      var m, n := Peel(body, k);
      assert n != 1 ==> forall i :: 0 <= i < n ==> k[i] == k[..n][i] && k[i] as int >= 0x80;
      RunBelow(body, k, a, b, m, n);
    }
  }

  lemma AtFront(body: string, t: string)
    requires |t| <= |body| && body[..|t|] == t
    ensures Contains(body, t)
  {
    assert OccursAt(body, t, 0);
  }

  lemma {:induction false} RunBelow(body: string, k: string, a: nat, b: nat, m: nat, n: nat)
    requires 0 < m <= |body| && n <= a < b <= |k| && MaySpell(body[m..], k[n..]) && !Contains(body, "\\u") && AllSafe(k[a..b])
    ensures Contains(body, k[a..b])
    decreases |body|, 0
  {
    assert k[n..][a - n..b - n] == k[a..b];
    NoEscapeBelow(body, m);
    SafeRunIsLiteral(body[m..], k[n..], a - n, b - n);
    assert body[m..|body|] == body[m..];
    ContainsWider(body, m, |body|, k[a..b]);
  }

  // ---- likeRun -------------------------------------------------------------

  predicate SafeBetween(k: string, i: nat, j: nat)
    requires i <= j <= |k|
  {
    forall x :: i <= x < j ==> Safe(k[x])
  }

  /** r is a run of safe bytes of k, and k has none longer. */
  ghost predicate LongestRun(k: string, r: string) {
    AllSafe(r) && Contains(k, r) && forall i: nat, j: nat :: i <= j <= |k| && SafeBetween(k, i, j) ==> j - i <= |r|
  }

  method LikeRun(key: string) returns (pattern: string, ghost run: string)
    ensures LongestRun(key, run) && pattern == EscapeLike(run)
    ensures exists r :: LongestRun(key, r) && pattern == EscapeLike(r)
    ensures pattern == "" <==> run == ""
  {
    hide *;
    var best, cur := "", "";
    NoRunYet(key);
    for i := 0 to |key|
      invariant RunSoFar(key, i, best, cur)
    {
      RunGrows(key, i, best, cur);
      if Safe(key[i]) {
        cur := cur + [key[i]];
      } else {
        best := if |cur| > |best| then cur else best;
        cur := "";
      }
    }
    RunEnds(key, best, cur);
    best := if |cur| > |best| then cur else best;
    run := best;
    pattern := EscapeLike(best);
    EscapeEmpty(best);
  }

  /** cur is the run the first n bytes end in; every run there is at most best or cur. */
  ghost predicate RunSoFar(key: string, n: nat, best: string, cur: string) {
    && |cur| <= n <= |key| && cur == key[n - |cur|..n] && SafeBetween(key, n - |cur|, n)
    && (|cur| < n ==> !Safe(key[n - |cur| - 1]))
    && AllSafe(best) && Contains(key, best)
    && forall i: nat, j: nat :: i <= j <= n && SafeBetween(key, i, j) ==> j - i <= |best| || j - i <= |cur|
  }

  lemma NoRunYet(key: string)
    ensures RunSoFar(key, 0, "", "")
  {
    assert OccursAt(key, "", 0);
  }

  lemma CurIsThere(key: string, n: nat, best: string, cur: string)
    requires RunSoFar(key, n, best, cur)
    ensures AllSafe(cur) && Contains(key, cur)
  {
    assert OccursAt(key, cur, n - |cur|);
  }

  lemma RunEnds(key: string, best: string, cur: string)
    requires RunSoFar(key, |key|, best, cur)
    ensures LongestRun(key, if |cur| > |best| then cur else best)
  {
    CurIsThere(key, |key|, best, cur);
  }

  lemma EscapeEmpty(s: string)
    ensures EscapeLike(s) == "" <==> s == ""
  {
  }

  lemma RunGrows(key: string, n: nat, best: string, cur: string)
    requires n < |key| && RunSoFar(key, n, best, cur)
    ensures Safe(key[n]) ==> RunSoFar(key, n + 1, best, cur + [key[n]])
    ensures !Safe(key[n]) ==> RunSoFar(key, n + 1, if |cur| > |best| then cur else best, "")
  {
    CurIsThere(key, n, best, cur);
    var cur1 := if Safe(key[n]) then cur + [key[n]] else "";
    var best1 := if Safe(key[n]) || |cur| <= |best| then best else cur;
    forall i: nat, j: nat | i <= j <= n + 1 && SafeBetween(key, i, j) ensures j - i <= |best1| || j - i <= |cur1| {
      RunInside(key, n, best, cur, i, j);
    }
    hide Contains, AllSafe;
  }

  lemma RunInside(key: string, n: nat, best: string, cur: string, i: nat, j: nat)
    requires n < |key| && RunSoFar(key, n, best, cur) && i <= j <= n + 1 && SafeBetween(key, i, j)
    ensures j <= n ==> j - i <= |best| || j - i <= |cur|
    ensures j == n + 1 && i < j ==> Safe(key[n]) && j - i <= |cur| + 1
  {
    hide Contains, AllSafe, Safe;
  }

  // ---- Which rows the narrowing keeps --------------------------------------

  /** The patterns of a chunk, ORed; with no pattern for some key, every row. */
  predicate Narrowed(fold: bool, patterns: seq<string>, scanAll: bool, text: string) {
    scanAll || (exists i :: 0 <= i < |patterns| && Like(fold, "%" + patterns[i] + "%", text)) || Like(fold, U_PATTERN, text)
  }

  /** A text that lists the key, in whatever spelling, has its run or a \u escape. */
  lemma ListedKeyIsLike(fold: bool, text: string, key: string, run: string)
    requires MayList(text, key) && LongestRun(key, run) && run != ""
    ensures Like(fold, "%" + EscapeLike(run) + "%", text) || Like(fold, U_PATTERN, text)
  {
    if Contains(text, "\\u") {
      LikeKeepsUnicodeEscapes(fold, text);
    } else {
      RunStandsInText(text, key, run);
      LikeKeepsContaining(fold, run, text);
    }
  }

  lemma RunStandsInText(text: string, key: string, run: string)
    requires MayList(text, key) && LongestRun(key, run) && run != "" && !Contains(text, "\\u")
    ensures Contains(text, run)
  {
    var i: nat, j: nat :| i <= j <= |text| && MaySpell(text[i..j], key);
    var a: nat :| a <= |key| && OccursAt(key, run, a);
    assert !Contains(text[i..j], "\\u") by {
      if Contains(text[i..j], "\\u") { ContainsWider(text, i, j, "\\u"); }
    }
    SafeRunIsLiteral(text[i..j], key, a, a + |run|);
    ContainsWider(text, i, j, run);
  }

  // ---- The check -----------------------------------------------------------

  type Column = seq<Value>

  /** One table's file columns and variants columns, each the values its rows hold. */
  datatype FileTable = FileTable(files: seq<Column>, variants: seq<Column>)

  predicate HoldsKey(col: Column, k: string) {
    Text(k) in col
  }

  predicate ListsKey(refs: string -> seq<string>, col: Column, k: string) {
    exists i :: 0 <= i < |col| && col[i].Text? && k in refs(col[i].s)
  }

  predicate NamedIn(refs: string -> seq<string>, t: FileTable, k: string) {
    (exists i :: 0 <= i < |t.files| && HoldsKey(t.files[i], k)) || (exists i :: 0 <= i < |t.variants| && ListsKey(refs, t.variants[i], k))
  }

  predicate Named(refs: string -> seq<string>, tables: seq<FileTable>, k: string) {
    exists i :: 0 <= i < |tables| && NamedIn(refs, tables[i], k)
  }

  /** The rows whose value is one of the keys, a chunk of keys at a time. */
  method MarkNamedInColumn(col: Column, keys: seq<string>, named0: set<string>) returns (named: set<string>)
    ensures forall k :: k in named <==> k in named0 || (k in keys && HoldsKey(col, k))
  {
    named := named0;
    var start := 0;
    while start < |keys|
      invariant start <= |keys|
      invariant forall k :: k in named <==> k in named0 || (k in keys[..start] && HoldsKey(col, k))
    {
      var end := if start + 200 < |keys| then start + 200 else |keys|;
      var part := keys[start..end];
      ghost var before := named;
      for i := 0 to |col|
        invariant forall k :: k in named <==> k in before || (k in part && Text(k) in col[..i])
      {
        assert col[..i + 1] == col[..i] + [col[i]];
        if col[i].Text? && col[i].s in part {
          named := named + {col[i].s};
        }
      }
      assert col[..|col|] == col && keys[..end] == keys[..start] + part;
      start := end;
    }
    assert keys[..|keys|] == keys;
  }

  /** Only the rows the patterns keep are parsed, and no key is missed for it. */
  method MarkNamedInVariants(fold: bool, refs: string -> seq<string>, col: Column, keys: seq<string>, named0: set<string>) returns (named: set<string>)
    requires ReadsJson(refs)
    ensures forall k :: k in named <==> k in named0 || (k in keys && ListsKey(refs, col, k))
  {
    hide ReadsJson, Narrowed;
    named := named0;
    var start := 0;
    while start < |keys|
      invariant start <= |keys|
      invariant forall k :: k in named <==> k in named0 || (k in keys[..start] && ListsKey(refs, col, k))
    {
      var end := if start + 100 < |keys| then start + 100 else |keys|;
      var part := keys[start..end];
      var patterns, scanAll := Patterns(part);
      PatternsKeepListing(fold, refs, part, patterns, scanAll);
      named := ScanVariantRefs(fold, refs, col, part, patterns, scanAll, named);
      assert keys[..end] == keys[..start] + part;
      start := end;
    }
    assert keys[..|keys|] == keys;
  }

  ghost predicate PatternFor(k: string, pattern: string) {
    exists run :: LongestRun(k, run) && run != "" && pattern == EscapeLike(run)
  }

  ghost predicate HasPattern(k: string, patterns: seq<string>) {
    exists i :: 0 <= i < |patterns| && PatternFor(k, patterns[i])
  }

  /** Each key of the chunk has its pattern, unless some key has none. */
  ghost predicate PatternsOf(part: seq<string>, patterns: seq<string>, scanAll: bool) {
    !scanAll ==> forall k :: k in part ==> HasPattern(k, patterns)
  }

  method Patterns(part: seq<string>) returns (patterns: seq<string>, scanAll: bool)
    ensures PatternsOf(part, patterns, scanAll)
  {
    patterns, scanAll := [], false;
    for j := 0 to |part|
      invariant PatternsOf(part[..j], patterns, scanAll)
    {
      var pattern, run := LikeRun(part[j]);
      PatternAdded(part, j, patterns, scanAll, pattern, run);
      if pattern == "" {
        scanAll := true;
        continue;
      }
      patterns := patterns + [pattern];
    }
    assert part[..|part|] == part;
  }

  lemma PatternAdded(part: seq<string>, j: nat, patterns: seq<string>, scanAll: bool, pattern: string, run: string)
    requires j < |part| && PatternsOf(part[..j], patterns, scanAll) && pattern == EscapeLike(run) && LongestRun(part[j], run)
    ensures PatternsOf(part[..j + 1], patterns, true)
    ensures run != "" ==> PatternsOf(part[..j + 1], patterns + [pattern], scanAll)
  {
    if run != "" && !scanAll {
      var next := patterns + [pattern];
      assert part[..j + 1] == part[..j] + [part[j]];
      assert PatternFor(part[j], next[|patterns|]);
      hide PatternFor, LongestRun, EscapeLike;
      forall k | k in part[..j + 1] ensures HasPattern(k, next) {
        if k in part[..j] {
          var i :| 0 <= i < |patterns| && PatternFor(k, patterns[i]);
          assert PatternFor(k, next[i]);
        }
      }
    }
  }

  /** A row the patterns drop lists no key of the chunk. */
  lemma PatternsKeepListing(fold: bool, refs: string -> seq<string>, part: seq<string>, patterns: seq<string>, scanAll: bool)
    requires ReadsJson(refs) && PatternsOf(part, patterns, scanAll)
    ensures forall text, k :: k in part && k in refs(text) ==> Narrowed(fold, patterns, scanAll, text)
  {
    forall text, k | k in part && k in refs(text) ensures Narrowed(fold, patterns, scanAll, text) {
      assert MayList(text, k);
      if !scanAll {
        KeptByItsPattern(fold, text, k, patterns);
      }
    }
  }

  lemma KeptByItsPattern(fold: bool, text: string, k: string, patterns: seq<string>)
    requires MayList(text, k) && HasPattern(k, patterns)
    ensures Narrowed(fold, patterns, false, text)
  {
    var i :| 0 <= i < |patterns| && PatternFor(k, patterns[i]);
    var run :| LongestRun(k, run) && run != "" && patterns[i] == EscapeLike(run);
    hide MayList, LongestRun, Like, EscapeLike;
    ListedKeyIsLike(fold, text, k, run);
  }

  method ScanVariantRefs(fold: bool, refs: string -> seq<string>, col: Column, part: seq<string>, patterns: seq<string>, scanAll: bool, named0: set<string>)
    returns (named: set<string>)
    requires forall text, k :: k in part && k in refs(text) ==> Narrowed(fold, patterns, scanAll, text)
    ensures forall k :: k in named <==> k in named0 || (k in part && ListsKey(refs, col, k))
  {
    hide Narrowed;
    named := named0;
    for i := 0 to |col|
      invariant forall k :: k in named <==> k in named0 || (k in part && ListsKey(refs, col[..i], k))
    {
      OneMoreRow(refs, col, i);
      if col[i].Text? && Narrowed(fold, patterns, scanAll, col[i].s) {
        var listed := refs(col[i].s);
        named := named + set r | r in listed && r in part;
      }
    }
    assert col[..|col|] == col;
  }

  lemma OneMoreRow(refs: string -> seq<string>, col: Column, i: nat)
    requires i < |col|
    ensures forall k :: ListsKey(refs, col[..i + 1], k) <==> ListsKey(refs, col[..i], k) || (col[i].Text? && k in refs(col[i].s))
  {
    forall k ensures ListsKey(refs, col[..i + 1], k) <==> ListsKey(refs, col[..i], k) || (col[i].Text? && k in refs(col[i].s)) {
      if ListsKey(refs, col[..i], k) {
        var j :| 0 <= j < i && col[..i][j].Text? && k in refs(col[..i][j].s);
        assert col[..i + 1][j] == col[..i][j];
      }
      if col[i].Text? && k in refs(col[i].s) {
        assert col[..i + 1][i] == col[i];
      }
      if ListsKey(refs, col[..i + 1], k) {
        var j :| 0 <= j < i + 1 && col[..i + 1][j].Text? && k in refs(col[..i + 1][j].s);
        assert j < i ==> col[..i][j] == col[..i + 1][j];
      }
    }
  }

  /** The keys of `keys` the predicate keeps, in their order. */
  function Kept(keys: seq<string>, drop: set<string>): (r: seq<string>)
    ensures forall k :: k in r <==> k in keys && k !in drop
  {
    if keys == [] then [] else
      assert keys == [keys[0]] + keys[1..];
      (if keys[0] in drop then [] else [keys[0]]) + Kept(keys[1..], drop)
  }

  /**
  The keys erasure may delete: those that are not external links and that no row left names. `external` is
  the URL test, `refs` the JSON parser.
  */
  method UnsharedObjectKeys(fold: bool, external: string -> bool, refs: string -> seq<string>, keys: seq<string>, tables: seq<FileTable>) returns (out: seq<string>)
    requires ReadsJson(refs)
    ensures forall k :: k in out <==> k in keys && !external(k) && !Named(refs, tables, k)
    ensures exists drop :: out == Kept(keys, drop)
  {
    var outside := set k | k in keys && external(k);
    var candidates := Kept(keys, outside);
    if |candidates| == 0 {
      return [];
    }
    var named: set<string> := {};
    for i := 0 to |tables|
      invariant forall k :: k in named <==> k in candidates && Named(refs, tables[..i], k)
    {
      named := MarkNamedInTable(fold, refs, tables[i], candidates, named);
      OneMoreTable(refs, tables, i);
    }
    assert tables[..|tables|] == tables;
    out := Kept(candidates, named);
    KeptTwice(keys, outside, named);
  }

  method MarkNamedInTable(fold: bool, refs: string -> seq<string>, t: FileTable, candidates: seq<string>, named0: set<string>) returns (named: set<string>)
    requires ReadsJson(refs) && forall k :: k in named0 ==> k in candidates
    ensures forall k :: k in named <==> k in named0 || (k in candidates && NamedIn(refs, t, k))
  {
    hide ReadsJson, HoldsKey, ListsKey;
    named := named0;
    for i := 0 to |t.files|
      invariant forall k :: k in named <==> k in named0 || (k in candidates && exists j :: 0 <= j < i && HoldsKey(t.files[j], k))
    {
      named := MarkNamedInColumn(t.files[i], candidates, named);
    }
    ghost var filed := named;
    for i := 0 to |t.variants|
      invariant forall k :: k in named <==> k in filed || (k in candidates && exists j :: 0 <= j < i && ListsKey(refs, t.variants[j], k))
    {
      var open := Kept(candidates, named);
      if |open| == 0 {
        assert forall k :: k in candidates ==> k in named;
        break;
      }
      named := MarkNamedInVariants(fold, refs, t.variants[i], open, named);
    }
  }

  lemma OneMoreTable(refs: string -> seq<string>, tables: seq<FileTable>, i: nat)
    requires i < |tables|
    ensures forall k :: Named(refs, tables[..i + 1], k) <==> Named(refs, tables[..i], k) || NamedIn(refs, tables[i], k)
  {
    hide NamedIn;
    forall k ensures Named(refs, tables[..i + 1], k) <==> Named(refs, tables[..i], k) || NamedIn(refs, tables[i], k) {
      if Named(refs, tables[..i], k) {
        var j :| 0 <= j < i && NamedIn(refs, tables[..i][j], k);
        assert tables[..i + 1][j] == tables[..i][j];
      }
      if NamedIn(refs, tables[i], k) { assert tables[..i + 1][i] == tables[i]; }
      if Named(refs, tables[..i + 1], k) {
        var j :| 0 <= j < i + 1 && NamedIn(refs, tables[..i + 1][j], k);
        assert j < i ==> tables[..i][j] == tables[..i + 1][j];
      }
    }
  }

  lemma {:induction false} KeptTwice(keys: seq<string>, a: set<string>, b: set<string>)
    ensures Kept(Kept(keys, a), b) == Kept(keys, a + b)
  {
    hide *;
    KeptStep(keys, a);
    KeptStep(keys, a + b);
    KeptStep(Kept(keys, a), b);
    if keys != [] {
      KeptTwice(keys[1..], a, b);
      var rest := Kept(keys[1..], a);
      assert ([keys[0]] + rest)[1..] == rest;
    }
  }

  lemma KeptStep(keys: seq<string>, drop: set<string>)
    ensures keys == [] ==> Kept(keys, drop) == []
    ensures keys != [] && keys[0] in drop ==> Kept(keys, drop) == Kept(keys[1..], drop)
    ensures keys != [] && keys[0] !in drop ==> Kept(keys, drop) == [keys[0]] + Kept(keys[1..], drop)
  {
  }

  // ---- The keys handed over ------------------------------------------------

  /** objectKeys: the storage keys of the erased rows, trimmed, each once, in the order first named. */
  class ObjectKeys {
    var seen: set<string>
    var keys: seq<string>

    constructor ()
      ensures Valid() && keys == []
    {
      seen, keys := {}, [];
    }

    ghost predicate Valid()
      reads this
    {
      && (forall k :: k in seen <==> k in keys)
      && (forall i, j :: 0 <= i < j < |keys| ==> keys[i] != keys[j])
      && (forall k :: k in keys ==> k != "" && Trimmed(k))
    }

    method Add(k: string)
      requires Valid()
      modifies this
      ensures Valid()
      ensures keys == old(keys) + if TrimSpace(k) == "" || TrimSpace(k) in old(keys) then [] else [TrimSpace(k)]
    {
      var trimmed := TrimSpace(k);
      TrimmedSpelling(k, trimmed);
      if trimmed == "" || trimmed in seen {
        return;
      }
      seen := seen + {trimmed};
      keys := keys + [trimmed];
    }
  }

  /** A value with spaces around the key: the eraser reads it as the key, the check of the rows left does not. */
  ghost predicate Padded(v: string, k: string) {
    Spells(v, k) && v != k
  }

  /** Some row left names the key as the eraser would read it. */
  ghost predicate StillNamed(refs: string -> seq<string>, tables: seq<FileTable>, k: string) {
    exists v :: Named(refs, tables, v) && TrimSpace(v) == k
  }

  /** Some row left has a padded spelling of it. */
  ghost predicate PaddedSomewhere(refs: string -> seq<string>, tables: seq<FileTable>, k: string) {
    exists v :: Named(refs, tables, v) && Padded(v, k)
  }

  /**
  A trimmed key that no row left holds verbatim is nonetheless named by one
  exactly when some row left holds it with spaces around it.
  */
  lemma NamedOnlyPadded(refs: string -> seq<string>, tables: seq<FileTable>, k: string)
    requires Trimmed(k)
    ensures StillNamed(refs, tables, k) && !Named(refs, tables, k) <==> PaddedSomewhere(refs, tables, k) && !Named(refs, tables, k)
    ensures StillNamed(refs, tables, k) <==> PaddedSomewhere(refs, tables, k) || Named(refs, tables, k)
  {
    hide Named, Spells;
    TrimmedSpelling(k, k);
    VerbatimSpells(k);
    if StillNamed(refs, tables, k) {
      var v :| Named(refs, tables, v) && TrimSpace(v) == k;
      TrimmedSpelling(v, k);
    }
    if PaddedSomewhere(refs, tables, k) {
      var v :| Named(refs, tables, v) && Padded(v, k);
      TrimmedSpelling(v, k);
    }
  }

  lemma VerbatimSpells(k: string)
    ensures Spells(k, k)
  {
    assert AllSpace("") && k == "" + k + "";
  }

  /**
  From the values of the erased rows to the keys the erasure deletes. One of them
  is still named by a row left exactly when such a row has it with spaces around it.
  */
  method KeysToDelete(fold: bool, external: string -> bool, refs: string -> seq<string>, erased: seq<string>, tables: seq<FileTable>) returns (out: seq<string>)
    requires ReadsJson(refs)
    ensures forall k :: k in out <==> k != "" && (exists i :: 0 <= i < |erased| && TrimSpace(erased[i]) == k) && !external(k) && !Named(refs, tables, k)
    ensures forall k :: k in out ==> (StillNamed(refs, tables, k) <==> PaddedSomewhere(refs, tables, k))
  {
    hide Named, StillNamed, PaddedSomewhere, ReadsJson;
    var into := new ObjectKeys();
    for i := 0 to |erased|
      invariant into.Valid()
      invariant forall k :: k in into.keys <==> k != "" && exists j :: 0 <= j < i && TrimSpace(erased[j]) == k
    {
      into.Add(erased[i]);
    }
    out := UnsharedObjectKeys(fold, external, refs, into.keys, tables);
    forall k | k in out ensures StillNamed(refs, tables, k) <==> PaddedSomewhere(refs, tables, k) {
      NamedOnlyPadded(refs, tables, k);
    }
  }

  /** As when a row left has the key after a space: the key goes, although the row still names it. */
  lemma PaddedNameIsNotCounted(refs: string -> seq<string>, k: string)
    requires Trimmed(k)
    ensures var left := [FileTable([[Text(" " + k)]], [])];
            !Named(refs, left, k) && StillNamed(refs, left, k)
  {
    var left := [FileTable([[Text(" " + k)]], [])];
    assert left[0].files[0] == [Text(" " + k)] && HoldsKey(left[0].files[0], " " + k) && NamedIn(refs, left[0], " " + k);
    assert Named(refs, left, " " + k);
    SpellingTrims(" ", k, "");
    assert " " + k + "" == " " + k;
    assert " " + k != k by { assert |" " + k| == |k| + 1; }
  }
}
