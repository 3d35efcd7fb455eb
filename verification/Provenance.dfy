/**
The provenance marker a generator writes at the top of a file, and the reader that takes
it off again.
*/
module Provenance {
  import opened Trimming

  const MARKER_TAG := "gofastr:generated"
  const MARKER_HEADER_LINES := 8
  const SCAFFOLD := "scaffold"
  const DERIVED := "derived"

  datatype Option<T> = None | Some(value: T)

  datatype Marker = Marker(generator: string, kind: string, version: string, source: string, sum: string)

  datatype Style = Slash | Hash | Docker | Html | Css | Sql

  function Open(s: Style): string {
    match s
    case Slash => "//"
    case Hash => "# "
    case Docker => "# "
    case Html => "<!-- "
    case Css => "/* "
    case Sql => "-- "
  }

  function Close(s: Style): string {
    match s
    case Html => " -->"
    case Css => " */"
    case _ => ""
  }

  predicate BlankAfter(s: Style) {
    s.Slash?
  }

  // ---- Strings -------------------------------------------------------------

  predicate HasPrefix(s: string, p: string) {
    p <= s
  }

  predicate HasSuffix(s: string, p: string) {
    |p| <= |s| && s[|s| - |p|..] == p
  }

  /** Where c first occurs, or the length. */
  function Index(s: string, c: char): (k: nat)
    ensures k <= |s| && c !in s[..k] && (k < |s| ==> s[k] == c)
  {
    if s == "" || s[0] == c then 0 else
      var k := 1 + Index(s[1..], c);
      assert s[..k] == [s[0]] + s[1..][..k - 1];
      k
  }

  lemma IndexOfFirst(s: string, c: char, t: string)
    requires c !in s
    ensures Index(s + [c] + t, c) == |s|
  {
    var a := s + [c] + t;
    var k := Index(a, c);
    assert a[|s|] == c;
    assert forall i :: 0 <= i < |s| ==> a[i] == s[i] && s[i] in s;
    assert forall j :: 0 <= j < k ==> a[..k][j] == a[j];
  }

  /** unicode.ToLower where it yields an ASCII letter; other letters are kept, no comparison here sees them. */
  function Lower(c: char): char {
    if 'A' <= c <= 'Z' then (c as int + 32) as char
    else if c == '\U{212A}' then 'k'
    else if c == '\U{130}' then 'i'
    else c
  }

  function ToLower(s: string): (r: string)
    ensures |r| == |s| && forall i :: 0 <= i < |s| ==> r[i] == Lower(s[i])
  {
    seq(|s|, i requires 0 <= i < |s| => Lower(s[i]))
  }

  // ---- Styles --------------------------------------------------------------

  predicate IsDockerDirective(line: string) {
    && HasPrefix(line, "#")
    && var rest := TrimSpace(line[1..]);
       '=' in rest && ToLower(TrimSpace(rest[..Index(rest, '=')])) in {"syntax", "escape", "check"}
  }

  /** A header line that must stay above the marker. */
  predicate SkipLeading(s: Style, line: string, index: nat) {
    match s
    case Hash => index == 0 && HasPrefix(line, "#!")
    case Docker => IsDockerDirective(line)
    case Html => index == 0 && HasPrefix(ToLower(line), "<!doctype")
    case _ => false
  }

  function ReplaceBackslash(p: string): string {
    seq(|p|, i requires 0 <= i < |p| => if p[i] == '\\' then '/' else p[i])
  }

  function StripSlashes(p: string): string {
    if p != "" && p[|p| - 1] == '/' then StripSlashes(p[..|p| - 1]) else p
  }

  function AfterLast(p: string, c: char): string {
    if p == "" || p[|p| - 1] == c then "" else AfterLast(p[..|p| - 1], c) + [p[|p| - 1]]
  }

  function Base(p: string): string {
    if p == "" then "."
    else if StripSlashes(p) == "" then "/" else AfterLast(StripSlashes(p), '/')
  }

  function Ext(base: string): string {
    if '.' in base then "." + AfterLast(base, '.') else ""
  }

  /** The comment syntax a file name takes; none for a type without comments. */
  function StyleFor(p: string): Option<Style> {
    var base := Base(ReplaceBackslash(p));
    if base == "go.mod" then Some(Slash)
    else if base in {"Makefile", ".gitignore", ".dockerignore", ".env"} || HasPrefix(base, ".env.") then Some(Hash)
    else if base == "Dockerfile" || HasPrefix(base, "Dockerfile.") || HasSuffix(base, ".Dockerfile") then Some(Docker)
    else
      var ext := ToLower(Ext(base));
      if ext in {".go", ".js", ".mjs", ".cjs", ".ts", ".mts", ".cts"} then Some(Slash)
      else if ext == ".css" then Some(Css)
      else if ext in {".md", ".html", ".htm"} then Some(Html)
      else if ext in {".yml", ".yaml", ".toml", ".sh"} then Some(Hash)
      else if ext == ".sql" then Some(Sql)
      else None
  }

  // ---- The marker's fields -------------------------------------------------

  predicate TokenChar(c: char, name: bool) {
    || 'a' <= c <= 'z' || '0' <= c <= '9' || c == '.' || c == '_' || c == '-' || 'A' <= c <= 'Z'
    || (name && c == '/') || (!name && c == '+')
  }

  predicate IsMarkerToken(s: string, name: bool) {
    s != "" && forall i :: 0 <= i < |s| ==> TokenChar(s[i], name)
  }

  predicate IsSum(s: string) {
    |s| == 16 && forall i :: 0 <= i < |s| ==> '0' <= s[i] <= '9' || 'a' <= s[i] <= 'f'
  }

  predicate ValidMarker(m: Marker) {
    && IsMarkerToken(m.generator, true) && (m.kind == SCAFFOLD || m.kind == DERIVED)
    && (m.version != "" ==> IsMarkerToken(m.version, false)) && (m.source != "" ==> IsMarkerToken(m.source, true))
    && IsSum(m.sum)
  }

  function Part(key: string, value: string): string {
    key + "=" + value
  }

  function Parts(m: Marker): seq<string> {
    [Part("generator", m.generator), Part("kind", m.kind)]
    + (if m.version != "" then [Part("version", m.version)] else [])
    + (if m.source != "" then [Part("source", m.source)] else [])
    + [Part("sum", m.sum)]
  }

  function Join(parts: seq<string>): string {
    if parts == [] then "" else if |parts| == 1 then parts[0] else parts[0] + " " + Join(parts[1..])
  }

  function Fields(m: Marker): string {
    Join(Parts(m))
  }

  function Split(s: string): (r: seq<string>)
    decreases |s|
  {
    var k := Index(s, ' ');
    if k == |s| then [s] else [s[..k]] + Split(s[k + 1..])
  }

  lemma {:induction false} SplitJoin(parts: seq<string>)
    requires parts != [] && forall p :: p in parts ==> ' ' !in p
    ensures Split(Join(parts)) == parts
  {
    var s := Join(parts);
    if |parts| == 1 {
      assert parts == [parts[0]];
      assert forall i :: 0 <= i < |s| ==> s[i] in s;
    } else {
      IndexOfFirst(parts[0], ' ', Join(parts[1..]));
      assert s == parts[0] + [' '] + Join(parts[1..]);
      assert s[..|parts[0]|] == parts[0] && s[|parts[0]| + 1..] == Join(parts[1..]);
      SplitJoin(parts[1..]);
      assert parts == [parts[0]] + parts[1..];
    }
  }

  function SetField(m: Marker, key: string, value: string): Marker {
    if key == "generator" then m.(generator := value)
    else if key == "kind" then m.(kind := value)
    else if key == "version" then m.(version := value)
    else if key == "source" then m.(source := value)
    else if key == "sum" then m.(sum := value)
    else m
  }

  /** The fields in turn: a field without `=` or a key seen before refuses the marker; an unknown key is skipped. */
  function ParseFrom(fields: seq<string>, m: Marker, seen: set<string>): Option<Marker>
    decreases |fields|
  {
    if fields == [] then if ValidMarker(m) then Some(m) else None
    else
      var k := Index(fields[0], '=');
      if k == |fields[0]| || fields[0][..k] in seen then None
      else ParseFrom(fields[1..], SetField(m, fields[0][..k], fields[0][k + 1..]), seen + {fields[0][..k]})
  }

  const EMPTY := Marker("", "", "", "", "")

  method ParseMarkerFields(text: string) returns (r: Option<Marker>)
    ensures r == ParseFrom(Split(text), EMPTY, {})
  {
    var m, seen := EMPTY, {};
    var fields := Split(text);
    assert fields[0..] == fields;
    for i := 0 to |fields|
      invariant ParseFrom(fields[i..], m, seen) == ParseFrom(fields, EMPTY, {})
    {
      var k := Index(fields[i], '=');
      assert fields[i..][0] == fields[i] && fields[i..][1..] == fields[i + 1..];
      if k == |fields[i]| || fields[i][..k] in seen {
        return None;
      }
      m, seen := SetField(m, fields[i][..k], fields[i][k + 1..]), seen + {fields[i][..k]};
    }
    return if ValidMarker(m) then Some(m) else None;
  }

  lemma ParseField(key: string, value: string, rest: seq<string>, m: Marker, seen: set<string>)
    requires '=' !in key && key !in seen
    ensures ParseFrom([Part(key, value)] + rest, m, seen) == ParseFrom(rest, SetField(m, key, value), seen + {key})
  {
    var f := Part(key, value);
    IndexOfFirst(key, '=', value);
    assert f[..|key|] == key && f[|key| + 1..] == value;
    assert ([f] + rest)[1..] == rest;
  }

  function Tail(m: Marker): seq<string> {
    [Part("sum", m.sum)]
  }

  function FromSource(m: Marker): seq<string> {
    (if m.source != "" then [Part("source", m.source)] else []) + Tail(m)
  }

  function FromVersion(m: Marker): seq<string> {
    (if m.version != "" then [Part("version", m.version)] else []) + FromSource(m)
  }

  lemma ParseTail(m: Marker, seen: set<string>)
    requires ValidMarker(m) && "sum" !in seen
    ensures ParseFrom(Tail(m), m.(sum := ""), seen) == Some(m)
  {
    KeysDiffer();
    ParseField("sum", m.sum, [], m.(sum := ""), seen);
    assert Tail(m) + [] == Tail(m);
    SetSum(m);
    assert ParseFrom([], m, seen + {"sum"}) == Some(m);
  }

  lemma SetSum(m: Marker)
    ensures SetField(m.(sum := ""), "sum", m.sum) == m
  {
    KeysDiffer();
  }

  lemma ParseFromSource(m: Marker, seen: set<string>)
    requires ValidMarker(m) && "sum" !in seen && "source" !in seen
    ensures ParseFrom(FromSource(m), m.(source := "", sum := ""), seen) == Some(m)
  {
    KeysDiffer();
    var m0 := m.(source := "", sum := "");
    if m.source != "" {
      hide ParseFrom, ValidMarker, Tail;
      ParseField("source", m.source, Tail(m), m0, seen);
      assert SetField(m0, "source", m.source) == m.(sum := "");
      ParseTail(m, seen + {"source"});
    } else {
      assert FromSource(m) == Tail(m) && m0 == m.(sum := "");
      ParseTail(m, seen);
    }
  }

  lemma ParseFromVersion(m: Marker, seen: set<string>)
    requires ValidMarker(m) && "sum" !in seen && "source" !in seen && "version" !in seen
    ensures ParseFrom(FromVersion(m), m.(version := "", source := "", sum := ""), seen) == Some(m)
  {
    KeysDiffer();
    var m0 := m.(version := "", source := "", sum := "");
    if m.version != "" {
      hide ParseFrom, ValidMarker, FromSource;
      ParseField("version", m.version, FromSource(m), m0, seen);
      assert SetField(m0, "version", m.version) == m.(source := "", sum := "");
      ParseFromSource(m, seen + {"version"});
    } else {
      assert FromVersion(m) == FromSource(m) && m0 == m.(source := "", sum := "");
      ParseFromSource(m, seen);
    }
  }

  /** The printed fields read back as the marker. */
  lemma ParsePrinted(m: Marker)
    requires ValidMarker(m)
    ensures ParseFrom(Parts(m), EMPTY, {}) == Some(m)
  {
    KeysDiffer();
    assert Parts(m) == [Part("generator", m.generator)] + ([Part("kind", m.kind)] + FromVersion(m));
    hide ParseFrom, ValidMarker, FromVersion, Parts;
    var m1, m2 := EMPTY.(generator := m.generator), EMPTY.(generator := m.generator, kind := m.kind);
    ParseField("generator", m.generator, [Part("kind", m.kind)] + FromVersion(m), EMPTY, {});
    assert SetField(EMPTY, "generator", m.generator) == m1;
    ParseField("kind", m.kind, FromVersion(m), m1, {} + {"generator"});
    assert SetField(m1, "kind", m.kind) == m2;
    ParseFromVersion(m, {} + {"generator"} + {"kind"});
  }

  lemma KeysDiffer()
    ensures "generator" != "kind" && "generator" != "version" && "generator" != "source" && "generator" != "sum"
    ensures "kind" != "version" && "kind" != "source" && "kind" != "sum"
    ensures "version" != "source" && "version" != "sum" && "source" != "sum"
    ensures '=' !in "generator" && '=' !in "kind" && '=' !in "version" && '=' !in "source" && '=' !in "sum"
  {
    assert |"generator"| == 9 && |"kind"| == 4 && |"version"| == 7 && |"source"| == 6 && |"sum"| == 3;
  }

  // ---- Lines ---------------------------------------------------------------

  function Line(s: string): string {
    s[..Index(s, '\n')]
  }

  /** The length of the first line with its newline, if it has one. */
  function LineStep(s: string): (k: nat)
    requires s != ""
    ensures 0 < k <= |s|
  {
    if Index(s, '\n') < |s| then Index(s, '\n') + 1 else |s|
  }

  /** The length of the header lines at the front of s, whose first line has this index. */
  function HeadLength(style: Style, s: string, index: nat): (n: nat)
    ensures n <= |s|
    decreases |s|
  {
    if s == "" || !SkipLeading(style, Line(s), index) then 0
    else LineStep(s) + HeadLength(style, s[LineStep(s)..], index + 1)
  }

  function HeadLines(style: Style, s: string, index: nat): nat
    decreases |s|
  {
    if s == "" || !SkipLeading(style, Line(s), index) then 0
    else 1 + HeadLines(style, s[LineStep(s)..], index + 1)
  }

  method SplitLeading(content: string, style: Style) returns (offset: nat)
    ensures offset == HeadLength(style, content, 0)
  {
    hide *;
    offset := 0;
    var i := 0;
    assert content[0..] == content;
    while offset < |content|
      invariant offset <= |content| && offset + HeadLength(style, content[offset..], i) == HeadLength(style, content, 0)
    {
      var line := Line(content[offset..]);
      HeadStep(style, content, offset, i);
      if !SkipLeading(style, line, i) {
        break;
      }
      offset := offset + LineStep(content[offset..]);
      i := i + 1;
    }
  }

  lemma HeadStep(style: Style, content: string, offset: nat, i: nat)
    requires offset < |content|
    ensures var here := content[offset..];
            HeadLength(style, here, i) == if SkipLeading(style, Line(here), i)
                                          then LineStep(here) + HeadLength(style, content[offset + LineStep(here)..], i + 1) else 0
  {
    hide SkipLeading, Line;
    var here := content[offset..];
    assert here[LineStep(here)..] == content[offset + LineStep(here)..];
  }

  // ---- Stamping ------------------------------------------------------------

  function Prefix(style: Style): string {
    Open(style) + MARKER_TAG + " "
  }

  function MarkerText(style: Style, m: Marker): string {
    Prefix(style) + Fields(m) + Close(style)
  }

  function MarkerLine(style: Style, m: Marker): string {
    MarkerText(style, m) + "\n" + if BlankAfter(style) then "\n" else ""
  }

  datatype Result = Stamped(content: string) | Refused

  /** The content with m's marker under its header, the sum taken from the content. */
  function Stamp(sum: string -> string, path: string, content: string, m: Marker): Result {
    var style := StyleFor(path);
    if style.None? then Stamped(content)
    else if !ValidMarker(m.(sum := sum(content))) then Refused
    else Stamped(StampAs(style.value, content, m.(sum := sum(content)), 0))
  }

  function StampAs(style: Style, content: string, m: Marker, index: nat): string {
    var n := HeadLength(style, content, index);
    content[..n] + MarkerLine(style, m) + content[n..]
  }

  // ---- Reading -------------------------------------------------------------

  datatype Found = NoMarker | At(m: Marker, body: string)

  /** A line with the marker's prefix: its fields must parse, or there is no marker at all. */
  function ReadHere(style: Style, s: string): Found
    requires s != ""
  {
    var text := Line(s)[if |Prefix(style)| <= |Line(s)| then |Prefix(style)| else |Line(s)|..];
    if !HasSuffix(text, Close(style)) then NoMarker
    else
      var m := ParseFrom(Split(text[..|text| - |Close(style)|]), EMPTY, {});
      if m.None? then NoMarker
      else
        var rest := s[LineStep(s)..];
        At(m.value, if BlankAfter(style) && HasPrefix(rest, "\n") then rest[1..] else rest)
  }

  /** The first line with the prefix, among the eight from the top; `index` lines are above s. */
  function ReadFrom(style: Style, s: string, index: nat): Found
    decreases |s|
  {
    if s == "" || index >= MARKER_HEADER_LINES then NoMarker
    else if HasPrefix(Line(s), Prefix(style)) then ReadHere(style, s)
    else Under(s[..LineStep(s)], ReadFrom(style, s[LineStep(s)..], index + 1))
  }

  function Read(path: string, content: string): Found {
    var style := StyleFor(path);
    if style.None? then NoMarker else ReadFrom(style.value, content, 0)
  }

  function Under(above: string, r: Found): Found {
    if r.NoMarker? then r else At(r.m, above + r.body)
  }

  method ReadMarker(path: string, content: string) returns (r: Found)
    ensures r == Read(path, content)
  {
    hide *;
    var style := StyleFor(path);
    ReadStarts(path, content);
    if style.None? {
      return NoMarker;
    }
    var offset: nat, i: nat := 0, 0;
    while i < MARKER_HEADER_LINES && offset < |content|
      invariant offset <= |content|
      invariant Under(content[..offset], ReadFrom(style.value, content[offset..], i)) == Read(path, content)
      decreases |content| - offset
    {
      ReadStep(style.value, content, offset, i);
      var here := content[offset..];
      if HasPrefix(Line(here), Prefix(style.value)) {
        r := ReadLine(style.value, here);
        return Under(content[..offset], r);
      }
      offset := offset + LineStep(here);
      i := i + 1;
    }
    ReadEnds(style.value, content, offset, i);
    return NoMarker;
  }

  /** The marker line and what follows it. */
  method ReadLine(style: Style, here: string) returns (r: Found)
    requires here != "" && HasPrefix(Line(here), Prefix(style))
    ensures r == ReadHere(style, here)
  {
    hide Line, Prefix, Index, ParseFrom, Split, Close, Open;
    var text := Line(here)[|Prefix(style)|..];
    if !HasSuffix(text, Close(style)) {
      return NoMarker;
    }
    var m := ParseMarkerFields(text[..|text| - |Close(style)|]);
    if m.None? {
      return NoMarker;
    }
    var rest := here[LineStep(here)..];
    if BlankAfter(style) && HasPrefix(rest, "\n") {
      rest := rest[1..];
    }
    return At(m.value, rest);
  }

  lemma ReadStarts(path: string, content: string)
    ensures StyleFor(path).None? ==> Read(path, content) == NoMarker
    ensures StyleFor(path).Some? ==> Under(content[..0], ReadFrom(StyleFor(path).value, content[0..], 0)) == Read(path, content)
  {
    hide StyleFor, ReadFrom;
    assert content[0..] == content;
  }

  lemma ReadEnds(style: Style, content: string, offset: nat, i: nat)
    requires offset <= |content| && (i >= MARKER_HEADER_LINES || offset >= |content|)
    ensures Under(content[..offset], ReadFrom(style, content[offset..], i)) == NoMarker
  {
  }

  lemma ReadStep(style: Style, content: string, offset: nat, i: nat)
    requires i < MARKER_HEADER_LINES && offset < |content|
    ensures HasPrefix(Line(content[offset..]), Prefix(style)) ==> ReadFrom(style, content[offset..], i) == ReadHere(style, content[offset..])
    ensures !HasPrefix(Line(content[offset..]), Prefix(style)) ==>
              var step := LineStep(content[offset..]);
              Under(content[..offset], ReadFrom(style, content[offset..], i))
              == Under(content[..offset + step], ReadFrom(style, content[offset + step..], i + 1))
  {
    hide *;
    var here := content[offset..];
    var step := LineStep(here);
    ReadMeans(style, here, i);
    assert here[step..] == content[offset + step..];
    assert content[..offset + step] == content[..offset] + here[..step];
    UnderTwice(content[..offset], here[..step], ReadFrom(style, here[step..], i + 1));
  }

  lemma UnderTwice(a: string, b: string, r: Found)
    ensures Under(a, Under(b, r)) == Under(a + b, r)
  {
    if r.At? { assert a + (b + r.body) == (a + b) + r.body; }
  }

  // ---- The header is never the marker --------------------------------------

  /** No header line, nor one run on without its newline, has the marker's prefix. */
  lemma HeaderIsNoMarker(style: Style, line: string, index: nat, more: string)
    requires SkipLeading(style, line, index)
    ensures !HasPrefix(line + more, Prefix(style))
  {
    match style
    case Hash =>
      assert (line + more)[1] == '!' && Prefix(style)[1] == ' ';
    case Html =>
      assert Lower(line[2]) == ToLower(line)[2] == "<!doctype"[2];
      assert (line + more)[2] == line[2] && Prefix(style)[2] == '-';
    case Docker =>
      if HasPrefix(line + more, Prefix(style)) { MarkerIsNoDirective(line, more); }
    case _ =>
  }

  lemma MarkerIsNoDirective(line: string, more: string)
    requires HasPrefix(line + more, Prefix(Docker))
    ensures !IsDockerDirective(line)
  {
    var p := "# gofastr:generated ";
    assert Prefix(Docker) == p;
    NoEquals(p);
    assert forall i :: 0 <= i < |p| ==> (line + more)[i] == p[i];
    if |line| < |p| {
      assert forall i :: 0 <= i < |line| ==> line[i] == (line + more)[i];
      assert line != "" ==> '=' !in line[1..];
    } else {
      assert line[1] == (line + more)[1] && line[2] == (line + more)[2];
      TrimOneSpace(line[1..]);
      var rest := TrimSpace(line[1..]);
      assert rest[0] == 'g';
      var key := rest[..Index(rest, '=')];
      assert key != "" && key[0] == 'g';
      TrimKeepsFirst(key);
      assert ToLower(TrimSpace(key))[0] == 'g';
      assert ToLower(TrimSpace(key)) !in {"syntax", "escape", "check"};
    }
  }

  lemma NoEquals(p: string)
    requires p == "# gofastr:generated "
    ensures forall i :: 0 <= i < |p| ==> p[i] != '='
  {
  }

  lemma {:induction false} TrimRightKeepsFirst(s: string)
    requires s != "" && !IsSpace(s[0])
    ensures TrimRight(s) != "" && TrimRight(s)[0] == s[0]
  {
  }

  lemma TrimKeepsFirst(s: string)
    requires s != "" && !IsSpace(s[0])
    ensures TrimSpace(s) != "" && TrimSpace(s)[0] == s[0]
  {
    TrimRightKeepsFirst(s);
  }

  lemma TrimOneSpace(s: string)
    requires |s| >= 2 && s[0] == ' ' && !IsSpace(s[1])
    ensures TrimSpace(s) != "" && TrimSpace(s)[0] == s[1]
  {
    assert TrimLeft(s) == s[1..];
    TrimRightKeepsFirst(s[1..]);
  }

  // ---- Round trip ----------------------------------------------------------

  lemma LineOf(a: string, t: string)
    requires '\n' !in a
    ensures var s := a + "\n" + t; Line(s) == a && LineStep(s) == |a| + 1 && s[LineStep(s)..] == t
  {
    var s := a + "\n" + t;
    IndexOfFirst(a, '\n', t);
    assert s == a + ['\n'] + t;
    assert s[..|a|] == a && s[|a| + 1..] == t;
  }

  lemma LineSplits(s: string)
    requires s != ""
    ensures '\n' !in Line(s)
    ensures if LineStep(s) == |Line(s)| then s == Line(s) else LineStep(s) == |Line(s)| + 1 && s == Line(s) + "\n" + s[LineStep(s)..]
  {
    var k := Index(s, '\n');
    if k < |s| {
      assert s == s[..k] + [s[k]] + s[k + 1..];
    } else {
      assert s[..k] == s;
    }
  }

  lemma TokenIsPlain(t: string, name: bool)
    requires t == "" || IsMarkerToken(t, name)
    ensures ' ' !in t && '\n' !in t
  {
  }

  predicate Plain(p: string) {
    ' ' !in p && '\n' !in p
  }

  lemma PartPlain(key: string, value: string)
    requires Plain(key) && Plain(value)
    ensures Plain(Part(key, value))
  {
    assert Plain("=");
  }

  lemma PartsPlain(m: Marker)
    requires ValidMarker(m)
    ensures forall p :: p in Parts(m) ==> Plain(p)
  {
    TokenIsPlain(m.generator, true);
    TokenIsPlain(m.version, false);
    TokenIsPlain(m.source, true);
    assert Plain(m.sum) && Plain(m.kind);
    assert Plain("generator") && Plain("kind") && Plain("version") && Plain("source") && Plain("sum");
    PartPlain("generator", m.generator);
    PartPlain("kind", m.kind);
    PartPlain("version", m.version);
    PartPlain("source", m.source);
    PartPlain("sum", m.sum);
    hide Plain, Part, ValidMarker;
  }

  lemma {:induction false} JoinOneLine(parts: seq<string>)
    requires forall p :: p in parts ==> Plain(p)
    ensures '\n' !in Join(parts)
  {
    if |parts| == 1 {
      assert Plain(parts[0]);
    } else if parts != [] {
      assert Plain(parts[0]);
      JoinOneLine(parts[1..]);
    }
  }

  lemma CommentOneLine(style: Style)
    ensures '\n' !in Prefix(style) && '\n' !in Close(style)
  {
  }

  /** The marker is one line, and its fields parse back. */
  lemma MarkerIsOneLine(style: Style, m: Marker)
    requires ValidMarker(m)
    ensures '\n' !in MarkerText(style, m) && ParseFrom(Split(Fields(m)), EMPTY, {}) == Some(m)
  {
    CommentOneLine(style);
    PartsPlain(m);
    PartsOneWord(m);
    hide Prefix, Close, Join, Parts, ParseFrom, Split, ValidMarker, Plain;
    JoinOneLine(Parts(m));
    ParsePrinted(m);
    SplitJoin(Parts(m));
  }

  lemma PartsOneWord(m: Marker)
    requires forall p :: p in Parts(m) ==> Plain(p)
    ensures Parts(m) != [] && forall p :: p in Parts(m) ==> ' ' !in p
  {
    hide Part;
  }

  /** What follows the marker's own line. */
  function AfterMarker(style: Style, rest: string): string {
    (if BlankAfter(style) then "\n" else "") + rest
  }

  /** Reading at the marker itself. */
  lemma ReadAtMarker(style: Style, m: Marker, rest: string)
    requires ValidMarker(m)
    ensures var s := MarkerLine(style, m) + rest;
            s != "" && HasPrefix(Line(s), Prefix(style)) && ReadHere(style, s) == At(m, rest)
  {
    hide *;
    MarkerIsOneLine(style, m);
    MarkerLineSplits(style, m, rest);
    LineOf(MarkerText(style, m), AfterMarker(style, rest));
    MarkerTextSplits(style, m);
    ReadHereFinds(style, MarkerLine(style, m) + rest, m);
    BlankTaken(style, rest);
  }

  lemma MarkerLineSplits(style: Style, m: Marker, rest: string)
    ensures MarkerLine(style, m) + rest == MarkerText(style, m) + "\n" + AfterMarker(style, rest)
  {
    hide MarkerText;
  }

  function Unblanked(style: Style, after: string): string {
    if BlankAfter(style) && HasPrefix(after, "\n") then after[1..] else after
  }

  lemma BlankTaken(style: Style, rest: string)
    ensures Unblanked(style, AfterMarker(style, rest)) == rest
  {
  }

  lemma ReadHereFinds(style: Style, s: string, m: Marker)
    requires s != "" && Line(s) == MarkerText(style, m) && ParseFrom(Split(Fields(m)), EMPTY, {}) == Some(m)
    requires var text := MarkerText(style, m);
             && |Prefix(style)| + |Close(style)| <= |text|
             && HasPrefix(text, Prefix(style)) && HasSuffix(text[|Prefix(style)|..], Close(style))
             && text[|Prefix(style)|..][..|text| - |Prefix(style)| - |Close(style)|] == Fields(m)
    ensures ReadHere(style, s) == At(m, Unblanked(style, s[LineStep(s)..]))
  {
    hide Prefix, Close, Fields, Line, LineStep, MarkerText, ParseFrom, Split, BlankAfter;
  }

  lemma MarkerTextSplits(style: Style, m: Marker)
    ensures var text := MarkerText(style, m);
            && |Prefix(style)| + |Close(style)| <= |text|
            && HasPrefix(text, Prefix(style)) && HasSuffix(text[|Prefix(style)|..], Close(style))
            && text[|Prefix(style)|..][..|text| - |Prefix(style)| - |Close(style)|] == Fields(m)
  {
    hide Prefix, Close, Fields;
    var text := MarkerText(style, m);
    assert text[|Prefix(style)|..] == Fields(m) + Close(style);
  }

  /** Where the marker can go and be found again: below header lines that end, and within the first eight lines. */
  predicate HeaderFits(style: Style, s: string, index: nat) {
    var n := HeadLength(style, s, index);
    (n == 0 || s[n - 1] == '\n') && index + HeadLines(style, s, index) < MARKER_HEADER_LINES
  }

  /** One header line down, before and after stamping. */
  lemma StampStep(style: Style, s: string, m: Marker, index: nat)
    requires ValidMarker(m) && s != "" && SkipLeading(style, Line(s), index) && LineStep(s) > |Line(s)|
    ensures var k, stamped := LineStep(s), StampAs(style, s, m, index);
            && stamped != "" && Line(stamped) == Line(s) && LineStep(stamped) == k && stamped[..k] == s[..k]
            && stamped[k..] == StampAs(style, s[k..], m, index + 1)
            && (HeaderFits(style, s, index) <==> HeaderFits(style, s[k..], index + 1))
  {
    LineSplits(s);
    var k := LineStep(s);
    var n, rest := HeadLength(style, s, index), s[k..];
    var n1 := HeadLength(style, rest, index + 1);
    hide HeadLines, SkipLeading, Line, MarkerLine, ValidMarker;
    assert n == k + n1;
    StampedText(style, s, m, index, k, n1);
    LineOf(Line(s), StampAs(style, rest, m, index + 1));
    assert n1 > 0 ==> s[n - 1] == rest[n1 - 1];
    assert s[k - 1] == '\n';
    FitsBelow(style, s, index);
  }

  lemma FitsBelow(style: Style, s: string, index: nat)
    requires s != "" && SkipLeading(style, Line(s), index) && LineStep(s) > |Line(s)|
    ensures HeaderFits(style, s, index) <==> HeaderFits(style, s[LineStep(s)..], index + 1)
  {
    LineSplits(s);
    var k := LineStep(s);
    var n, n1 := HeadLength(style, s, index), HeadLength(style, s[k..], index + 1);
    assert n == k + n1 && HeadLines(style, s, index) == 1 + HeadLines(style, s[k..], index + 1);
    assert s[k - 1] == '\n';
    assert n1 > 0 ==> s[n - 1] == s[k..][n1 - 1];
  }

  lemma StampedText(style: Style, s: string, m: Marker, index: nat, k: nat, n1: nat)
    requires s != "" && k == LineStep(s) && k == |Line(s)| + 1 && s == Line(s) + "\n" + s[k..]
    requires n1 == HeadLength(style, s[k..], index + 1) && HeadLength(style, s, index) == k + n1
    ensures StampAs(style, s, m, index) == Line(s) + "\n" + StampAs(style, s[k..], m, index + 1)
    ensures StampAs(style, s, m, index)[..k] == s[..k]
  {
    hide HeadLength, MarkerLine, Line, LineStep;
    var rest := s[k..];
    assert s[..k + n1] == s[..k] + rest[..n1] && s[k + n1..] == rest[n1..];
    assert s[..k] == Line(s) + "\n";
  }

  lemma {:induction false} ReadStampFrom(style: Style, s: string, m: Marker, index: nat)
    requires ValidMarker(m)
    ensures ReadFrom(style, StampAs(style, s, m, index), index) == if HeaderFits(style, s, index) then At(m, s) else NoMarker
    decreases |s|
  {
    hide *;
    if s == "" || !SkipLeading(style, Line(s), index) {
      ReadOnTop(style, s, m, index);
    } else if LineStep(s) == |Line(s)| {
      ReadRunOn(style, s, m, index);
    } else {
      LineSplits(s);
      var k := LineStep(s);
      StampStep(style, s, m, index);
      ReadStampFrom(style, s[k..], m, index + 1);
      ReadBelow(style, s, m, index);
    }
  }

  /** No header: the marker is the first line. */
  lemma ReadOnTop(style: Style, s: string, m: Marker, index: nat)
    requires ValidMarker(m) && (s == "" || !SkipLeading(style, Line(s), index))
    ensures ReadFrom(style, StampAs(style, s, m, index), index) == if HeaderFits(style, s, index) then At(m, s) else NoMarker
  {
    assert StampAs(style, s, m, index) == MarkerLine(style, m) + s;
    assert HeaderFits(style, s, index) <==> index < MARKER_HEADER_LINES;
    ReadAtMarker(style, m, s);
    hide StampAs, HeaderFits, MarkerLine, ReadHere;
    ReadMeans(style, MarkerLine(style, m) + s, index);
  }

  lemma ReadMeans(style: Style, s: string, index: nat)
    requires s != ""
    ensures index >= MARKER_HEADER_LINES ==> ReadFrom(style, s, index) == NoMarker
    ensures index < MARKER_HEADER_LINES && HasPrefix(Line(s), Prefix(style)) ==> ReadFrom(style, s, index) == ReadHere(style, s)
    ensures index < MARKER_HEADER_LINES && !HasPrefix(Line(s), Prefix(style)) ==>
              ReadFrom(style, s, index) == Under(s[..LineStep(s)], ReadFrom(style, s[LineStep(s)..], index + 1))
  {
  }

  /** A header line down: found below exactly when found here, with the line put back. */
  lemma ReadBelow(style: Style, s: string, m: Marker, index: nat)
    requires s != "" && SkipLeading(style, Line(s), index)
    requires var k, stamped := LineStep(s), StampAs(style, s, m, index);
             && stamped != "" && Line(stamped) == Line(s) && LineStep(stamped) == k && stamped[..k] == s[..k]
             && stamped[k..] == StampAs(style, s[k..], m, index + 1)
             && (HeaderFits(style, s, index) <==> HeaderFits(style, s[k..], index + 1))
             && ReadFrom(style, stamped[k..], index + 1) == if HeaderFits(style, s[k..], index + 1) then At(m, s[k..]) else NoMarker
    ensures ReadFrom(style, StampAs(style, s, m, index), index) == if HeaderFits(style, s, index) then At(m, s) else NoMarker
  {
    var k := LineStep(s);
    HeaderIsNoMarker(style, Line(s), index, "");
    assert Line(s) + "" == Line(s);
    assert index >= MARKER_HEADER_LINES ==> !HeaderFits(style, s, index);
    hide StampAs, HeaderFits, Line, LineStep, SkipLeading, ReadFrom;
    ReadMeans(style, StampAs(style, s, m, index), index);
    assert s[..k] + s[k..] == s;
  }

  /** A header that does not end its last line swallows the marker. */
  lemma ReadRunOn(style: Style, s: string, m: Marker, index: nat)
    requires ValidMarker(m) && s != "" && SkipLeading(style, Line(s), index) && LineStep(s) == |Line(s)|
    ensures !HeaderFits(style, s, index) && ReadFrom(style, StampAs(style, s, m, index), index) == NoMarker
  {
    hide *;
    LineSplits(s);
    RunOnText(style, s, m, index);
    MarkerIsOneLine(style, m);
    var text := s + MarkerText(style, m);
    LineOf(text, "");
    HeaderIsNoMarker(style, s, index, MarkerText(style, m));
    assert text + "\n" + "" == text + "\n";
    ReadMeans(style, text + "\n", index);
    NothingBelow(style, index + 1, s);
  }

  lemma RunOnText(style: Style, s: string, m: Marker, index: nat)
    requires s != "" && SkipLeading(style, Line(s), index) && Line(s) == s && LineStep(s) == |s| && '\n' !in s
    ensures !HeaderFits(style, s, index) && StampAs(style, s, m, index) == s + MarkerText(style, m) + "\n"
  {
    hide MarkerText, HeadLines, Line;
    assert s[LineStep(s)..] == "" && s[|s| - 1] in s;
    assert HeadLength(style, s, index) == |s|;
    assert !BlankAfter(style);
  }

  lemma NothingBelow(style: Style, index: nat, above: string)
    ensures ReadFrom(style, "", index) == NoMarker && Under(above, NoMarker) == NoMarker
    ensures forall a :: Under(a, NoMarker) == NoMarker
  {
  }

  // ---- What a caller relies on ---------------------------------------------

  function StripMarker(path: string, content: string): string {
    var r := Read(path, content);
    if r.At? then r.body else content
  }

  /** None for a file with no marker. */
  function Edited(sum: string -> string, path: string, content: string): Option<bool> {
    var r := Read(path, content);
    if r.At? then Some(sum(r.body) != r.m.sum) else None
  }

  /** A file of this type whose header leaves room for the marker. */
  predicate Markable(path: string, content: string) {
    StyleFor(path).Some? && HeaderFits(StyleFor(path).value, content, 0)
  }

  /**
  A valid marker is refused nowhere. Stamping and reading undo each other exactly where the type has
  comments and the header is empty or ends its last line, and is shorter than eight lines; elsewhere what
  was stamped reads as unmarked, a type without comments coming back as it was.
  */
  lemma StampRoundTrips(sum: string -> string, path: string, content: string, m: Marker)
    requires ValidMarker(m.(sum := sum(content)))
    ensures Stamp(sum, path, content, m).Stamped?
    ensures StyleFor(path).Some? ==>
              Read(path, Stamp(sum, path, content, m).content) == if Markable(path, content) then At(m.(sum := sum(content)), content) else NoMarker
    ensures StyleFor(path).None? ==> var stamped := Stamp(sum, path, content, m).content; stamped == content && StripMarker(path, stamped) == content
  {
    hide StyleFor, ReadFrom, StampAs, HeaderFits;
    if StyleFor(path).Some? {
      ReadStampFrom(StyleFor(path).value, content, m.(sum := sum(content)), 0);
    }
  }

  /** Stripping undoes stamping, and a stamped file reads as unedited, exactly there too. */
  lemma StampedIsUnedited(sum: string -> string, path: string, content: string, m: Marker)
    requires StyleFor(path).Some? && Stamp(sum, path, content, m).Stamped?
    ensures var stamped := Stamp(sum, path, content, m).content;
            && (StripMarker(path, stamped) == content <==> Markable(path, content))
            && Edited(sum, path, stamped) == if Markable(path, content) then Some(false) else None
  {
    StampRoundTrips(sum, path, content, m);
    var style := StyleFor(path).value;
    hide StyleFor, Read, Markable;
    var stamped := Stamp(sum, path, content, m).content;
    StampGrows(style, content, m.(sum := sum(content)));
  }

  lemma StampGrows(style: Style, content: string, m: Marker)
    ensures |StampAs(style, content, m, 0)| > |content|
  {
  }

  /** A shebang with no newline: the marker lands on the same line and is lost. */
  lemma ShebangWithoutNewline(s: string)
    requires HasPrefix(s, "#!") && '\n' !in s
    ensures !HeaderFits(Hash, s, 0) && HeaderFits(Hash, s + "\n", 0)
  {
    assert forall i :: 0 <= i < |s| ==> s[i] in s;
    assert s[..|s|] == s && Line(s) == s && s[LineStep(s)..] == "";
    assert HeadLength(Hash, s, 0) == |s|;
    LineOf(s, "");
    var t := s + "\n" + "";
    assert t == s + "\n";
    assert HeadLength(Hash, t, 0) == |t| && HeadLines(Hash, t, 0) == 1;
  }
}
