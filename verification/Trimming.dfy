/** strings.TrimSpace, on strings as sequences of characters. */
module Trimming {

  /** unicode.IsSpace. */
  predicate IsSpace(c: char) {
    || '\t' <= c <= '\r' || c == ' ' || c == '\U{85}' || c == '\U{A0}' || c == '\U{1680}'
    || '\U{2000}' <= c <= '\U{200A}' || c == '\U{2028}' || c == '\U{2029}' || c == '\U{202F}' || c == '\U{205F}' || c == '\U{3000}'
  }

  function TrimLeft(s: string): (r: string)
    ensures r != "" ==> !IsSpace(r[0])
    ensures forall c :: c in r ==> c in s
  {
    if s != "" && IsSpace(s[0]) then TrimLeft(s[1..]) else s
  }

  function TrimRight(s: string): (r: string)
    ensures r <= s && (s != "" && !IsSpace(s[0]) ==> r != "")
  {
    if s != "" && IsSpace(s[|s| - 1]) then TrimRight(s[..|s| - 1]) else s
  }

  function TrimSpace(s: string): (r: string)
    ensures forall c :: c in r ==> c in s
  {
    TrimRight(TrimLeft(s))
  }

  predicate AllSpace(s: string) {
    forall i :: 0 <= i < |s| ==> IsSpace(s[i])
  }

  /** No space at either end. */
  predicate Trimmed(s: string) {
    s != "" ==> !IsSpace(s[0]) && !IsSpace(s[|s| - 1])
  }

  /** `s` is `k` with spaces before and after it. */
  ghost predicate Spells(s: string, k: string) {
    exists a, b :: AllSpace(a) && AllSpace(b) && s == a + k + b
  }

  lemma {:induction false} TrimLeftIs(s: string) returns (a: string)
    ensures AllSpace(a) && s == a + TrimLeft(s)
    decreases |s|
  {
    a := "";
    if s != "" && IsSpace(s[0]) {
      var rest := TrimLeftIs(s[1..]);
      a := [s[0]] + rest;
      assert s == [s[0]] + s[1..];
    }
  }

  lemma {:induction false} TrimRightIs(s: string) returns (b: string)
    ensures AllSpace(b) && s == TrimRight(s) + b
    ensures TrimRight(s) != "" ==> !IsSpace(TrimRight(s)[|TrimRight(s)| - 1])
    decreases |s|
  {
    b := "";
    if s != "" && IsSpace(s[|s| - 1]) {
      var front := s[..|s| - 1];
      var rest := TrimRightIs(front);
      b := rest + [s[|s| - 1]];
      assert s == front + [s[|s| - 1]];
    }
  }

  lemma {:induction false} TrimLeftOf(a: string, s: string)
    requires AllSpace(a) && (s != "" ==> !IsSpace(s[0]))
    ensures TrimLeft(a + s) == s
    decreases |a|
  {
    if a != "" {
      TrimLeftOf(a[1..], s);
      assert (a + s)[1..] == a[1..] + s;
    } else {
      assert a + s == s;
    }
  }

  lemma {:induction false} TrimRightOf(s: string, b: string)
    requires AllSpace(b) && (s != "" ==> !IsSpace(s[|s| - 1]))
    ensures TrimRight(s + b) == s
    decreases |b|
  {
    if b != "" {
      TrimRightOf(s, b[..|b| - 1]);
      assert (s + b)[..|s + b| - 1] == s + b[..|b| - 1];
    } else {
      assert s + b == s;
    }
  }

  /** Trimming yields exactly what the string spells without the spaces around it. */
  lemma TrimmedSpelling(s: string, k: string)
    ensures TrimSpace(s) == k <==> Trimmed(k) && Spells(s, k)
  {
    var a := TrimLeftIs(s);
    var b := TrimRightIs(TrimLeft(s));
    if TrimSpace(s) == k {
      assert s == a + k + b;
      assert k <= TrimLeft(s);
    }
    if Trimmed(k) && Spells(s, k) {
      var x, y :| AllSpace(x) && AllSpace(y) && s == x + k + y;
      SpellingTrims(x, k, y);
    }
  }

  lemma SpellingTrims(x: string, k: string, y: string)
    requires AllSpace(x) && AllSpace(y) && Trimmed(k)
    ensures TrimSpace(x + k + y) == k
  {
    if k == "" {
      TrimLeftOf(x + y, "");
      assert x + k + y == x + y + "";
    } else {
      TrimLeftOf(x, k + y);
      TrimRightOf(k, y);
      assert x + k + y == x + (k + y);
    }
  }
}
