/**
Go's string order (byte by byte, a proper prefix first) and the two library
calls built on it that this model uses: `slices.Sort` and `slices.Compact`.
*/
module Ordering {

  predicate Leq(a: string, b: string) {
    a == [] || (b != [] && (a[0] < b[0] || (a[0] == b[0] && Leq(a[1..], b[1..]))))
  }

  predicate Less(a: string, b: string) {
    Leq(a, b) && a != b
  }

  lemma {:induction false} LeqTotal(a: string, b: string)
    ensures Leq(a, b) || Leq(b, a)
  {
    if a != [] && b != [] && a[0] == b[0] {
      LeqTotal(a[1..], b[1..]);
    }
  }

  lemma {:induction false} LeqAntisymmetric(a: string, b: string)
    requires Leq(a, b) && Leq(b, a)
    ensures a == b
  {
    if a != [] && b != [] {
      LeqAntisymmetric(a[1..], b[1..]);
      assert a == [a[0]] + a[1..] && b == [b[0]] + b[1..];
    }
  }

  lemma {:induction false} LeqTransitive(a: string, b: string, c: string)
    requires Leq(a, b) && Leq(b, c)
    ensures Leq(a, c)
  {
    if a != [] && a[0] == b[0] == c[0] {
      LeqTransitive(a[1..], b[1..], c[1..]);
    }
  }

  /** Each element is at most its successor. */
  predicate Sorted(s: seq<string>) {
    forall i :: 0 <= i < |s| - 1 ==> Leq(s[i], s[i + 1])
  }

  /** Each element is strictly below every later one: a sorted set. */
  ghost predicate StrictlySorted(s: seq<string>) {
    forall i, j :: 0 <= i < j < |s| ==> Less(s[i], s[j])
  }

  lemma {:induction false} SortedPairs(s: seq<string>, i: nat, j: nat)
    requires Sorted(s) && i <= j < |s|
    ensures Leq(s[i], s[j])
    decreases j - i
  {
    if i == j {
      LeqTotal(s[i], s[j]);
    } else {
      SortedPairs(s, i + 1, j);
      LeqTransitive(s[i], s[i + 1], s[j]);
    }
  }

  function Insert(x: string, s: seq<string>): (r: seq<string>)
    requires Sorted(s)
    ensures Sorted(r) && multiset(r) == multiset(s) + multiset{x}
    ensures r[0] == x || (s != [] && r[0] == s[0])
  {
    if s == [] then [x]
    else
      assert s == [s[0]] + s[1..];
      if Leq(x, s[0]) then
        [x] + s
      else
        LeqTotal(x, s[0]);
        [s[0]] + Insert(x, s[1..])
  }

  /** `slices.Sort` and `sort.Strings`. */
  function Sort(s: seq<string>): (r: seq<string>)
    ensures Sorted(r) && multiset(r) == multiset(s)
  {
    if s == [] then [] else
      assert s == [s[0]] + s[1..];
      Insert(s[0], Sort(s[1..]))
  }

  /** `slices.Compact`: runs of equal elements collapse to one. */
  function Compact(s: seq<string>): (r: seq<string>)
    ensures r == [] <==> s == []
    ensures r != [] ==> r[0] == s[0]
    ensures forall x :: x in r <==> x in s
  {
    if |s| <= 1 then s
    else
      assert s == [s[0]] + s[1..];
      if s[0] == s[1] then Compact(s[1..])
      else [s[0]] + Compact(s[1..])
  }

  lemma {:induction false} CompactStrict(s: seq<string>)
    requires Sorted(s)
    ensures StrictlySorted(Compact(s))
  {
    if |s| > 1 {
      var t, r := s[1..], Compact(s[1..]);
      assert Sorted(t) by {
        forall i | 0 <= i < |t| - 1 ensures Leq(t[i], t[i + 1]) {
          assert Leq(s[i + 1], s[i + 2]);
        }
      }
      CompactStrict(t);
      if s[0] != s[1] {
        forall j | 0 <= j < |r| ensures Less(s[0], r[j]) {
          assert r[j] in t;
          var k :| 0 <= k < |t| && t[k] == r[j];
          SortedPairs(s, 0, k + 1);
          SortedPairs(s, 1, k + 1);
          if s[0] == r[j] {
            assert Leq(s[0], s[1]);
            LeqAntisymmetric(s[0], s[1]);
          }
        }
      }
    }
  }

  /** Sorting then compacting yields each element once, in order. */
  lemma CanonicalList(s: seq<string>)
    ensures StrictlySorted(Compact(Sort(s)))
    ensures forall x :: x in Compact(Sort(s)) <==> x in s
  {
    CompactStrict(Sort(s));
    forall x ensures x in Sort(s) <==> x in s {
      assert x in Sort(s) <==> x in multiset(Sort(s));
      assert x in s <==> x in multiset(s);
    }
  }

  /** A set has exactly one strictly sorted listing. */
  lemma {:induction false} SortedListingUnique(a: seq<string>, b: seq<string>)
    requires StrictlySorted(a) && StrictlySorted(b)
    requires forall x :: x in a <==> x in b
    ensures a == b
  {
    if a == [] {
      if b != [] { HeadIsMember(b); }
    } else {
      assert a[0] in b && b != [] && b[0] in a;
      var i :| 0 <= i < |b| && b[i] == a[0];
      var j :| 0 <= j < |a| && a[j] == b[0];
      if i > 0 && j > 0 {
        assert Less(b[0], b[i]) && Less(a[0], a[j]);
        LeqAntisymmetric(a[0], b[0]);
      }
      assert a[0] == b[0];
      forall x ensures x in a[1..] <==> x in b[1..] {
        TailMembers(a, x);
        TailMembers(b, x);
      }
      assert StrictlySorted(a[1..]) && StrictlySorted(b[1..]);
      SortedListingUnique(a[1..], b[1..]);
      assert a == [a[0]] + a[1..] && b == [b[0]] + b[1..];
    }
  }

  lemma HeadIsMember(a: seq<string>)
    requires a != []
    ensures exists x :: x in a
  {
    assert a[0] in a;
  }

  lemma TailMembers(a: seq<string>, x: string)
    requires a != [] && StrictlySorted(a)
    ensures x in a[1..] <==> x in a && x != a[0]
  {
    if x in a && x != a[0] {
      var i :| 0 <= i < |a| && a[i] == x;
      assert a[1..][i - 1] == x;
    }
    if x in a[1..] {
      var i :| 0 <= i < |a| - 1 && a[1..][i] == x;
      assert a[i + 1] == x && Less(a[0], a[i + 1]);
    }
  }

  /** `slices.Sorted(maps.Keys(m))`: the keys in order, each once. */
  method SortedKeys(keys: set<string>) returns (r: seq<string>)
    ensures StrictlySorted(r)
    ensures forall x :: x in r <==> x in keys
  {
    var rest, list := keys, [];
    while rest != {}
      invariant rest <= keys
      invariant forall x :: x in list <==> x in keys - rest
      decreases |rest|
    {
      var k :| k in rest;
      rest := rest - {k};
      list := list + [k];
    }
    r := Compact(Sort(list));
    CanonicalList(list);
  }
}
