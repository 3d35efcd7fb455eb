/**
heldScopeKey: the namespace a request's idempotency entries live in. Strings are
sequences of bytes, as `len` and `slices.Sort` take them.
*/
module ScopeKey {
  import opened Ordering

  // ---- strconv.Itoa --------------------------------------------------------

  const DIGITS := "0123456789"

  function Itoa(n: nat): (s: string)
    ensures s != [] && forall c :: c in s ==> c in DIGITS
  {
    if n < 10 then [DIGITS[n]] else Itoa(n / 10) + [DIGITS[n % 10]]
  }

  function Digit(c: char): nat {
    if '0' <= c <= '9' then c as nat - '0' as nat else 0
  }

  function Atoi(s: string): nat {
    if s == [] then 0 else 10 * Atoi(s[..|s| - 1]) + Digit(s[|s| - 1])
  }

  lemma {:induction false} AtoiItoa(n: nat)
    ensures Atoi(Itoa(n)) == n
  {
    DigitsInOrder(n % 10);
    if n >= 10 {
      var s := Itoa(n);
      assert s[..|s| - 1] == Itoa(n / 10);
      AtoiItoa(n / 10);
    } else {
      assert Itoa(n) == [DIGITS[n]];
      assert Atoi([]) == 0;
      assert [DIGITS[n]][..0] == [];
    }
  }

  lemma DigitsInOrder(d: nat)
    requires d < 10
    ensures Digit(DIGITS[d]) == d
  {
  }

  // ---- The key -------------------------------------------------------------

  /** Each name behind its length. */
  function Encode(names: seq<string>): string {
    if names == [] then "" else Itoa(|names[0]|) + ":" + names[0] + Encode(names[1..])
  }

  function KeyOf(held: seq<string>, scoped: bool): string {
    if !scoped then "" else "scoped:" + Encode(Compact(Sort(held)))
  }

  method HeldScopeKey(held: seq<string>, scoped: bool) returns (key: string)
    ensures key == KeyOf(held, scoped)
  {
    if !scoped {
      return "";
    }
    var names := Compact(Sort(held));
    key := "scoped:";
    assert names[0..] == names;
    for i := 0 to |names|
      invariant key + Encode(names[i..]) == KeyOf(held, scoped)
    {
      ghost var before := key;
      assert names[i..][0] == names[i] && names[i..][1..] == names[i + 1..];
      key := key + Itoa(|names[i]|) + ":" + names[i];
      assert before + Encode(names[i..]) == key + Encode(names[i + 1..]);
    }
    assert key + Encode([]) == key;
  }

  /** A colon ends a colon-free prefix in one way only. */
  lemma ColonSplits(s: string, x: string, t: string, y: string)
    requires ':' !in s && ':' !in t && s + ":" + x == t + ":" + y
    ensures s == t && x == y
  {
    var a, b := s + ":" + x, t + ":" + y;
    assert a[|s|] == ':' && b[|t|] == ':';
    assert forall i :: 0 <= i < |s| ==> a[i] == s[i];
    assert forall i :: 0 <= i < |t| ==> b[i] == t[i];
    assert |s| == |t|;
    assert s == a[..|s|] && t == b[..|t|];
    assert x == a[|s| + 1..] && y == b[|t| + 1..];
  }

  /** Names can hold digits and colons: the length says where each ends. */
  lemma {:induction false} EncodeInjective(a: seq<string>, b: seq<string>)
    requires Encode(a) == Encode(b)
    ensures a == b
  {
    if a != [] && b != [] {
      var x, y := a[0] + Encode(a[1..]), b[0] + Encode(b[1..]);
      assert Encode(a) == Itoa(|a[0]|) + ":" + x && Encode(b) == Itoa(|b[0]|) + ":" + y;
      ColonSplits(Itoa(|a[0]|), x, Itoa(|b[0]|), y);
      AtoiItoa(|a[0]|);
      AtoiItoa(|b[0]|);
      assert a[0] == x[..|a[0]|] && b[0] == y[..|b[0]|];
      assert Encode(a[1..]) == x[|a[0]|..] && Encode(b[1..]) == y[|b[0]|..];
      EncodeInjective(a[1..], b[1..]);
      assert a == [a[0]] + a[1..] && b == [b[0]] + b[1..];
    }
  }

  /**
  Two requests share a namespace exactly when both are unscoped, or both are scoped and hold the same set of
  scopes: order, duplicates and the characters in the names make no difference.
  */
  lemma SameKeyIffSameScopes(held: seq<string>, scoped: bool, other: seq<string>, otherScoped: bool)
    ensures KeyOf(held, scoped) == KeyOf(other, otherScoped)
            <==> scoped == otherScoped && (scoped ==> forall x :: x in held <==> x in other)
  {
    var a, b := Compact(Sort(held)), Compact(Sort(other));
    CanonicalList(held);
    CanonicalList(other);
    if scoped && otherScoped {
      if KeyOf(held, scoped) == KeyOf(other, otherScoped) {
        assert Encode(a) == KeyOf(held, scoped)[7..] && Encode(b) == KeyOf(other, otherScoped)[7..];
        EncodeInjective(a, b);
      }
      if forall x :: x in held <==> x in other {
        SortedListingUnique(a, b);
      }
    }
  }
}
