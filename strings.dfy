/**
 * The few Python `str` operations the tools rely on: ordering with `<`/`>`,
 * substring search with `in`, `"".join` and `str(int)`.
 */
module Strings {

  /**
   * Python's `a < b` on `str`: lexicographic on code points, a proper prefix
   * sorting first. The review command compares ISO-8601 timestamps with it.
   */
  predicate Less(a: string, b: string)
    decreases |a|
  {
    if |a| == 0 then |b| > 0
    else if |b| == 0 then false
    else if a[0] != b[0] then a[0] < b[0]
    else Less(a[1..], b[1..])
  }

  lemma {:induction false} LessIrreflexive(a: string)
    ensures !Less(a, a)
  {
    if |a| > 0 {
      LessIrreflexive(a[1..]);
    }
  }

  lemma {:induction false} LessTransitive(a: string, b: string, c: string)
    requires Less(a, b) && Less(b, c)
    ensures Less(a, c)
    decreases |a|
  {
    if |a| > 0 && a[0] == b[0] && b[0] == c[0] {
      LessTransitive(a[1..], b[1..], c[1..]);
    }
  }

  /** Any two distinct strings are ordered one way or the other. */
  lemma {:induction false} LessTotal(a: string, b: string)
    ensures a == b || Less(a, b) || Less(b, a)
    decreases |a|
  {
    if |a| > 0 && |b| > 0 && a[0] == b[0] {
      LessTotal(a[1..], b[1..]);
      if a[1..] == b[1..] {
        assert a == [a[0]] + a[1..] && b == [b[0]] + b[1..];
      }
    }
  }

  lemma LessAsymmetric(a: string, b: string)
    requires Less(a, b)
    ensures !Less(b, a)
  {
    if Less(b, a) {
      LessTransitive(a, b, a);
      LessIrreflexive(a);
    }
  }

  /** `sub` occurs in `s` starting at index `i`. */
  predicate OccursAt(s: string, sub: string, i: int) {
    0 <= i && i + |sub| <= |s| && s[i..i + |sub|] == sub
  }

  /** Python's `sub in s` on strings. */
  predicate Contains(s: string, sub: string)
    decreases |s|
  {
    |sub| <= |s| && (s[..|sub|] == sub || (|s| > 0 && Contains(s[1..], sub)))
  }

  /** `Contains` finds exactly the substrings that occur somewhere in `s`. */
  lemma {:induction false} ContainsIff(s: string, sub: string)
    ensures Contains(s, sub) <==> exists i :: OccursAt(s, sub, i)
    decreases |s|
  {
    if |sub| == 0 {
      assert OccursAt(s, sub, 0);
    } else if |sub| <= |s| {
      if s[..|sub|] == sub {
        assert OccursAt(s, sub, 0);
      } else {
        ContainsIff(s[1..], sub);
        if Contains(s[1..], sub) {
          var i :| OccursAt(s[1..], sub, i);
          assert s[i + 1..i + 1 + |sub|] == s[1..][i..i + |sub|];
          assert OccursAt(s, sub, i + 1);
        } else {
          forall i | OccursAt(s, sub, i)
            ensures false
          {
            if i > 0 {
              assert s[1..][i - 1..i - 1 + |sub|] == s[i..i + |sub|];
              assert OccursAt(s[1..], sub, i - 1);
            }
          }
        }
      }
    }
  }

  lemma ContainsExtend(pre: string, s: string, post: string, sub: string)
    requires Contains(s, sub)
    ensures Contains(pre + s + post, sub)
  {
    ContainsIff(s, sub);
    var i :| OccursAt(s, sub, i);
    var whole := pre + s + post;
    assert whole[|pre| + i..|pre| + i + |sub|] == s[i..i + |sub|];
    assert OccursAt(whole, sub, |pre| + i);
    ContainsIff(whole, sub);
  }

  /** Python's `"".join(parts)`. */
  function Concat(parts: seq<string>): string
    decreases |parts|
  {
    if parts == [] then "" else Concat(parts[..|parts| - 1]) + parts[|parts| - 1]
  }

  lemma {:induction false} ConcatAppend(a: seq<string>, b: seq<string>)
    ensures Concat(a + b) == Concat(a) + Concat(b)
    decreases |b|
  {
    if b == [] {
      assert a + b == a;
    } else {
      assert (a + b)[..|a + b| - 1] == a + b[..|b| - 1];
      ConcatAppend(a, b[..|b| - 1]);
    }
  }

  /** A substring of any joined part is a substring of the joined text. */
  lemma {:induction false} ContainsInConcat(parts: seq<string>, k: int, sub: string)
    requires 0 <= k < |parts| && Contains(parts[k], sub)
    ensures Contains(Concat(parts), sub)
    decreases |parts|
  {
    var init := parts[..|parts| - 1];
    if k == |parts| - 1 {
      ContainsExtend(Concat(init), parts[k], "", sub);
      assert Concat(init) + parts[k] + "" == Concat(parts);
    } else {
      ContainsInConcat(init, k, sub);
      ContainsExtend("", Concat(init), parts[|parts| - 1], sub);
      assert "" + Concat(init) + parts[|parts| - 1] == Concat(parts);
    }
  }

  predicate IsDigit(c: char) { '0' <= c <= '9' }

  function DigitChar(d: int): char
    requires 0 <= d < 10
  {
    ('0' as int + d) as char
  }

  /** Decimal digits of a natural number, most significant first, without leading zeros. */
  function NatToString(n: nat): string
    decreases n
  {
    if n < 10 then [DigitChar(n)] else NatToString(n / 10) + [DigitChar(n % 10)]
  }

  /** Python's `str(n)` on an `int`. */
  function IntToString(n: int): string {
    if n < 0 then "-" + NatToString(-n) else NatToString(n)
  }

  /** Reads back a run of decimal digits. */
  function ParseNat(s: string): nat
    decreases |s|
  {
    if s == [] then 0
    else ParseNat(s[..|s| - 1]) * 10 + (if IsDigit(s[|s| - 1]) then (s[|s| - 1] - '0') as int else 0)
  }

  /** Python's `int(s)` on what `str` produces. */
  function ParseInt(s: string): int {
    if |s| > 0 && s[0] == '-' then 0 - ParseNat(s[1..]) else ParseNat(s)
  }

  lemma {:induction false} NatToStringDigits(n: nat)
    ensures |NatToString(n)| > 0
    ensures forall i :: 0 <= i < |NatToString(n)| ==> IsDigit(NatToString(n)[i])
    ensures ParseNat(NatToString(n)) == n
    decreases n
  {
    var s := NatToString(n);
    if n >= 10 {
      NatToStringDigits(n / 10);
      assert s[..|s| - 1] == NatToString(n / 10);
    } else {
      assert s[..0] == [];
    }
  }

  /** `str` on an int can be read back, so distinct numbers print differently. */
  lemma IntToStringRoundTrip(n: int)
    ensures |IntToString(n)| > 0
    ensures ParseInt(IntToString(n)) == n
  {
    if n < 0 {
      var digits := NatToString(-n);
      NatToStringDigits(-n);
      var s := "-" + digits;
      assert s[0] == '-' && s[1..] == digits;
      assert ParseInt(s) == 0 - ParseNat(digits);
    } else {
      NatToStringDigits(n);
    }
  }
}
