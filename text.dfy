/** The two string operations the Python code relies on: the substring test
    `pat in s` and `str(n)` for integers, with the facts about them that make
    the formatted dictionary keys unambiguous. */
module Text {

  /** Python's `pat in s` on strings: `pat` occurs as a contiguous block of `s`. */
  function Contains(s: string, pat: string): bool
    decreases |s|
  {
    if |s| < |pat| then false
    else s[..|pat|] == pat || Contains(s[1..], pat)
  }

  /** `pat` occurs in `s` starting at position `i`. */
  ghost predicate OccursAt(s: string, pat: string, i: int)
  {
    0 <= i && i + |pat| <= |s| && s[i..i + |pat|] == pat
  }

  /** `Contains` is exactly "occurs at some position". */
  lemma {:induction false} ContainsIff(s: string, pat: string)
    ensures Contains(s, pat) <==> exists i :: OccursAt(s, pat, i)
    decreases |s|
  {
    if |s| < |pat| {
      forall i | OccursAt(s, pat, i) ensures false { }
    } else if s[..|pat|] == pat {
      assert OccursAt(s, pat, 0);
    } else {
      ContainsIff(s[1..], pat);
      if Contains(s[1..], pat) {
        var i :| OccursAt(s[1..], pat, i);
        assert s[1..][i..i + |pat|] == s[i + 1..i + 1 + |pat|];
        assert OccursAt(s, pat, i + 1);
      } else {
        forall i | OccursAt(s, pat, i) ensures false {
          assert i != 0;
          assert s[1..][i - 1..i - 1 + |pat|] == s[i..i + |pat|];
          assert OccursAt(s[1..], pat, i - 1);
        }
      }
    }
  }

  /** Whoever contains a longer pattern contains every prefix of it. */
  lemma {:induction false} ContainsPrefix(s: string, pat: string, rest: string)
    requires Contains(s, pat + rest)
    ensures Contains(s, pat)
    decreases |s|
  {
    if s[..|pat + rest|] == pat + rest {
      assert s[..|pat|] == (pat + rest)[..|pat|] == pat;
    } else {
      ContainsPrefix(s[1..], pat, rest);
    }
  }

  /** The decimal digit for `d`. */
  function DigitChar(d: nat): (c: char)
    requires d < 10
    ensures '0' <= c <= '9'
  {
    "0123456789"[d]
  }

  /** `str(n)` for a natural number: decimal digits, most significant first. */
  function NatToString(n: nat): (r: string)
    ensures |r| >= 1
    ensures forall i :: 0 <= i < |r| ==> '0' <= r[i] <= '9'
    ensures n >= 10 <==> |r| >= 2
    decreases n
  {
    if n < 10 then [DigitChar(n)] else NatToString(n / 10) + [DigitChar(n % 10)]
  }

  /** `str(i)` for an integer: a minus sign in front of negative numbers. */
  function IntToString(i: int): (r: string)
    ensures |r| >= 1
    ensures '_' !in r
    ensures r[0] == '-' <==> i < 0
  {
    if i < 0 then "-" + NatToString(-i) else NatToString(i)
  }

  lemma {:induction false} NatToStringInjective(a: nat, b: nat)
    requires NatToString(a) == NatToString(b)
    ensures a == b
    decreases a
  {
    if a >= 10 && b >= 10 {
      var sa, sb := NatToString(a), NatToString(b);
      assert sa[|sa| - 1] == DigitChar(a % 10) && sb[|sb| - 1] == DigitChar(b % 10);
      assert a % 10 == b % 10;
      assert sa[..|sa| - 1] == NatToString(a / 10);
      assert sb[..|sb| - 1] == NatToString(b / 10);
      NatToStringInjective(a / 10, b / 10);
    }
  }

  /** The digits after the minus sign of a negative number. */
  lemma NegativeDigits(a: int)
    requires a < 0
    ensures IntToString(a)[1..] == NatToString(-a)
  {
    assert IntToString(a) == "-" + NatToString(-a);
  }

  /** Equal printed forms have the same sign. */
  lemma SameSign(a: int, b: int)
    requires IntToString(a) == IntToString(b)
    ensures a < 0 <==> b < 0
  {
    var s := IntToString(a);
    assert s[0] == '-' <==> a < 0;
  }

  lemma NegativeInjective(a: int, b: int)
    requires a < 0 && b < 0 && IntToString(a) == IntToString(b)
    ensures a == b
  {
    var na, nb := -a, -b;
    NegativeDigits(a);
    NegativeDigits(b);
    assert NatToString(na) == NatToString(nb);
    NatToStringInjective(na, nb);
  }

  lemma NonNegativeInjective(a: int, b: int)
    requires a >= 0 && b >= 0 && IntToString(a) == IntToString(b)
    ensures a == b
  {
    assert IntToString(a) == NatToString(a) && IntToString(b) == NatToString(b);
    NatToStringInjective(a, b);
  }

  /** Distinct integers print differently. */
  lemma IntToStringInjective(a: int, b: int)
    ensures IntToString(a) == IntToString(b) <==> a == b
  {
    if IntToString(a) == IntToString(b) {
      SameSign(a, b);
      if a < 0 {
        NegativeInjective(a, b);
      } else {
        NonNegativeInjective(a, b);
      }
    }
  }

  /** Splitting at the last occurrence of a separator: if neither tail holds the
      separator, equal strings have equal heads and equal tails. */
  lemma SplitAtLast(x: string, t: string, y: string, u: string, sep: char)
    requires sep !in t && sep !in u
    requires x + [sep] + t == y + [sep] + u
    ensures x == y && t == u
  {
    var s := x + [sep] + t;
    assert s[|x|] == sep && s[|y|] == sep;
    assert forall k :: |x| < k < |s| ==> s[k] == t[k - |x| - 1];
    assert forall k :: |y| < k < |s| ==> s[k] == u[k - |y| - 1];
    assert |x| == |y|;
    assert x == s[..|x|] == y;
    assert t == s[|x| + 1..] == u;
  }
}
