/** Text operations the registry relies on: the lower-casing behind a
    case-insensitive match, substring search, and the decimal rendering
    Python's `str()` gives an integer. */
module Text {

  /** ASCII lower-casing of one character; other characters are unchanged. */
  function LowerChar(c: char): char
  {
    if 'A' <= c <= 'Z' then (c as int + 32) as char else c
  }

  function Lower(s: string): string
  {
    seq(|s|, i requires 0 <= i < |s| => LowerChar(s[i]))
  }

  predicate IsPrefix(p: string, s: string)
  {
    |p| <= |s| && s[..|p|] == p
  }

  /** `p` occurs in `s` at some position, searched from the left. */
  predicate IsSubstring(p: string, s: string)
    decreases |s|
  {
    IsPrefix(p, s) || (|s| > 0 && IsSubstring(p, s[1..]))
  }

  /** `p` occurs in `s` starting at position `i`. */
  predicate OccursAt(p: string, s: string, i: int)
  {
    0 <= i <= |s| - |p| && s[i..i + |p|] == p
  }

  /** The search agrees with the positional reading of "p occurs in s". */
  lemma {:induction false} SubstringAt(p: string, s: string)
    ensures IsSubstring(p, s) <==> exists i :: OccursAt(p, s, i)
    decreases |s|
  {
    if IsPrefix(p, s) {
      assert OccursAt(p, s, 0);
    } else if |s| > 0 {
      SubstringAt(p, s[1..]);
      if IsSubstring(p, s[1..]) {
        var i :| OccursAt(p, s[1..], i);
        assert s[1..][i..i + |p|] == s[i + 1..i + 1 + |p|];
        assert OccursAt(p, s, i + 1);
      } else {
        forall i | OccursAt(p, s, i)
          ensures false
        {
          if i > 0 {
            assert s[1..][i - 1..i - 1 + |p|] == s[i..i + |p|];
            assert OccursAt(p, s[1..], i - 1);
          }
        }
      }
    } else {
      forall i | OccursAt(p, s, i)
        ensures false
      {
      }
    }
  }

  /** `text ILIKE '%' || pattern || '%'`: the pattern occurs in the text,
      ignoring ASCII case. */
  predicate ContainsIgnoringCase(text: string, pattern: string)
  {
    IsSubstring(Lower(pattern), Lower(text))
  }

  lemma LowerIdempotent(s: string)
    ensures Lower(Lower(s)) == Lower(s)
  {
  }

  /** `ILIKE '%' || pattern || '%'` does not depend on the case of either side,
      an empty pattern matches every text, and every text matches itself. */
  lemma ContainsIgnoringCaseFacts(text: string, pattern: string)
    ensures ContainsIgnoringCase(text, pattern) <==> ContainsIgnoringCase(Lower(text), Lower(pattern))
    ensures ContainsIgnoringCase(text, "")
    ensures ContainsIgnoringCase(text, text)
  {
    LowerIdempotent(text);
    LowerIdempotent(pattern);
    assert IsPrefix(Lower(""), Lower(text));
    assert IsPrefix(Lower(text), Lower(text));
  }

  predicate IsDigit(c: char)
  {
    '0' <= c <= '9'
  }

  predicate AllDigits(s: string)
  {
    forall i :: 0 <= i < |s| ==> IsDigit(s[i])
  }

  function DigitChar(d: int): (c: char)
    requires 0 <= d < 10
  {
    ('0' as int + d) as char
  }

  function DigitValue(c: char): (d: int)
    requires IsDigit(c)
  {
    c as int - '0' as int
  }

  /** The decimal digits of a natural number, most significant first, with no
      leading zero. */
  function Digits(n: nat): (s: string)
    ensures |s| > 0 && AllDigits(s)
    decreases n
  {
    (if n < 10 then "" else Digits(n / 10)) + [DigitChar(n % 10)]
  }

  /** The number a string of decimal digits denotes. */
  function DigitsValue(s: string): nat
    requires AllDigits(s)
  {
    if s == [] then 0 else DigitsValue(s[..|s| - 1]) * 10 + DigitValue(s[|s| - 1])
  }

  /** `str(n)` for a Python integer. */
  function DecimalString(n: int): string
  {
    if n < 0 then "-" + Digits(-n) else Digits(n)
  }

  lemma {:induction false} DigitsRoundTrip(n: nat)
    ensures DigitsValue(Digits(n)) == n
    decreases n
  {
    var s := Digits(n);
    assert s[..|s| - 1] == if n < 10 then "" else Digits(n / 10);
    if n >= 10 {
      DigitsRoundTrip(n / 10);
    }
  }

  /** A rendered decimal never starts with the digit zero unless it is "0". */
  lemma {:induction false} NoLeadingZero(n: nat)
    ensures Digits(n)[0] == '0' <==> n == 0
    decreases n
  {
    if n >= 10 {
      NoLeadingZero(n / 10);
    }
  }
}
