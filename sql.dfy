/** Values as the relational store sees them: nullable columns and optional
    arguments, the parameters bound to a statement's placeholders, Python's
    truthiness of an optional text, and the store's reading of a text
    parameter compared with an integer key. */
module Sql {
  import opened Text

  /** A nullable column or an optional argument: `None` is SQL NULL and Python `None`. */
  datatype Option<+T> = None | Some(value: T)

  /** Python truthiness of an optional text: neither `None` nor `""`. */
  predicate Truthy(s: Option<string>)
  {
    s.Some? && s.value != ""
  }

  /** `s or None`: an empty text becomes `None`. */
  function BlankToNone(s: string): (r: Option<string>)
    ensures r.None? <==> s == ""
    ensures r.Some? ==> r.value == s && Truthy(r)
  {
    if s == "" then None else Some(s)
  }

  /** A value bound to a `%s` placeholder of a parameterised statement. */
  datatype Param = TextParam(text: string) | KeyParam(key: int)

  /** The store's cast of a text parameter to an integer key: an optional sign
      followed by one or more decimal digits. Any other text makes the
      statement raise, which `None` stands for. */
  function ParseKey(s: string): (r: Option<int>)
    ensures r.Some? ==> |s| > 0
  {
    if |s| > 1 && s[0] == '-' && AllDigits(s[1..]) then Some(-(DigitsValue(s[1..]) as int))
    else if |s| > 1 && s[0] == '+' && AllDigits(s[1..]) then Some(DigitsValue(s[1..]))
    else if |s| > 0 && AllDigits(s) then Some(DigitsValue(s))
    else None
  }

  /** The texts the cast accepts: an optional sign, then decimal digits only;
      a text of digits alone denotes its decimal value. */
  lemma ParseKeyAccepted(s: string)
    ensures ParseKey(s).Some? ==> |s| > 0 && (IsDigit(s[0]) || s[0] == '-' || s[0] == '+')
    ensures ParseKey(s).Some? ==> forall i :: 1 <= i < |s| ==> IsDigit(s[i])
    ensures |s| > 0 && AllDigits(s) ==> ParseKey(s) == Some(DigitsValue(s))
  {
    if ParseKey(s).Some? {
      forall i | 1 <= i < |s| ensures IsDigit(s[i]) {
        assert s[1..][i - 1] == s[i];
      }
    }
  }

  /** The key a shell input names is read back from its own `str()`. */
  lemma ParseKeyOfDecimal(n: int)
    ensures ParseKey(DecimalString(n)) == Some(n)
  {
    if n < 0 {
      var s := DecimalString(n);
      assert s[1..] == Digits(-n);
      DigitsRoundTrip(-n);
    } else {
      DigitsRoundTrip(n);
    }
  }

  /** Two keys with the same `str()` are the same key. */
  lemma DecimalStringInjective(m: int, n: int)
    requires DecimalString(m) == DecimalString(n)
    ensures m == n
  {
    ParseKeyOfDecimal(m);
    ParseKeyOfDecimal(n);
  }
}
