/** String helpers mirroring the few JavaScript string operations the
    application relies on: `startsWith`, `split(c).pop()`, `indexOf` and the
    decimal rendering of a non-negative integer (`n.toString()`). */
module Strings {
  import opened Wrappers

  /** `s.startsWith(prefix)`. */
  predicate StartsWith(s: string, prefix: string) {
    |prefix| <= |s| && s[..|prefix|] == prefix
  }

  /** `s.endsWith(suffix)`. */
  predicate EndsWith(s: string, suffix: string) {
    |suffix| <= |s| && s[|s| - |suffix|..] == suffix
  }

  /** JavaScript truthiness of a string: only the empty string is falsy. */
  predicate Truthy(s: string) {
    s != ""
  }

  /** `a || b` on strings. */
  function OrElse(a: string, b: string): string {
    if Truthy(a) then a else b
  }

  /** `opt || b` on a possibly undefined string. */
  function OptOrElse(a: Option<string>, b: string): string {
    if a.Some? then OrElse(a.value, b) else b
  }

  /** Position of the first `c` in `s` (`s.indexOf(c)`, with -1 as None). */
  function IndexOf(s: string, c: char): (r: Option<nat>)
    ensures r.Some? ==> r.value < |s| && s[r.value] == c && c !in s[..r.value]
    ensures r.None? ==> c !in s
  {
    if |s| == 0 then None
    else if s[0] == c then Some(0)
    else
      match IndexOf(s[1..], c)
      case None => None
      case Some(k) =>
        assert s[..k + 1] == [s[0]] + s[1..][..k];
        Some(k + 1)
  }

  /** The last piece of `s.split(c)`: the text after the last `c`, or the
      whole string when `c` does not occur. */
  function AfterLast(s: string, c: char): (r: string)
    ensures c !in r
    ensures EndsWith(s, r)
    ensures |r| < |s| ==> s[|s| - |r| - 1] == c
  {
    if |s| == 0 then ""
    else if s[|s| - 1] == c then ""
    else
      var init := s[..|s| - 1];
      var r := AfterLast(init, c) + [s[|s| - 1]];
      assert s == init + [s[|s| - 1]];
      r
  }

  /** The characterisation of AfterLast determines it: any suffix free of `c`
      that is either the whole string or preceded by `c` is that result. */
  lemma {:induction false} AfterLastUnique(s: string, c: char, t: string)
    requires c !in t && EndsWith(s, t)
    requires |t| < |s| ==> s[|s| - |t| - 1] == c
    ensures t == AfterLast(s, c)
  {
    if |s| == 0 {
    } else if s[|s| - 1] == c {
    } else {
      var init := s[..|s| - 1];
      var t' := t[..|t| - 1];
      assert t == t' + [s[|s| - 1]];
      assert EndsWith(init, t') by {
        assert init[|init| - |t'|..] == s[|s| - |t|..|s| - 1];
      }
      if |t'| < |init| {
        assert init[|init| - |t'| - 1] == s[|s| - |t| - 1];
      }
      assert forall i :: 0 <= i < |t'| ==> t'[i] == t[i];
      AfterLastUnique(init, c, t');
    }
  }

  /** Decimal digit character for 0..9. */
  function Digit(d: nat): char
    requires d < 10
  {
    "0123456789"[d]
  }

  /** Value of a decimal digit character. */
  function DigitValue(ch: char): nat
  {
    if '0' <= ch <= '9' then (ch as int - '0' as int) as nat else 0
  }

  /** `n.toString()` for a non-negative integer: its decimal digits with no
      leading zero. */
  function NatToString(n: nat): (r: string)
    ensures |r| > 0
    ensures forall i :: 0 <= i < |r| ==> '0' <= r[i] <= '9'
    ensures |r| > 1 ==> r[0] != '0'
    decreases n
  {
    if n < 10 then [Digit(n)] else NatToString(n / 10) + [Digit(n % 10)]
  }

  /** Value of a string of decimal digits. */
  function DecimalValue(s: string): nat
  {
    if |s| == 0 then 0 else DecimalValue(s[..|s| - 1]) * 10 + DigitValue(s[|s| - 1])
  }

  /** Reading the rendered digits back gives the number. */
  lemma {:induction false} NatToStringRoundTrip(n: nat)
    ensures DecimalValue(NatToString(n)) == n
    decreases n
  {
    if n >= 10 {
      var s := NatToString(n);
      assert s[..|s| - 1] == NatToString(n / 10);
      NatToStringRoundTrip(n / 10);
    }
  }

  /** Distinct numbers render as distinct strings, so keying on the rendered
      id is the same as keying on the number. */
  lemma NatToStringInjective(m: nat, n: nat)
    requires NatToString(m) == NatToString(n)
    ensures m == n
  {
    NatToStringRoundTrip(m);
    NatToStringRoundTrip(n);
  }
}
