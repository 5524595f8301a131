/** Character-level helpers the game applies to its strings: the
    lower-casing of readied action names, and the decimal numerals in
    default player names such as "player 3". */
module Text {

  predicate IsUpper(c: char) {
    'A' <= c <= 'Z'
  }

  /** Lower-cases one ASCII letter and leaves every other character alone. */
  function LowerChar(c: char): (r: char)
    ensures !IsUpper(r)
    ensures !IsUpper(c) ==> r == c
  {
    if IsUpper(c) then (c as int - 'A' as int + 'a' as int) as char else c
  }

  predicate IsLower(s: string) {
    forall i :: 0 <= i < |s| ==> !IsUpper(s[i])
  }

  /** `str.lower()` restricted to ASCII letters. */
  function Lower(s: string): (r: string)
    ensures |r| == |s|
    ensures IsLower(r)
    ensures forall i :: 0 <= i < |s| && !IsUpper(s[i]) ==> r[i] == s[i]
  {
    if |s| == 0 then "" else [LowerChar(s[0])] + Lower(s[1..])
  }

  /** Lower-casing changes nothing in a string that is already lower case;
      in particular it is idempotent. */
  lemma LowerOfLower(s: string)
    requires IsLower(s)
    ensures Lower(s) == s
  {
    var r := Lower(s);
    assert forall i :: 0 <= i < |s| ==> r[i] == s[i];
  }

  predicate IsDigit(c: char) {
    '0' <= c <= '9'
  }

  predicate AllDigits(s: string) {
    forall i :: 0 <= i < |s| ==> IsDigit(s[i])
  }

  function DigitChar(d: nat): (c: char)
    requires d < 10
    ensures IsDigit(c)
  {
    ('0' as int + d) as char
  }

  /** The decimal numeral of `n`, as Python's `str.format` writes it. */
  function NatToString(n: nat): (s: string)
    ensures |s| > 0
    ensures AllDigits(s)
    decreases n
  {
    if n < 10 then [DigitChar(n)] else NatToString(n / 10) + [DigitChar(n % 10)]
  }

  /** The value of a string of decimal digits, read most significant first. */
  function DigitsValue(s: string): nat
    requires AllDigits(s)
  {
    if |s| == 0 then 0
    else DigitsValue(s[..|s| - 1]) * 10 + (s[|s| - 1] as int - '0' as int)
  }

  /** Reading back a numeral gives the number it was written from. */
  lemma {:induction false} DigitsValueOfNatToString(n: nat)
    ensures DigitsValue(NatToString(n)) == n
    decreases n
  {
    if n >= 10 {
      var s := NatToString(n);
      assert s[..|s| - 1] == NatToString(n / 10);
      DigitsValueOfNatToString(n / 10);
    }
  }

  /** The default display name of the player with the given number. */
  function PlayerName(k: nat): (s: string)
    ensures |s| > 7 && s[..7] == "player "
  {
    "player " + NatToString(k)
  }

  /** Distinct numbers give distinct default names, and no default name is
      the agent's name. */
  lemma PlayerNameInjective()
    ensures forall j: nat, k: nat :: PlayerName(j) == PlayerName(k) ==> j == k
    ensures forall k: nat :: PlayerName(k) != "agent"
  {
    forall j: nat, k: nat | PlayerName(j) == PlayerName(k)
      ensures j == k
    {
      assert NatToString(j) == PlayerName(j)[7..];
      assert NatToString(k) == PlayerName(k)[7..];
      DigitsValueOfNatToString(j);
      DigitsValueOfNatToString(k);
    }
    forall k: nat
      ensures PlayerName(k) != "agent"
    {
      assert PlayerName(k)[0] == 'p';
    }
  }
}
