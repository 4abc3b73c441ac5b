/** The few string operations the model shares: ASCII lower-casing and decimal rendering. */
module Text {

  /** ASCII only: an upper-case letter moves by the 32 code points between the two cases. */
  function LowerChar(c: char): (r: char)
    ensures !('A' <= r <= 'Z')
    ensures r == c || ('A' <= c <= 'Z' && r as int == c as int + 32)
  {
    if 'A' <= c <= 'Z' then (c as int - 'A' as int + 'a' as int) as char else c
  }

  function Lower(s: string): (r: string)
    ensures |r| == |s|
  {
    if s == [] then [] else [LowerChar(s[0])] + Lower(s[1..])
  }

  lemma {:induction false} LowerAt(s: string, i: nat)
    requires i < |s|
    ensures Lower(s)[i] == LowerChar(s[i])
  {
    if i > 0 {
      LowerAt(s[1..], i - 1);
    }
  }

  predicate SameLetter(a: char, b: char) {
    a == b || ('a' <= b <= 'z' && a as int == b as int - 32)
  }

  /** Lower-casing leaves no upper-case letter, and keeps every character but for its case. */
  lemma LowerIs(s: string)
    ensures |Lower(s)| == |s|
    ensures forall i | 0 <= i < |s| :: !('A' <= Lower(s)[i] <= 'Z') && SameLetter(s[i], Lower(s)[i])
  {
    forall i | 0 <= i < |s| ensures !('A' <= Lower(s)[i] <= 'Z') && SameLetter(s[i], Lower(s)[i]) {
      LowerAt(s, i);
    }
  }

  function Digit(n: nat): char
    requires n < 10
  {
    (n + '0' as int) as char
  }

  predicate IsDigit(c: char) { '0' <= c <= '9' }

  predicate AllDigits(s: string) { forall i | 0 <= i < |s| :: IsDigit(s[i]) }

  /** Python's `f"{n}"` for a non-negative integer. */
  function Dec(n: nat): (s: string)
    ensures |s| > 0 && AllDigits(s)
  {
    if n < 10 then [Digit(n)] else Dec(n / 10) + [Digit(n % 10)]
  }

  function DigitsValue(s: string): (n: nat)
    requires AllDigits(s)
  {
    if s == [] then 0
    else 10 * DigitsValue(s[..|s| - 1]) + (s[|s| - 1] as int - '0' as int)
  }

  /** Reading a rendered number back gives the number. */
  lemma {:induction false} DecRoundTrip(n: nat)
    ensures DigitsValue(Dec(n)) == n
  {
    if n < 10 {
      assert Dec(n)[..0] == [];
    } else {
      DecRoundTrip(n / 10);
      assert Dec(n)[..|Dec(n)| - 1] == Dec(n / 10);
    }
  }

  /** No leading zero: reading any numeral without one and rendering it again gives the numeral. */
  lemma {:induction false} DecIsCanonical(s: string)
    requires s != "" && AllDigits(s) && (|s| > 1 ==> s[0] != '0')
    ensures Dec(DigitsValue(s)) == s
  {
    var n := |s| - 1;
    var last := s[n] as int - '0' as int;
    if n == 0 {
      assert s[..0] == [];
    } else {
      DecIsCanonical(s[..n]);
      PositiveNumeral(s[..n]);
      assert DigitsValue(s) / 10 == DigitsValue(s[..n]) && DigitsValue(s) % 10 == last;
    }
  }

  lemma {:induction false} PositiveNumeral(s: string)
    requires s != "" && AllDigits(s) && s[0] != '0'
    ensures DigitsValue(s) > 0
  {
    if |s| > 1 {
      PositiveNumeral(s[..|s| - 1]);
    } else {
      assert s[..0] == [];
    }
  }

  /** The base is ten. */
  lemma TenIs()
    ensures Dec(10) == "10" && Dec(9) == "9"
  {
    assert Dec(10) == Dec(1) + [Digit(0)];
  }

  lemma DecInjective(m: nat, n: nat)
    requires Dec(m) == Dec(n)
    ensures m == n
  {
    DecRoundTrip(m);
    DecRoundTrip(n);
  }

  /** Where the first colon of s is, or |s|. */
  function FirstColon(s: string): (i: nat)
    ensures i <= |s|
  {
    if s == "" || s[0] == ':' then 0 else 1 + FirstColon(s[1..])
  }

  lemma {:induction false} FirstColonAt(s: string, i: nat)
    requires i < |s| && s[i] == ':' && forall j | 0 <= j < i :: s[j] != ':'
    ensures FirstColon(s) == i
  {
    if s[0] != ':' {
      FirstColonAt(s[1..], i - 1);
    }
  }

  lemma {:induction false} FirstColonIs(s: string)
    ensures var i := FirstColon(s); (i < |s| ==> s[i] == ':') && forall j | 0 <= j < i :: s[j] != ':'
  {
    if s != "" && s[0] != ':' {
      FirstColonIs(s[1..]);
    }
  }
}
