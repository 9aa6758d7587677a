/**
 * Helpers shared by the modules of this model: an optional value, the
 * decimal rendering of an integer that the library's `str` helper produces,
 * a parser that inverts it, and the reading of a NUL-terminated character
 * buffer as a string.
 */
module Tools {

  datatype Option<+T> = None | Some(value: T)

  /** The character of decimal digit `d`. */
  function DigitChar(d: int): (c: char)
    requires 0 <= d < 10
    ensures '0' <= c <= '9'
  {
    (48 + d) as char
  }

  predicate IsDigit(c: char) {
    '0' <= c <= '9'
  }

  predicate AllDigits(s: string) {
    forall k :: 0 <= k < |s| ==> IsDigit(s[k])
  }

  function DigitValue(c: char): (d: int)
    requires IsDigit(c)
    ensures 0 <= d < 10
  {
    c as int - 48
  }

  /** Decimal digits of a non-negative integer, most significant first, no leading zero. */
  function NatStr(n: nat): string
    decreases n
  {
    if n < 10 then [DigitChar(n)] else NatStr(n / 10) + [DigitChar(n % 10)]
  }

  /** Decimal rendering of an integer, with a leading '-' for negative values (`str(int)`). */
  function Str(n: int): string {
    if n < 0 then "-" + NatStr(-n) else NatStr(n)
  }

  /** Value of a non-empty string of decimal digits. */
  function ParseNat(s: string): nat
    requires AllDigits(s)
    decreases |s|
  {
    if s == [] then 0 else ParseNat(s[..|s| - 1]) * 10 + DigitValue(s[|s| - 1])
  }

  /** Reads back an integer in the form `Str` writes; None for anything else. */
  function ParseInt(s: string): Option<int> {
    if |s| > 0 && s[0] == '-' then
      (if |s| > 1 && AllDigits(s[1..]) then Some(-(ParseNat(s[1..]) as int)) else None)
    else if |s| > 0 && AllDigits(s) then Some(ParseNat(s) as int)
    else None
  }

  lemma {:induction false} NatStrDigits(n: nat)
    ensures |NatStr(n)| > 0 && AllDigits(NatStr(n))
    ensures NatStr(n)[0] != '0' || n == 0
    decreases n
  {
    if n >= 10 {
      NatStrDigits(n / 10);
    }
  }

  lemma {:induction false} ParseNatStr(n: nat)
    ensures AllDigits(NatStr(n)) && ParseNat(NatStr(n)) == n
    decreases n
  {
    NatStrDigits(n);
    if n >= 10 {
      var s := NatStr(n);
      NatStrDigits(n / 10);
      ParseNatStr(n / 10);
      assert s[..|s| - 1] == NatStr(n / 10);
    }
  }

  /** Every character `Str` writes is a digit or the minus sign. */
  lemma StrCharacters(n: int)
    ensures |Str(n)| > 0
    ensures forall k :: 0 <= k < |Str(n)| ==> IsDigit(Str(n)[k]) || Str(n)[k] == '-'
  {
    if n < 0 {
      NatStrDigits(-n);
    } else {
      NatStrDigits(n);
    }
  }

  /** `str` loses nothing: the integer can be read back from its rendering. */
  lemma StrRoundTrip(n: int)
    ensures ParseInt(Str(n)) == Some(n)
  {
    if n < 0 {
      ParseNatStr(-n);
      NatStrDigits(-n);
      assert Str(n)[1..] == NatStr(-n);
    } else {
      ParseNatStr(n);
      NatStrDigits(n);
    }
  }

  /** Two integers with the same rendering are equal. */
  lemma StrInjective(a: int, b: int)
    requires Str(a) == Str(b)
    ensures a == b
  {
    StrRoundTrip(a);
    StrRoundTrip(b);
  }

  /**
   * The string a NUL-terminated character buffer holds: everything before the
   * first '\0', or the whole buffer when it has none.
   */
  function CStr(buf: seq<char>): (s: string)
    ensures |s| <= |buf| && s == buf[..|s|]
    ensures '\0' !in s
    ensures |s| < |buf| ==> buf[|s|] == '\0'
  {
    if buf == [] || buf[0] == '\0' then [] else [buf[0]] + CStr(buf[1..])
  }

  /** A string without NUL characters is read back unchanged from a buffer that terminates it. */
  lemma {:induction false} CStrOfTerminated(s: string, pad: seq<char>)
    requires '\0' !in s
    requires pad == [] || pad[0] == '\0'
    ensures CStr(s + pad) == s
    decreases |s|
  {
    if s != [] {
      assert (s + pad)[1..] == s[1..] + pad;
      CStrOfTerminated(s[1..], pad);
    }
  }

  /** `npar[slot]++` for a recognised slot; an unrecognised parameter (None) counts nowhere. */
  method Tally(npar: array<int>, slot: Option<nat>)
    modifies npar
    ensures forall k :: 0 <= k < npar.Length ==> npar[k] == old(npar[k]) + (if slot == Some(k) then 1 else 0)
  {
    if slot.Some? && slot.value < npar.Length {
      npar[slot.value] := npar[slot.value] + 1;
    }
  }
}
