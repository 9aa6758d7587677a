/**
 * The observation exceptions: each constructor records the method that threw
 * (`origin`) and builds its message by concatenation, with integers rendered
 * by `str`. The lemmas show that each message keeps the information it was
 * built from.
 */
module ObsExceptions {
  import opened Tools

  datatype ObsException =
    | GradientParMismatch(origin: string, message: string)
    | CaldbNotFound(origin: string, message: string)
    | RspInvalidType(origin: string, message: string)
    | GtiInvalid(origin: string, message: string)

  /** Good Time Intervals, as far as the exception is concerned: an opaque list of [start, stop] pairs. */
  datatype Gti = Gti(starts: seq<real>, stops: seq<real>)

  function NewGradientParMismatch(origin: string, nsize: int, npars: int): (e: ObsException)
    ensures e.GradientParMismatch? && e.origin == origin
  {
    GradientParMismatch(origin,
      "Gradient vector size " + Str(nsize) + " mismatches number " + Str(npars) + " of model parameters.")
  }

  function NewCaldbNotFound(origin: string, caldb: string, message: string): (e: ObsException)
    ensures e.CaldbNotFound? && e.origin == origin
  {
    CaldbNotFound(origin, "Calibration database '" + caldb + "' not found. " + message)
  }

  function NewRspInvalidType(origin: string, rspType: string): (e: ObsException)
    ensures e.RspInvalidType? && e.origin == origin
  {
    RspInvalidType(origin, "Invalid response type '" + rspType + "' specified.")
  }

  function NewGtiInvalid(origin: string, gti: Option<Gti>, message: string): (e: ObsException)
    ensures e.GtiInvalid? && e.origin == origin
  {
    GtiInvalid(origin, "Invalid Good Time Intervals specified. " + message)
  }

  /** Index of the first `c` in `s`, or |s| when there is none. */
  function IndexOf(s: string, c: char): (i: nat)
    ensures i <= |s|
    ensures forall k :: 0 <= k < i ==> s[k] != c
    ensures i < |s| ==> s[i] == c
  {
    if s == [] || s[0] == c then 0 else 1 + IndexOf(s[1..], c)
  }

  lemma {:induction false} IndexOfAfter(x: string, rest: string, c: char)
    requires c !in x && rest != [] && rest[0] == c
    ensures IndexOf(x + rest, c) == |x|
    decreases |x|
  {
    if x != [] {
      assert (x + rest)[1..] == x[1..] + rest;
      IndexOfAfter(x[1..], rest, c);
    } else {
      assert x + rest == rest;
    }
  }

  lemma StrHasNoSpace(n: int)
    ensures ' ' !in Str(n)
  {
    StrCharacters(n);
  }

  /** A string split at the first occurrence of a separator that the head does not contain. */
  lemma SplitAtSeparator(a1: string, rest1: string, a2: string, rest2: string, c: char)
    requires a1 + rest1 == a2 + rest2
    requires c !in a1 && c !in a2
    requires rest1 != [] && rest1[0] == c && rest2 != [] && rest2[0] == c
    ensures a1 == a2 && rest1 == rest2
  {
    IndexOfAfter(a1, rest1, c);
    IndexOfAfter(a2, rest2, c);
    assert a1 == (a1 + rest1)[..|a1|];
    assert a2 == (a2 + rest2)[..|a2|];
    assert rest1 == (a1 + rest1)[|a1|..];
    assert rest2 == (a2 + rest2)[|a2|..];
  }

  /** Text between a fixed prefix and a fixed suffix can be read back. */
  lemma BetweenAffixes(pre: string, x: string, y: string, suf: string)
    requires pre + x + suf == pre + y + suf
    ensures x == y
  {
    var m := pre + x + suf;
    assert |x| == |y|;
    assert x == m[|pre|..|pre| + |x|];
    assert y == (pre + y + suf)[|pre|..|pre| + |y|];
  }

  /** Two space-free fields between fixed texts, the middle one starting with a space, can be read back. */
  lemma TwoFieldsInjective(p: string, a1: string, q: string, b1: string, r: string, a2: string, b2: string)
    requires p + a1 + q + b1 + r == p + a2 + q + b2 + r
    requires ' ' !in a1 && ' ' !in a2
    requires q != [] && q[0] == ' '
    ensures a1 == a2 && b1 == b2
  {
    assert p + (a1 + (q + b1 + r)) == p + (a2 + (q + b2 + r)) by {
      assert p + a1 + q + b1 + r == p + (a1 + (q + b1 + r));
      assert p + a2 + q + b2 + r == p + (a2 + (q + b2 + r));
    }
    BetweenAffixes(p, a1 + (q + b1 + r), a2 + (q + b2 + r), []);
    SplitAtSeparator(a1, q + b1 + r, a2, q + b2 + r, ' ');
    assert q + b1 + r == q + b2 + r;
    BetweenAffixes(q, b1, b2, r);
  }

  /**
   * The gradient mismatch message determines both numbers: two exceptions
   * that read the same were raised for the same sizes.
   */
  lemma GradientParMismatchInjective(o1: string, nsize1: int, npars1: int, o2: string, nsize2: int, npars2: int)
    requires NewGradientParMismatch(o1, nsize1, npars1) == NewGradientParMismatch(o2, nsize2, npars2)
    ensures o1 == o2 && nsize1 == nsize2 && npars1 == npars2
  {
    StrHasNoSpace(nsize1);
    StrHasNoSpace(nsize2);
    TwoFieldsInjective("Gradient vector size ", Str(nsize1), " mismatches number ", Str(npars1),
      " of model parameters.", Str(nsize2), Str(npars2));
    StrInjective(nsize1, nsize2);
    StrInjective(npars1, npars2);
  }

  /** The response type can be read back from the message. */
  lemma RspInvalidTypeInjective(o1: string, t1: string, o2: string, t2: string)
    requires NewRspInvalidType(o1, t1) == NewRspInvalidType(o2, t2)
    ensures o1 == o2 && t1 == t2
  {
    var p, s := "Invalid response type '", "' specified.";
    var m := NewRspInvalidType(o1, t1).message;
    assert m == p + t1 + s && m == p + t2 + s;
    assert t1 == m[|p|..|p| + |t1|] == t2;
  }

  /** The GTI pointer plays no part: only origin and message matter. */
  lemma GtiInvalidIgnoresGti(origin: string, g1: Option<Gti>, g2: Option<Gti>, message: string)
    ensures NewGtiInvalid(origin, g1, message) == NewGtiInvalid(origin, g2, message)
  {
  }

  /** The optional message can be read back from a GTI exception. */
  lemma GtiInvalidInjective(o1: string, m1: string, o2: string, m2: string, g1: Option<Gti>, g2: Option<Gti>)
    requires NewGtiInvalid(o1, g1, m1) == NewGtiInvalid(o2, g2, m2)
    ensures o1 == o2 && m1 == m2
  {
    var p := "Invalid Good Time Intervals specified. ";
    var m := NewGtiInvalid(o1, g1, m1).message;
    assert m == p + m1 && m == p + m2;
    assert m1 == m[|p|..] == m2;
  }

  /**
   * For a given database name the extra message can be read back, and for a
   * given extra message the database name can.
   */
  lemma CaldbNotFoundInjective(o1: string, c1: string, m1: string, o2: string, c2: string, m2: string)
    requires NewCaldbNotFound(o1, c1, m1) == NewCaldbNotFound(o2, c2, m2)
    ensures o1 == o2
    ensures c1 == c2 ==> m1 == m2
    ensures m1 == m2 ==> c1 == c2
  {
    var p, s := "Calibration database '", "' not found. ";
    var m := NewCaldbNotFound(o1, c1, m1).message;
    assert m == p + c1 + s + m1 && m == p + c2 + s + m2;
    if c1 == c2 {
      assert m1 == m[|p| + |c1| + |s|..] == m2;
    }
    if m1 == m2 {
      assert |c1| == |c2|;
      assert c1 == m[|p|..|p| + |c1|] == c2;
    }
  }

  /**
   * The caldb message is not injective in both arguments at once: a database
   * name that itself contains the separator text reads like a different pair.
   */
  lemma CaldbNotFoundAmbiguous()
    ensures NewCaldbNotFound("o", "a' not found. b", "c") == NewCaldbNotFound("o", "a", "b' not found. c")
  {
    assert "Calibration database '" + "a' not found. b" + "' not found. " + "c"
        == "Calibration database '" + "a" + "' not found. " + "b' not found. c";
  }
}
