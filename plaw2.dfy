/**
 * The spectral power law with integral-flux normalisation, PowerLaw2:
 *   I(E) = integral * norm * E^index,
 * where `norm` makes the integral of E^index over [emin, emax] equal to one,
 * so that `integral` is the photon flux between the two energy limits.
 *
 * The model holds four parameters (Integral, Index, LowerLimit, UpperLimit).
 * Each parameter is factorised into a value and a scale; the physical value
 * is their product. The parameter class itself is not part of this model:
 * reading a parameter from its XML element and the attributes it writes are
 * inputs (`readPar`, `writeAttrs`), and `pow` and `log` are inputs too, since
 * nothing here depends on their numerical values.
 */
module SpectralPlaw2 {
  import opened Tools
  import opened Xml

  /** A model parameter: name, unit, factorised value, range, free flag and last gradient. */
  datatype Par = Par(name: string, unit: string, value: real, scale: real, min: real, max: real, free: bool, gradient: real)

  /** The physical value of a parameter: value times scale. */
  function RealValue(p: Par): real {
    p.value * p.scale
  }

  datatype ModelError =
    | ModelInvalidParnum(origin: string, message: string)
    | ModelInvalidParnames(origin: string, message: string)
    | ModelInvalidSpectral(origin: string, modelType: string, message: string)

  const G_READ := "GModelSpectralPlaw2::read(GXmlElement&)"
  const G_WRITE := "GModelSpectralPlaw2::write(GXmlElement&)"

  const ParnumMessage := "Power law 2 spectral model requires exactly 4 parameters."
  const ParnamesMessage := "Power law 2 spectral model requires \"Integral\", \"Index\", \"LowerLimit\" and \"UpperLimit\" parameters."
  const SpectralMessage := "Spectral model is not of type \"PowerLaw2\"."
  const TypeName := "PowerLaw2"

  /** The four parameter names, in the order of the counters `npar[0..3]` and of `m_par`. */
  const ParNames: seq<string> := ["Integral", "Index", "LowerLimit", "UpperLimit"]

  // ---------------------------------------------------------------------
  // Default parameters
  // ---------------------------------------------------------------------

  /**
   * The parameters `init_members` sets up: a free integral flux of 1 in
   * [0, 10], a free index of -2 in [-5, -0.1], and energy limits of 100 MeV
   * and 500000 MeV, both fixed; every scale is 1 and no gradient is set.
   */
  function Defaults(): (ps: seq<Par>)
    ensures |ps| == 4
    ensures forall k :: 0 <= k < 4 ==> ps[k].name == ParNames[k] && ps[k].scale == 1.0 && ps[k].gradient == 0.0
    ensures forall k :: 0 <= k < 4 ==> ps[k].min <= ps[k].value <= ps[k].max
    ensures forall k :: 0 <= k < 4 ==> (ps[k].free <==> k < 2)
    ensures ps[0].value == 1.0 && ps[0].min == 0.0 && ps[0].max == 10.0
    ensures ps[1].value == -2.0 && ps[1].min == -5.0 && ps[1].max == -0.1
    ensures ps[2].value == 100.0 && ps[3].value == 500000.0
    ensures ps[2].value < ps[3].value
  {
    [ Par("Integral", "ph/cm2/s", 1.0, 1.0, 0.0, 10.0, true, 0.0),
      Par("Index", "", -2.0, 1.0, -5.0, -0.1, true, 0.0),
      Par("LowerLimit", "MeV", 100.0, 1.0, 0.001, 1.0e15, false, 0.0),
      Par("UpperLimit", "MeV", 500000.0, 1.0, 0.001, 1.0e15, false, 0.0) ]
  }

  // ---------------------------------------------------------------------
  // The parameter list of the XML element
  // ---------------------------------------------------------------------

  /** The counter a parameter name belongs to, in the order of the source's if-chain. */
  function SlotOf(name: string): (r: Option<nat>)
    ensures r.None? <==> name !in ParNames
    ensures r.Some? ==> r.value < 4 && ParNames[r.value] == name
  {
    if name == "Integral" then Some(0)
    else if name == "Index" then Some(1)
    else if name == "LowerLimit" then Some(2)
    else if name == "UpperLimit" then Some(3)
    else None
  }

  /** Number of parameters that count towards `npar[k]`. */
  function SlotCount(ps: seq<Element>, k: nat): nat
    decreases |ps|
  {
    if ps == [] then 0 else SlotCount(ps[..|ps| - 1], k) + (if SlotOf(ParName(ps[|ps| - 1])) == Some(k) then 1 else 0)
  }

  /** Each of the four parameter names occurs exactly once. */
  predicate EachNameOnce(ps: seq<Element>) {
    forall k :: 0 <= k < 4 ==> SlotCount(ps, k) == 1
  }

  /** The four-way check the source writes out counter by counter. */
  lemma EachNameOnceCases(ps: seq<Element>)
    ensures EachNameOnce(ps) <==>
      SlotCount(ps, 0) == 1 && SlotCount(ps, 1) == 1 && SlotCount(ps, 2) == 1 && SlotCount(ps, 3) == 1
  {
  }

  /** One more parameter: the counts of the longer prefix. */
  lemma ParamStep(ps: seq<Element>, i: int)
    requires 0 <= i < |ps|
    ensures forall k: nat :: SlotCount(ps[..i + 1], k) == SlotCount(ps[..i], k) + (if SlotOf(ParName(ps[i])) == Some(k) then 1 else 0)
  {
    assert ps[..i + 1][..i] == ps[..i];
  }

  // ---------------------------------------------------------------------
  // Reading
  // ---------------------------------------------------------------------

  /** The four parameters after reading the parameter elements `ps` in order into `pars`. */
  function ReadAll(ps: seq<Element>, pars: seq<Par>, readPar: (Par, Element) -> Par): (r: seq<Par>)
    requires |pars| == 4
    ensures |r| == 4
    decreases |ps|
  {
    if ps == [] then pars
    else
      var before := ReadAll(ps[..|ps| - 1], pars, readPar);
      var slot := SlotOf(ParName(ps[|ps| - 1]));
      if slot.Some? then before[slot.value := readPar(before[slot.value], ps[|ps| - 1])] else before
  }

  /**
   * A parameter whose name occurs nowhere keeps its value, and one whose
   * name occurs exactly once is read from the one element that carries it.
   */
  lemma {:induction false} ReadAllSlot(ps: seq<Element>, pars: seq<Par>, readPar: (Par, Element) -> Par, k: nat)
    requires |pars| == 4 && k < 4
    ensures SlotCount(ps, k) == 0 ==> ReadAll(ps, pars, readPar)[k] == pars[k]
    ensures SlotCount(ps, k) == 1 ==>
      exists i :: 0 <= i < |ps| && ParName(ps[i]) == ParNames[k] && ReadAll(ps, pars, readPar)[k] == readPar(pars[k], ps[i])
    decreases |ps|
  {
    if ps != [] {
      var init := ps[..|ps| - 1];
      var last := |ps| - 1;
      ReadAllSlot(init, pars, readPar, k);
      if SlotOf(ParName(ps[last])) == Some(k) {
        if SlotCount(ps, k) == 1 {
          assert ParName(ps[last]) == ParNames[k];
        }
      } else if SlotCount(ps, k) == 1 {
        var i :| 0 <= i < |init| && ParName(init[i]) == ParNames[k] && ReadAll(init, pars, readPar)[k] == readPar(pars[k], init[i]);
        assert ps[i] == init[i];
      }
    }
  }

  // ---------------------------------------------------------------------
  // Writing
  // ---------------------------------------------------------------------

  /** `parameter name="<n>"` for each of the four names, in order. */
  function DefaultParams(): (ps: seq<Element>)
    ensures |ps| == 4
    ensures forall k :: 0 <= k < 4 ==> ps[k].name == "parameter" && ps[k].children == [] && ParName(ps[k]) == ParNames[k]
  {
    seq(4, k requires 0 <= k < 4 => Leaf("parameter", "name", ParNames[k]))
  }

  /** The element after the first two steps of `write`: an empty type becomes PowerLaw2, and a childless element gets the four parameters. */
  function Prepared(xml: Element): (x: Element)
    ensures x.name == xml.name
    ensures Attribute(x, "type") == if Attribute(xml, "type") == "" then TypeName else Attribute(xml, "type")
    ensures Attribute(xml, "type") in {"", TypeName} ==> x.children == xml.children + (if xml.children == [] then DefaultParams() else [])
  {
    var typed := if Attribute(xml, "type") == "" then SetAttribute(xml, "type", TypeName) else xml;
    if Attribute(typed, "type") != TypeName || typed.children != [] then typed
    else typed.(children := DefaultParams())
  }

  /** A parameter element after `GModelPar::write` added the attributes of `p`. */
  function WithAttributes(e: Element, attrs: map<string, string>): Element {
    e.(attributes := e.attributes + attrs)
  }

  /** One parameter element after the write loop: updated from the parameter its name selects, if any. */
  function WriteParam(e: Element, pars: seq<Par>, writeAttrs: Par -> map<string, string>): (r: Element)
    requires |pars| == 4
    ensures r.name == e.name && r.children == e.children
    ensures SlotOf(ParName(e)).None? ==> r == e
    ensures SlotOf(ParName(e)).Some? ==> r.attributes == e.attributes + writeAttrs(pars[SlotOf(ParName(e)).value])
  {
    var slot := SlotOf(ParName(e));
    if slot.Some? then WithAttributes(e, writeAttrs(pars[slot.value])) else e
  }

  /** The parameter elements after the write loop. */
  function WriteParams(ps: seq<Element>, pars: seq<Par>, writeAttrs: Par -> map<string, string>): (r: seq<Element>)
    requires |pars| == 4
    ensures |r| == |ps| && forall i :: 0 <= i < |ps| ==> r[i] == WriteParam(ps[i], pars, writeAttrs)
  {
    seq(|ps|, i requires 0 <= i < |ps| => WriteParam(ps[i], pars, writeAttrs))
  }

  /** Elements made of the four default parameter elements each hold one of the names. */
  lemma DefaultParamsOnce()
    ensures EachNameOnce(DefaultParams())
  {
    var ps := DefaultParams();
    forall k | 0 <= k < 4
      ensures SlotCount(ps, k) == 1
    {
      SlotCountInOrder(ps, 4, k);
      assert ps[..4] == ps;
    }
  }

  /** A parameter list in which position j holds the name of counter j counts each name exactly once. */
  lemma {:induction false} SlotCountInOrder(ps: seq<Element>, n: nat, k: nat)
    requires n <= |ps|
    requires forall j :: 0 <= j < |ps| ==> SlotOf(ParName(ps[j])) == Some(j)
    ensures SlotCount(ps[..n], k) == if k < n then 1 else 0
    decreases n
  {
    if n > 0 {
      assert ps[..n][..n - 1] == ps[..n - 1];
      SlotCountInOrder(ps, n - 1, k);
    }
  }

  /** The parameters of the four appended children are the default parameter elements. */
  lemma PreparedEmpty(xml: Element)
    requires xml.children == [] && Attribute(xml, "type") in {"", TypeName}
    ensures Elements(Prepared(xml)) == 4 && ElementsNamed(Prepared(xml), "parameter") == 4
    ensures Params(Prepared(xml)) == DefaultParams()
    ensures EachNameOnce(Params(Prepared(xml)))
  {
    var x := Prepared(xml);
    AllNamedPositions(x.children, "parameter");
    assert Params(x) == DefaultParams();
    DefaultParamsOnce();
  }

  /** Writing leaves every parameter name in place when the written attributes never include "name". */
  lemma {:induction false} WriteParamsCounts(ps: seq<Element>, pars: seq<Par>, writeAttrs: Par -> map<string, string>, k: nat)
    requires |pars| == 4
    requires forall p :: "name" !in writeAttrs(p)
    ensures SlotCount(WriteParams(ps, pars, writeAttrs), k) == SlotCount(ps, k)
    decreases |ps|
  {
    if ps != [] {
      var ws := WriteParams(ps, pars, writeAttrs);
      var n := |ps| - 1;
      assert ws[..n] == WriteParams(ps[..n], pars, writeAttrs);
      WriteParamsCounts(ps[..n], pars, writeAttrs, k);
      WriteParamKeepsName(ps[n], pars, writeAttrs);
    }
  }

  /**
   * Write then read: when every name occurs once, the written attributes
   * never rename a parameter, and reading each of the four parameters back,
   * from the state `before` and from any element carrying the attributes
   * written for it, yields that parameter (a property of the parameter
   * class, taken as a hypothesis about these four only), reading the
   * written list restores all four parameters.
   */
  lemma WriteThenRead(ps: seq<Element>, pars: seq<Par>, before: seq<Par>,
                      readPar: (Par, Element) -> Par, writeAttrs: Par -> map<string, string>)
    requires |pars| == 4 && |before| == 4 && EachNameOnce(ps)
    requires forall p :: "name" !in writeAttrs(p)
    requires forall k, e :: 0 <= k < 4 ==> readPar(before[k], WithAttributes(e, writeAttrs(pars[k]))) == pars[k]
    ensures ReadAll(WriteParams(ps, pars, writeAttrs), before, readPar) == pars
  {
    forall k | 0 <= k < 4 ensures ReadAll(WriteParams(ps, pars, writeAttrs), before, readPar)[k] == pars[k] {
      WriteThenReadSlot(ps, pars, before, readPar, writeAttrs, k);
    }
  }

  /** Write then read, for the parameter of one counter. */
  lemma WriteThenReadSlot(ps: seq<Element>, pars: seq<Par>, before: seq<Par>,
                          readPar: (Par, Element) -> Par, writeAttrs: Par -> map<string, string>, k: nat)
    requires |pars| == 4 && |before| == 4 && k < 4 && SlotCount(ps, k) == 1
    requires forall p :: "name" !in writeAttrs(p)
    requires forall e :: readPar(before[k], WithAttributes(e, writeAttrs(pars[k]))) == pars[k]
    ensures ReadAll(WriteParams(ps, pars, writeAttrs), before, readPar)[k] == pars[k]
  {
    var ws := WriteParams(ps, pars, writeAttrs);
    WriteParamsCounts(ps, pars, writeAttrs, k);
    ReadAllSlot(ws, before, readPar, k);
    var i :| 0 <= i < |ws| && ParName(ws[i]) == ParNames[k] && ReadAll(ws, before, readPar)[k] == readPar(before[k], ws[i]);
    WrittenElement(ps, pars, writeAttrs, i, k);
  }

  /** The element written for a parameter called ParNames[k] carries the attributes of parameter k. */
  lemma WrittenElement(ps: seq<Element>, pars: seq<Par>, writeAttrs: Par -> map<string, string>, i: nat, k: nat)
    requires |pars| == 4 && k < 4 && i < |ps|
    requires forall p :: "name" !in writeAttrs(p)
    requires ParName(WriteParams(ps, pars, writeAttrs)[i]) == ParNames[k]
    ensures WriteParams(ps, pars, writeAttrs)[i] == WithAttributes(ps[i], writeAttrs(pars[k]))
  {
    WriteParamKeepsName(ps[i], pars, writeAttrs);
    assert SlotOf(ParName(ps[i])) == Some(k);
  }

  /** The written attributes never rename a parameter element. */
  lemma WriteParamKeepsName(e: Element, pars: seq<Par>, writeAttrs: Par -> map<string, string>)
    requires |pars| == 4
    requires forall p :: "name" !in writeAttrs(p)
    ensures ParName(WriteParam(e, pars, writeAttrs)) == ParName(e)
  {
  }

  // ---------------------------------------------------------------------
  // The spectrum
  // ---------------------------------------------------------------------

  /**
   * The antiderivative of E^index at E, with gamma = index + 1: E^gamma / gamma,
   * and log E when gamma is zero.
   */
  function Primitive(gamma: real, e: real, pow: (real, real) -> real, log: real -> real): real {
    if gamma != 0.0 then pow(e, gamma) / gamma else log(e)
  }

  /**
   * The normalisation: gamma / (emax^gamma - emin^gamma), or 1 / (log emax -
   * log emin) exactly when gamma is zero. It is the factor that makes the
   * integral of E^index over [emin, emax] one.
   */
  function Norm(gamma: real, emin: real, emax: real, pow: (real, real) -> real, log: real -> real): (n: real)
    requires Primitive(gamma, emax, pow, log) != Primitive(gamma, emin, pow, log)
    ensures n * (Primitive(gamma, emax, pow, log) - Primitive(gamma, emin, pow, log)) == 1.0
  {
    if gamma != 0.0 then
      var d := pow(emax, gamma) - pow(emin, gamma);
      assert Primitive(gamma, emax, pow, log) - Primitive(gamma, emin, pow, log) == d / gamma;
      assert d != 0.0;
      gamma / d
    else
      1.0 / (log(emax) - log(emin))
  }

  /** The four physical parameter values do not make the normalisation divide by zero. */
  predicate Normalisable(pars: seq<Par>, pow: (real, real) -> real, log: real -> real)
    requires |pars| == 4
  {
    var gamma := RealValue(pars[1]) + 1.0;
    Primitive(gamma, RealValue(pars[3]), pow, log) != Primitive(gamma, RealValue(pars[2]), pow, log)
  }

  /** The function value at energy `e` (in MeV) for the given parameters. */
  function Value(pars: seq<Par>, e: real, pow: (real, real) -> real, log: real -> real): (v: real)
    requires |pars| == 4 && Normalisable(pars, pow, log)
    ensures var gamma := RealValue(pars[1]) + 1.0;
      v * (Primitive(gamma, RealValue(pars[3]), pow, log) - Primitive(gamma, RealValue(pars[2]), pow, log))
        == RealValue(pars[0]) * pow(e, RealValue(pars[1]))
  {
    var gamma := RealValue(pars[1]) + 1.0;
    var n := Norm(gamma, RealValue(pars[2]), RealValue(pars[3]), pow, log);
    var d := Primitive(gamma, RealValue(pars[3]), pow, log) - Primitive(gamma, RealValue(pars[2]), pow, log);
    var i, p := RealValue(pars[0]), pow(e, RealValue(pars[1]));
    assert i * n * p * d == i * p * (n * d);
    i * n * p
  }

  /** The value is proportional to the integral flux parameter. */
  lemma {:induction false} ValueLinearInIntegral(pars: seq<Par>, c: real, e: real, pow: (real, real) -> real, log: real -> real)
    requires |pars| == 4 && Normalisable(pars, pow, log)
    ensures var scaled := pars[0 := pars[0].(value := c * pars[0].value)];
      Normalisable(scaled, pow, log) && Value(scaled, e, pow, log) == c * Value(pars, e, pow, log)
  {
    var scaled := pars[0 := pars[0].(value := c * pars[0].value)];
    assert Normalisable(scaled, pow, log);
    var gamma := RealValue(pars[1]) + 1.0;
    var d := Primitive(gamma, RealValue(pars[3]), pow, log) - Primitive(gamma, RealValue(pars[2]), pow, log);
    var v, w := Value(pars, e, pow, log), Value(scaled, e, pow, log);
    assert RealValue(scaled[0]) == c * RealValue(pars[0]);
    assert w * d == c * (v * d);
    assert (w - c * v) * d == 0.0;
  }

  /**
   * The index gradient as `eval_gradients` computes it, for gamma = index + 1:
   * (1/gamma + (log emax emax^gamma - log emin emin^gamma) / (emax^gamma -
   * emin^gamma) + log E) value i_s, and value log E i_s when gamma is zero.
   * This is the formula documented with the method; it is not the derivative
   * of the value (see IndexGradient).
   */
  function IndexGradientAsWritten(pars: seq<Par>, value: real, e: real, pow: (real, real) -> real, log: real -> real): real
    requires |pars| == 4 && Normalisable(pars, pow, log)
  {
    var gamma := RealValue(pars[1]) + 1.0;
    var emin, emax := RealValue(pars[2]), RealValue(pars[3]);
    if gamma != 0.0 then
      var emaxG, eminG := pow(emax, gamma), pow(emin, gamma);
      assert emaxG - eminG != 0.0 by {
        assert Primitive(gamma, emax, pow, log) - Primitive(gamma, emin, pow, log) == (emaxG - eminG) / gamma;
      }
      (1.0 / gamma + (log(emax) * emaxG - log(emin) * eminG) / (emaxG - eminG) + log(e)) * value * pars[1].scale
    else
      value * log(e) * pars[1].scale
  }

  /**
   * The antiderivative of log(E) E^index, the derivative of E^index with
   * respect to the index: E^gamma (gamma log E - 1) / gamma^2, and
   * (log E)^2 / 2 when gamma is zero.
   */
  function PrimitiveDIndex(gamma: real, e: real, pow: (real, real) -> real, log: real -> real): real {
    if gamma != 0.0 then pow(e, gamma) * (gamma * log(e) - 1.0) / (gamma * gamma) else log(e) * log(e) / 2.0
  }

  /**
   * The derivative of log I(E) with respect to the index: log E, minus the
   * derivative of the log of the integral of E^index over [emin, emax], which
   * is the integral of log(E) E^index divided by the integral of E^index.
   */
  function IndexLogDerivative(pars: seq<Par>, e: real, pow: (real, real) -> real, log: real -> real): real
    requires |pars| == 4 && Normalisable(pars, pow, log)
  {
    var gamma := RealValue(pars[1]) + 1.0;
    var emin, emax := RealValue(pars[2]), RealValue(pars[3]);
    log(e) - (PrimitiveDIndex(gamma, emax, pow, log) - PrimitiveDIndex(gamma, emin, pow, log))
               / (Primitive(gamma, emax, pow, log) - Primitive(gamma, emin, pow, log))
  }

  /**
   * The index gradient per unit of the index value, in closed form:
   * (1/gamma - (log emax emax^gamma - log emin emin^gamma) / (emax^gamma -
   * emin^gamma) + log E) value i_s, and (log E - (log emin + log emax)/2)
   * value i_s when gamma is zero. It is value times the derivative of log I
   * with respect to the index, times the index scale.
   */
  function IndexGradient(pars: seq<Par>, value: real, e: real, pow: (real, real) -> real, log: real -> real): (g: real)
    requires |pars| == 4 && Normalisable(pars, pow, log)
    ensures g == IndexLogDerivative(pars, e, pow, log) * value * pars[1].scale
  {
    var gamma := RealValue(pars[1]) + 1.0;
    var emin, emax := RealValue(pars[2]), RealValue(pars[3]);
    var lmin, lmax := log(emin), log(emax);
    var dP := Primitive(gamma, emax, pow, log) - Primitive(gamma, emin, pow, log);
    var dQ := PrimitiveDIndex(gamma, emax, pow, log) - PrimitiveDIndex(gamma, emin, pow, log);
    if gamma != 0.0 then
      var emaxG, eminG := pow(emax, gamma), pow(emin, gamma);
      var d := emaxG - eminG;
      var n := lmax * emaxG - lmin * eminG;
      LogDerivativeRatio(gamma, emaxG, eminG, lmax, lmin, dP, dQ);
      (1.0 / gamma - n / d + log(e)) * value * pars[1].scale
    else
      LogDerivativeRatioAtZero(lmax, lmin, dP, dQ);
      (log(e) - (lmin + lmax) / 2.0) * value * pars[1].scale
  }

  /**
   * For gamma != 0, with A = emax^gamma, B = emin^gamma: the ratio of the
   * integral of log(E) E^index to the integral of E^index is
   * (log emax A - log emin B) / (A - B) - 1/gamma.
   */
  lemma LogDerivativeRatio(gamma: real, a: real, b: real, la: real, lb: real, dP: real, dQ: real)
    requires gamma != 0.0 && dP != 0.0
    requires dP == a / gamma - b / gamma
    requires dQ == a * (gamma * la - 1.0) / (gamma * gamma) - b * (gamma * lb - 1.0) / (gamma * gamma)
    ensures a - b != 0.0
    ensures dQ / dP == (la * a - lb * b) / (a - b) - 1.0 / gamma
  {
    var d, n := a - b, la * a - lb * b;
    assert dP == d / gamma;
    assert dQ == (gamma * n - d) / (gamma * gamma);
    RatioOfQuotients(gamma, d, n, dP, dQ);
  }

  /** (gamma n - d) / gamma^2 divided by d / gamma is n / d - 1 / gamma. */
  lemma RatioOfQuotients(gamma: real, d: real, n: real, dP: real, dQ: real)
    requires gamma != 0.0 && dP != 0.0
    requires dP == d / gamma && dQ == (gamma * n - d) / (gamma * gamma)
    ensures d != 0.0 && dQ / dP == n / d - 1.0 / gamma
  {
    assert d != 0.0;
    assert (n / d - 1.0 / gamma) * (d / gamma) == n / gamma - d / (gamma * gamma);
    assert dQ == (n / d - 1.0 / gamma) * dP;
  }

  /** For gamma = 0: the same ratio is (log emin + log emax) / 2. */
  lemma LogDerivativeRatioAtZero(la: real, lb: real, dP: real, dQ: real)
    requires dP != 0.0 && dP == la - lb
    requires dQ == la * la / 2.0 - lb * lb / 2.0
    ensures dQ / dP == (lb + la) / 2.0
  {
    assert dQ == (lb + la) / 2.0 * dP;
  }

  /** Parameters with integral 1, index 0, emin 1 and emax 2, all scales 1. */
  predicate CounterexamplePars(pars: seq<Par>) {
    && |pars| == 4
    && pars[0].value == 1.0 && pars[1].value == 0.0 && pars[2].value == 1.0 && pars[3].value == 2.0
    && pars[0].scale == 1.0 && pars[1].scale == 1.0 && pars[2].scale == 1.0 && pars[3].scale == 1.0
  }

  /** Values of pow and log that the counterexample relies on. */
  predicate CounterexampleMath(pow: (real, real) -> real, log: real -> real) {
    pow(1.0, 0.0) == 1.0 && pow(1.0, 1.0) == 1.0 && pow(2.0, 1.0) == 2.0 && log(1.0) == 0.0
  }

  /** The formula as written at the counterexample: 1 + 2 log 2. */
  lemma AsWrittenAtCounterexample(pars: seq<Par>, pow: (real, real) -> real, log: real -> real)
    requires CounterexamplePars(pars) && CounterexampleMath(pow, log)
    ensures Normalisable(pars, pow, log)
    ensures IndexGradientAsWritten(pars, 1.0, 1.0, pow, log) == 1.0 + 2.0 * log(2.0)
  {
    assert RealValue(pars[1]) == 0.0 && RealValue(pars[2]) == 1.0 && RealValue(pars[3]) == 2.0;
  }

  /** The derivative at the counterexample: 1 - 2 log 2. */
  lemma IntendedAtCounterexample(pars: seq<Par>, pow: (real, real) -> real, log: real -> real)
    requires CounterexamplePars(pars) && CounterexampleMath(pow, log)
    ensures Normalisable(pars, pow, log)
    ensures IndexGradient(pars, 1.0, 1.0, pow, log) == 1.0 - 2.0 * log(2.0)
  {
    assert RealValue(pars[1]) == 0.0 && RealValue(pars[2]) == 1.0 && RealValue(pars[3]) == 2.0;
    assert PrimitiveDIndex(1.0, 2.0, pow, log) == 2.0 * log(2.0) - 2.0;
    assert PrimitiveDIndex(1.0, 1.0, pow, log) == -1.0;
  }

  /**
   * With integral 1, index 0, emin 1, emax 2 and E = 1 the value is 1, and
   * the formula as written gives 1 + 2 log 2 where the derivative is
   * 1 - 2 log 2: the two differ whenever log 2 is not zero.
   */
  lemma IndexGradientAsWrittenDiffers(pars: seq<Par>, pow: (real, real) -> real, log: real -> real)
    requires CounterexamplePars(pars) && CounterexampleMath(pow, log) && log(2.0) != 0.0
    ensures Normalisable(pars, pow, log) && Value(pars, 1.0, pow, log) == 1.0
    ensures IndexGradientAsWritten(pars, 1.0, 1.0, pow, log) != IndexGradient(pars, 1.0, 1.0, pow, log)
  {
    AsWrittenAtCounterexample(pars, pow, log);
    IntendedAtCounterexample(pars, pow, log);
    assert RealValue(pars[0]) == 1.0 && RealValue(pars[1]) == 0.0;
    assert Primitive(1.0, RealValue(pars[3]), pow, log) - Primitive(1.0, RealValue(pars[2]), pow, log) == 1.0;
  }

  /** The power law model. */
  class PowerLaw2 {
    var integral: Par
    var index: Par
    var emin: Par
    var emax: Par

    /** The parameters in the order of `m_par`. */
    function Pars(): (ps: seq<Par>)
      reads this
      ensures |ps| == 4
    {
      [integral, index, emin, emax]
    }

    /** The void constructor: `init_members`. */
    constructor ()
      ensures Pars() == Defaults()
    {
      integral := Defaults()[0];
      index := Defaults()[1];
      emin := Defaults()[2];
      emax := Defaults()[3];
    }

    /** Construction from an integral flux and an index: the defaults with these two values. */
    constructor FromValues(integralValue: real, indexValue: real)
      ensures Pars() == Defaults()[0 := Defaults()[0].(value := integralValue)][1 := Defaults()[1].(value := indexValue)]
    {
      integral := Defaults()[0].(value := integralValue);
      index := Defaults()[1].(value := indexValue);
      emin := Defaults()[2];
      emax := Defaults()[3];
    }

    /** `copy_members`: the four parameters are taken over. */
    method CopyMembers(other: PowerLaw2)
      modifies this
      ensures Pars() == old(other.Pars())
    {
      integral, index, emin, emax := other.integral, other.index, other.emin, other.emax;
    }

    /** `eval`: the function value at energy `e` (in MeV). */
    function Eval(e: real, pow: (real, real) -> real, log: real -> real): (v: real)
      reads this
      requires Normalisable(Pars(), pow, log)
      ensures var gamma := RealValue(index) + 1.0;
        v * (Primitive(gamma, RealValue(emax), pow, log) - Primitive(gamma, RealValue(emin), pow, log))
          == RealValue(integral) * pow(e, RealValue(index))
    {
      Value(Pars(), e, pow, log)
    }

    /**
     * `eval_gradients` as the source has it: the same value as `eval`; the
     * integral gradient is value / integral value and the index gradient the
     * documented formula IndexGradientAsWritten, each only when that
     * parameter is free and zero otherwise; the energy-limit gradients are
     * zero. Nothing but the four gradients changes.
     */
    method EvalGradientsAsWritten(e: real, pow: (real, real) -> real, log: real -> real) returns (value: real)
      requires Normalisable(Pars(), pow, log)
      requires integral.free ==> integral.value != 0.0
      modifies this
      ensures value == old(Eval(e, pow, log))
      ensures integral == old(integral).(gradient := if old(integral).free then value / old(integral).value else 0.0)
      ensures index == old(index).(gradient := if index.free then old(IndexGradientAsWritten(Pars(), value, e, pow, log)) else 0.0)
      ensures emin == old(emin).(gradient := 0.0) && emax == old(emax).(gradient := 0.0)
      ensures integral.free ==> integral.gradient * integral.value == value
    {
      var pars := Pars();
      value := Value(pars, e, pow, log);
      var gIntegral := 0.0;
      var gIndex := 0.0;
      if integral.free {
        gIntegral := value / integral.value;
      }
      if index.free {
        gIndex := IndexGradientAsWritten(pars, value, e, pow, log);
      }
      integral := integral.(gradient := gIntegral);
      index := index.(gradient := gIndex);
      emin := emin.(gradient := 0.0);
      emax := emax.(gradient := 0.0);
    }

    /**
     * `eval_gradients` as intended: as above, with the index gradient the
     * derivative of the value with respect to the index value, i.e. value
     * times the derivative of log I with respect to the index, times the
     * index scale.
     */
    method EvalGradients(e: real, pow: (real, real) -> real, log: real -> real) returns (value: real)
      requires Normalisable(Pars(), pow, log)
      requires integral.free ==> integral.value != 0.0
      modifies this
      ensures value == old(Eval(e, pow, log))
      ensures integral == old(integral).(gradient := if old(integral).free then value / old(integral).value else 0.0)
      ensures index == old(index).(gradient := if index.free then old(IndexGradient(Pars(), value, e, pow, log)) else 0.0)
      ensures emin == old(emin).(gradient := 0.0) && emax == old(emax).(gradient := 0.0)
      ensures integral.free ==> integral.gradient * integral.value == value
    {
      var pars := Pars();
      value := Value(pars, e, pow, log);
      var gIntegral := 0.0;
      var gIndex := 0.0;
      if integral.free {
        gIntegral := value / integral.value;
      }
      if index.free {
        gIndex := IndexGradient(pars, value, e, pow, log);
      }
      integral := integral.(gradient := gIntegral);
      index := index.(gradient := gIndex);
      emin := emin.(gradient := 0.0);
      emax := emax.(gradient := 0.0);
    }

    /** One parameter element read into the parameter its name selects, if any; returns the counter it counts towards. */
    method ReadParameter(par: Element, readPar: (Par, Element) -> Par) returns (slot: Option<nat>)
      modifies this
      ensures slot == SlotOf(ParName(par))
      ensures slot.Some? ==> Pars() == old(Pars())[slot.value := readPar(old(Pars())[slot.value], par)]
      ensures slot.None? ==> Pars() == old(Pars())
    {
      var name := Attribute(par, "name");
      slot := None;
      if name == "Integral" {
        integral := readPar(integral, par);
        slot := Some(0);
      } else if name == "Index" {
        index := readPar(index, par);
        slot := Some(1);
      } else if name == "LowerLimit" {
        emin := readPar(emin, par);
        slot := Some(2);
      } else if name == "UpperLimit" {
        emax := readPar(emax, par);
        slot := Some(3);
      }
    }

    /** The read loop: each parameter element is read into the parameter its name selects, and counted. */
    method ReadParameters(xml: Element, readPar: (Par, Element) -> Par) returns (npar: array<int>)
      modifies this
      ensures Pars() == ReadAll(Params(xml), old(Pars()), readPar)
      ensures npar.Length == 4 && forall k :: 0 <= k < 4 ==> npar[k] == SlotCount(Params(xml), k)
    {
      ghost var ps := Params(xml);
      ghost var start := Pars();
      npar := new int[4](_ => 0);
      var i := 0;
      while i < ElementsNamed(xml, "parameter")
        invariant 0 <= i <= |ps|
        invariant Pars() == ReadAll(ps[..i], start, readPar)
        invariant forall k :: 0 <= k < 4 ==> npar[k] == SlotCount(ps[..i], k)
      {
        var par := ElementNamed(xml, "parameter", i);
        assert par == ps[i];
        ParamStep(ps, i);
        assert ps[..i + 1][..i] == ps[..i];
        var slot := ReadParameter(par, readPar);
        Tally(npar, slot);
        i := i + 1;
      }
      assert ps[..i] == ps;
    }

    /**
     * `read`: the element must have exactly four children, all "parameter";
     * each is read into the parameter its name selects; then each of the four
     * names must have occurred exactly once. Parameters read before a name
     * error keep what they read.
     */
    method Read(xml: Element, readPar: (Par, Element) -> Par) returns (err: Option<ModelError>)
      modifies this
      ensures Elements(xml) != 4 || ElementsNamed(xml, "parameter") != 4 ==>
        err == Some(ModelInvalidParnum(G_READ, ParnumMessage)) && Pars() == old(Pars())
      ensures Elements(xml) == 4 && ElementsNamed(xml, "parameter") == 4 ==>
        && (err.None? <==> EachNameOnce(Params(xml)))
        && (err.Some? ==> err == Some(ModelInvalidParnames(G_READ, ParnamesMessage)))
        && Pars() == ReadAll(Params(xml), old(Pars()), readPar)
    {
      if Elements(xml) != 4 || ElementsNamed(xml, "parameter") != 4 {
        return Some(ModelInvalidParnum(G_READ, ParnumMessage));
      }
      var npar := ReadParameters(xml, readPar);
      EachNameOnceCases(Params(xml));
      var n0, n1, n2, n3 := npar[0], npar[1], npar[2], npar[3];
      err := if n0 != 1 || n1 != 1 || n2 != 1 || n3 != 1 then Some(ModelInvalidParnames(G_READ, ParnamesMessage)) else None;
    }

    /** One parameter element with the attributes of the parameter its name selects, if any; returns the counter it counts towards. */
    method WriteParameter(par: Element, writeAttrs: Par -> map<string, string>) returns (written: Element, slot: Option<nat>)
      ensures written == WriteParam(par, Pars(), writeAttrs) && slot == SlotOf(ParName(par))
    {
      var name := Attribute(par, "name");
      written, slot := par, None;
      if name == "Integral" {
        slot := Some(0);
        written := WithAttributes(par, writeAttrs(integral));
      } else if name == "Index" {
        slot := Some(1);
        written := WithAttributes(par, writeAttrs(index));
      } else if name == "LowerLimit" {
        written := WithAttributes(par, writeAttrs(emin));
        slot := Some(2);
      } else if name == "UpperLimit" {
        written := WithAttributes(par, writeAttrs(emax));
        slot := Some(3);
      }
    }

    /** The write loop: each parameter element takes the attributes of the parameter its name selects, and is counted. */
    method WriteParameters(x: Element, writeAttrs: Par -> map<string, string>) returns (out: Element, npar: array<int>)
      requires Elements(x) == 4 && ElementsNamed(x, "parameter") == 4
      ensures out.name == x.name && out.attributes == x.attributes && Elements(out) == 4
      ensures Params(out) == WriteParams(Params(x), Pars(), writeAttrs)
      ensures npar.Length == 4 && forall k :: 0 <= k < 4 ==> npar[k] == SlotCount(Params(x), k)
    {
      ghost var ps := Params(x);
      npar := new int[4](_ => 0);
      out := x;
      var i := 0;
      while i < 4
        invariant 0 <= i <= 4
        invariant out.name == x.name && out.attributes == x.attributes && Elements(out) == 4
        invariant ElementsNamed(out, "parameter") == 4
        invariant forall j :: 0 <= j < 4 ==> ElementNamed(out, "parameter", j) == if j < i then WriteParam(ps[j], Pars(), writeAttrs) else ps[j]
        invariant forall k :: 0 <= k < 4 ==> npar[k] == SlotCount(ps[..i], k)
      {
        var par := ElementNamed(out, "parameter", i);
        ParamStep(ps, i);
        var written, slot := WriteParameter(par, writeAttrs);
        Tally(npar, slot);
        out := ReplaceNamed(out, "parameter", i, written);
        i := i + 1;
      }
      assert Params(out) == WriteParams(ps, Pars(), writeAttrs);
      assert ps[..4] == ps;
    }

    /** The second step of `write`: a childless element gets the four parameter children. */
    method AppendDefaultParams(xml: Element) returns (x: Element)
      ensures x == if xml.children == [] then xml.(children := DefaultParams()) else xml
    {
      x := xml;
      if Elements(x) == 0 {
        x := Append(x, Leaf("parameter", "name", "Integral"));
        x := Append(x, Leaf("parameter", "name", "Index"));
        x := Append(x, Leaf("parameter", "name", "LowerLimit"));
        x := Append(x, Leaf("parameter", "name", "UpperLimit"));
        assert x.children == DefaultParams();
      }
    }

    /**
     * `write`: an empty type becomes PowerLaw2 and any other type is an
     * error; a childless element gets the four parameter children; then the
     * same count and name checks as `read`, with each parameter's attributes
     * written into its element in between. The element is returned in the
     * state it has when `write` ends or throws.
     */
    method Write(xml: Element, writeAttrs: Par -> map<string, string>) returns (out: Element, err: Option<ModelError>)
      ensures Attribute(xml, "type") !in {"", TypeName} ==>
        out == xml && err == Some(ModelInvalidSpectral(G_WRITE, Attribute(xml, "type"), SpectralMessage))
      ensures Attribute(xml, "type") in {"", TypeName} ==> Attribute(out, "type") == TypeName
      ensures (Attribute(xml, "type") in {"", TypeName} &&
        (Elements(Prepared(xml)) != 4 || ElementsNamed(Prepared(xml), "parameter") != 4)) ==>
        out == Prepared(xml) && err == Some(ModelInvalidParnum(G_WRITE, ParnumMessage))
      ensures (Attribute(xml, "type") in {"", TypeName} &&
        Elements(Prepared(xml)) == 4 && ElementsNamed(Prepared(xml), "parameter") == 4) ==>
        && (err.None? <==> EachNameOnce(Params(Prepared(xml))))
        && (err.Some? ==> err == Some(ModelInvalidParnames(G_WRITE, ParnamesMessage)))
        && out.name == xml.name && out.attributes == Prepared(xml).attributes && Elements(out) == 4
        && Params(out) == WriteParams(Params(Prepared(xml)), Pars(), writeAttrs)
    {
      var x := xml;
      if Attribute(x, "type") == "" {
        x := SetAttribute(x, "type", TypeName);
      }
      if Attribute(x, "type") != TypeName {
        return x, Some(ModelInvalidSpectral(G_WRITE, Attribute(x, "type"), SpectralMessage));
      }
      x := AppendDefaultParams(x);
      assert x == Prepared(xml);
      if Elements(x) != 4 || ElementsNamed(x, "parameter") != 4 {
        return x, Some(ModelInvalidParnum(G_WRITE, ParnumMessage));
      }
      var npar;
      out, npar := WriteParameters(x, writeAttrs);
      EachNameOnceCases(Params(x));
      var n0, n1, n2, n3 := npar[0], npar[1], npar[2], npar[3];
      err := if n0 != 1 || n1 != 1 || n2 != 1 || n3 != 1 then Some(ModelInvalidParnames(G_WRITE, ParnamesMessage)) else None;
    }

    /** `write` into an element with no children and no type, or type PowerLaw2, succeeds. */
    method WriteEmptySucceeds(xml: Element, writeAttrs: Par -> map<string, string>) returns (out: Element, err: Option<ModelError>)
      requires xml.children == [] && Attribute(xml, "type") in {"", TypeName}
      ensures err.None? && Attribute(out, "type") == TypeName
      ensures Params(out) == WriteParams(DefaultParams(), Pars(), writeAttrs)
    {
      PreparedEmpty(xml);
      out, err := Write(xml, writeAttrs);
    }
  }
}
