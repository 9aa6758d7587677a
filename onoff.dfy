/**
 * A CTA On/Off observation: an "on" and an "off" count spectrum, the sky
 * regions that define them, and the effective area (ARF) and energy
 * redistribution (RMF) response of the on region.
 *
 * The spectra, region sets and response files belong to other classes of the
 * library; here each is a value that records what the observation does with
 * it. Loading a file is an input (`Store`: what loading a given file name
 * yields), region membership is an input predicate, and the instrument
 * response is given as the effective area and the energy dispersion
 * functions of (log-mean) energies.
 */
module CtaOnOff {
  import opened Tools
  import opened Xml

  /** Energy bins, given by the log-mean energy of each bin (`elogmean(i)`). */
  datatype Ebounds = Ebounds(logMeans: seq<real>)

  /** A count spectrum: its file name, energy bins and the energies filled into it so far. */
  datatype Pha = Pha(file: string, ebounds: Ebounds, energies: seq<real>)

  /** A set of sky regions, known by the file it was loaded from. */
  datatype Regions = Regions(file: string)

  /** Effective area: one value per energy bin. */
  datatype Arf = Arf(file: string, ebounds: Ebounds, specresp: seq<real>)

  /** Energy redistribution: cells (measured bin, true bin). */
  datatype Rmf = Rmf(file: string, emeasured: Ebounds, matrix: map<(int, int), real>)

  datatype SkyDir = SkyDir(ra: real, dec: real)
  datatype Event = Event(dir: SkyDir, energy: real)

  /** What loading each kind of file yields, by file name. */
  datatype Store = Store(pha: string -> Pha, regions: string -> Regions, arf: string -> Arf, rmf: string -> Rmf)

  datatype ObsError =
    | XmlInvalidParnum(origin: string, message: string)
    | XmlInvalidParnames(origin: string, message: string)
    | InvalidArgument(origin: string, message: string)
    | EnergyIndexOutOfRange(index: int, size: int)

  const G_READ := "GCTAOnOffObservation::read(GXmlElement&)"
  const G_WRITE := "GCTAOnOffObservation::write(GXmlElement&)"
  const G_FILL := "GCTAOnOffObservation::fill(GCTAObservation&)"

  const ReadParnumMessage := "CTA observation requires exactly 6 parameters."
  const ReadParnamesMessage := "Require \"Pha_on\" or \"Pha_off\" and \"Regions_on\", \"Regions_off\",\"Rmf\" and \"Arf\" parameters."
  const WriteParnumMessage := "CTAOnOffObservation requires exactly 6 parameters."
  const WriteParnamesMessage := "Require \"Pha_on\" or \"Pha_off\" and \"Regions_on\", \"Regions_off\" \"Arf\", \"Rmf\" parameters."
  const FillMessage := "GCTAObservation must provide an event list"

  function EmptyPha(): Pha { Pha("", Ebounds([]), []) }
  function EmptyRegions(): Regions { Regions("") }
  function EmptyArf(): Arf { Arf("", Ebounds([]), []) }
  function EmptyRmf(): Rmf { Rmf("", Ebounds([]), map[]) }

  // ---------------------------------------------------------------------
  // The parameter list of the XML element
  // ---------------------------------------------------------------------

  /** The six parameter names, in the order of the counters `npar[0..5]`. */
  const ParNames: seq<string> := ["Pha_on", "Pha_off", "Regions_on", "Regions_off", "Arf", "Rmf"]

  /**
   * The counter a parameter name belongs to: the position of the name in
   * ParNames, tried in the order of the source's if-chain, from position `k` on.
   */
  function SlotFrom(name: string, k: nat): Option<nat>
    decreases 6 - k
  {
    if k >= 6 then None else if ParNames[k] == name then Some(k) else SlotFrom(name, k + 1)
  }

  function SlotOf(name: string): Option<nat> {
    SlotFrom(name, 0)
  }

  /** The counter a parameter element belongs to. */
  function SlotOfParam(p: Element): Option<nat> {
    SlotOf(ParName(p))
  }

  /** Number of parameters that count towards `npar[k]`, i.e. are called ParNames[k]. */
  function SlotCount(ps: seq<Element>, k: nat): nat
    decreases |ps|
  {
    if ps == [] then 0 else SlotCount(ps[..|ps| - 1], k) + (if SlotOfParam(ps[|ps| - 1]) == Some(k) then 1 else 0)
  }

  /** Each of the six parameter names occurs exactly once. */
  predicate EachNameOnce(ps: seq<Element>) {
    forall k :: 0 <= k < 6 ==> SlotCount(ps, k) == 1
  }

  /** The six-way check the source writes out counter by counter. */
  lemma EachNameOnceCases(ps: seq<Element>)
    ensures EachNameOnce(ps) <==>
      && SlotCount(ps, 0) == 1 && SlotCount(ps, 1) == 1 && SlotCount(ps, 2) == 1
      && SlotCount(ps, 3) == 1 && SlotCount(ps, 4) == 1 && SlotCount(ps, 5) == 1
  {
  }

  /** Whether a parameter counts towards one of the counters lo..hi. */
  predicate InSlots(p: Element, lo: nat, hi: nat) {
    SlotOfParam(p).Some? && lo <= SlotOfParam(p).value <= hi
  }

  /** The "file" attribute of the last parameter that counts towards one of the counters lo..hi, if any. */
  function LastFile(ps: seq<Element>, lo: nat, hi: nat): Option<string>
    decreases |ps|
  {
    if ps == [] then None
    else if InSlots(ps[|ps| - 1], lo, hi) then Some(Attribute(ps[|ps| - 1], "file"))
    else LastFile(ps[..|ps| - 1], lo, hi)
  }

  /** Reading one more parameter: the counts and last files of the longer prefix. */
  lemma ParamStep(ps: seq<Element>, i: int)
    requires 0 <= i < |ps|
    ensures forall k: nat :: SlotCount(ps[..i + 1], k) == SlotCount(ps[..i], k) + (if SlotOfParam(ps[i]) == Some(k) then 1 else 0)
  {
    assert ps[..i + 1][..i] == ps[..i];
  }

  /** A parameter counts towards `npar[k]` exactly when it is called ParNames[k]. */
  lemma SlotMeansName(p: Element, k: nat)
    requires k < 6
    ensures SlotOfParam(p) == Some(k) <==> ParName(p) == ParNames[k]
  {
  }

  /** A count of one means exactly one parameter is called ParNames[k]; `i` is its position. */
  lemma {:induction false} SlotCountOne(ps: seq<Element>, k: nat) returns (i: int)
    requires SlotCount(ps, k) == 1
    ensures 0 <= i < |ps| && SlotOfParam(ps[i]) == Some(k)
    ensures forall j :: 0 <= j < |ps| && j != i ==> SlotOfParam(ps[j]) != Some(k)
    decreases |ps|
  {
    var init := ps[..|ps| - 1];
    assert forall j :: 0 <= j < |init| ==> init[j] == ps[j];
    if SlotOfParam(ps[|ps| - 1]) == Some(k) {
      SlotCountZero(init, k);
      i := |ps| - 1;
    } else {
      i := SlotCountOne(init, k);
    }
  }

  /** A count of zero means no parameter is called ParNames[k]. */
  lemma {:induction false} SlotCountZero(ps: seq<Element>, k: nat)
    requires SlotCount(ps, k) == 0
    ensures forall i :: 0 <= i < |ps| ==> SlotOfParam(ps[i]) != Some(k)
    decreases |ps|
  {
    if ps != [] {
      var init := ps[..|ps| - 1];
      SlotCountZero(init, k);
      assert forall i :: 0 <= i < |init| ==> init[i] == ps[i];
    }
  }

  /** When exactly one parameter counts towards `npar[k]`, the file read for slot k is that parameter's file. */
  lemma {:induction false} LastFileOfUnique(ps: seq<Element>, k: nat, i: int)
    requires 0 <= i < |ps| && SlotOfParam(ps[i]) == Some(k)
    requires forall j :: 0 <= j < |ps| && j != i ==> SlotOfParam(ps[j]) != Some(k)
    ensures LastFile(ps, k, k) == Some(Attribute(ps[i], "file"))
    decreases |ps|
  {
    var init := ps[..|ps| - 1];
    if i < |ps| - 1 {
      assert forall j :: 0 <= j < |init| ==> init[j] == ps[j];
      LastFileOfUnique(init, k, i);
    }
  }

  /** A value loaded from the last matching file, or the cleared value when there is none. */
  function Loaded<T>(f: Option<string>, load: string -> T, cleared: T): T {
    if f.Some? then load(f.value) else cleared
  }

  /** The six members that `read` loads from files. */
  datatype Loadables = Loadables(onSpec: Pha, offSpec: Pha, onRegions: Regions, offRegions: Regions, arf: Arf, rmf: Rmf)

  function ClearedLoadables(): Loadables {
    Loadables(EmptyPha(), EmptyPha(), EmptyRegions(), EmptyRegions(), EmptyArf(), EmptyRmf())
  }

  /** One parameter of `read` as the source has it: "Regions_off" loads the on regions. */
  function LoadStepAsWritten(l: Loadables, p: Element, store: Store): Loadables {
    var f := Attribute(p, "file");
    var slot := SlotOfParam(p);
    if slot == Some(0) then l.(onSpec := store.pha(f))
    else if slot == Some(1) then l.(offSpec := store.pha(f))
    else if slot == Some(2) then l.(onRegions := store.regions(f))
    else if slot == Some(3) then l.(onRegions := store.regions(f))
    else if slot == Some(4) then l.(arf := store.arf(f))
    else if slot == Some(5) then l.(rmf := store.rmf(f))
    else l
  }

  /** One parameter of `read` as intended: each parameter loads the member it names. */
  function LoadStep(l: Loadables, p: Element, store: Store): Loadables {
    var f := Attribute(p, "file");
    var slot := SlotOfParam(p);
    if slot == Some(0) then l.(onSpec := store.pha(f))
    else if slot == Some(1) then l.(offSpec := store.pha(f))
    else if slot == Some(2) then l.(onRegions := store.regions(f))
    else if slot == Some(3) then l.(offRegions := store.regions(f))
    else if slot == Some(4) then l.(arf := store.arf(f))
    else if slot == Some(5) then l.(rmf := store.rmf(f))
    else l
  }

  /** The members after the loop of `read` as the source has it, starting from cleared members. */
  function LoadAllAsWritten(ps: seq<Element>, store: Store): Loadables
    decreases |ps|
  {
    if ps == [] then ClearedLoadables() else LoadStepAsWritten(LoadAllAsWritten(ps[..|ps| - 1], store), ps[|ps| - 1], store)
  }

  /** The members after the loop of `read` as intended, starting from cleared members. */
  function LoadAll(ps: seq<Element>, store: Store): Loadables
    decreases |ps|
  {
    if ps == [] then ClearedLoadables() else LoadStep(LoadAll(ps[..|ps| - 1], store), ps[|ps| - 1], store)
  }

  /**
   * As the source has it, each member holds the file of the last parameter
   * that loads it; the on regions take whichever region parameter comes
   * last, and the off regions are never loaded.
   */
  lemma {:induction false} LoadAllAsWrittenFiles(ps: seq<Element>, store: Store)
    ensures LoadAllAsWritten(ps, store) == Loadables(
      Loaded(LastFile(ps, 0, 0), store.pha, EmptyPha()),
      Loaded(LastFile(ps, 1, 1), store.pha, EmptyPha()),
      Loaded(LastFile(ps, 2, 3), store.regions, EmptyRegions()),
      EmptyRegions(),
      Loaded(LastFile(ps, 4, 4), store.arf, EmptyArf()),
      Loaded(LastFile(ps, 5, 5), store.rmf, EmptyRmf()))
    decreases |ps|
  {
    if ps != [] {
      LoadAllAsWrittenFiles(ps[..|ps| - 1], store);
    }
  }

  /** As intended, each member holds the file of the last parameter with its own name. */
  lemma {:induction false} LoadAllFiles(ps: seq<Element>, store: Store)
    ensures LoadAll(ps, store) == Loadables(
      Loaded(LastFile(ps, 0, 0), store.pha, EmptyPha()),
      Loaded(LastFile(ps, 1, 1), store.pha, EmptyPha()),
      Loaded(LastFile(ps, 2, 2), store.regions, EmptyRegions()),
      Loaded(LastFile(ps, 3, 3), store.regions, EmptyRegions()),
      Loaded(LastFile(ps, 4, 4), store.arf, EmptyArf()),
      Loaded(LastFile(ps, 5, 5), store.rmf, EmptyRmf()))
    decreases |ps|
  {
    if ps != [] {
      LoadAllFiles(ps[..|ps| - 1], store);
    }
  }

  /**
   * When every name occurs exactly once, the intended `read` loads each
   * member from the file of the one parameter with its name; in particular
   * the off regions come from the "Regions_off" parameter.
   */
  lemma ReadLoadsNamedFiles(ps: seq<Element>, store: Store, i: int)
    requires forall k :: 0 <= k < 6 ==> SlotCount(ps, k) == 1
    requires 0 <= i < |ps| && ParName(ps[i]) == "Regions_off"
    ensures LoadAll(ps, store).offRegions == store.regions(Attribute(ps[i], "file"))
  {
    LoadAllFiles(ps, store);
    var j := SlotCountOne(ps, 3);
    assert SlotOfParam(ps[i]) == Some(3);
    LastFileOfUnique(ps, 3, j);
  }

  /** The same parameter list, read as the source has it, leaves the off regions cleared. */
  lemma ReadAsWrittenDropsOffRegions(ps: seq<Element>, store: Store)
    ensures LoadAllAsWritten(ps, store).offRegions == EmptyRegions()
  {
    LoadAllAsWrittenFiles(ps, store);
  }

  /** A parameter list in which position j holds the name of counter j counts each name exactly once. */
  lemma {:induction false} SlotCountInOrder(ps: seq<Element>, n: nat, k: nat)
    requires n <= |ps|
    requires forall j :: 0 <= j < |ps| ==> SlotOfParam(ps[j]) == Some(j)
    ensures SlotCount(ps[..n], k) == if k < n then 1 else 0
    decreases n
  {
    if n > 0 {
      assert ps[..n][..n - 1] == ps[..n - 1];
      SlotCountInOrder(ps, n - 1, k);
    }
  }

  // ---------------------------------------------------------------------
  // Writing the parameter list
  // ---------------------------------------------------------------------

  /** The six parameter nodes `write` appends to an element without children, in counter order. */
  function DefaultParams(): (ps: seq<Element>)
    ensures |ps| == 6
    ensures forall k :: 0 <= k < 6 ==> ps[k].name == "parameter" && ParName(ps[k]) == ParNames[k]
  {
    seq(6, k requires 0 <= k < 6 => Leaf("parameter", "name", ParNames[k]))
  }

  /** The element `write` goes on to check: an element without children has the six default nodes appended. */
  function Prepared(xml: Element): Element {
    if Elements(xml) == 0 then xml.(children := xml.children + DefaultParams()) else xml
  }

  /**
   * `write` on an element without children: afterwards it has exactly six
   * "parameter" children, the default nodes, and each name occurs once, so
   * both checks of `write` pass.
   */
  lemma PreparedEmpty(xml: Element)
    requires Elements(xml) == 0
    ensures Elements(Prepared(xml)) == 6 && ElementsNamed(Prepared(xml), "parameter") == 6
    ensures Params(Prepared(xml)) == DefaultParams()
    ensures EachNameOnce(Params(Prepared(xml)))
  {
    var ds := DefaultParams();
    assert Prepared(xml).children == ds;
    AllNamedPositions(ds, "parameter");
    assert Params(Prepared(xml)) == ds;
    DefaultParamsOnce();
  }

  /** Each parameter name selects its own counter. */
  lemma SlotOfParNames(k: nat)
    requires k < 6
    ensures SlotOf(ParNames[k]) == Some(k)
  {
  }

  /** The default parameter nodes name each counter once. */
  lemma DefaultParamsOnce()
    ensures EachNameOnce(DefaultParams())
  {
    var ds := DefaultParams();
    forall j | 0 <= j < 6
      ensures SlotOfParam(ds[j]) == Some(j)
    {
      SlotOfParNames(j);
    }
    forall k | 0 <= k < 6
      ensures SlotCount(ds, k) == 1
    {
      SlotCountInOrder(ds, 6, k);
      assert ds[..6] == ds;
    }
  }

  /** The file name of the member counted by `npar[k]`. */
  function MemberFile(l: Loadables, k: nat): string {
    if k == 0 then l.onSpec.file
    else if k == 1 then l.offSpec.file
    else if k == 2 then l.onRegions.file
    else if k == 3 then l.offRegions.file
    else if k == 4 then l.arf.file
    else l.rmf.file
  }

  /** One parameter as `write` leaves it: a recognised name gets the file name of its member. */
  function WriteParam(p: Element, l: Loadables): (r: Element)
    ensures r.name == p.name && SlotOfParam(r) == SlotOfParam(p)
    ensures SlotOfParam(p).Some? ==> Attribute(r, "file") == MemberFile(l, SlotOfParam(p).value)
    ensures SlotOfParam(p).None? ==> r == p
  {
    if SlotOfParam(p).Some? then SetAttribute(p, "file", MemberFile(l, SlotOfParam(p).value)) else p
  }

  function WriteParams(ps: seq<Element>, l: Loadables): (rs: seq<Element>)
    ensures |rs| == |ps|
    ensures forall j :: 0 <= j < |ps| ==> rs[j] == WriteParam(ps[j], l)
  {
    seq(|ps|, j requires 0 <= j < |ps| => WriteParam(ps[j], l))
  }

  /** Writing file names changes no parameter name, so every counter keeps its count. */
  lemma {:induction false} WriteParamsCounts(ps: seq<Element>, l: Loadables, k: nat)
    ensures SlotCount(WriteParams(ps, l), k) == SlotCount(ps, k)
    decreases |ps|
  {
    if ps != [] {
      var init := ps[..|ps| - 1];
      WriteParamsCounts(init, l, k);
      assert WriteParams(ps, l)[..|ps| - 1] == WriteParams(init, l);
    }
  }

  /** After `write` (as intended) a list with every name once names each member's own file. */
  lemma WrittenFile(ps: seq<Element>, l: Loadables, k: nat)
    requires EachNameOnce(ps) && k < 6
    ensures LastFile(WriteParams(ps, l), k, k) == Some(MemberFile(l, k))
  {
    var ws := WriteParams(ps, l);
    WriteParamsCounts(ps, l, k);
    var i := SlotCountOne(ws, k);
    LastFileOfUnique(ws, k, i);
  }

  /**
   * Write then read: when every name occurs once and loading each member's
   * file yields that member again, reading the written list (as intended)
   * restores all six members.
   */
  lemma WriteThenRead(ps: seq<Element>, l: Loadables, store: Store)
    requires EachNameOnce(ps)
    requires store.pha(l.onSpec.file) == l.onSpec && store.pha(l.offSpec.file) == l.offSpec
    requires store.regions(l.onRegions.file) == l.onRegions && store.regions(l.offRegions.file) == l.offRegions
    requires store.arf(l.arf.file) == l.arf && store.rmf(l.rmf.file) == l.rmf
    ensures LoadAll(WriteParams(ps, l), store) == l
  {
    var ws := WriteParams(ps, l);
    LoadAllFiles(ws, store);
    WrittenFile(ps, l, 0);
    WrittenFile(ps, l, 1);
    WrittenFile(ps, l, 2);
    WrittenFile(ps, l, 3);
    WrittenFile(ps, l, 4);
    WrittenFile(ps, l, 5);
  }

  // ---------------------------------------------------------------------
  // The response matrix
  // ---------------------------------------------------------------------

  /**
   * Whether cell (a, b) is among those `compute_rmf` has written on reaching
   * cell (i, j) of a matrix with `nm` measured and `nt` true bins: every cell
   * of the rows before i and the cells of row i before column j. When
   * `byRow` (the code as written) only rows that have a true bin a exist.
   */
  predicate CellBefore(a: int, b: int, nm: int, nt: int, byRow: bool, i: int, j: int) {
    0 <= a < nm && 0 <= b < nt && (!byRow || a < nt) && (a < i || (a == i && b < j))
  }

  /** The value of cell (a, b): true energy of bin b, or of bin a when `byRow`. */
  function CellValue(measured: seq<real>, trueE: seq<real>, edisp: (real, real) -> real, byRow: bool, a: int, b: int): real
    requires 0 <= a < |measured| && 0 <= b < |trueE| && (!byRow || a < |trueE|)
  {
    edisp(measured[a], trueE[if byRow then a else b])
  }

  /**
   * The cell map `m` is `m0` with the cells written up to (i, j): it holds
   * exactly the keys of `m0` and those cells, the written cells hold their
   * values and every other key keeps its value from `m0`.
   */
  ghost predicate Written(m: map<(int, int), real>, m0: map<(int, int), real>, measured: seq<real>, trueE: seq<real>,
                          edisp: (real, real) -> real, byRow: bool, i: int, j: int)
  {
    && (forall c :: c in m <==> c in m0 || CellBefore(c.0, c.1, |measured|, |trueE|, byRow, i, j))
    && (forall c :: c in m ==>
          m[c] == if CellBefore(c.0, c.1, |measured|, |trueE|, byRow, i, j)
                  then CellValue(measured, trueE, edisp, byRow, c.0, c.1) else m0[c])
  }

  /** Writing cell (i, j) extends the written cells by that cell. */
  lemma CellsStep(m: map<(int, int), real>, m0: map<(int, int), real>, measured: seq<real>, trueE: seq<real>,
                  edisp: (real, real) -> real, byRow: bool, i: int, j: int)
    requires Written(m, m0, measured, trueE, edisp, byRow, i, j)
    requires 0 <= i < |measured| && 0 <= j < |trueE| && (!byRow || i < |trueE|)
    ensures Written(m[(i, j) := CellValue(measured, trueE, edisp, byRow, i, j)], m0, measured, trueE, edisp, byRow, i, j + 1)
  {
  }

  /** A finished row is the start of the next one. */
  lemma CellsRowDone(m: map<(int, int), real>, m0: map<(int, int), real>, measured: seq<real>, trueE: seq<real>,
                     edisp: (real, real) -> real, byRow: bool, i: int)
    requires Written(m, m0, measured, trueE, edisp, byRow, i, |trueE|)
    ensures Written(m, m0, measured, trueE, edisp, byRow, i + 1, 0)
  {
    forall a, b ensures CellBefore(a, b, |measured|, |trueE|, byRow, i, |trueE|) == CellBefore(a, b, |measured|, |trueE|, byRow, i + 1, 0) {
    }
  }

  /** Rows from the last one on, or past the true bins when `byRow`, add no cells. */
  lemma CellsComplete(m: map<(int, int), real>, m0: map<(int, int), real>, measured: seq<real>, trueE: seq<real>,
                      edisp: (real, real) -> real, byRow: bool, i: int)
    requires Written(m, m0, measured, trueE, edisp, byRow, i, 0)
    requires i >= |measured| || (byRow && i >= |trueE|)
    ensures Written(m, m0, measured, trueE, edisp, byRow, |measured|, 0)
  {
    forall a, b ensures CellBefore(a, b, |measured|, |trueE|, byRow, i, 0) == CellBefore(a, b, |measured|, |trueE|, byRow, |measured|, 0) {
    }
  }

  /** As the source has it, every cell of a row of the finished matrix holds the same value, whatever the true bin. */
  lemma RmfRowsConstantAsWritten(m: map<(int, int), real>, m0: map<(int, int), real>, measured: seq<real>, trueE: seq<real>,
                                 edisp: (real, real) -> real, a: int, b1: int, b2: int)
    requires Written(m, m0, measured, trueE, edisp, true, |measured|, 0)
    requires 0 <= a < |measured| && a < |trueE| && 0 <= b1 < |trueE| && 0 <= b2 < |trueE|
    ensures (a, b1) in m && (a, b2) in m && m[(a, b1)] == m[(a, b2)]
  {
    assert CellBefore(a, b1, |measured|, |trueE|, true, |measured|, 0);
    assert CellBefore(a, b2, |measured|, |trueE|, true, |measured|, 0);
  }

  /** As intended, cell (a, b) of the finished matrix is the dispersion at measured bin a and true bin b. */
  lemma RmfCellIntended(m: map<(int, int), real>, m0: map<(int, int), real>, measured: seq<real>, trueE: seq<real>,
                        edisp: (real, real) -> real, a: int, b: int)
    requires Written(m, m0, measured, trueE, edisp, false, |measured|, 0)
    requires 0 <= a < |measured| && 0 <= b < |trueE|
    ensures (a, b) in m && m[(a, b)] == edisp(measured[a], trueE[b])
  {
    assert CellBefore(a, b, |measured|, |trueE|, false, |measured|, 0);
  }

  /**
   * One measured bin and two true bins, with a dispersion that is the true
   * energy itself: cell (0, 1) holds 1.0 as the source has it and 2.0 as
   * intended.
   */
  lemma RmfAsWrittenDiffers(m: map<(int, int), real>, m': map<(int, int), real>, m0: map<(int, int), real>)
    requires Written(m, m0, [0.0], [1.0, 2.0], (r: real, t: real) => t, true, 1, 0)
    requires Written(m', m0, [0.0], [1.0, 2.0], (r: real, t: real) => t, false, 1, 0)
    ensures (0, 1) in m && m[(0, 1)] == 1.0
    ensures (0, 1) in m' && m'[(0, 1)] == 2.0
  {
    assert CellBefore(0, 1, 1, 2, true, 1, 0);
    assert CellBefore(0, 1, 1, 2, false, 1, 0);
  }

  // ---------------------------------------------------------------------
  // Filling the spectra
  // ---------------------------------------------------------------------

  datatype Destination = OnSpectrum | OffSpectrum | Nowhere

  /** Where `fill` sends an event: on if its direction is in the on regions, else off if in the off regions. */
  function DestinationOf(e: Event, on: Regions, off: Regions, contains: (Regions, SkyDir) -> bool): Destination {
    if contains(on, e.dir) then OnSpectrum
    else if contains(off, e.dir) then OffSpectrum
    else Nowhere
  }

  /** Energies of the events sent to destination `d`, in event order. */
  function EnergiesTo(evs: seq<Event>, d: Destination, on: Regions, off: Regions, contains: (Regions, SkyDir) -> bool): seq<real>
    decreases |evs|
  {
    if evs == [] then []
    else
      EnergiesTo(evs[..|evs| - 1], d, on, off, contains)
      + (if DestinationOf(evs[|evs| - 1], on, off, contains) == d then [evs[|evs| - 1].energy] else [])
  }

  function Energies(evs: seq<Event>): seq<real>
    decreases |evs|
  {
    if evs == [] then [] else Energies(evs[..|evs| - 1]) + [evs[|evs| - 1].energy]
  }

  /**
   * Every event's energy lands in exactly one of the three places: together
   * the on spectrum, the off spectrum and the dropped events hold each
   * energy exactly as often as the event list does.
   */
  lemma {:induction false} FillPartition(evs: seq<Event>, on: Regions, off: Regions, contains: (Regions, SkyDir) -> bool)
    ensures multiset(EnergiesTo(evs, OnSpectrum, on, off, contains))
          + multiset(EnergiesTo(evs, OffSpectrum, on, off, contains))
          + multiset(EnergiesTo(evs, Nowhere, on, off, contains))
         == multiset(Energies(evs))
    decreases |evs|
  {
    if evs != [] {
      FillPartition(evs[..|evs| - 1], on, off, contains);
    }
  }

  /** An event inside both region sets is counted on only. */
  lemma OnRegionsWin(e: Event, on: Regions, off: Regions, contains: (Regions, SkyDir) -> bool)
    requires contains(on, e.dir)
    ensures EnergiesTo([e], OnSpectrum, on, off, contains) == [e.energy]
    ensures EnergiesTo([e], OffSpectrum, on, off, contains) == []
  {
    assert [e][..0] == [];
  }

  // ---------------------------------------------------------------------
  // The observation
  // ---------------------------------------------------------------------

  class OnOffObservation {
    var name: string
    var id: string
    var instrument: string
    var onRegions: Regions
    var offRegions: Regions
    var onSpec: Pha
    var offSpec: Pha
    var arf: Arf
    var rmf: Rmf

    /** The state `init_members` sets: empty names, instrument "CTA", everything else cleared. */
    ghost predicate Cleared()
      reads this
    {
      && name == "" && id == "" && instrument == "CTA"
      && onRegions == EmptyRegions() && offRegions == EmptyRegions()
      && onSpec == EmptyPha() && offSpec == EmptyPha()
      && arf == EmptyArf() && rmf == EmptyRmf()
    }

    /** The void constructor. */
    constructor ()
      ensures Cleared()
    {
      name, id, instrument := "", "", "CTA";
      onRegions, offRegions := EmptyRegions(), EmptyRegions();
      onSpec, offSpec := EmptyPha(), EmptyPha();
      arf, rmf := EmptyArf(), EmptyRmf();
    }

    /**
     * The constructor from reconstructed energy bins and the two region sets:
     * both spectra and the ARF take the energy bins; the ARF has one zero
     * value per bin.
     */
    constructor FromEbounds(reco: Ebounds, on: Regions, off: Regions)
      ensures name == "" && id == "" && instrument == "CTA"
      ensures onSpec == Pha("", reco, []) && offSpec == Pha("", reco, [])
      ensures onRegions == on && offRegions == off
      ensures arf.file == "" && arf.ebounds == reco && |arf.specresp| == |reco.logMeans|
      ensures forall i :: 0 <= i < |arf.specresp| ==> arf.specresp[i] == 0.0
      ensures rmf == EmptyRmf()
    {
      name, id, instrument := "", "", "CTA";
      onSpec, offSpec := Pha("", reco, []), Pha("", reco, []);
      onRegions, offRegions := on, off;
      arf := Arf("", reco, seq(|reco.logMeans|, _ => 0.0));
      rmf := EmptyRmf();
    }

    /** `clear`: back to the state of the void constructor. */
    method Clear()
      modifies this
      ensures Cleared()
    {
      name, id, instrument := "", "", "CTA";
      onRegions, offRegions := EmptyRegions(), EmptyRegions();
      onSpec, offSpec := EmptyPha(), EmptyPha();
      arf, rmf := EmptyArf(), EmptyRmf();
    }

    /** `copy_members`: every member takes the other observation's value. */
    method CopyMembers(other: OnOffObservation)
      requires other != this
      modifies this
      ensures name == other.name && id == other.id && instrument == other.instrument
      ensures onRegions == other.onRegions && offRegions == other.offRegions
      ensures onSpec == other.onSpec && offSpec == other.offSpec
      ensures arf == other.arf && rmf == other.rmf
    {
      name, id, instrument := other.name, other.id, other.instrument;
      onRegions, offRegions := other.onRegions, other.offRegions;
      onSpec, offSpec := other.onSpec, other.offSpec;
      arf, rmf := other.arf, other.rmf;
    }

    // -------------------------------------------------------------------
    // read
    // -------------------------------------------------------------------

    /** The members that `read` loads. */
    function Members(): Loadables
      reads this
    {
      Loadables(onSpec, offSpec, onRegions, offRegions, arf, rmf)
    }

    /** The loop body of `read` as the source has it: a "Regions_off" file is loaded into the on regions. */
    method LoadParameterAsWritten(par: Element, store: Store) returns (slot: Option<nat>)
      modifies this
      ensures slot == SlotOfParam(par)
      ensures name == old(name) && id == old(id) && instrument == old(instrument)
      ensures Members() == LoadStepAsWritten(old(Members()), par, store)
    {
      var parName := ParName(par);
      var filename := Attribute(par, "file");
      slot := SlotOf(parName);
      if parName == "Pha_on" {
        onSpec := store.pha(filename);
      } else if parName == "Pha_off" {
        offSpec := store.pha(filename);
      } else if parName == "Regions_on" {
        onRegions := store.regions(filename);
      } else if parName == "Regions_off" {
        onRegions := store.regions(filename);
      } else if parName == "Arf" {
        arf := store.arf(filename);
      } else if parName == "Rmf" {
        rmf := store.rmf(filename);
      }
    }

    /** The loop body of `read` as intended: each parameter loads the member it names. */
    method LoadParameter(par: Element, store: Store) returns (slot: Option<nat>)
      modifies this
      ensures slot == SlotOfParam(par)
      ensures name == old(name) && id == old(id) && instrument == old(instrument)
      ensures Members() == LoadStep(old(Members()), par, store)
    {
      var parName := ParName(par);
      var filename := Attribute(par, "file");
      slot := SlotOf(parName);
      if parName == "Pha_on" {
        onSpec := store.pha(filename);
      } else if parName == "Pha_off" {
        offSpec := store.pha(filename);
      } else if parName == "Regions_on" {
        onRegions := store.regions(filename);
      } else if parName == "Regions_off" {
        offRegions := store.regions(filename);
      } else if parName == "Arf" {
        arf := store.arf(filename);
      } else if parName == "Rmf" {
        rmf := store.rmf(filename);
      }
    }

    /** The parameter loop of `read` as the source has it, with its six counters. */
    method LoadParametersAsWritten(xml: Element, store: Store) returns (npar: array<int>)
      requires Members() == ClearedLoadables()
      modifies this
      ensures name == old(name) && id == old(id) && instrument == old(instrument)
      ensures npar.Length == 6 && forall k :: 0 <= k < 6 ==> npar[k] == SlotCount(Params(xml), k)
      ensures Members() == LoadAllAsWritten(Params(xml), store)
    {
      ghost var ps := Params(xml);
      npar := new int[6](_ => 0);
      var i := 0;
      while i < ElementsNamed(xml, "parameter")
        invariant 0 <= i <= |ps|
        invariant name == old(name) && id == old(id) && instrument == old(instrument)
        invariant forall k :: 0 <= k < 6 ==> npar[k] == SlotCount(ps[..i], k)
        invariant Members() == LoadAllAsWritten(ps[..i], store)
      {
        var par := ElementNamed(xml, "parameter", i);
        assert par == ps[i];
        ParamStep(ps, i);
        assert ps[..i + 1][..i] == ps[..i];
        var slot := LoadParameterAsWritten(par, store);
        Tally(npar, slot);
        i := i + 1;
      }
      assert ps[..i] == ps;
    }

    /** The parameter loop of `read` as intended, with its six counters. */
    method LoadParameters(xml: Element, store: Store) returns (npar: array<int>)
      requires Members() == ClearedLoadables()
      modifies this
      ensures name == old(name) && id == old(id) && instrument == old(instrument)
      ensures npar.Length == 6 && forall k :: 0 <= k < 6 ==> npar[k] == SlotCount(Params(xml), k)
      ensures Members() == LoadAll(Params(xml), store)
    {
      ghost var ps := Params(xml);
      npar := new int[6](_ => 0);
      var i := 0;
      while i < ElementsNamed(xml, "parameter")
        invariant 0 <= i <= |ps|
        invariant name == old(name) && id == old(id) && instrument == old(instrument)
        invariant forall k :: 0 <= k < 6 ==> npar[k] == SlotCount(ps[..i], k)
        invariant Members() == LoadAll(ps[..i], store)
      {
        var par := ElementNamed(xml, "parameter", i);
        assert par == ps[i];
        ParamStep(ps, i);
        assert ps[..i + 1][..i] == ps[..i];
        var slot := LoadParameter(par, store);
        Tally(npar, slot);
        i := i + 1;
      }
      assert ps[..i] == ps;
    }

    /**
     * `read` as the source has it: clear, take the instrument attribute,
     * check for exactly six "parameter" children, load each parameter's
     * file, then check that each of the six names occurred exactly once.
     * The off regions are never loaded.
     */
    method ReadAsWritten(xml: Element, store: Store) returns (err: Option<ObsError>)
      modifies this
      ensures name == "" && id == "" && instrument == Attribute(xml, "instrument")
      ensures offRegions == EmptyRegions()
      ensures Elements(xml) != 6 || ElementsNamed(xml, "parameter") != 6 ==>
        err == Some(XmlInvalidParnum(G_READ, ReadParnumMessage)) && Members() == ClearedLoadables()
      ensures Elements(xml) == 6 && ElementsNamed(xml, "parameter") == 6 ==>
        && (err.None? <==> EachNameOnce(Params(xml)))
        && (err.Some? ==> err == Some(XmlInvalidParnames(G_READ, ReadParnamesMessage)))
        && Members() == LoadAllAsWritten(Params(xml), store)
    {
      Clear();
      instrument := Attribute(xml, "instrument");
      if Elements(xml) != 6 || ElementsNamed(xml, "parameter") != 6 {
        return Some(XmlInvalidParnum(G_READ, ReadParnumMessage));
      }
      var npar := LoadParametersAsWritten(xml, store);
      EachNameOnceCases(Params(xml));
      ReadAsWrittenDropsOffRegions(Params(xml), store);
      if npar[0] != 1 || npar[1] != 1 || npar[2] != 1 || npar[3] != 1 || npar[4] != 1 || npar[5] != 1 {
        return Some(XmlInvalidParnames(G_READ, ReadParnamesMessage));
      }
      return None;
    }

    /**
     * `read` with each region parameter loading its own region set; see
     * `LoadAllFiles` and `ReadLoadsNamedFiles` for what the members then hold.
     */
    method Read(xml: Element, store: Store) returns (err: Option<ObsError>)
      modifies this
      ensures name == "" && id == "" && instrument == Attribute(xml, "instrument")
      ensures Elements(xml) != 6 || ElementsNamed(xml, "parameter") != 6 ==>
        err == Some(XmlInvalidParnum(G_READ, ReadParnumMessage)) && Members() == ClearedLoadables()
      ensures Elements(xml) == 6 && ElementsNamed(xml, "parameter") == 6 ==>
        && (err.None? <==> EachNameOnce(Params(xml)))
        && (err.Some? ==> err == Some(XmlInvalidParnames(G_READ, ReadParnamesMessage)))
        && Members() == LoadAll(Params(xml), store)
    {
      Clear();
      instrument := Attribute(xml, "instrument");
      if Elements(xml) != 6 || ElementsNamed(xml, "parameter") != 6 {
        return Some(XmlInvalidParnum(G_READ, ReadParnumMessage));
      }
      var npar := LoadParameters(xml, store);
      EachNameOnceCases(Params(xml));
      if npar[0] != 1 || npar[1] != 1 || npar[2] != 1 || npar[3] != 1 || npar[4] != 1 || npar[5] != 1 {
        return Some(XmlInvalidParnames(G_READ, ReadParnamesMessage));
      }
      return None;
    }

    // -------------------------------------------------------------------
    // write
    // -------------------------------------------------------------------

    /** The loop body of `write`: the parameter with the file name of the member it names, and its counter. */
    method WriteParameter(par: Element) returns (r: Element, slot: Option<nat>)
      ensures r == WriteParam(par, Members()) && slot == SlotOfParam(par)
    {
      var parName := ParName(par);
      slot := SlotOf(parName);
      r := par;
      if parName == "Pha_on" {
        r := SetAttribute(par, "file", onSpec.file);
      } else if parName == "Pha_off" {
        r := SetAttribute(par, "file", offSpec.file);
      } else if parName == "Regions_on" {
        r := SetAttribute(par, "file", onRegions.file);
      } else if parName == "Regions_off" {
        r := SetAttribute(par, "file", offRegions.file);
      } else if parName == "Arf" {
        r := SetAttribute(par, "file", arf.file);
      } else if parName == "Rmf" {
        r := SetAttribute(par, "file", rmf.file);
      }
    }

    /** The first step of `write`: an element without children gets the six parameter nodes. */
    static method AppendDefaults(xml: Element) returns (x: Element)
      ensures x == Prepared(xml)
    {
      x := xml;
      if Elements(xml) == 0 {
        x := Append(x, Leaf("parameter", "name", "Pha_on"));
        x := Append(x, Leaf("parameter", "name", "Pha_off"));
        x := Append(x, Leaf("parameter", "name", "Regions_on"));
        x := Append(x, Leaf("parameter", "name", "Regions_off"));
        x := Append(x, Leaf("parameter", "name", "Arf"));
        x := Append(x, Leaf("parameter", "name", "Rmf"));
        assert x.children == xml.children + DefaultParams();
      }
    }

    /** The parameter loop of `write` as the source has it: every recognised name increments `npar[0]`. */
    method WriteParametersAsWritten(x: Element) returns (out: Element, npar: array<int>)
      requires Elements(x) == 6 && ElementsNamed(x, "parameter") == 6
      ensures out.name == x.name && out.attributes == x.attributes && Elements(out) == 6
      ensures Params(out) == WriteParams(Params(x), Members())
      ensures npar.Length == 6 && forall k :: 1 <= k < 6 ==> npar[k] == 0
    {
      ghost var ps := Params(x);
      npar := new int[6](_ => 0);
      out := x;
      var i := 0;
      while i < 6
        invariant 0 <= i <= 6
        invariant out.name == x.name && out.attributes == x.attributes && Elements(out) == 6
        invariant ElementsNamed(out, "parameter") == 6
        invariant forall j :: 0 <= j < 6 ==> ElementNamed(out, "parameter", j) == if j < i then WriteParam(ps[j], Members()) else ps[j]
        invariant forall k :: 1 <= k < 6 ==> npar[k] == 0
      {
        var par := ElementNamed(out, "parameter", i);
        var written, slot := WriteParameter(par);
        if slot.Some? {
          npar[0] := npar[0] + 1;
        }
        out := ReplaceNamed(out, "parameter", i, written);
        i := i + 1;
      }
      assert Params(out) == WriteParams(ps, Members());
    }

    /** The parameter loop of `write` with each name counted in its own counter. */
    method WriteParameters(x: Element) returns (out: Element, npar: array<int>)
      requires Elements(x) == 6 && ElementsNamed(x, "parameter") == 6
      ensures out.name == x.name && out.attributes == x.attributes && Elements(out) == 6
      ensures Params(out) == WriteParams(Params(x), Members())
      ensures npar.Length == 6 && forall k :: 0 <= k < 6 ==> npar[k] == SlotCount(Params(x), k)
    {
      ghost var ps := Params(x);
      npar := new int[6](_ => 0);
      out := x;
      var i := 0;
      while i < 6
        invariant 0 <= i <= 6
        invariant out.name == x.name && out.attributes == x.attributes && Elements(out) == 6
        invariant ElementsNamed(out, "parameter") == 6
        invariant forall j :: 0 <= j < 6 ==> ElementNamed(out, "parameter", j) == if j < i then WriteParam(ps[j], Members()) else ps[j]
        invariant forall k :: 0 <= k < 6 ==> npar[k] == SlotCount(ps[..i], k)
      {
        var par := ElementNamed(out, "parameter", i);
        ParamStep(ps, i);
        var written, slot := WriteParameter(par);
        Tally(npar, slot);
        out := ReplaceNamed(out, "parameter", i, written);
        i := i + 1;
      }
      assert Params(out) == WriteParams(ps, Members());
      assert ps[..6] == ps;
    }

    /**
     * `write` as the source has it: counters 1..5 stay zero, so `write`
     * always ends with an error, after the file names have been written
     * into the element.
     */
    method WriteAsWritten(xml: Element) returns (out: Element, err: Option<ObsError>)
      ensures err.Some?
      ensures Elements(Prepared(xml)) != 6 || ElementsNamed(Prepared(xml), "parameter") != 6 ==>
        out == Prepared(xml) && err == Some(XmlInvalidParnum(G_WRITE, WriteParnumMessage))
      ensures Elements(Prepared(xml)) == 6 && ElementsNamed(Prepared(xml), "parameter") == 6 ==>
        && err == Some(XmlInvalidParnames(G_WRITE, WriteParnamesMessage))
        && out.name == xml.name && out.attributes == xml.attributes && Elements(out) == 6
        && Params(out) == WriteParams(Params(Prepared(xml)), Members())
    {
      var x := AppendDefaults(xml);
      if Elements(x) != 6 || ElementsNamed(x, "parameter") != 6 {
        return x, Some(XmlInvalidParnum(G_WRITE, WriteParnumMessage));
      }
      var npar;
      out, npar := WriteParametersAsWritten(x);
      var n0, n1, n2, n3, n4, n5 := npar[0], npar[1], npar[2], npar[3], npar[4], npar[5];
      err := if n0 != 1 || n1 != 1 || n2 != 1 || n3 != 1 || n4 != 1 || n5 != 1
        then Some(XmlInvalidParnames(G_WRITE, WriteParnamesMessage)) else None;
    }

    /**
     * `write` with each name counted in its own counter: it succeeds exactly
     * when the element (after the defaults for an empty one) has six
     * "parameter" children naming each member once.
     */
    method Write(xml: Element) returns (out: Element, err: Option<ObsError>)
      ensures Elements(Prepared(xml)) != 6 || ElementsNamed(Prepared(xml), "parameter") != 6 ==>
        out == Prepared(xml) && err == Some(XmlInvalidParnum(G_WRITE, WriteParnumMessage))
      ensures Elements(Prepared(xml)) == 6 && ElementsNamed(Prepared(xml), "parameter") == 6 ==>
        && (err.None? <==> EachNameOnce(Params(Prepared(xml))))
        && (err.Some? ==> err == Some(XmlInvalidParnames(G_WRITE, WriteParnamesMessage)))
        && out.name == xml.name && out.attributes == xml.attributes && Elements(out) == 6
        && Params(out) == WriteParams(Params(Prepared(xml)), Members())
    {
      var x := AppendDefaults(xml);
      if Elements(x) != 6 || ElementsNamed(x, "parameter") != 6 {
        return x, Some(XmlInvalidParnum(G_WRITE, WriteParnumMessage));
      }
      var npar;
      out, npar := WriteParameters(x);
      EachNameOnceCases(Params(x));
      if npar[0] != 1 || npar[1] != 1 || npar[2] != 1 || npar[3] != 1 || npar[4] != 1 || npar[5] != 1 {
        return out, Some(XmlInvalidParnames(G_WRITE, WriteParnamesMessage));
      }
      return out, None;
    }

    /** `write` on an element without children always succeeds. */
    method WriteEmptySucceeds(xml: Element) returns (out: Element, err: Option<ObsError>)
      requires Elements(xml) == 0
      ensures err.None? && Params(out) == WriteParams(DefaultParams(), Members())
    {
      PreparedEmpty(xml);
      out, err := Write(xml);
    }

    // -------------------------------------------------------------------
    // fill and the response
    // -------------------------------------------------------------------

    /**
     * `fill`: without an event list, an invalid-argument error; otherwise
     * each event's energy is filled into the on spectrum when its direction
     * lies in the on regions, else into the off spectrum when it lies in the
     * off regions, else nowhere.
     */
    method Fill(events: Option<seq<Event>>, contains: (Regions, SkyDir) -> bool) returns (err: Option<ObsError>)
      modifies this`onSpec, this`offSpec
      ensures events.None? ==>
        err == Some(InvalidArgument(G_FILL, FillMessage)) && onSpec == old(onSpec) && offSpec == old(offSpec)
      ensures events.Some? ==>
        && err.None?
        && onSpec == old(onSpec).(energies := old(onSpec.energies) + EnergiesTo(events.value, OnSpectrum, onRegions, offRegions, contains))
        && offSpec == old(offSpec).(energies := old(offSpec.energies) + EnergiesTo(events.value, OffSpectrum, onRegions, offRegions, contains))
    {
      if events.None? {
        return Some(InvalidArgument(G_FILL, FillMessage));
      }
      var evs := events.value;
      var i := 0;
      while i < |evs|
        invariant 0 <= i <= |evs|
        invariant onSpec == old(onSpec).(energies := old(onSpec.energies) + EnergiesTo(evs[..i], OnSpectrum, onRegions, offRegions, contains))
        invariant offSpec == old(offSpec).(energies := old(offSpec.energies) + EnergiesTo(evs[..i], OffSpectrum, onRegions, offRegions, contains))
      {
        assert evs[..i + 1][..i] == evs[..i];
        var e := evs[i];
        if contains(onRegions, e.dir) {
          onSpec := onSpec.(energies := onSpec.energies + [e.energy]);
        } else if contains(offRegions, e.dir) {
          offSpec := offSpec.(energies := offSpec.energies + [e.energy]);
        }
        i := i + 1;
      }
      assert evs[..i] == evs;
      return None;
    }

    /**
     * `compute_arf`: the effective area of each reconstructed energy bin,
     * evaluated at the bin's log-mean energy. The ARF keeps one value per bin.
     */
    method ComputeArf(aeff: real -> real)
      requires |arf.specresp| == |arf.ebounds.logMeans|
      modifies this`arf
      ensures arf.file == old(arf.file) && arf.ebounds == old(arf.ebounds)
      ensures |arf.specresp| == |arf.ebounds.logMeans|
      ensures forall i :: 0 <= i < |arf.specresp| ==> arf.specresp[i] == aeff(arf.ebounds.logMeans[i])
    {
      var bounds := arf.ebounds;
      var i := 0;
      while i < |bounds.logMeans|
        invariant 0 <= i <= |bounds.logMeans|
        invariant arf.file == old(arf.file) && arf.ebounds == bounds
        invariant |arf.specresp| == |bounds.logMeans|
        invariant forall k :: 0 <= k < i ==> arf.specresp[k] == aeff(bounds.logMeans[k])
      {
        arf := arf.(specresp := arf.specresp[i := aeff(bounds.logMeans[i])]);
        i := i + 1;
      }
    }

    /**
     * `compute_rmf` as the source has it: cell (i, j) uses the true energy of
     * bin i. When there are true bins but fewer than measured bins, the row
     * index runs past the true bins and the energy lookup fails after the
     * earlier rows were written.
     */
    method ComputeRmfAsWritten(edisp: (real, real) -> real, trueBounds: Ebounds) returns (err: Option<ObsError>)
      modifies this`rmf
      ensures err.Some? <==> 0 < |trueBounds.logMeans| < |old(rmf.emeasured.logMeans)|
      ensures err.Some? ==> err == Some(EnergyIndexOutOfRange(|trueBounds.logMeans|, |trueBounds.logMeans|))
      ensures rmf.file == old(rmf.file) && rmf.emeasured == old(rmf.emeasured)
      ensures Written(rmf.matrix, old(rmf.matrix), rmf.emeasured.logMeans, trueBounds.logMeans, edisp, true, |rmf.emeasured.logMeans|, 0)
    {
      var measured := rmf.emeasured.logMeans;
      var trueE := trueBounds.logMeans;
      ghost var m0 := rmf.matrix;
      var i := 0;
      while i < |measured|
        invariant 0 <= i <= |measured|
        invariant i > 0 && |trueE| > 0 ==> i <= |trueE|
        invariant rmf.file == old(rmf.file) && rmf.emeasured == old(rmf.emeasured)
        invariant Written(rmf.matrix, m0, measured, trueE, edisp, true, i, 0)
      {
        var ereco := measured[i];
        var j := 0;
        while j < |trueE|
          invariant 0 <= j <= |trueE|
          invariant j > 0 ==> i < |trueE|
          invariant rmf.file == old(rmf.file) && rmf.emeasured == old(rmf.emeasured)
          invariant Written(rmf.matrix, m0, measured, trueE, edisp, true, i, j)
        {
          if i >= |trueE| {
            CellsComplete(rmf.matrix, m0, measured, trueE, edisp, true, i);
            return Some(EnergyIndexOutOfRange(i, |trueE|));
          }
          var etrue := trueE[i];
          CellsStep(rmf.matrix, m0, measured, trueE, edisp, true, i, j);
          rmf := rmf.(matrix := rmf.matrix[(i, j) := edisp(ereco, etrue)]);
          j := j + 1;
        }
        CellsRowDone(rmf.matrix, m0, measured, trueE, edisp, true, i);
        i := i + 1;
      }
      CellsComplete(rmf.matrix, m0, measured, trueE, edisp, true, i);
      return None;
    }

    /** `compute_rmf` as intended: cell (i, j) from measured bin i and true bin j, for every pair of bins. */
    method ComputeRmf(edisp: (real, real) -> real, trueBounds: Ebounds)
      modifies this`rmf
      ensures rmf.file == old(rmf.file) && rmf.emeasured == old(rmf.emeasured)
      ensures Written(rmf.matrix, old(rmf.matrix), rmf.emeasured.logMeans, trueBounds.logMeans, edisp, false, |rmf.emeasured.logMeans|, 0)
    {
      var measured := rmf.emeasured.logMeans;
      var trueE := trueBounds.logMeans;
      ghost var m0 := rmf.matrix;
      var i := 0;
      while i < |measured|
        invariant 0 <= i <= |measured|
        invariant rmf.file == old(rmf.file) && rmf.emeasured == old(rmf.emeasured)
        invariant Written(rmf.matrix, m0, measured, trueE, edisp, false, i, 0)
      {
        var ereco := measured[i];
        var j := 0;
        while j < |trueE|
          invariant 0 <= j <= |trueE|
          invariant rmf.file == old(rmf.file) && rmf.emeasured == old(rmf.emeasured)
          invariant Written(rmf.matrix, m0, measured, trueE, edisp, false, i, j)
        {
          var etrue := trueE[j];
          CellsStep(rmf.matrix, m0, measured, trueE, edisp, false, i, j);
          rmf := rmf.(matrix := rmf.matrix[(i, j) := edisp(ereco, etrue)]);
          j := j + 1;
        }
        CellsRowDone(rmf.matrix, m0, measured, trueE, edisp, false, i);
        i := i + 1;
      }
      CellsComplete(rmf.matrix, m0, measured, trueE, edisp, false, i);
    }

    /**
     * `compute_response` as the source has it: the ARF, then `compute_rmf` as
     * written, whose error leaves the ARF already computed.
     */
    method ComputeResponseAsWritten(aeff: real -> real, edisp: (real, real) -> real, trueBounds: Ebounds) returns (err: Option<ObsError>)
      requires |arf.specresp| == |arf.ebounds.logMeans|
      modifies this`arf, this`rmf
      ensures arf.file == old(arf.file) && arf.ebounds == old(arf.ebounds)
      ensures |arf.specresp| == |arf.ebounds.logMeans|
      ensures forall i :: 0 <= i < |arf.specresp| ==> arf.specresp[i] == aeff(arf.ebounds.logMeans[i])
      ensures err.Some? <==> 0 < |trueBounds.logMeans| < |old(rmf.emeasured.logMeans)|
      ensures err.Some? ==> err == Some(EnergyIndexOutOfRange(|trueBounds.logMeans|, |trueBounds.logMeans|))
      ensures rmf.file == old(rmf.file) && rmf.emeasured == old(rmf.emeasured)
      ensures Written(rmf.matrix, old(rmf.matrix), rmf.emeasured.logMeans, trueBounds.logMeans, edisp, true, |rmf.emeasured.logMeans|, 0)
    {
      ComputeArf(aeff);
      err := ComputeRmfAsWritten(edisp, trueBounds);
    }

    /** `compute_response` as intended: the ARF, then the RMF from every pair of measured and true bins. */
    method ComputeResponse(aeff: real -> real, edisp: (real, real) -> real, trueBounds: Ebounds)
      requires |arf.specresp| == |arf.ebounds.logMeans|
      modifies this`arf, this`rmf
      ensures arf.file == old(arf.file) && arf.ebounds == old(arf.ebounds)
      ensures |arf.specresp| == |arf.ebounds.logMeans|
      ensures forall i :: 0 <= i < |arf.specresp| ==> arf.specresp[i] == aeff(arf.ebounds.logMeans[i])
      ensures rmf.file == old(rmf.file) && rmf.emeasured == old(rmf.emeasured)
      ensures Written(rmf.matrix, old(rmf.matrix), rmf.emeasured.logMeans, trueBounds.logMeans, edisp, false, |rmf.emeasured.logMeans|, 0)
    {
      ComputeArf(aeff);
      ComputeRmf(edisp, trueBounds);
    }
  }
}
