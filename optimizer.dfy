/**
 * The optimizer function of a data set: for the current parameters it
 * evaluates the binned Poisson statistic (the negative log-likelihood up to a
 * constant), its gradient and its curvature matrix, bin by bin. Each bin
 * contributes only through the parameters whose model derivative is nonzero
 * there (its active set), so the curvature is updated one column per active
 * parameter with a sparse column add.
 *
 * Arithmetic is over `real`; the natural logarithm is a parameter `ln`. A bin
 * is given as its observed counts, its model value and the model gradient.
 */
module DataOptimizer {

  /** One data bin: observed counts, model value and model gradient (one entry per parameter). */
  datatype Bin = Bin(counts: real, model: real, grad: seq<real>)

  /** Parameter `i` takes part in bin `b`: its model derivative there is nonzero. */
  predicate Active(b: Bin, i: int) {
    0 <= i < |b.grad| && b.grad[i] != 0.0
  }

  // ---------------------------------------------------------------------
  // The active set of a bin
  // ---------------------------------------------------------------------

  /** Indices below `n` with a nonzero derivative, in increasing order. */
  function ActiveIndices(g: seq<real>, n: nat): seq<int>
    requires n <= |g|
  {
    if n == 0 then [] else ActiveIndices(g, n - 1) + (if g[n - 1] != 0.0 then [n - 1] else [])
  }

  predicate StrictlyIncreasing(s: seq<int>) {
    forall k, l :: 0 <= k < l < |s| ==> s[k] < s[l]
  }

  /**
   * The index list holds exactly the parameters with a nonzero derivative,
   * strictly increasing, and is never longer than the parameter count.
   */
  lemma {:induction false} ActiveIndicesSpec(g: seq<real>, n: nat)
    requires n <= |g|
    ensures |ActiveIndices(g, n)| <= n
    ensures StrictlyIncreasing(ActiveIndices(g, n))
    ensures forall k :: 0 <= k < |ActiveIndices(g, n)| ==>
      0 <= ActiveIndices(g, n)[k] < n && g[ActiveIndices(g, n)[k]] != 0.0
    ensures forall i :: 0 <= i < n ==> (i in ActiveIndices(g, n) <==> g[i] != 0.0)
  {
    if n > 0 {
      ActiveIndicesSpec(g, n - 1);
    }
  }

  /** What the method using an index array needs from `ActiveIndicesSpec`, without the membership quantifier. */
  lemma ActiveIndexList(g: seq<real>, s: seq<int>)
    requires s == ActiveIndices(g, |g|)
    ensures |s| <= |g| && StrictlyIncreasing(s)
    ensures forall k :: 0 <= k < |s| ==> 0 <= s[k] < |g| && g[s[k]] != 0.0
  {
    ActiveIndicesSpec(g, |g|);
  }

  /** An index missing from the active list has a zero derivative. */
  lemma InactiveOutsideList(g: seq<real>, s: seq<int>, i: int)
    requires s == ActiveIndices(g, |g|) && 0 <= i < |g| && i !in s
    ensures g[i] == 0.0
  {
    ActiveIndicesSpec(g, |g|);
  }

  // ---------------------------------------------------------------------
  // What each bin contributes, and the sums over the bins
  // ---------------------------------------------------------------------

  /** Value contribution: -(n ln m - m) for a bin with a positive model, nothing otherwise. */
  function BinValue(b: Bin, ln: real -> real): real {
    if b.model <= 0.0 then 0.0 else -(b.counts * ln(b.model) - b.model)
  }

  /** Gradient contribution to entry j: (1 - n/m) g_j if n > 0, g_j if n <= 0, on the active set. */
  function BinGrad(b: Bin, j: int): real {
    if b.model <= 0.0 || !Active(b, j) then 0.0
    else if b.counts > 0.0 then (1.0 - b.counts / b.model) * b.grad[j]
    else b.grad[j]
  }

  /** Curvature contribution to entry (i, j): (n/m)/m g_j g_i if n > 0 and both are active. */
  function BinCovar(b: Bin, i: int, j: int): real {
    if b.model <= 0.0 || b.counts <= 0.0 || !Active(b, i) || !Active(b, j) then 0.0
    else (b.counts / b.model / b.model * b.grad[j]) * b.grad[i]
  }

  function ValueOf(bins: seq<Bin>, ln: real -> real): real
    decreases |bins|
  {
    if bins == [] then 0.0 else ValueOf(bins[..|bins| - 1], ln) + BinValue(bins[|bins| - 1], ln)
  }

  function GradAt(bins: seq<Bin>, j: int): real
    decreases |bins|
  {
    if bins == [] then 0.0 else GradAt(bins[..|bins| - 1], j) + BinGrad(bins[|bins| - 1], j)
  }

  function CovarAt(bins: seq<Bin>, i: int, j: int): real
    decreases |bins|
  {
    if bins == [] then 0.0 else CovarAt(bins[..|bins| - 1], i, j) + BinCovar(bins[|bins| - 1], i, j)
  }

  lemma Snoc(bins: seq<Bin>, b: Bin, ln: real -> real, i: int, j: int)
    ensures ValueOf(bins + [b], ln) == ValueOf(bins, ln) + BinValue(b, ln)
    ensures GradAt(bins + [b], j) == GradAt(bins, j) + BinGrad(b, j)
    ensures CovarAt(bins + [b], i, j) == CovarAt(bins, i, j) + BinCovar(b, i, j)
  {
    assert (bins + [b])[..|bins|] == bins;
  }

  // ---------------------------------------------------------------------
  // Properties of the statistic
  // ---------------------------------------------------------------------

  /** The curvature of one bin is symmetric: entry (i, j) and entry (j, i) receive the same term. */
  lemma BinCovarSymmetric(b: Bin, i: int, j: int)
    ensures BinCovar(b, i, j) == BinCovar(b, j, i)
  {
  }

  /** The accumulated curvature matrix is symmetric, whatever the bins. */
  lemma {:induction false} CovarSymmetric(bins: seq<Bin>, i: int, j: int)
    ensures CovarAt(bins, i, j) == CovarAt(bins, j, i)
    decreases |bins|
  {
    if bins != [] {
      CovarSymmetric(bins[..|bins| - 1], i, j);
      BinCovarSymmetric(bins[|bins| - 1], i, j);
    }
  }

  /** A bin whose model is not positive changes neither value, gradient nor curvature. */
  lemma EmptyModelBinSkipped(bins: seq<Bin>, b: Bin, ln: real -> real, i: int, j: int)
    requires b.model <= 0.0
    ensures ValueOf(bins + [b], ln) == ValueOf(bins, ln)
    ensures GradAt(bins + [b], j) == GradAt(bins, j)
    ensures CovarAt(bins + [b], i, j) == CovarAt(bins, i, j)
  {
    Snoc(bins, b, ln, i, j);
  }

  /**
   * A bin with a positive model changes the value by -(n ln m - m) whether or
   * not it has any nonzero derivative.
   */
  lemma ValueStep(bins: seq<Bin>, b: Bin, ln: real -> real)
    requires b.model > 0.0
    ensures ValueOf(bins + [b], ln) == ValueOf(bins, ln) - (b.counts * ln(b.model) - b.model)
  {
    Snoc(bins, b, ln, 0, 0);
  }

  /** Entries outside a bin's active set are not changed by that bin. */
  lemma InactiveUnchanged(bins: seq<Bin>, b: Bin, ln: real -> real, i: int, j: int)
    requires !Active(b, j)
    ensures GradAt(bins + [b], j) == GradAt(bins, j)
    ensures CovarAt(bins + [b], i, j) == CovarAt(bins, i, j)
    ensures CovarAt(bins + [b], j, i) == CovarAt(bins, j, i)
  {
    Snoc(bins, b, ln, i, j);
    Snoc(bins, b, ln, j, i);
  }

  /** A bin with n <= 0 counts adds g_j to the gradient (at n = 0 this is (1 - n/m) g_j) and no curvature. */
  lemma ZeroCountsBin(b: Bin, i: int, j: int)
    requires b.model > 0.0 && b.counts <= 0.0 && Active(b, j)
    ensures BinGrad(b, j) == b.grad[j]
    ensures b.counts == 0.0 ==> BinGrad(b, j) == (1.0 - b.counts / b.model) * b.grad[j]
    ensures BinCovar(b, i, j) == 0.0
  {
  }

  /** With fc = 1 - n/m computed once per bin, the gradient term of a bin with counts is fc g_j. */
  lemma GradientFactored(b: Bin, j: int, fc: real)
    requires b.model > 0.0 && b.counts > 0.0 && fc == 1.0 - b.counts / b.model
    requires Active(b, j)
    ensures BinGrad(b, j) == fc * b.grad[j]
  {
  }

  /** With the factor fa = n/m/m computed once per bin, the curvature term is (fa g_j) g_i. */
  lemma CurvatureFactored(b: Bin, i: int, j: int, fa: real)
    requires b.model > 0.0 && b.counts > 0.0 && fa == b.counts / b.model / b.model
    requires Active(b, i) && Active(b, j)
    ensures BinCovar(b, i, j) == (fa * b.grad[j]) * b.grad[i]
  {
  }

  /** Bins can be processed in two runs: the statistic of a concatenation is the sum of the parts. */
  lemma {:induction false} ValueAdditive(a: seq<Bin>, c: seq<Bin>, ln: real -> real)
    ensures ValueOf(a + c, ln) == ValueOf(a, ln) + ValueOf(c, ln)
    decreases |c|
  {
    if c == [] {
      assert a + c == a;
    } else {
      var c' := c[..|c| - 1];
      assert a + c == (a + c') + [c[|c| - 1]];
      ValueAdditive(a, c', ln);
      Snoc(a + c', c[|c| - 1], ln, 0, 0);
    }
  }

  lemma {:induction false} CovarAdditive(a: seq<Bin>, c: seq<Bin>, i: int, j: int)
    ensures CovarAt(a + c, i, j) == CovarAt(a, i, j) + CovarAt(c, i, j)
    decreases |c|
  {
    if c == [] {
      assert a + c == a;
    } else {
      var c' := c[..|c| - 1];
      assert a + c == (a + c') + [c[|c| - 1]];
      CovarAdditive(a, c', i, j);
      assert (a + c)[..|a + c| - 1] == a + c';
    }
  }

  // ---------------------------------------------------------------------
  // Sparse matrix column add
  // ---------------------------------------------------------------------

  /**
   * What a column add contributes to row r: the sum of the values whose
   * index is r (the one value at r when the indices are distinct).
   */
  function ColumnValue(vals: seq<real>, idx: seq<int>, r: int): real
    requires |vals| == |idx|
    decreases |idx|
  {
    if idx == [] then 0.0
    else ColumnValue(vals[..|vals| - 1], idx[..|idx| - 1], r) + (if idx[|idx| - 1] == r then vals[|vals| - 1] else 0.0)
  }

  /**
   * `add_col(values, inx, ndev, jpar)` of the sparse matrix: adds values[k]
   * to entry (inx[k], jpar) for each k < ndev; nothing else changes.
   */
  method AddCol(m: array2<real>, values: array<real>, inx: array<int>, ndev: nat, jpar: int)
    requires ndev <= values.Length && ndev <= inx.Length
    requires 0 <= jpar < m.Length1
    requires forall k :: 0 <= k < ndev ==> 0 <= inx[k] < m.Length0
    modifies m
    ensures forall r :: 0 <= r < m.Length0 ==> m[r, jpar] == old(m[r, jpar]) + ColumnValue(values[..ndev], inx[..ndev], r)
    ensures forall r, c :: 0 <= r < m.Length0 && 0 <= c < m.Length1 && c != jpar ==> m[r, c] == old(m[r, c])
  {
    var idev := 0;
    while idev < ndev
      invariant 0 <= idev <= ndev
      invariant forall r :: 0 <= r < m.Length0 ==> m[r, jpar] == old(m[r, jpar]) + ColumnValue(values[..idev], inx[..idev], r)
      invariant forall r, c :: 0 <= r < m.Length0 && 0 <= c < m.Length1 && c != jpar ==> m[r, c] == old(m[r, c])
    {
      assert inx[..idev + 1][..idev] == inx[..idev];
      assert values[..idev + 1][..idev] == values[..idev];
      m[inx[idev], jpar] := m[inx[idev], jpar] + values[idev];
      idev := idev + 1;
    }
  }

  /**
   * Values taken from `w` along the active list of the first n derivatives
   * put w[r] in row r when r is active and nothing in any other row.
   */
  lemma {:induction false} ColumnOfActive(g: seq<real>, n: nat, w: seq<real>, vals: seq<real>, r: int)
    requires n <= |g| == |w| && |vals| == |ActiveIndices(g, n)|
    requires forall k :: 0 <= k < |vals| ==> 0 <= ActiveIndices(g, n)[k] < |g| && vals[k] == w[ActiveIndices(g, n)[k]]
    ensures ColumnValue(vals, ActiveIndices(g, n), r) == if 0 <= r < n && g[r] != 0.0 then w[r] else 0.0
  {
    if n > 0 {
      var s := ActiveIndices(g, n);
      var a := ActiveIndices(g, n - 1);
      var v := vals[..|a|];
      forall k | 0 <= k < |v| ensures 0 <= a[k] < |g| && v[k] == w[a[k]] {
        assert s[k] == a[k];
      }
      ColumnOfActive(g, n - 1, w, v, r);
      if g[n - 1] != 0.0 {
        assert s == a + [n - 1];
        assert s[..|s| - 1] == a && vals[..|vals| - 1] == v;
      } else {
        assert s == a;
        assert v == vals;
      }
    }
  }

  // ---------------------------------------------------------------------
  // The evaluation, in place
  // ---------------------------------------------------------------------

  /** Fills `inx` with the active indices of `g`; returns their number. */
  method CollectActive(g: seq<real>, inx: array<int>) returns (ndev: nat)
    requires |g| == inx.Length
    modifies inx
    ensures ndev <= inx.Length && inx[..ndev] == ActiveIndices(g, |g|)
  {
    ndev := 0;
    var i := 0;
    while i < |g|
      invariant 0 <= i <= |g| && ndev <= i
      invariant inx[..ndev] == ActiveIndices(g, i)
    {
      if g[i] != 0.0 {
        inx[ndev] := i;
        ndev := ndev + 1;
      }
      i := i + 1;
    }
  }

  /**
   * One column of a bin with counts: values[k] = (fa g_jpar) g_inx[k], added
   * to column jpar of the curvature.
   */
  method AddCurvatureColumn(b: Bin, inx: array<int>, ndev: nat, jpar: int, fa: real, covar: array2<real>, values: array<real>)
    requires |b.grad| == inx.Length == values.Length == covar.Length0 == covar.Length1
    requires ndev <= inx.Length && inx[..ndev] == ActiveIndices(b.grad, |b.grad|)
    requires b.model > 0.0 && b.counts > 0.0 && fa == b.counts / b.model / b.model
    requires Active(b, jpar)
    modifies covar, values
    ensures forall i :: 0 <= i < covar.Length0 ==> covar[i, jpar] == old(covar[i, jpar]) + BinCovar(b, i, jpar)
    ensures forall i, j :: 0 <= i < covar.Length0 && 0 <= j < covar.Length1 && j != jpar ==>
      covar[i, j] == old(covar[i, j])
  {
    var n := |b.grad|;
    ActiveIndexList(b.grad, inx[..ndev]);
    var faI := fa * b.grad[jpar];
    var idev := 0;
    while idev < ndev
      invariant 0 <= idev <= ndev
      invariant forall k :: 0 <= k < idev ==> values[k] == BinCovar(b, inx[k], jpar)
      modifies values
    {
      assert inx[..ndev][idev] == inx[idev];
      CurvatureFactored(b, inx[idev], jpar, fa);
      values[idev] := faI * b.grad[inx[idev]];
      idev := idev + 1;
    }
    AddCol(covar, values, inx, ndev, jpar);
    ghost var column := seq(n, i requires 0 <= i < n => BinCovar(b, i, jpar));
    ghost var s := inx[..ndev];
    assert forall k :: 0 <= k < ndev ==> 0 <= s[k] < n && values[..ndev][k] == column[s[k]];
    forall i | 0 <= i < n
      ensures covar[i, jpar] == old(covar[i, jpar]) + BinCovar(b, i, jpar)
    {
      ColumnOfActive(b.grad, n, column, values[..ndev], i);
    }
  }

  /** Bins with counts: gradient (1 - n/m) g_j and one curvature column per active parameter j. */
  method AddCountsBin(b: Bin, inx: array<int>, ndev: nat, grad: array<real>, covar: array2<real>, values: array<real>)
    requires |b.grad| == inx.Length == grad.Length == values.Length == covar.Length0 == covar.Length1
    requires grad != values
    requires ndev <= inx.Length && inx[..ndev] == ActiveIndices(b.grad, |b.grad|)
    requires b.model > 0.0 && b.counts > 0.0
    modifies grad, covar, values
    ensures forall j :: 0 <= j < grad.Length ==> grad[j] == old(grad[j]) + BinGrad(b, j)
    ensures forall i, j :: 0 <= i < covar.Length0 && 0 <= j < covar.Length1 ==>
      covar[i, j] == old(covar[i, j]) + BinCovar(b, i, j)
  {
    var n := |b.grad|;
    ActiveIndexList(b.grad, inx[..ndev]);
    var fb := b.counts / b.model;
    var fc := 1.0 - fb;
    var fa := fb / b.model;
    var jdev := 0;
    ghost var done: set<int> := {};
    while jdev < ndev
      invariant 0 <= jdev <= ndev
      invariant done == set k | 0 <= k < jdev :: inx[k]
      invariant forall j :: 0 <= j < n ==> grad[j] == old(grad[j]) + (if j in done then BinGrad(b, j) else 0.0)
      invariant forall i, j :: 0 <= i < n && 0 <= j < n ==>
        covar[i, j] == old(covar[i, j]) + (if j in done then BinCovar(b, i, j) else 0.0)
    {
      var jpar := inx[jdev];
      assert Active(b, jpar) by {
        assert inx[..ndev][jdev] == jpar;
      }
      label before:
      AddBinColumn(b, inx, ndev, jpar, fa, fc, grad, covar, values);
      forall j | 0 <= j < n
        ensures grad[j] == old(grad[j]) + (if j in done + {jpar} then BinGrad(b, j) else 0.0)
      {
        if j == jpar {
          assert jpar !in done by {
            assert forall k :: 0 <= k < jdev ==> inx[..ndev][k] < inx[..ndev][jdev];
          }
        }
      }
      forall i, j | 0 <= i < n && 0 <= j < n
        ensures covar[i, j] == old(covar[i, j]) + (if j in done + {jpar} then BinCovar(b, i, j) else 0.0)
      {
        if j == jpar {
          assert jpar !in done by {
            assert forall k :: 0 <= k < jdev ==> inx[..ndev][k] < inx[..ndev][jdev];
          }
        }
      }
      done := done + {jpar};
      jdev := jdev + 1;
    }
    forall j | 0 <= j < n && j !in done
      ensures BinGrad(b, j) == 0.0 && forall i :: BinCovar(b, i, j) == 0.0
    {
      assert j !in inx[..ndev];
      InactiveOutsideList(b.grad, inx[..ndev], j);
    }
  }

  /** One active column j of a bin with counts: gradient entry j grows by fc g_j, curvature column j by its terms. */
  method AddBinColumn(b: Bin, inx: array<int>, ndev: nat, jpar: int, fa: real, fc: real,
                      grad: array<real>, covar: array2<real>, values: array<real>)
    requires |b.grad| == inx.Length == grad.Length == values.Length == covar.Length0 == covar.Length1
    requires grad != values
    requires ndev <= inx.Length && inx[..ndev] == ActiveIndices(b.grad, |b.grad|)
    requires b.model > 0.0 && b.counts > 0.0
    requires fc == 1.0 - b.counts / b.model && fa == b.counts / b.model / b.model
    requires Active(b, jpar)
    modifies grad, covar, values
    ensures forall j :: 0 <= j < grad.Length ==> grad[j] == old(grad[j]) + (if j == jpar then BinGrad(b, j) else 0.0)
    ensures forall i, j :: 0 <= i < covar.Length0 && 0 <= j < covar.Length1 ==>
      covar[i, j] == old(covar[i, j]) + (if j == jpar then BinCovar(b, i, j) else 0.0)
  {
    var g := b.grad[jpar];
    GradientFactored(b, jpar, fc);
    grad[jpar] := grad[jpar] + fc * g;
    AddCurvatureColumn(b, inx, ndev, jpar, fa, covar, values);
  }

  /** Bins without counts: gradient g_j for each active parameter j, no curvature. */
  method AddEmptyBin(b: Bin, inx: array<int>, ndev: nat, grad: array<real>)
    requires |b.grad| == inx.Length == grad.Length
    requires ndev <= inx.Length && inx[..ndev] == ActiveIndices(b.grad, |b.grad|)
    requires b.model > 0.0 && b.counts <= 0.0
    modifies grad
    ensures forall j :: 0 <= j < grad.Length ==> grad[j] == old(grad[j]) + BinGrad(b, j)
  {
    var n := |b.grad|;
    ghost var s := inx[..ndev];
    ActiveIndexList(b.grad, s);
    var idev := 0;
    while idev < ndev
      invariant 0 <= idev <= ndev
      invariant forall j :: 0 <= j < n ==> grad[j] == old(grad[j]) + (if j in s[..idev] then b.grad[j] else 0.0)
    {
      var ipar := inx[idev];
      assert s[..idev + 1] == s[..idev] + [ipar];
      assert ipar !in s[..idev] by {
        assert forall k :: 0 <= k < idev ==> s[k] < s[idev];
      }
      grad[ipar] := grad[ipar] + b.grad[ipar];
      idev := idev + 1;
    }
    assert s[..ndev] == s;
    forall j | 0 <= j < n && j !in s ensures BinGrad(b, j) == 0.0 {
      InactiveOutsideList(b.grad, s, j);
    }
  }

  /**
   * One pass of the bin loop: a bin with a positive model value builds its
   * active set, adds its term to the value, and updates the gradient and
   * the curvature through the branch its count selects; any other bin adds
   * nothing. Returns what is added to the value.
   */
  method AddBin(b: Bin, inx: array<int>, values: array<real>, grad: array<real>, cov: array2<real>, ln: real -> real)
    returns (dv: real)
    requires |b.grad| == inx.Length == values.Length == grad.Length == cov.Length0 == cov.Length1
    requires grad != values
    modifies inx, values, grad, cov
    ensures dv == BinValue(b, ln)
    ensures forall j :: 0 <= j < grad.Length ==> grad[j] == old(grad[j]) + BinGrad(b, j)
    ensures forall i, j :: 0 <= i < cov.Length0 && 0 <= j < cov.Length1 ==> cov[i, j] == old(cov[i, j]) + BinCovar(b, i, j)
  {
    dv := 0.0;
    if b.model > 0.0 {
      var ndev := CollectActive(b.grad, inx);
      dv := -(b.counts * ln(b.model) - b.model);
      if ndev >= 1 {
        if b.counts > 0.0 {
          AddCountsBin(b, inx, ndev, grad, cov, values);
        } else {
          AddEmptyBin(b, inx, ndev, grad);
        }
      } else {
        ActiveIndicesSpec(b.grad, |b.grad|);
        assert forall j :: 0 <= j < |b.grad| ==> !Active(b, j);
      }
    }
  }

  /** The optimizer function object: last value, gradient vector and curvature matrix. */
  class Optimizer {
    var value: real
    var gradient: array?<real>
    var covar: array2?<real>

    /** `init_members`: value 0, no gradient and no curvature yet. */
    constructor ()
      ensures value == 0.0 && gradient == null && covar == null
    {
      value := 0.0;
      gradient := null;
      covar := null;
    }

    /** `free_members`: drops the gradient and the curvature. */
    method FreeMembers()
      modifies this
      ensures gradient == null && covar == null && value == old(value)
    {
      gradient := null;
      covar := null;
    }

    /**
     * `copy_members`: takes over the value and deep copies of the gradient
     * and the curvature when the other object has them; otherwise keeps its own.
     */
    method CopyMembers(other: Optimizer)
      requires other != this
      modifies this
      ensures value == other.value
      ensures other.gradient == null ==> gradient == old(gradient)
      ensures other.gradient != null ==>
        gradient != null && fresh(gradient) && gradient[..] == other.gradient[..]
      ensures other.covar == null ==> covar == old(covar)
      ensures other.covar != null ==>
        && covar != null && fresh(covar)
        && covar.Length0 == other.covar.Length0 && covar.Length1 == other.covar.Length1
        && forall i, j :: 0 <= i < covar.Length0 && 0 <= j < covar.Length1 ==> covar[i, j] == other.covar[i, j]
    {
      value := other.value;
      if other.gradient != null {
        var src := other.gradient;
        var g := new real[src.Length](k requires 0 <= k < src.Length reads src => src[k]);
        gradient := g;
      }
      if other.covar != null {
        var src := other.covar;
        var m := new real[src.Length0, src.Length1];
        var i := 0;
        while i < src.Length0
          invariant 0 <= i <= src.Length0
          invariant forall r, c :: 0 <= r < i && 0 <= c < src.Length1 ==> m[r, c] == src[r, c]
          modifies m
        {
          var j := 0;
          while j < src.Length1
            invariant 0 <= j <= src.Length1
            invariant forall r, c :: 0 <= r < i && 0 <= c < src.Length1 ==> m[r, c] == src[r, c]
            invariant forall c :: 0 <= c < j ==> m[i, c] == src[i, c]
            modifies m
          {
            m[i, j] := src[i, j];
            j := j + 1;
          }
          i := i + 1;
        }
        covar := m;
      }
    }

    /**
     * `eval`: with no parameters nothing changes; otherwise the value,
     * gradient and curvature are rebuilt from zero and hold the sums of the
     * contributions of all bins.
     */
    method Eval(npars: int, bins: seq<Bin>, ln: real -> real)
      requires npars >= 1 ==> forall k :: 0 <= k < |bins| ==> |bins[k].grad| == npars
      modifies this
      ensures npars < 1 ==> value == old(value) && gradient == old(gradient) && covar == old(covar)
      ensures npars >= 1 ==>
        && value == ValueOf(bins, ln)
        && gradient != null && fresh(gradient) && gradient.Length == npars
        && covar != null && fresh(covar) && covar.Length0 == npars && covar.Length1 == npars
        && (forall j :: 0 <= j < npars ==> gradient[j] == GradAt(bins, j))
        && (forall i, j :: 0 <= i < npars && 0 <= j < npars ==> covar[i, j] == CovarAt(bins, i, j))
    {
      if npars < 1 {
        return;
      }
      var n := npars;
      var v := 0.0;
      var grad := new real[n](_ => 0.0);
      var cov := new real[n, n]((_, _) => 0.0);
      var inx := new int[n];
      var values := new real[n];
      var k := 0;
      while k < |bins|
        invariant 0 <= k <= |bins|
        invariant v == ValueOf(bins[..k], ln)
        invariant forall j :: 0 <= j < n ==> grad[j] == GradAt(bins[..k], j)
        invariant forall i, j :: 0 <= i < n && 0 <= j < n ==> cov[i, j] == CovarAt(bins[..k], i, j)
      {
        var b := bins[k];
        assert bins[..k + 1] == bins[..k] + [b];
        forall i, j ensures
          && ValueOf(bins[..k + 1], ln) == ValueOf(bins[..k], ln) + BinValue(b, ln)
          && GradAt(bins[..k + 1], j) == GradAt(bins[..k], j) + BinGrad(b, j)
          && CovarAt(bins[..k + 1], i, j) == CovarAt(bins[..k], i, j) + BinCovar(b, i, j)
        {
          Snoc(bins[..k], b, ln, i, j);
        }
        var dv := AddBin(b, inx, values, grad, cov, ln);
        v := v + dv;
        k := k + 1;
      }
      assert bins[..k] == bins;
      value, gradient, covar := v, grad, cov;
    }
  }
}
