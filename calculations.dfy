/**
 * The index calculator: the permissible-limit table and the pollution indices
 * computed from a list of readings already expressed in mg/L.
 *
 * The three accumulating loops of the source (contamination degree, heavy-metal
 * evaluation index, heavy-metal pollution index) are methods proved against
 * recursive specification functions; the classifiers are functions of those
 * specification functions.
 */
module Calculations {
  import opened Metals

  /** Permissible limit of each metal, in mg/L (every limit is positive). */
  function Permissible(m: Metal): (s: real)
    ensures s > 0.0
  {
    match m
    case CD => 0.003
    case CR => 0.05
    case PB => 0.05
    case FE => 0.3
    case MN => 0.1
    case CO => 0.05
    case NI => 0.02
    case ZN => 3.0
    case CU => 0.05
  }

  /** One normalised reading `{name, val}`, `val` in mg/L. */
  datatype HeavyMetal = HeavyMetal(name: Metal, val: real)

  /** Converts a g/L concentration to mg/L. */
  function GLToMgL(con: real): (r: real)
    ensures r / 1000.0 == con
    ensures con > 0.0 ==> r > con
    ensures con == 0.0 ==> r == 0.0
  {
    con * 1000.0
  }

  lemma GLToMgLStrictlyIncreasing(x: real, y: real)
    requires x < y
    ensures GLToMgL(x) < GLToMgL(y)
  {
  }

  /** C_i / S_i: the reading's concentration relative to its limit. */
  function Ratio(hm: HeavyMetal): real
  {
    hm.val / Permissible(hm.name)
  }

  /** Q_i = 100 * C_i / S_i, the reading as a percentage of its limit. */
  function Q(hm: HeavyMetal): real
  {
    hm.val / Permissible(hm.name) * 100.0
  }

  /** W_i = 1 / S_i, the weight of the reading in the pollution index. */
  function W(hm: HeavyMetal): (w: real)
    ensures w > 0.0
  {
    1.0 / Permissible(hm.name)
  }

  /** Q_i rescales the concentration by its limit: it exceeds 100 exactly when the limit is exceeded. */
  lemma QMeaning(hm: HeavyMetal)
    ensures Q(hm) * Permissible(hm.name) == 100.0 * hm.val
    ensures Q(hm) > 100.0 <==> hm.val > Permissible(hm.name)
  {
  }

  /** W_i is the reciprocal of the limit, so a stricter limit weighs more. */
  lemma WMeaning(hm: HeavyMetal, other: HeavyMetal)
    ensures W(hm) * Permissible(hm.name) == 1.0
    ensures Permissible(hm.name) < Permissible(other.name) <==> W(hm) > W(other)
  {
  }

  lemma RatioStrictlyIncreasing(m: Metal, u: real, v: real)
    requires u < v
    ensures Ratio(HeavyMetal(m, u)) < Ratio(HeavyMetal(m, v))
  {
    match m
    case CD =>
    case CR =>
    case PB =>
    case FE =>
    case MN =>
    case CO =>
    case NI =>
    case ZN =>
    case CU =>
  }

  lemma RatioNonnegative(hm: HeavyMetal)
    requires hm.val >= 0.0
    ensures Ratio(hm) >= 0.0
  {
    match hm.name
    case CD =>
    case CR =>
    case PB =>
    case FE =>
    case MN =>
    case CO =>
    case NI =>
    case ZN =>
    case CU =>
  }

  // ---------------------------------------------------------------------------
  // Contamination degree and heavy-metal evaluation index
  // ---------------------------------------------------------------------------

  /** Heavy-metal evaluation index, the sum of C_i / S_i in list order. */
  function Hei(hms: seq<HeavyMetal>): real
  {
    if hms == [] then 0.0 else Hei(hms[..|hms| - 1]) + Ratio(hms[|hms| - 1])
  }

  /** Contamination degree, the sum of (C_i / S_i - 1) in list order. */
  function Cd(hms: seq<HeavyMetal>): real
  {
    if hms == [] then 0.0 else Cd(hms[..|hms| - 1]) + (Ratio(hms[|hms| - 1]) - 1.0)
  }

  /** `findCd`: one pass accumulating C_i / S_i - 1. */
  method FindCd(hms: seq<HeavyMetal>) returns (res: real)
    ensures res == Cd(hms)
  {
    res := 0.0;
    for i := 0 to |hms|
      invariant res == Cd(hms[..i])
    {
      var ci := hms[i].val / Permissible(hms[i].name);
      var cif := ci - 1.0;
      res := res + cif;
      assert hms[..i + 1][..i] == hms[..i];
    }
    assert hms[..|hms|] == hms;
  }

  /** `findHei`: one pass accumulating C_i / S_i. */
  method FindHei(hms: seq<HeavyMetal>) returns (res: real)
    ensures res == Hei(hms)
  {
    res := 0.0;
    for i := 0 to |hms|
      invariant res == Hei(hms[..i])
    {
      var ri := hms[i].val / Permissible(hms[i].name);
      res := res + ri;
      assert hms[..i + 1][..i] == hms[..i];
    }
    assert hms[..|hms|] == hms;
  }

  lemma CdOfEmpty()
    ensures Cd([]) == 0.0 && Hei([]) == 0.0
  {
  }

  /** Each reading contributes one "- 1" more to cd than to hei. */
  lemma {:induction false} CdIsHeiMinusCount(hms: seq<HeavyMetal>)
    ensures Cd(hms) == Hei(hms) - |hms| as real
  {
    if hms != [] {
      CdIsHeiMinusCount(hms[..|hms| - 1]);
    }
  }

  lemma {:induction false} HeiNonnegative(hms: seq<HeavyMetal>)
    requires forall i :: 0 <= i < |hms| ==> hms[i].val >= 0.0
    ensures Hei(hms) >= 0.0
  {
    if hms != [] {
      HeiNonnegative(hms[..|hms| - 1]);
      RatioNonnegative(hms[|hms| - 1]);
    }
  }

  /** Replacing one reading changes hei by exactly the difference of the two ratios. */
  lemma {:induction false} HeiUpdate(hms: seq<HeavyMetal>, i: nat, x: HeavyMetal)
    requires i < |hms|
    ensures Hei(hms[i := x]) == Hei(hms) - Ratio(hms[i]) + Ratio(x)
  {
    var n := |hms|;
    if i == n - 1 {
      assert hms[i := x][..n - 1] == hms[..n - 1];
    } else {
      assert hms[i := x][..n - 1] == hms[..n - 1][i := x];
      HeiUpdate(hms[..n - 1], i, x);
    }
  }

  /** Raising one concentration, the others fixed, strictly increases hei. */
  lemma HeiStrictlyIncreasing(hms: seq<HeavyMetal>, i: nat, v: real)
    requires i < |hms| && hms[i].val < v
    ensures Hei(hms[i := HeavyMetal(hms[i].name, v)]) > Hei(hms)
  {
    HeiUpdate(hms, i, HeavyMetal(hms[i].name, v));
    RatioStrictlyIncreasing(hms[i].name, hms[i].val, v);
  }

  /** Raising one concentration, the others fixed, strictly increases cd. */
  lemma CdStrictlyIncreasing(hms: seq<HeavyMetal>, i: nat, v: real)
    requires i < |hms| && hms[i].val < v
    ensures Cd(hms[i := HeavyMetal(hms[i].name, v)]) > Cd(hms)
  {
    var raised := hms[i := HeavyMetal(hms[i].name, v)];
    HeiStrictlyIncreasing(hms, i, v);
    CdIsHeiMinusCount(hms);
    CdIsHeiMinusCount(raised);
  }

  // ---------------------------------------------------------------------------
  // Safety degree and pollution degree
  // ---------------------------------------------------------------------------

  /** `findSafetyDeg`: 0 "Safe", 1 "Moderate", 2 "Highly Contaminated", by cd. */
  function FindSafetyDeg(hms: seq<HeavyMetal>): (sd: nat)
    ensures sd <= 2
    ensures sd == 0 <==> Cd(hms) < 1.0
    ensures sd == 1 <==> 1.0 <= Cd(hms) < 3.0
    ensures sd == 2 <==> 3.0 <= Cd(hms)
  {
    var c := Cd(hms);
    if c < 1.0 then 0
    else if c < 3.0 then 1
    else 2
  }

  /** `findPoluDeg`: 0 "Low", 1 "Moderate", 2 "Highly Polluted", by hei. */
  function FindPoluDeg(hms: seq<HeavyMetal>): (pd: nat)
    ensures pd <= 2
    ensures pd == 0 <==> Hei(hms) < 10.0
    ensures pd == 1 <==> 10.0 <= Hei(hms) < 20.0
    ensures pd == 2 <==> 20.0 <= Hei(hms)
  {
    var c := Hei(hms);
    if c < 10.0 then 0
    else if c < 20.0 then 1
    else 2
  }

  /** Raising one concentration never lowers the safety degree. */
  lemma SafetyDegMonotone(hms: seq<HeavyMetal>, i: nat, v: real)
    requires i < |hms| && hms[i].val < v
    ensures FindSafetyDeg(hms) <= FindSafetyDeg(hms[i := HeavyMetal(hms[i].name, v)])
  {
    CdStrictlyIncreasing(hms, i, v);
  }

  /** Raising one concentration never lowers the pollution degree. */
  lemma PoluDegMonotone(hms: seq<HeavyMetal>, i: nat, v: real)
    requires i < |hms| && hms[i].val < v
    ensures FindPoluDeg(hms) <= FindPoluDeg(hms[i := HeavyMetal(hms[i].name, v)])
  {
    HeiStrictlyIncreasing(hms, i, v);
  }

  // ---------------------------------------------------------------------------
  // Heavy-metal pollution index
  // ---------------------------------------------------------------------------

  /**
   * The pollution index only needs each reading's pair (W_i, Q_i). Both of its
   * sums are taken over the list of these pairs, so that their bounds can be
   * proved with no division in sight.
   */
  datatype Term = Term(w: real, q: real)

  function Terms(hms: seq<HeavyMetal>): (ts: seq<Term>)
    ensures |ts| == |hms|
    ensures forall i :: 0 <= i < |hms| ==> ts[i] == Term(W(hms[i]), Q(hms[i]))
  {
    if hms == [] then [] else Terms(hms[..|hms| - 1]) + [Term(W(hms[|hms| - 1]), Q(hms[|hms| - 1]))]
  }

  function SumWQ(ts: seq<Term>): real
  {
    if ts == [] then 0.0 else SumWQ(ts[..|ts| - 1]) + ts[|ts| - 1].w * ts[|ts| - 1].q
  }

  lemma SumWQSnoc(ts: seq<Term>, p: seq<Term>, w: real, q: real)
    requires ts == p + [Term(w, q)]
    ensures SumWQ(ts) == SumWQ(p) + w * q
  {
    assert ts[..|p|] == p;
  }

  lemma SumWQStep(ts: seq<Term>, k: nat)
    requires k < |ts|
    ensures SumWQ(ts[..k + 1]) == SumWQ(ts[..k]) + ts[k].w * ts[k].q
  {
    assert ts[..k + 1][..k] == ts[..k];
  }

  function SumW(ts: seq<Term>): real
  {
    if ts == [] then 0.0 else SumW(ts[..|ts| - 1]) + ts[|ts| - 1].w
  }

  lemma {:induction false} SumWPositive(ts: seq<Term>)
    requires forall i :: 0 <= i < |ts| ==> ts[i].w > 0.0
    ensures SumW(ts) >= 0.0
    ensures ts != [] ==> SumW(ts) > 0.0
  {
    if ts != [] {
      var p := ts[..|ts| - 1];
      assert forall i :: 0 <= i < |p| ==> p[i] == ts[i];
      SumWPositive(p);
    }
  }

  /** Numerator of the pollution index: the sum of W_i * Q_i in list order. */
  function Ui(hms: seq<HeavyMetal>): real
  {
    SumWQ(Terms(hms))
  }

  /** Denominator of the pollution index: the sum of W_i in list order. */
  function Li(hms: seq<HeavyMetal>): (r: real)
    ensures r >= 0.0
    ensures hms != [] ==> r > 0.0
    ensures r == 0.0 <==> hms == []
  {
    SumWPositive(Terms(hms));
    SumW(Terms(hms))
  }

  /** The pairs of a prefix extended by one reading are those of the prefix and that reading's pair. */
  lemma TermsStep(hms: seq<HeavyMetal>, k: nat)
    requires k < |hms|
    ensures Terms(hms[..k + 1]) == Terms(hms[..k]) + [Term(W(hms[k]), Q(hms[k]))]
    ensures Terms(hms[..k + 1])[..k] == Terms(hms[..k])
  {
    assert hms[..k + 1][..k] == hms[..k];
  }

  lemma TermsSnoc(hms: seq<HeavyMetal>, h: HeavyMetal)
    ensures Terms(hms + [h]) == Terms(hms) + [Term(W(h), Q(h))]
  {
    assert (hms + [h])[..|hms|] == hms;
  }

  /** Appending a reading adds its W_i * Q_i to the numerator of hmpi. */
  lemma UiSnoc(hms: seq<HeavyMetal>, h: HeavyMetal)
    ensures Ui(hms + [h]) == Ui(hms) + W(h) * Q(h)
  {
    TermsSnoc(hms, h);
    SumWQSnoc(Terms(hms + [h]), Terms(hms), W(h), Q(h));
  }

  /** Extending a prefix by one reading adds that reading's W_i to the denominator of hmpi. */
  lemma LiStep(hms: seq<HeavyMetal>, k: nat)
    requires k < |hms|
    ensures Li(hms[..k + 1]) == Li(hms[..k]) + W(hms[k])
  {
    TermsStep(hms, k);
  }

  lemma MulCongruence(a: real, b: real, c: real, d: real)
    requires a == c && b == d
    ensures a * b == c * d
  {
  }

  /** One iteration of `findHmpi` carries both running sums from a prefix to the next one. */
  lemma HmpiSumsStep(hms: seq<HeavyMetal>, i: nat, ui: real, li: real, wi: real, qi: real)
    requires i < |hms| && ui == Ui(hms[..i]) && li == Li(hms[..i])
    requires wi == W(hms[i]) && qi == Q(hms[i])
    ensures ui + wi * qi == Ui(hms[..i + 1]) && li + wi == Li(hms[..i + 1])
  {
    assert hms[..i + 1] == hms[..i] + [hms[i]];
    UiSnoc(hms[..i], hms[i]);
    LiStep(hms, i);
    MulCongruence(wi, qi, W(hms[i]), Q(hms[i]));
  }

  /** The heavy-metal pollution index, Σ(W_i * Q_i) / Σ W_i, of a non-empty list. */
  function Hmpi(hms: seq<HeavyMetal>): real
    requires hms != []
  {
    Ui(hms) / Li(hms)
  }

  /**
   * `findHmpi`: one pass accumulating both sums, then their quotient. An empty
   * list leaves both sums at 0, and 0 / 0 is NaN.
   */
  method FindHmpi(hms: seq<HeavyMetal>) returns (res: Num)
    ensures hms == [] ==> res == NaN
    ensures hms != [] ==> res == Finite(Hmpi(hms))
  {
    var ui, li := 0.0, 0.0;
    for i := 0 to |hms|
      invariant ui == Ui(hms[..i])
      invariant li == Li(hms[..i])
    {
      var qi := Q(hms[i]);
      var wi := W(hms[i]);
      HmpiSumsStep(hms, i, ui, li, wi, qi);
      ui := ui + wi * qi;
      li := li + wi;
    }
    assert hms[..|hms|] == hms;
    if li == 0.0 {
      assert ui == 0.0;
      res := NaN;
    } else {
      res := Finite(ui / li);
    }
  }

  /** The smallest Q_i of the list; it is attained by some reading. */
  function MinQ(hms: seq<HeavyMetal>): (r: real)
    requires hms != []
    ensures forall i :: 0 <= i < |hms| ==> r <= Q(hms[i])
    ensures exists i :: 0 <= i < |hms| && r == Q(hms[i])
  {
    var n := |hms|;
    if n == 1 then Q(hms[0])
    else
      var m := MinQ(hms[..n - 1]);
      assert forall i :: 0 <= i < n - 1 ==> hms[..n - 1][i] == hms[i];
      if Q(hms[n - 1]) < m then Q(hms[n - 1]) else m
  }

  /** The largest Q_i of the list; it is attained by some reading. */
  function MaxQ(hms: seq<HeavyMetal>): (r: real)
    requires hms != []
    ensures forall i :: 0 <= i < |hms| ==> Q(hms[i]) <= r
    ensures exists i :: 0 <= i < |hms| && r == Q(hms[i])
  {
    var n := |hms|;
    if n == 1 then Q(hms[0])
    else
      var m := MaxQ(hms[..n - 1]);
      assert forall i :: 0 <= i < n - 1 ==> hms[..n - 1][i] == hms[i];
      if m < Q(hms[n - 1]) then Q(hms[n - 1]) else m
  }

  lemma WeightedStepLower(u: real, l: real, w: real, q: real, b: real)
    requires w > 0.0 && b * l <= u && b <= q
    ensures b * (l + w) <= u + w * q
  {
    assert b * (l + w) == b * l + w * b;
    assert w * q - w * b == w * (q - b);
  }

  lemma WeightedStepUpper(u: real, l: real, w: real, q: real, b: real)
    requires w > 0.0 && u <= b * l && q <= b
    ensures u + w * q <= b * (l + w)
  {
    assert b * (l + w) == b * l + w * b;
    assert w * b - w * q == w * (b - q);
  }

  /** With positive weights and every score at least b, the weighted sum is at least b times the weight. */
  lemma {:induction false} SumLowerBound(ts: seq<Term>, b: real)
    requires forall i :: 0 <= i < |ts| ==> ts[i].w > 0.0 && b <= ts[i].q
    ensures b * SumW(ts) <= SumWQ(ts)
  {
    if ts != [] {
      var n, p := |ts|, ts[..|ts| - 1];
      assert forall i :: 0 <= i < |p| ==> p[i] == ts[i];
      SumLowerBound(p, b);
      WeightedStepLower(SumWQ(p), SumW(p), ts[n - 1].w, ts[n - 1].q, b);
    }
  }

  /** With positive weights and every score at most b, the weighted sum is at most b times the weight. */
  lemma {:induction false} SumUpperBound(ts: seq<Term>, b: real)
    requires forall i :: 0 <= i < |ts| ==> ts[i].w > 0.0 && ts[i].q <= b
    ensures SumWQ(ts) <= b * SumW(ts)
  {
    if ts != [] {
      var n, p := |ts|, ts[..|ts| - 1];
      assert forall i :: 0 <= i < |p| ==> p[i] == ts[i];
      SumUpperBound(p, b);
      WeightedStepUpper(SumWQ(p), SumW(p), ts[n - 1].w, ts[n - 1].q, b);
    }
  }

  /** If every Q_i is at least b, the weighted sum is at least b times the total weight. */
  lemma UiLowerBound(hms: seq<HeavyMetal>, b: real)
    requires forall i :: 0 <= i < |hms| ==> b <= Q(hms[i])
    ensures b * Li(hms) <= Ui(hms)
  {
    SumLowerBound(Terms(hms), b);
  }

  /** If every Q_i is at most b, the weighted sum is at most b times the total weight. */
  lemma UiUpperBound(hms: seq<HeavyMetal>, b: real)
    requires forall i :: 0 <= i < |hms| ==> Q(hms[i]) <= b
    ensures Ui(hms) <= b * Li(hms)
  {
    SumUpperBound(Terms(hms), b);
  }

  lemma QuotientBounds(u: real, l: real, b: real)
    requires l > 0.0
    ensures b * l <= u ==> b <= u / l
    ensures u <= b * l ==> u / l <= b
  {
    assert u / l * l == u;
    if b * l <= u {
      assert (u / l - b) * l == u - b * l;
    }
    if u <= b * l {
      assert (b - u / l) * l == b * l - u;
    }
  }

  /** A lower bound on every Q_i is a lower bound on the pollution index. */
  lemma HmpiLowerBound(hms: seq<HeavyMetal>, b: real)
    requires hms != []
    requires forall i :: 0 <= i < |hms| ==> b <= Q(hms[i])
    ensures b <= Hmpi(hms)
  {
    UiLowerBound(hms, b);
    QuotientBounds(Ui(hms), Li(hms), b);
  }

  /** An upper bound on every Q_i is an upper bound on the pollution index. */
  lemma HmpiUpperBound(hms: seq<HeavyMetal>, b: real)
    requires hms != []
    requires forall i :: 0 <= i < |hms| ==> Q(hms[i]) <= b
    ensures Hmpi(hms) <= b
  {
    UiUpperBound(hms, b);
    QuotientBounds(Ui(hms), Li(hms), b);
  }

  /** The pollution index is a weighted mean: it lies between the smallest and largest Q_i. */
  lemma HmpiBetweenMinAndMaxQ(hms: seq<HeavyMetal>)
    requires hms != []
    ensures MinQ(hms) <= Hmpi(hms) <= MaxQ(hms)
  {
    HmpiLowerBound(hms, MinQ(hms));
    HmpiUpperBound(hms, MaxQ(hms));
  }

  /** A single reading's pollution index is its own Q_i. */
  lemma HmpiOfOne(hm: HeavyMetal)
    ensures Hmpi([hm]) == Q(hm)
  {
    HmpiBetweenMinAndMaxQ([hm]);
  }

  // ---------------------------------------------------------------------------
  // Critical-to-drink flag
  // ---------------------------------------------------------------------------

  /**
   * `isCriticalToDrink`: 1 when the pollution index exceeds 100, otherwise 0;
   * an empty list (index NaN, which exceeds nothing) gives 0.
   */
  function IsCriticalToDrink(hms: seq<HeavyMetal>): (r: nat)
    ensures r <= 1
    ensures r == 1 <==> hms != [] && Hmpi(hms) > 100.0
    ensures hms != [] && Hmpi(hms) == 100.0 ==> r == 0
  {
    if hms != [] && Hmpi(hms) > 100.0 then 1 else 0
  }

  /** When every reading is above its permissible limit, the water is critical to drink. */
  lemma AllAboveLimitIsCritical(hms: seq<HeavyMetal>)
    requires hms != []
    requires forall i :: 0 <= i < |hms| ==> hms[i].val > Permissible(hms[i].name)
    ensures IsCriticalToDrink(hms) == 1
  {
    var k :| 0 <= k < |hms| && MinQ(hms) == Q(hms[k]);
    assert Q(hms[k]) > 100.0 by {
      var s := Permissible(hms[k].name);
      assert hms[k].val / s > 1.0;
    }
    HmpiLowerBound(hms, MinQ(hms));
  }

  /** When no reading is above its permissible limit, the water is not critical to drink. */
  lemma AllWithinLimitIsNotCritical(hms: seq<HeavyMetal>)
    requires forall i :: 0 <= i < |hms| ==> hms[i].val <= Permissible(hms[i].name)
    ensures IsCriticalToDrink(hms) == 0
  {
    if hms != [] {
      forall i | 0 <= i < |hms|
        ensures Q(hms[i]) <= 100.0
      {
        var s := Permissible(hms[i].name);
        assert hms[i].val / s <= 1.0;
      }
      HmpiUpperBound(hms, 100.0);
    }
  }

  // ---------------------------------------------------------------------------
  // The stored example report
  // ---------------------------------------------------------------------------

  /** The `hmcs` list of the example report kept in the front end, in its order. */
  function StoredSample(): seq<HeavyMetal>
  {
    [HeavyMetal(CD, 0.01), HeavyMetal(CR, 0.1), HeavyMetal(PB, 0.1),
     HeavyMetal(FE, 0.1), HeavyMetal(CO, 0.15), HeavyMetal(MN, 0.02),
     HeavyMetal(NI, 0.01), HeavyMetal(CU, 0.002), HeavyMetal(ZN, 0.008)]
  }

  /** Extending a prefix by one reading adds that reading's ratio to hei. */
  lemma HeiStep(hms: seq<HeavyMetal>, k: nat)
    requires k < |hms|
    ensures Hei(hms[..k + 1]) == Hei(hms[..k]) + Ratio(hms[k])
  {
    assert hms[..k + 1][..k] == hms[..k];
  }

  /** The concentration ratios C_i / S_i of the example report's readings. */
  lemma StoredSampleRatios()
    ensures Ratio(StoredSample()[0]) == 10.0 / 3.0
    ensures Ratio(StoredSample()[1]) == 2.0
    ensures Ratio(StoredSample()[2]) == 2.0
    ensures Ratio(StoredSample()[3]) == 1.0 / 3.0
    ensures Ratio(StoredSample()[4]) == 3.0
    ensures Ratio(StoredSample()[5]) == 1.0 / 5.0
    ensures Ratio(StoredSample()[6]) == 1.0 / 2.0
    ensures Ratio(StoredSample()[7]) == 1.0 / 25.0
    ensures Ratio(StoredSample()[8]) == 1.0 / 375.0
  {
  }

  /** The unit weights W_i = 1 / S_i of the example report's readings. */
  lemma StoredSampleWeights()
    ensures W(StoredSample()[0]) == 1000.0 / 3.0
    ensures W(StoredSample()[1]) == 20.0
    ensures W(StoredSample()[2]) == 20.0
    ensures W(StoredSample()[3]) == 10.0 / 3.0
    ensures W(StoredSample()[4]) == 20.0
    ensures W(StoredSample()[5]) == 10.0
    ensures W(StoredSample()[6]) == 50.0
    ensures W(StoredSample()[7]) == 20.0
    ensures W(StoredSample()[8]) == 1.0 / 3.0
  {
  }

  /**
   * The evaluation index and contamination degree of the example report, exactly
   * over the reals: hei = 8557/750 (about 11.409) and cd = 1807/750 (about 2.409),
   * so sd = 1 ("Moderate") and pd = 1 ("Moderate Polluted").
   */
  lemma StoredSampleDegrees()
    ensures Hei(StoredSample()) == 8557.0 / 750.0
    ensures Cd(StoredSample()) == 1807.0 / 750.0
    ensures Hei(StoredSample()) - Cd(StoredSample()) == 9.0
    ensures 2.409 < Cd(StoredSample()) < 2.41 && 11.409 < Hei(StoredSample()) < 11.41
    ensures FindSafetyDeg(StoredSample()) == 1 && FindPoluDeg(StoredSample()) == 1
  {
    var s := StoredSample();
    StoredSampleRatios();
    HeiStep(s, 0);
    assert Hei(s[..1]) == 10.0 / 3.0;
    HeiStep(s, 1);
    assert Hei(s[..2]) == 16.0 / 3.0;
    HeiStep(s, 2);
    assert Hei(s[..3]) == 22.0 / 3.0;
    HeiStep(s, 3);
    assert Hei(s[..4]) == 23.0 / 3.0;
    HeiStep(s, 4);
    assert Hei(s[..5]) == 32.0 / 3.0;
    HeiStep(s, 5);
    assert Hei(s[..6]) == 163.0 / 15.0;
    HeiStep(s, 6);
    assert Hei(s[..7]) == 341.0 / 30.0;
    HeiStep(s, 7);
    assert Hei(s[..8]) == 1711.0 / 150.0;
    HeiStep(s, 8);
    assert Hei(s[..9]) == 8557.0 / 750.0;
    assert s[..9] == s;
    CdIsHeiMinusCount(s);
  }

  /** The sub-indices Q_i = 100 C_i / S_i of the example report's readings. */
  lemma StoredSampleQs()
    ensures Q(StoredSample()[0]) == 1000.0 / 3.0
    ensures Q(StoredSample()[1]) == 200.0
    ensures Q(StoredSample()[2]) == 200.0
    ensures Q(StoredSample()[3]) == 100.0 / 3.0
    ensures Q(StoredSample()[4]) == 300.0
    ensures Q(StoredSample()[5]) == 20.0
    ensures Q(StoredSample()[6]) == 50.0
    ensures Q(StoredSample()[7]) == 4.0
    ensures Q(StoredSample()[8]) == 4.0 / 15.0
  {
  }

  /** The numerator of the example report's pollution index. */
  lemma StoredSampleUi()
    ensures Ui(StoredSample()) == 5760104.0 / 45.0
  {
    var ts := Terms(StoredSample());
    StoredSampleWeights();
    StoredSampleQs();
    assert ts[0] == Term(1000.0 / 3.0, 1000.0 / 3.0);
    assert ts[1] == Term(20.0, 200.0);
    assert ts[2] == Term(20.0, 200.0);
    assert ts[3] == Term(10.0 / 3.0, 100.0 / 3.0);
    assert ts[4] == Term(20.0, 300.0);
    assert ts[5] == Term(10.0, 20.0);
    assert ts[6] == Term(50.0, 50.0);
    assert ts[7] == Term(20.0, 4.0);
    assert ts[8] == Term(1.0 / 3.0, 4.0 / 15.0);
    SumWQStep(ts, 0);
    assert SumWQ(ts[..1]) == 1000000.0 / 9.0;
    SumWQStep(ts, 1);
    assert SumWQ(ts[..2]) == 1036000.0 / 9.0;
    SumWQStep(ts, 2);
    assert SumWQ(ts[..3]) == 1072000.0 / 9.0;
    SumWQStep(ts, 3);
    assert SumWQ(ts[..4]) == 1073000.0 / 9.0;
    SumWQStep(ts, 4);
    assert SumWQ(ts[..5]) == 1127000.0 / 9.0;
    SumWQStep(ts, 5);
    assert SumWQ(ts[..6]) == 1128800.0 / 9.0;
    SumWQStep(ts, 6);
    assert SumWQ(ts[..7]) == 1151300.0 / 9.0;
    SumWQStep(ts, 7);
    assert SumWQ(ts[..8]) == 1152020.0 / 9.0;
    SumWQStep(ts, 8);
    assert SumWQ(ts[..9]) == 5760104.0 / 45.0;
    assert ts[..9] == ts;
  }

  /** The denominator of the example report's pollution index. */
  lemma StoredSampleLi()
    ensures Li(StoredSample()) == 477.0
  {
    var s := StoredSample();
    StoredSampleWeights();
    LiStep(s, 0);
    assert Li(s[..1]) == 1000.0 / 3.0;
    LiStep(s, 1);
    assert Li(s[..2]) == 1060.0 / 3.0;
    LiStep(s, 2);
    assert Li(s[..3]) == 1120.0 / 3.0;
    LiStep(s, 3);
    assert Li(s[..4]) == 1130.0 / 3.0;
    LiStep(s, 4);
    assert Li(s[..5]) == 1190.0 / 3.0;
    LiStep(s, 5);
    assert Li(s[..6]) == 1220.0 / 3.0;
    LiStep(s, 6);
    assert Li(s[..7]) == 1370.0 / 3.0;
    LiStep(s, 7);
    assert Li(s[..8]) == 1430.0 / 3.0;
    LiStep(s, 8);
    assert Li(s[..9]) == 477.0;
    assert s[..9] == s;
  }

  /**
   * The pollution index of the example report, exactly over the reals:
   * 5760104/21465 (about 268.35), so the water is critical to drink.
   */
  lemma StoredSampleHmpi()
    ensures Hmpi(StoredSample()) == 5760104.0 / 21465.0
    ensures 268.34 < Hmpi(StoredSample()) < 268.35
    ensures IsCriticalToDrink(StoredSample()) == 1
  {
    StoredSampleUi();
    StoredSampleLi();
  }
}
