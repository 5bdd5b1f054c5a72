/**
 * The rule-based sample validator `validate_sample` of the prediction server.
 *
 * The sample is one row keyed by metal: a metal absent from the map is a
 * missing column, and `NaN` is an empty cell. The isolation-forest verdict and
 * the per-metal regression predictions are inputs: `anomaly` is
 * `iso.predict(sample) == -1`, and `preds(t)` is what the regressor for `t`
 * predicts from the other eight metals.
 */
module SampleValidator {
  import opened Wrappers
  import opened Metals

  /** The order in which every loop visits the metals. */
  const Pollutants: seq<Metal> := [CD, CR, PB, FE, MN, CO, NI, ZN, CU]

  /** Every loop visits each of the nine metals exactly once. */
  lemma PollutantsEnumerate(m: Metal)
    ensures m in Pollutants
    ensures |Pollutants| == 9
    ensures forall i, j :: 0 <= i < j < |Pollutants| ==> Pollutants[i] != Pollutants[j]
  {
  }

  /** Regulatory guide value of each metal, in mg/L. */
  function Guide(m: Metal): (g: real)
    ensures g > 0.0
  {
    match m
    case CD => 0.003
    case CR => 0.05
    case PB => 0.05
    case FE => 0.3
    case MN => 0.1
    case CO => 0.05
    case NI => 0.02
    case ZN => 3.0
    case CU => 0.05
  }

  /** `INSANE_RANGES`: from 10 to 100 times the guide value; only the upper end is checked. */
  function InsaneRange(m: Metal): (r: (real, real))
    ensures r.0 == 10.0 * Guide(m) && r.1 == 100.0 * Guide(m)
    ensures 0.0 < r.0 < r.1
  {
    (10.0 * Guide(m), 100.0 * Guide(m))
  }

  type Sample = map<Metal, Num>

  datatype Decision = Accept | Warn | Reject

  /** The reasons `validate_sample` reports, with the values its messages quote. */
  datatype Reason =
    | MissingValue(m: Metal)
    | IsEmpty(m: Metal)
    | Negative(m: Metal, val: real)
    | Implausible(m: Metal, val: real, max: real)
    | ExceedsGuide(m: Metal, val: real, guide: real)
    | Anomalous
    | Inconsistent(m: Metal, pred: real, actual: real, relDiff: real)
    | PassedAll

  datatype Verdict = Verdict(decision: Decision, reasons: seq<Reason>)

  // ---------------------------------------------------------------------------
  // 1) Hard rules
  // ---------------------------------------------------------------------------

  /** The outcome of the hard rules for one metal. */
  datatype HardCheck = Fatal(reason: Reason) | Warning(reason: Reason) | Fine

  /** The hard rules for one metal, tried in the source's order. */
  function CheckMetal(sample: Sample, m: Metal): (c: HardCheck)
    ensures c.Fatal? <==>
              m !in sample || sample[m].NaN? ||
              sample[m].value < 0.0 || sample[m].value > 100.0 * Guide(m)
    ensures c.Warning? <==>
              m in sample && sample[m].Finite? && Guide(m) < sample[m].value <= 100.0 * Guide(m)
    ensures m !in sample ==> c == Fatal(MissingValue(m))
    ensures m in sample && sample[m].NaN? ==> c == Fatal(IsEmpty(m))
    ensures m in sample && sample[m].Finite? && sample[m].value < 0.0 ==>
              c == Fatal(Negative(m, sample[m].value))
    ensures m in sample && sample[m].Finite? && 0.0 <= sample[m].value && sample[m].value > 100.0 * Guide(m) ==>
              c == Fatal(Implausible(m, sample[m].value, 100.0 * Guide(m)))
    ensures c.Warning? ==> c.reason == ExceedsGuide(m, sample[m].value, Guide(m))
  {
    if m !in sample then Fatal(MissingValue(m))
    else match sample[m]
      case NaN => Fatal(IsEmpty(m))
      case Finite(val) =>
        if val < 0.0 then Fatal(Negative(m, val))
        else if val > InsaneRange(m).1 then Fatal(Implausible(m, val, InsaneRange(m).1))
        else if val > Guide(m) then Warning(ExceedsGuide(m, val, Guide(m)))
        else Fine
  }

  datatype HardOutcome = Rejected(reason: Reason) | Passed(warnings: seq<Reason>)

  /** The first loop over `ms`: the first fatal rule rejects, warnings accumulate in order. */
  function HardRules(sample: Sample, ms: seq<Metal>): HardOutcome
  {
    if ms == [] then Passed([])
    else
      match HardRules(sample, ms[..|ms| - 1])
      case Rejected(r) => Rejected(r)
      case Passed(w) =>
        match CheckMetal(sample, ms[|ms| - 1])
        case Fatal(r) => Rejected(r)
        case Warning(r) => Passed(w + [r])
        case Fine => Passed(w)
  }

  /** A rejection on a prefix is the rejection of the whole list. */
  lemma {:induction false} RejectionIsFinal(sample: Sample, ms: seq<Metal>, k: nat)
    requires k <= |ms| && HardRules(sample, ms[..k]).Rejected?
    ensures HardRules(sample, ms) == HardRules(sample, ms[..k])
  {
    if k < |ms| {
      assert ms[..|ms| - 1][..k] == ms[..k];
      RejectionIsFinal(sample, ms[..|ms| - 1], k);
    } else {
      assert ms[..k] == ms;
    }
  }

  /** The hard rules reject exactly when some metal fails one, with the first failure's reason. */
  lemma {:induction false} HardRulesFirstFailure(sample: Sample, ms: seq<Metal>)
    ensures HardRules(sample, ms).Rejected? <==> exists i :: 0 <= i < |ms| && CheckMetal(sample, ms[i]).Fatal?
    ensures HardRules(sample, ms).Rejected? ==>
              exists k :: 0 <= k < |ms| && CheckMetal(sample, ms[k]).Fatal? &&
                          HardRules(sample, ms).reason == CheckMetal(sample, ms[k]).reason &&
                          forall j :: 0 <= j < k ==> !CheckMetal(sample, ms[j]).Fatal?
  {
    if ms != [] {
      var p := ms[..|ms| - 1];
      assert forall i :: 0 <= i < |p| ==> p[i] == ms[i];
      HardRulesFirstFailure(sample, p);
    }
  }

  /** The reasons of the metals of `ms` whose hard rules only warn, in the order of `ms`. */
  function GuideExcesses(sample: Sample, ms: seq<Metal>): seq<Reason>
  {
    if ms == [] then []
    else
      var c := CheckMetal(sample, ms[|ms| - 1]);
      GuideExcesses(sample, ms[..|ms| - 1]) + (if c.Warning? then [c.reason] else [])
  }

  /** When the hard rules pass, every metal of `ms` is present, numeric and within the plausible range. */
  lemma {:induction false} HardRulesPassedValues(sample: Sample, ms: seq<Metal>)
    requires HardRules(sample, ms).Passed?
    ensures forall i :: 0 <= i < |ms| ==> !CheckMetal(sample, ms[i]).Fatal?
    ensures forall i :: 0 <= i < |ms| ==> ms[i] in sample && sample[ms[i]].Finite? &&
                                          0.0 <= sample[ms[i]].value <= 100.0 * Guide(ms[i])
  {
    if ms != [] {
      var p := ms[..|ms| - 1];
      assert forall i :: 0 <= i < |p| ==> p[i] == ms[i];
      HardRulesPassedValues(sample, p);
    }
  }

  /**
   * The warnings that pass the hard rules are exactly the "exceeds" messages of
   * the metals above their guide, in order.
   */
  lemma {:induction false} HardRulesWarnings(sample: Sample, ms: seq<Metal>)
    requires HardRules(sample, ms).Passed?
    ensures HardRules(sample, ms).warnings == GuideExcesses(sample, ms)
    ensures forall r :: r in HardRules(sample, ms).warnings ==>
              exists i :: 0 <= i < |ms| && CheckMetal(sample, ms[i]) == Warning(r)
    ensures forall i :: 0 <= i < |ms| && CheckMetal(sample, ms[i]).Warning? ==>
              CheckMetal(sample, ms[i]).reason in HardRules(sample, ms).warnings
    ensures forall r :: r in HardRules(sample, ms).warnings ==> r.ExceedsGuide?
  {
    if ms != [] {
      var p := ms[..|ms| - 1];
      assert forall i :: 0 <= i < |p| ==> p[i] == ms[i];
      HardRulesWarnings(sample, p);
    }
  }

  // ---------------------------------------------------------------------------
  // 3) Regression consistency
  // ---------------------------------------------------------------------------

  function Abs(x: real): (r: real)
    ensures r >= 0.0 && (r == x || r == -x)
  {
    if x < 0.0 then -x else x
  }

  /** `max(abs(pred), 1e-9)`, never zero. */
  function Denominator(pred: real): (d: real)
    ensures d >= 0.000000001 && d >= Abs(pred)
    ensures d == Abs(pred) || d == 0.000000001
  {
    if Abs(pred) > 0.000000001 then Abs(pred) else 0.000000001
  }

  /** The relative difference between the prediction and the actual value. */
  function RelDiff(pred: real, y: real): real
  {
    Abs(pred - y) / Denominator(pred)
  }

  /** Flagged when the relative difference exceeds 3. */
  predicate IsInconsistent(pred: real, y: real)
  {
    RelDiff(pred, y) > 3.0
  }

  lemma QuotientAbove(a: real, d: real, c: real)
    requires d > 0.0
    ensures a / d > c <==> a > c * d
  {
    var r := a / d;
    assert r * d == a;
    if r > c {
      assert a - c * d == (r - c) * d;
    } else {
      assert c * d - a == (c - r) * d;
    }
  }

  /**
   * The relative difference is `|pred - y|` measured in units of the
   * denominator; the test compares without dividing.
   */
  lemma RelDiffMeaning(pred: real, y: real)
    ensures RelDiff(pred, y) >= 0.0
    ensures RelDiff(pred, y) * Denominator(pred) == Abs(pred - y)
    ensures IsInconsistent(pred, y) <==> Abs(pred - y) > 3.0 * Denominator(pred)
  {
    QuotientAbove(Abs(pred - y), Denominator(pred), 3.0);
  }

  /** For a prediction not below 1e-9 in size, the test is |pred - y| > 3 |pred|. */
  lemma InconsistentWithoutDivision(pred: real, y: real)
    requires Abs(pred) >= 0.000000001
    ensures IsInconsistent(pred, y) <==> Abs(pred - y) > 3.0 * Abs(pred)
  {
    QuotientAbove(Abs(pred - y), Denominator(pred), 3.0);
  }

  /** Every metal of `ts` has a numeric value in the sample. */
  predicate AllPresent(sample: Sample, ts: seq<Metal>)
  {
    forall k :: 0 <= k < |ts| ==> ts[k] in sample && sample[ts[k]].Finite?
  }

  /** What the regression for `t` reports, if anything. */
  function RegressionReason(t: Metal, pred: real, y: real): (rs: seq<Reason>)
    ensures |rs| <= 1
    ensures rs != [] <==> IsInconsistent(pred, y)
    ensures rs != [] ==> rs[0] == Inconsistent(t, pred, y, RelDiff(pred, y))
  {
    if IsInconsistent(pred, y) then [Inconsistent(t, pred, y, RelDiff(pred, y))] else []
  }

  /** The third loop over `ts`: one "inconsistent" reason per flagged metal, in order. */
  function RegressionReasons(sample: Sample, preds: Metal -> real, ts: seq<Metal>): (rs: seq<Reason>)
    requires AllPresent(sample, ts)
    ensures forall r :: r in rs ==> r.Inconsistent? && r.m in ts
  {
    if ts == [] then []
    else
      var t := ts[|ts| - 1];
      RegressionReasons(sample, preds, ts[..|ts| - 1]) + RegressionReason(t, preds(t), sample[t].value)
  }

  /** Extending the prefix of tested metals by one appends that metal's own reason, if any. */
  lemma RegressionStep(sample: Sample, preds: Metal -> real, ts: seq<Metal>, i: nat)
    requires AllPresent(sample, ts)
    requires i < |ts|
    ensures AllPresent(sample, ts[..i]) && AllPresent(sample, ts[..i + 1])
    ensures RegressionReasons(sample, preds, ts[..i + 1]) ==
              RegressionReasons(sample, preds, ts[..i]) + RegressionReason(ts[i], preds(ts[i]), sample[ts[i]].value)
  {
    assert ts[..i + 1][..i] == ts[..i];
  }

  /**
   * A metal's "inconsistent" reason is reported iff its regression test fails,
   * and any reason naming that metal is exactly this one.
   */
  lemma {:induction false} RegressionReasonsFlag(sample: Sample, preds: Metal -> real, ts: seq<Metal>, t: Metal)
    requires AllPresent(sample, ts)
    requires t in ts && t in sample && sample[t].Finite?
    ensures Inconsistent(t, preds(t), sample[t].value, RelDiff(preds(t), sample[t].value))
              in RegressionReasons(sample, preds, ts)
            <==> IsInconsistent(preds(t), sample[t].value)
    ensures (exists r :: r in RegressionReasons(sample, preds, ts) && r.m == t)
            <==> IsInconsistent(preds(t), sample[t].value)
    ensures forall r :: r in RegressionReasons(sample, preds, ts) && r.m == t ==>
              r == Inconsistent(t, preds(t), sample[t].value, RelDiff(preds(t), sample[t].value))
  {
    var p := ts[..|ts| - 1];
    var u := ts[|ts| - 1];
    assert forall k :: 0 <= k < |p| ==> p[k] == ts[k];
    if t in p {
      RegressionReasonsFlag(sample, preds, p, t);
      if u == t {}
    } else {
      assert t == u;
      assert forall r :: r in RegressionReasons(sample, preds, p) ==> r.m != t;
    }
  }

  // ---------------------------------------------------------------------------
  // The decision
  // ---------------------------------------------------------------------------

  lemma PollutantsPresent(sample: Sample)
    requires HardRules(sample, Pollutants).Passed?
    ensures AllPresent(sample, Pollutants)
  {
    HardRulesPassedValues(sample, Pollutants);
  }

  /** Every reason collected after the hard rules pass: warnings, the anomaly, the inconsistencies. */
  function Collected(sample: Sample, anomaly: bool, preds: Metal -> real): seq<Reason>
    requires HardRules(sample, Pollutants).Passed?
  {
    PollutantsPresent(sample);
    HardRules(sample, Pollutants).warnings + (if anomaly then [Anomalous] else []) +
    RegressionReasons(sample, preds, Pollutants)
  }

  lemma CollectedStartsWithWarnings(sample: Sample, anomaly: bool, preds: Metal -> real)
    requires HardRules(sample, Pollutants).Passed?
    ensures forall r :: r in HardRules(sample, Pollutants).warnings ==> r in Collected(sample, anomaly, preds)
    ensures anomaly ==> Anomalous in Collected(sample, anomaly, preds)
  {
    var w := HardRules(sample, Pollutants).warnings;
    var c := Collected(sample, anomaly, preds);
    assert c[..|w|] == w;
    if anomaly {
      assert c[|w|] == Anomalous;
    }
  }

  /** The verdict of `validate_sample`. */
  function Validate(sample: Sample, anomaly: bool, preds: Metal -> real): Verdict
  {
    match HardRules(sample, Pollutants)
    case Rejected(r) => Verdict(Reject, [r])
    case Passed(_) =>
      var reasons := Collected(sample, anomaly, preds);
      if reasons == [] then Verdict(Accept, [PassedAll]) else Verdict(Warn, reasons)
  }

  /** The two shapes of the verdict, by the outcome of the hard rules. */
  lemma ValidateCases(sample: Sample, anomaly: bool, preds: Metal -> real)
    ensures HardRules(sample, Pollutants).Rejected? ==>
              Validate(sample, anomaly, preds) == Verdict(Reject, [HardRules(sample, Pollutants).reason])
    ensures HardRules(sample, Pollutants).Passed? ==>
              Validate(sample, anomaly, preds) ==
                if Collected(sample, anomaly, preds) == [] then Verdict(Accept, [PassedAll])
                else Verdict(Warn, Collected(sample, anomaly, preds))
  {
  }

  /**
   * One iteration of the hard-rule loop, once the metals before `ms[i]` have
   * passed with warnings `w`: a fatal rule decides the whole loop, and
   * otherwise the prefix passes with `ms[i]`'s warning, if any, appended.
   */
  lemma HardRulesStep(sample: Sample, ms: seq<Metal>, i: nat, w: seq<Reason>)
    requires i < |ms| && HardRules(sample, ms[..i]) == Passed(w)
    ensures CheckMetal(sample, ms[i]).Fatal? ==> HardRules(sample, ms) == Rejected(CheckMetal(sample, ms[i]).reason)
    ensures CheckMetal(sample, ms[i]).Warning? ==>
              HardRules(sample, ms[..i + 1]) == Passed(w + [CheckMetal(sample, ms[i]).reason])
    ensures CheckMetal(sample, ms[i]).Fine? ==> HardRules(sample, ms[..i + 1]) == Passed(w)
  {
    assert ms[..i + 1][..i] == ms[..i];
    if CheckMetal(sample, ms[i]).Fatal? {
      RejectionIsFinal(sample, ms, i + 1);
    }
  }

  /**
   * Step 1 of `validate_sample`, the hard-rule loop: it stops at the first
   * metal that fails a rule, and otherwise returns the "exceeds" reasons it
   * appended.
   */
  method ApplyHardRules(sample: Sample) returns (rejection: Option<Reason>, reasons: seq<Reason>)
    ensures HardRules(sample, Pollutants).Rejected? <==> rejection.Some?
    ensures rejection.Some? ==> rejection.value == HardRules(sample, Pollutants).reason
    ensures rejection.None? ==> reasons == HardRules(sample, Pollutants).warnings
  {
    reasons := [];
    for i := 0 to |Pollutants|
      invariant HardRules(sample, Pollutants[..i]) == Passed(reasons)
    {
      var m := Pollutants[i];
      HardRulesStep(sample, Pollutants, i, reasons);
      if m !in sample {
        return Some(MissingValue(m)), [];
      }
      var cell := sample[m];
      if cell.NaN? {
        return Some(IsEmpty(m)), [];
      }
      var val := cell.value;
      if val < 0.0 {
        return Some(Negative(m, val)), [];
      }
      if val > InsaneRange(m).1 {
        return Some(Implausible(m, val, InsaneRange(m).1)), [];
      }
      if val > Guide(m) {
        reasons := reasons + [ExceedsGuide(m, val, Guide(m))];
      }
    }
    assert Pollutants[..|Pollutants|] == Pollutants;
    rejection := None;
  }

  /**
   * Step 3 of `validate_sample`, the regression loop: for each metal in turn,
   * the relative difference between the predicted and the measured value, and
   * an "inconsistent" reason when it exceeds 3.
   */
  method CheckRegressions(sample: Sample, preds: Metal -> real, ts: seq<Metal>) returns (found: seq<Reason>)
    requires AllPresent(sample, ts)
    ensures found == RegressionReasons(sample, preds, ts)
  {
    found := [];
    for i := 0 to |ts|
      invariant AllPresent(sample, ts[..i])
      invariant found == RegressionReasons(sample, preds, ts[..i])
    {
      var t := ts[i];
      RegressionStep(sample, preds, ts, i);
      var y := sample[t].value;
      var pred := preds(t);
      var denom := Denominator(pred);
      var relDiff := Abs(pred - y) / denom;
      if relDiff > 3.0 {
        found := found + [Inconsistent(t, pred, y, relDiff)];
      }
    }
    assert ts[..|ts|] == ts;
  }

  /**
   * `validate_sample` as written: the hard rules with early rejection, then a
   * `reasons` list appended to and a `decision` reassigned over the anomaly
   * step and the regression loop. After the anomaly step the decision becomes
   * "warn" whether or not the sample was flagged; the final empty-reasons test
   * restores "accept".
   */
  method ValidateSample(sample: Sample, anomaly: bool, preds: Metal -> real) returns (v: Verdict)
    ensures v == Validate(sample, anomaly, preds)
  {
    // 1) Hard rules
    var rejection, reasons := ApplyHardRules(sample);
    if rejection.Some? {
      ValidateCases(sample, anomaly, preds);
      return Verdict(Reject, [rejection.value]);
    }
    var decision := if reasons == [] then Accept else Warn;
    PollutantsPresent(sample);

    // 2) Anomaly detection
    if anomaly {
      reasons := reasons + [Anomalous];
    }
    if decision != Reject {
      decision := Warn;
    }

    // 3) Regression dependency checks
    var inconsistent := CheckRegressions(sample, preds, Pollutants);
    reasons := reasons + inconsistent;
    if inconsistent != [] && decision != Reject {
      decision := Warn;
    }
    assert reasons == Collected(sample, anomaly, preds);
    ValidateCases(sample, anomaly, preds);

    if reasons == [] {
      reasons := reasons + [PassedAll];
      decision := Accept;
    }
    return Verdict(decision, reasons);
  }

  // ---------------------------------------------------------------------------
  // Properties of the verdict
  // ---------------------------------------------------------------------------

  /**
   * A hard-rule failure rejects with exactly one reason, that of the first
   * failing metal in `Pollutants` order; warnings of earlier metals are dropped.
   */
  lemma RejectOnFirstFailure(sample: Sample, anomaly: bool, preds: Metal -> real, k: nat)
    requires k < |Pollutants| && CheckMetal(sample, Pollutants[k]).Fatal?
    requires forall j :: 0 <= j < k ==> !CheckMetal(sample, Pollutants[j]).Fatal?
    ensures Validate(sample, anomaly, preds) == Verdict(Reject, [CheckMetal(sample, Pollutants[k]).reason])
  {
    HardRulesFirstFailure(sample, Pollutants);
    var k' :| 0 <= k' < |Pollutants| && CheckMetal(sample, Pollutants[k']).Fatal? &&
              HardRules(sample, Pollutants).reason == CheckMetal(sample, Pollutants[k']).reason &&
              forall j :: 0 <= j < k' ==> !CheckMetal(sample, Pollutants[j]).Fatal?;
    assert k' == k;
  }

  /** Any missing, empty, negative or implausible value rejects with exactly one reason. */
  lemma HardFailureRejects(sample: Sample, anomaly: bool, preds: Metal -> real, m: Metal)
    requires m !in sample || sample[m].NaN? || sample[m].value < 0.0 || sample[m].value > 100.0 * Guide(m)
    ensures Validate(sample, anomaly, preds).decision == Reject
    ensures |Validate(sample, anomaly, preds).reasons| == 1
  {
    PollutantsEnumerate(m);
    var i :| 0 <= i < |Pollutants| && Pollutants[i] == m;
    HardRulesFirstFailure(sample, Pollutants);
  }

  /** The verdict is a rejection exactly when some metal fails a hard rule. */
  lemma RejectIffHardFailure(sample: Sample, anomaly: bool, preds: Metal -> real)
    ensures Validate(sample, anomaly, preds).decision == Reject <==>
              exists i :: 0 <= i < |Pollutants| && CheckMetal(sample, Pollutants[i]).Fatal?
  {
    HardRulesFirstFailure(sample, Pollutants);
  }

  /**
   * Once the hard rules pass the decision is never "reject": it is "accept",
   * with the single "passed" reason, iff nothing was collected, and "warn" with
   * the collected reasons otherwise.
   */
  lemma AcceptOrWarn(sample: Sample, anomaly: bool, preds: Metal -> real)
    requires HardRules(sample, Pollutants).Passed?
    ensures Validate(sample, anomaly, preds).decision != Reject
    ensures Validate(sample, anomaly, preds).decision == Accept <==> Collected(sample, anomaly, preds) == []
    ensures Validate(sample, anomaly, preds).decision == Accept ==>
              Validate(sample, anomaly, preds).reasons == [PassedAll]
    ensures Validate(sample, anomaly, preds).decision == Warn ==>
              Validate(sample, anomaly, preds).reasons == Collected(sample, anomaly, preds)
  {
  }

  /** A value above its guide but within 100 times it warns, quoting the value and the guide. */
  lemma ExceedingGuideWarns(sample: Sample, anomaly: bool, preds: Metal -> real, m: Metal)
    requires HardRules(sample, Pollutants).Passed?
    requires m in sample && sample[m].Finite? && Guide(m) < sample[m].value <= 100.0 * Guide(m)
    ensures Validate(sample, anomaly, preds).decision == Warn
    ensures ExceedsGuide(m, sample[m].value, Guide(m)) in Validate(sample, anomaly, preds).reasons
  {
    PollutantsEnumerate(m);
    var i :| 0 <= i < |Pollutants| && Pollutants[i] == m;
    var w := HardRules(sample, Pollutants).warnings;
    HardRulesWarnings(sample, Pollutants);
    assert CheckMetal(sample, Pollutants[i]).Warning?;
    assert ExceedsGuide(m, sample[m].value, Guide(m)) in w;
    CollectedStartsWithWarnings(sample, anomaly, preds);
    ValidateCases(sample, anomaly, preds);
  }

  /** A flagged anomaly always warns. */
  lemma AnomalyWarns(sample: Sample, preds: Metal -> real)
    requires HardRules(sample, Pollutants).Passed?
    ensures Validate(sample, true, preds).decision == Warn
    ensures Anomalous in Validate(sample, true, preds).reasons
  {
    CollectedStartsWithWarnings(sample, true, preds);
    ValidateCases(sample, true, preds);
  }

  /** Once the hard rules pass, the anomaly reason is reported exactly when the detector flags the sample. */
  lemma AnomalyReportedIff(sample: Sample, anomaly: bool, preds: Metal -> real)
    requires HardRules(sample, Pollutants).Passed?
    ensures Anomalous in Validate(sample, anomaly, preds).reasons <==> anomaly
  {
    PollutantsPresent(sample);
    HardRulesWarnings(sample, Pollutants);
    CollectedStartsWithWarnings(sample, anomaly, preds);
    ValidateCases(sample, anomaly, preds);
    if !anomaly {
      var w := HardRules(sample, Pollutants).warnings;
      var rr := RegressionReasons(sample, preds, Pollutants);
      assert Collected(sample, anomaly, preds) == w + rr;
      assert Anomalous !in w && Anomalous !in rr;
    }
  }

  /**
   * Once the hard rules pass, the sample is accepted exactly when no metal
   * exceeds its guide, the detector does not flag it and no regression test fails.
   */
  lemma AcceptIffClean(sample: Sample, anomaly: bool, preds: Metal -> real)
    requires HardRules(sample, Pollutants).Passed?
    ensures Validate(sample, anomaly, preds) == Verdict(Accept, [PassedAll]) <==>
              (forall m :: !CheckMetal(sample, m).Warning?) && !anomaly &&
              (forall t :: t in sample && sample[t].Finite? ==> !IsInconsistent(preds(t), sample[t].value))
  {
    PollutantsPresent(sample);
    HardRulesWarnings(sample, Pollutants);
    ValidateCases(sample, anomaly, preds);
    var w := HardRules(sample, Pollutants).warnings;
    var rr := RegressionReasons(sample, preds, Pollutants);
    assert Collected(sample, anomaly, preds) == w + (if anomaly then [Anomalous] else []) + rr;
    if Validate(sample, anomaly, preds) == Verdict(Accept, [PassedAll]) {
      assert w == [] && !anomaly && rr == [];
      forall m
        ensures !CheckMetal(sample, m).Warning?
      {
        PollutantsEnumerate(m);
        var i :| 0 <= i < |Pollutants| && Pollutants[i] == m;
      }
      forall t | t in sample && sample[t].Finite?
        ensures !IsInconsistent(preds(t), sample[t].value)
      {
        PollutantsEnumerate(t);
        RegressionReasonsFlag(sample, preds, Pollutants, t);
      }
    } else {
      assert Collected(sample, anomaly, preds) != [];
      if w != [] {
        assert w[0] in w;
        var i :| 0 <= i < |Pollutants| && CheckMetal(sample, Pollutants[i]) == Warning(w[0]);
        assert CheckMetal(sample, Pollutants[i]).Warning?;
      } else if !anomaly {
        var r := rr[0];
        assert r in rr;
        RegressionReasonsFlag(sample, preds, Pollutants, r.m);
        assert IsInconsistent(preds(r.m), sample[r.m].value);
      }
    }
  }

  /**
   * Once the hard rules pass, metal `t` is reported inconsistent iff its
   * relative difference exceeds 3, and only with its own prediction and value.
   */
  lemma InconsistencyReported(sample: Sample, anomaly: bool, preds: Metal -> real, t: Metal)
    requires HardRules(sample, Pollutants).Passed?
    requires t in sample && sample[t].Finite?
    ensures Inconsistent(t, preds(t), sample[t].value, RelDiff(preds(t), sample[t].value))
              in Validate(sample, anomaly, preds).reasons
            <==> IsInconsistent(preds(t), sample[t].value)
    ensures (exists r :: r in Validate(sample, anomaly, preds).reasons && r.Inconsistent? && r.m == t)
            <==> IsInconsistent(preds(t), sample[t].value)
    ensures forall r :: r in Validate(sample, anomaly, preds).reasons && r.Inconsistent? && r.m == t ==>
              r == Inconsistent(t, preds(t), sample[t].value, RelDiff(preds(t), sample[t].value))
  {
    PollutantsEnumerate(t);
    PollutantsPresent(sample);
    HardRulesWarnings(sample, Pollutants);
    RegressionReasonsFlag(sample, preds, Pollutants, t);
  }
}
