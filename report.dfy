/**
 * The report routes: unit normalisation and report assembly in `POST /new`,
 * and the owner check in `GET /get/:id` and `POST /chat/:id`.
 *
 * The user store, the report store and the prediction / language-model
 * services are parameters: a lookup outcome, or a total function returning
 * `None` where the JavaScript would see `undefined` or an exception.
 */
module ReportRoutes {
  import opened Wrappers
  import opened Metals
  import opened Calculations

  /** One submitted reading `{name, val, unit}`; the unit is any string. */
  datatype RawMetal = RawMetal(name: Metal, val: real, unit: string)

  datatype Coords = Coords(lat: real, lon: real)

  /** What the assessment service estimates for the location: rainfall trend, soil type, soil susceptibility. */
  datatype ExtFields = ExtFields(rain: real, st: real, ss: real)

  /** The sample sent to the trend and heatmap predictors. */
  datatype PredSample = PredSample(lat: real, lon: real, year: int, state: nat,
                                   rain: real, soilType: real, soilSus: real, source: string)

  /** An opaque JSON value produced by a collaborator. */
  type Blob = string

  /** The stored report, before the store assigns its identity. */
  datatype Report = Report(owner: string, cd: real, hei: real, hmpi: Num, sd: nat, pd: nat,
                           isCritical: nat, fut: Option<Blob>, hmap: Option<Blob>,
                           anal: Option<Blob>, hmcs: seq<HeavyMetal>)

  datatype Flag = Success | Invalid | Fail

  /** An HTTP reply: status code, `flag`, `msg`, and the payload of a successful reply. */
  datatype Response<T> = Response(status: nat, flag: Flag, msg: string, body: Option<T>)

  const UserNotFound: Response<Report> := Response(400, Invalid, "User not found!", None)
  const ServerError: Response<Report> := Response(500, Fail, "Server error.", None)

  /** The year the trend predictor is asked about. */
  const PredictionYear := 2025

  // ---------------------------------------------------------------------------
  // Unit normalisation
  // ---------------------------------------------------------------------------

  /**
   * The readings rewritten into mg/L: same length, same order, same names;
   * a reading whose unit is exactly "g/L" is multiplied by 1000 and a reading in
   * any other unit keeps its value. The unit itself is dropped.
   */
  function Normalized(hms: seq<RawMetal>): (acc: seq<HeavyMetal>)
    ensures |acc| == |hms|
    ensures forall i :: 0 <= i < |hms| ==> acc[i].name == hms[i].name
    ensures forall i :: 0 <= i < |hms| && hms[i].unit == "g/L" ==> acc[i].val == 1000.0 * hms[i].val
    ensures forall i :: 0 <= i < |hms| && hms[i].unit != "g/L" ==> acc[i].val == hms[i].val
  {
    if hms == [] then []
    else
      var hm := hms[|hms| - 1];
      var val := if hm.unit == "g/L" then GLToMgL(hm.val) else hm.val;
      Normalized(hms[..|hms| - 1]) + [HeavyMetal(hm.name, val)]
  }

  /** The normalisation loop of `POST /new`, building `acc_hms` by `push`. */
  method Normalize(hms: seq<RawMetal>) returns (acc: seq<HeavyMetal>)
    ensures acc == Normalized(hms)
  {
    acc := [];
    for i := 0 to |hms|
      invariant acc == Normalized(hms[..i])
    {
      var val := hms[i].val;
      if hms[i].unit == "g/L" {
        val := GLToMgL(val);
      }
      var mhm := HeavyMetal(hms[i].name, val);
      acc := acc + [mhm];
      assert hms[..i + 1][..i] == hms[..i];
    }
    assert hms[..|hms|] == hms;
  }

  /** A reading of 0.0001 g/L becomes 0.1 mg/L before any index is computed. */
  lemma GramsPerLitreExample(m: Metal)
    ensures Normalized([RawMetal(m, 0.0001, "g/L")]) == [HeavyMetal(m, 0.1)]
  {
  }

  /** Normalisation is the identity on values once every reading is already in mg/L. */
  lemma {:induction false} NormalizedMgL(hms: seq<RawMetal>)
    requires forall i :: 0 <= i < |hms| ==> hms[i].unit == "mg/L"
    ensures Normalized(hms) == seq(|hms|, i requires 0 <= i < |hms| => HeavyMetal(hms[i].name, hms[i].val))
  {
  }

  // ---------------------------------------------------------------------------
  // POST /new
  // ---------------------------------------------------------------------------

  /** The sample sent to both predictors: the location, the year, sd as `state`, the assessment, the source. */
  function PredictionInput(coords: Coords, sd: nat, ext: ExtFields, src: string): (p: PredSample)
    ensures p.state == sd && p.year == PredictionYear && p.source == src
    ensures p.lat == coords.lat && p.lon == coords.lon
    ensures p.rain == ext.rain && p.soilType == ext.st && p.soilSus == ext.ss
  {
    PredSample(coords.lat, coords.lon, PredictionYear, sd, ext.rain, ext.st, ext.ss, src)
  }

  /**
   * `r` is the report `POST /new` assembles for `userId` from the submitted
   * readings: every index is computed from the normalised list, which is also
   * stored as `hmcs`; an empty list gives hmpi NaN (0 / 0) and so isCritical 0.
   */
  ghost predicate Assembled(r: Report, userId: string, coords: Coords, hms: seq<RawMetal>, src: string,
                            ext: ExtFields, future: PredSample -> Option<Blob>,
                            heatmap: PredSample -> Option<Blob>, analyse: seq<HeavyMetal> -> Option<Blob>)
  {
    var acc := Normalized(hms);
    && r.owner == userId
    && r.hmcs == acc
    && r.cd == Cd(acc) && r.hei == Hei(acc)
    && r.sd == FindSafetyDeg(acc) && r.pd == FindPoluDeg(acc)
    && (acc == [] ==> r.hmpi == NaN && r.isCritical == 0)
    && (acc != [] ==> r.hmpi == Finite(Hmpi(acc)))
    && r.isCritical == IsCriticalToDrink(acc)
    && r.fut == future(PredictionInput(coords, r.sd, ext, src))
    && r.hmap == heatmap(PredictionInput(coords, r.sd, ext, src))
    && r.anal == analyse(acc)
  }

  /** The report `POST /new` builds for `userId` once the assessment `ext` is available. */
  function AssembledReport(userId: string, coords: Coords, hms: seq<RawMetal>, src: string,
                           ext: ExtFields, future: PredSample -> Option<Blob>,
                           heatmap: PredSample -> Option<Blob>, analyse: seq<HeavyMetal> -> Option<Blob>): (r: Report)
    ensures Assembled(r, userId, coords, hms, src, ext, future, heatmap, analyse)
  {
    var acc := Normalized(hms);
    var sd := FindSafetyDeg(acc);
    var sample := PredictionInput(coords, sd, ext, src);
    Report(userId, Cd(acc), Hei(acc), if acc == [] then NaN else Finite(Hmpi(acc)), sd, FindPoluDeg(acc),
           IsCriticalToDrink(acc), future(sample), heatmap(sample), analyse(acc), acc)
  }

  /**
   * `POST /new`. An unknown owner is a 400; a missing assessment (the
   * `extFlds.rain` access on `undefined` throws) or a failed store is a 500;
   * otherwise the assembled report is returned with `flag: "success"`.
   */
  method NewReport(userId: string, ownerFound: bool, coords: Coords, hms: seq<RawMetal>, src: string,
                   assess: Coords -> Option<ExtFields>, future: PredSample -> Option<Blob>,
                   heatmap: PredSample -> Option<Blob>, analyse: seq<HeavyMetal> -> Option<Blob>,
                   create: Report -> bool)
    returns (res: Response<Report>)
    ensures res == UserNotFound <==> !ownerFound
    ensures ownerFound && assess(coords).None? ==> res == ServerError
    ensures ownerFound && assess(coords).Some? ==>
              var r := AssembledReport(userId, coords, hms, src, assess(coords).value, future, heatmap, analyse);
              res == if create(r) then Response(200, Success, "", Some(r)) else ServerError
    ensures res.flag == Success <==> ownerFound && assess(coords).Some? && res.body.Some? && create(res.body.value)
    ensures res.flag == Success ==>
              res.status == 200 &&
              Assembled(res.body.value, userId, coords, hms, src, assess(coords).value, future, heatmap, analyse)
    ensures res.flag != Success ==> res == UserNotFound || res == ServerError
  {
    if !ownerFound {
      return UserNotFound;
    }

    var accHms := Normalize(hms);

    var cd := FindCd(accHms);
    var hei := FindHei(accHms);
    var sd := FindSafetyDeg(accHms);
    var pd := FindPoluDeg(accHms);
    var hmpi := FindHmpi(accHms);
    var isCritical := IsCriticalToDrink(accHms);

    var extFlds := assess(coords);
    if extFlds.None? {
      return ServerError;
    }

    var sampleForPreds := PredictionInput(coords, sd, extFlds.value, src);
    var fut := future(sampleForPreds);
    var hmap := heatmap(sampleForPreds);
    var anal := analyse(accHms);

    var report := Report(userId, cd, hei, hmpi, sd, pd, isCritical, fut, hmap, anal, accHms);
    if !create(report) {
      return ServerError;
    }
    return Response(200, Success, "", Some(report));
  }

  // ---------------------------------------------------------------------------
  // GET /get/:id and POST /chat/:id
  // ---------------------------------------------------------------------------

  /** The owner check shared by both routes: the requester's id equals the report's owner id. */
  predicate IsOwner(userId: string, r: Report)
  {
    userId == r.owner
  }

  /** Each report has exactly one user who passes the check: the one recorded as its owner. */
  lemma OneOwner(r: Report, u: string, v: string)
    ensures IsOwner(r.owner, r)
    ensures IsOwner(u, r) && IsOwner(v, r) ==> u == v
  {
  }

  /** `GET /get/:id`: the report is returned only to its owner. */
  function GetReport(userId: string, userFound: bool, target: Option<Report>): (res: Response<Report>)
    ensures res.flag == Success <==> userFound && target.Some? && IsOwner(userId, target.value)
    ensures res.flag == Success ==> res.status == 200 && res.body == target
    ensures !userFound ==> res == UserNotFound
    ensures userFound && target.None? ==> res == Response(404, Invalid, "Not found!", None)
    ensures userFound && target.Some? && !IsOwner(userId, target.value) ==>
              res == Response(200, Invalid, "Not authenicated", None)
  {
    if !userFound then UserNotFound
    else if target.None? then Response(404, Invalid, "Not found!", None)
    else if !IsOwner(userId, target.value) then Response(200, Invalid, "Not authenicated", None)
    else Response(200, Success, "", target)
  }

  /**
   * `POST /chat/:id`: the question is relayed to the language model only for the
   * report's owner; its reply (possibly `undefined`) is the payload.
   */
  function ChatReport(userId: string, userFound: bool, target: Option<Report>, q: string,
                      reply: (Report, string) -> Option<string>): (res: Response<Option<string>>)
    ensures res.flag == Success <==> userFound && target.Some? && IsOwner(userId, target.value)
    ensures res.flag == Success ==> res.status == 200 && res.body == Some(reply(target.value, q))
    ensures res.flag != Success ==> res.body == None && res.status in {400, 404, 200}
    ensures !userFound ==> res == Response(400, Invalid, "User not found!", None)
    ensures userFound && target.None? ==> res == Response(404, Invalid, "Not found!", None)
    ensures userFound && target.Some? && !IsOwner(userId, target.value) ==>
              res == Response(200, Invalid, "Not authenicated", None)
  {
    if !userFound then Response(400, Invalid, "User not found!", None)
    else if target.None? then Response(404, Invalid, "Not found!", None)
    else if !IsOwner(userId, target.value) then Response(200, Invalid, "Not authenicated", None)
    else Response(200, Success, "", Some(reply(target.value, q)))
  }

  /** The report `POST /new` stores for a user is one that user can read back and chat about. */
  lemma CreatorCanReadBack(userId: string, coords: Coords, hms: seq<RawMetal>, src: string,
                           ext: ExtFields, future: PredSample -> Option<Blob>,
                           heatmap: PredSample -> Option<Blob>, analyse: seq<HeavyMetal> -> Option<Blob>,
                           r: Report, other: string, q: string, reply: (Report, string) -> Option<string>)
    requires Assembled(r, userId, coords, hms, src, ext, future, heatmap, analyse)
    ensures GetReport(userId, true, Some(r)) == Response(200, Success, "", Some(r))
    ensures ChatReport(userId, true, Some(r), q, reply).flag == Success
    ensures other != userId ==> GetReport(other, true, Some(r)).flag == Invalid
    ensures other != userId ==> ChatReport(other, true, Some(r), q, reply).flag == Invalid
  {
  }
}
