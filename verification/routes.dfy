/**
 * The validation in the `POST /api/progress` handler: the `progress` field of
 * the parsed JSON body is accepted only when it is a number between 0 and 100
 * inclusive, and then echoed back with `success: true`.
 */
module Routes {

  /**
   * A value produced by `JSON.parse`, plus `undefined` for a missing property.
   * `JSON.parse` never yields NaN, but a literal too large for a double, such as
   * `1e400`, yields `Infinity`; `Number` has no such value, and an infinite
   * progress is rejected exactly as any number above 100 is.
   */
  datatype Json =
    | Undefined
    | Null
    | Bool(b: bool)
    | Number(n: real)
    | Str(s: string)
    | Arr(items: seq<Json>)
    | Obj(fields: map<string, Json>)

  datatype Response = Response(status: int, body: Json)

  /** Reading a property: only an object has own named properties; anything else yields `undefined`. */
  function Property(body: Json, name: string): (v: Json)
    ensures body.Obj? && name in body.fields ==> v == body.fields[name]
    ensures !(body.Obj? && name in body.fields) ==> v == Undefined
  {
    match body
    case Obj(fields) => if name in fields then fields[name] else Undefined
    case _ => Undefined
  }

  /** The rejection condition: not of type number, or below 0, or above 100. */
  predicate Invalid(progress: Json) {
    !progress.Number? || progress.n < 0.0 || progress.n > 100.0
  }

  const InvalidProgress: Response := Response(400, Obj(map["message" := Str("Invalid progress value")]))

  /** The handler's answer for a request body; status 200 is Express's default. */
  function PostProgress(body: Json): (r: Response)
    ensures r.status == 200 <==> exists n: real :: Property(body, "progress") == Number(n) && 0.0 <= n <= 100.0
    ensures r.status != 200 ==> r == InvalidProgress
    ensures r.status == 200 ==> r.body == Obj(map["success" := Bool(true), "progress" := Property(body, "progress")])
  {
    var progress := Property(body, "progress");
    if Invalid(progress) then InvalidProgress
    else Response(200, Obj(map["success" := Bool(true), "progress" := progress]))
  }

  /** Both end points of the range are accepted, and the echoed value is the one sent. */
  lemma EndpointsAccepted()
    ensures PostProgress(Obj(map["progress" := Number(0.0)])).status == 200
    ensures PostProgress(Obj(map["progress" := Number(100.0)])).status == 200
    ensures PostProgress(Obj(map["progress" := Number(100.0)])).body.fields["progress"] == Number(100.0)
  {
  }

  /** Values just outside the range, a numeric string and a missing field are all rejected. */
  lemma OutsideRejected()
    ensures PostProgress(Obj(map["progress" := Number(-0.5)])) == InvalidProgress
    ensures PostProgress(Obj(map["progress" := Number(100.5)])) == InvalidProgress
    ensures PostProgress(Obj(map["progress" := Str("50")])) == InvalidProgress
    ensures PostProgress(Obj(map[])) == InvalidProgress
  {
  }
}
