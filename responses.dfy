/**
 * The response envelope builders `responses.*` and the senders
 * `responseHandlers.*` (backend/utils/responses.js). A `Response` is what
 * `res.status(code).json(body)` puts on the wire.
 */
module Responses {
  import opened Wrappers
  import opened Json
  import opened JsString

  /** The `status` field: `'success'` or `'error'`. */
  datatype Status = Success | Error

  function StatusText(s: Status): (t: string)
    ensures t == "success" <==> s == Success
  {
    match s
    case Success => "success"
    case Error => "error"
  }

  /**
   * `{status, status_code, message, required_field?, result?}`. Every
   * `status_code` the senders put on the wire is the decimal text of a
   * number, so the envelope holds that number and `StatusCodeText` renders it.
   */
  datatype Envelope = Envelope(
    status: Status,
    statusCode: nat,
    message: string,
    requiredField: Option<string>,
    result: Option<JsValue>)

  datatype Response = Response(httpStatus: nat, body: Envelope)

  const NoRecordMessage := "No record found"

  /**
   * The envelope contract of the API: success only with 200/201, `status_code`
   * the decimal HTTP status except for the missing-parameter ('203', sent as 400)
   * and no-record ('204', sent as 404) cases, `required_field` only on the
   * missing-parameter envelope and `result` only on success.
   */
  predicate Conforms(r: Response) {
    var e := r.body;
    && (e.status == Success ==>
          && (r.httpStatus == 200 || r.httpStatus == 201)
          && e.statusCode == r.httpStatus
          && e.requiredField.None?)
    && (e.status == Error ==>
          && e.result.None?
          && (|| (e.statusCode == r.httpStatus && e.requiredField.None?)
              || (r.httpStatus == 400 && e.statusCode == 203 && e.requiredField.Some?)
              || (r.httpStatus == 404 && e.statusCode == 204 && e.requiredField.None?)))
  }

  /** The `status_code` string as sent: `'203'`, `'204'`, `'200'`, `'201'` or `String(code)`. */
  function StatusCodeText(e: Envelope): (t: string)
    ensures ParseDec(t) == Some(e.statusCode)
  {
    DecRoundTrip(e.statusCode);
    Dec(e.statusCode)
  }

  // ------------------------------------------------------------ responses.*

  function MissingParamEnvelope(fields: seq<string>): Envelope {
    Envelope(Error, 203, "invalid data", Some(Join(fields, ',')), None)
  }

  function ErrorEnvelope(code: nat, msg: string): Envelope {
    Envelope(Error, code, msg, None, None)
  }

  /** The `result` key is set only when the result is truthy (the default `null` is not). */
  function SuccessEnvelope(msg: string, result: JsValue): Envelope {
    Envelope(Success, 200, msg, None, if Truthy(result) then Some(result) else None)
  }

  function CreatedEnvelope(msg: string, result: JsValue): Envelope {
    Envelope(Success, 201, msg, None, if Truthy(result) then Some(result) else None)
  }

  function NoRecordEnvelope(msg: string): Envelope {
    Envelope(Error, 204, msg, None, None)
  }

  // ------------------------------------------------------------ responseHandlers.*

  function SendSuccess(msg: string, result: JsValue): (r: Response)
    ensures Conforms(r) && r.httpStatus == 200 && r.body.status == Success && r.body.message == msg
    ensures r.body.result.Some? <==> Truthy(result)
    ensures r.body.result.Some? ==> r.body.result.value == result
  {
    Response(200, SuccessEnvelope(msg, result))
  }

  function SendCreated(msg: string, result: JsValue): (r: Response)
    ensures Conforms(r) && r.httpStatus == 201 && r.body.status == Success && r.body.message == msg
    ensures r.body.result.Some? <==> Truthy(result)
    ensures r.body.result.Some? ==> r.body.result.value == result
  {
    Response(201, CreatedEnvelope(msg, result))
  }

  /** `sendError(res, code, msg)`: `status_code` is `String(code)`. */
  function SendError(code: nat, msg: string): (r: Response)
    ensures Conforms(r) && r.httpStatus == code && r.body.status == Error && r.body.message == msg
    ensures r.body.statusCode == code && r.body.requiredField.None? && r.body.result.None?
  {
    Response(code, ErrorEnvelope(code, msg))
  }

  /** `sendMissingParam(res, fields)`: HTTP 400, `status_code` '203', `required_field` the comma-joined names. */
  function SendMissingParam(fields: seq<string>): (r: Response)
    ensures Conforms(r) && r.httpStatus == 400 && r.body.status == Error
    ensures r.body.statusCode == 203 && r.body.requiredField == Some(Join(fields, ','))
    ensures r.body.message == "invalid data" && r.body.result.None?
  {
    Response(400, MissingParamEnvelope(fields))
  }

  /** `sendNoRecord(res, msg)`: HTTP 404 with `status_code` '204'. */
  function SendNoRecord(msg: string): (r: Response)
    ensures Conforms(r) && r.httpStatus == 404 && r.body.status == Error
    ensures r.body.statusCode == 204 && r.body.message == msg
  {
    Response(404, NoRecordEnvelope(msg))
  }

  /** The names listed in `required_field` can be recovered from it when none contains a comma. */
  lemma RequiredFieldRoundTrip(fields: seq<string>)
    requires |fields| >= 1
    requires forall i :: 0 <= i < |fields| ==> ',' !in fields[i]
    ensures Split(SendMissingParam(fields).body.requiredField.value, ',') == fields
  {
    SplitJoinRoundTrip(fields, ',');
  }

  // ------------------------------------------------------------ catch-all paths

  /** Exceptions the data layer raises and the controllers catch. */
  datatype Failure =
    | CastFailed        // a value of the wrong type for its schema path
    | ValidationFailed  // a schema validator (required, min, enum) rejected a value
    | DuplicateKey      // a unique index (or _id) already holds the value
    | TypeFailed        // a JavaScript TypeError: a property of null or undefined, or iterating a non-iterable

  /** Stands for `error.message`, whose exact wording the model does not fix. */
  function FailureMessage(f: Failure): string {
    match f
    case CastFailed => "Cast failed"
    case ValidationFailed => "Validation failed"
    case DuplicateKey => "Duplicate key"
    case TypeFailed => "Type error"
  }

  /** `catch (error) { sendError(res, code, error.message) }`. */
  function SendCaught(code: nat, f: Failure): (r: Response)
    ensures Conforms(r) && r.httpStatus == code && r.body.status == Error
    ensures r.body.statusCode == code && r.body.message == FailureMessage(f)
  {
    SendError(code, FailureMessage(f))
  }
}
