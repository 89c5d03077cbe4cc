/**
 * The service's error taxonomy (src/lib/errors.rs): a closed set of error
 * kinds, the table that turns each into an HTTP status and body, and the
 * conversions from the errors of the libraries the core calls.
 */
module Errors {

  import opened Wrappers

  /** JSON values as far as the error bodies need them. */
  datatype Json =
    | JNull
    | JString(text: string)
    | JArray(items: seq<Json>)
    | JObject(fields: map<string, Json>)

  /** `errors::Error`; the variants carry a JSON body, except the catch-all. */
  datatype Error =
    | Unauthorized(body: Json)
    | Forbidden(body: Json)
    | NotFound(body: Json)
    | UnprocessableEntity(body: Json)
    | InternalServerError

  /** An HTTP response as far as status and JSON body go. */
  datatype Response = Response(status: nat, body: Json)

  /** A one-key object `{"error": v}`, the shape of most error bodies. */
  function ErrorBody(v: Json): Json
  {
    JObject(map["error" := v])
  }

  const InternalServerErrorBody: Json := ErrorBody(JString("Internal Server Error"))

  /**
   * `error_response`: each kind answers with its own status and passes its body
   * through untouched; the catch-all answers 500 with a fixed body, so nothing
   * about the underlying fault reaches the caller.
   */
  function ErrorResponse(e: Error): (r: Response)
    ensures r.status == 401 <==> e.Unauthorized?
    ensures r.status == 403 <==> e.Forbidden?
    ensures r.status == 404 <==> e.NotFound?
    ensures r.status == 422 <==> e.UnprocessableEntity?
    ensures r.status == 500 <==> e.InternalServerError?
    ensures !e.InternalServerError? ==> r.body == e.body
    ensures e.InternalServerError? ==> r.body == InternalServerErrorBody
  {
    match e
    case Unauthorized(body) => Response(401, body)
    case Forbidden(body) => Response(403, body)
    case NotFound(body) => Response(404, body)
    case UnprocessableEntity(body) => Response(422, body)
    case InternalServerError => Response(500, InternalServerErrorBody)
  }

  /** Two different kinds never share a status, so the status alone tells the kind. */
  lemma ErrorResponseStatusDeterminesKind(e1: Error, e2: Error)
    requires ErrorResponse(e1).status == ErrorResponse(e2).status
    ensures e1.Unauthorized? == e2.Unauthorized? && e1.Forbidden? == e2.Forbidden?
    ensures e1.NotFound? == e2.NotFound? && e1.UnprocessableEntity? == e2.UnprocessableEntity?
    ensures e1.InternalServerError? == e2.InternalServerError?
  {
  }

  // ---------------------------------------------------------------------------
  // Conversions from library errors (the `From` impls).

  /** The kinds of `jsonwebtoken::errors::Error` the service can meet. */
  datatype JwtErrorKind =
    | InvalidToken
    | InvalidSignature
    | ExpiredSignature
    | InvalidAlgorithm
    | MissingRequiredClaim(claim: string)
    | Base64
    | JsonFormat
    | Utf8

  const JwtErrorMessage: string := "An issue was found with the token provided"

  /** Every token failure becomes the same 401, whatever went wrong. */
  function FromJwtError(e: JwtErrorKind): (r: Error)
    ensures r.Unauthorized?
    ensures r.body == ErrorBody(JString(JwtErrorMessage))
  {
    Unauthorized(ErrorBody(JString(JwtErrorMessage)))
  }

  /** The database errors the core can meet (`sqlx::Error`, abridged). */
  datatype SqlxError =
    | RowNotFound
    | Database(message: string)
    | PoolTimedOut
    | Io(message: string)
    | ColumnDecode(column: string)

  const EntityNotFoundBody: Json := ErrorBody(JString("Entity not found"))

  /** A missing row is a 404; every other database fault is an opaque 500. */
  function FromSqlxError(e: SqlxError): (r: Error)
    ensures r.NotFound? <==> e.RowNotFound?
    ensures r.NotFound? ==> r.body == EntityNotFoundBody
    ensures !e.RowNotFound? ==> r == InternalServerError
  {
    match e
    case RowNotFound => NotFound(EntityNotFoundBody)
    case _ => InternalServerError
  }

  /** `model::user::Error`: the two credential mismatches. */
  datatype UserError = NameAndPasswordUnMatch | RefreshTokenUnMatch

  const NameAndPasswordUnMatchBody: Json := ErrorBody(JString("Name and password do not match"))
  const RefreshTokenUnMatchBody: Json := ErrorBody(JString("Refresh token do not match"))

  /** Both credential mismatches are 401s, each with its own message. */
  function FromUserError(e: UserError): (r: Error)
    ensures r.Unauthorized?
    ensures e.NameAndPasswordUnMatch? ==> r.body == NameAndPasswordUnMatchBody
    ensures e.RefreshTokenUnMatch? ==> r.body == RefreshTokenUnMatchBody
  {
    match e
    case NameAndPasswordUnMatch => Unauthorized(NameAndPasswordUnMatchBody)
    case RefreshTokenUnMatch => Unauthorized(RefreshTokenUnMatchBody)
  }

  /** One failed validation rule (`validator::ValidationError`). */
  datatype ValidationError = ValidationError(code: string, message: Option<string>)

  /** `validator::ValidationErrors::field_errors()`: failing field -> its failures. */
  type FieldErrors = map<string, seq<ValidationError>>

  /** A message serialises as a JSON string, an absent one as null. */
  function MessageJson(e: ValidationError): Json
  {
    match e.message
    case Some(m) => JString(m)
    case None => JNull
  }

  /** The messages of one field, in the order the validator reported them. */
  function MessagesJson(es: seq<ValidationError>): (r: seq<Json>)
    ensures |r| == |es|
    ensures forall i :: 0 <= i < |es| ==> r[i] == MessageJson(es[i])
  {
    if es == [] then [] else [MessageJson(es[0])] + MessagesJson(es[1..])
  }

  /** Each failing field mapped to the JSON list of its messages. */
  function FieldMessages(errors: FieldErrors): map<string, Json>
  {
    map f | f in errors :: JArray(MessagesJson(errors[f]))
  }

  /** The body the ValidationErrors conversion produces: one key per failing field. */
  function ValidationBody(errors: FieldErrors): Json
  {
    ErrorBody(JObject(FieldMessages(errors)))
  }

  /**
   * `From<ValidationErrors>`: a loop that inserts, for each failing field, the
   * list of its messages into a JSON object, then wraps it as a 422.
   */
  method FromValidationErrors(errors: FieldErrors) returns (r: Error)
    ensures r.UnprocessableEntity?
    ensures r.body == ValidationBody(errors)
    ensures r.body.JObject? && r.body.fields.Keys == {"error"}
    ensures r.body.fields["error"].JObject? && r.body.fields["error"].fields.Keys == errors.Keys
    ensures forall f :: f in errors ==> r.body.fields["error"].fields[f] == JArray(MessagesJson(errors[f]))
  {
    var errMap: map<string, Json> := map[];
    var pending := errors.Keys;
    while pending != {}
      invariant pending <= errors.Keys
      invariant errMap.Keys == errors.Keys - pending
      invariant forall f :: f in errMap ==> errMap[f] == JArray(MessagesJson(errors[f]))
      decreases pending
    {
      var field :| field in pending;
      errMap := errMap[field := JArray(MessagesJson(errors[field]))];
      pending := pending - {field};
    }
    assert errMap == FieldMessages(errors);
    r := UnprocessableEntity(ErrorBody(JObject(errMap)));
  }
}
