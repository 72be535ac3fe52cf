/**
 * The service's error vocabulary: the HTTP-facing `Errors`, the
 * (code, message) pair `ErrorCode`, the `StateCode` table that fills it,
 * the engine-level `Error`, and the collector that turns validation
 * failures into error codes.
 */
module ErrorModel {
  import opened Wrappers
  import opened Validator

  datatype ErrorCode = ErrorCode(errorCode: string, message: string)

  /** What a handler returns on failure; each variant fixes the HTTP status. */
  datatype Errors =
    | BadReq(codes: seq<ErrorCode>)
    | BadRequest(code: ErrorCode)
    | InternalServerError(code: ErrorCode)
    | NotFound(code: ErrorCode)

  datatype StateCode =
    | InternalServerError
    | NotFound
    | DBError
    | PaginationError
    | DuplicationError

  /** The failures of the database client that reach the engine. */
  datatype DieselError =
    | NotFound
    | UniqueViolation
    | DatabaseError(detail: string)

  /** What the engine returns on failure. */
  datatype Error =
    | DBError(cause: DieselError)
    | BadRequest(text: string)
    | InternalServerError(text: string)
    | NotFound(text: string)
    | HttpRequest(text: string)
    | DuplicationError
    | DeletedDuplicationError

  datatype ResponseBody =
    | CodeList(codes: seq<ErrorCode>)
    | Code(code: ErrorCode)
    | Text(text: string)

  datatype HttpResponse = HttpResponse(status: nat, body: ResponseBody)

  const BAD_REQUEST: nat := 400
  const NOT_FOUND: nat := 404
  const INTERNAL_SERVER_ERROR: nat := 500

  /** A state's code: lower-case words joined by `-`. */
  function GetCode(s: StateCode): (c: string)
    ensures |c| > 0 && forall k :: 0 <= k < |c| ==> 'a' <= c[k] <= 'z' || c[k] == '-'
  {
    match s
    case InternalServerError => "internal-server-error"
    case NotFound => "not-found"
    case DBError => "db-error"
    case PaginationError => "pagination-error"
    case DuplicationError => "duplication-error"
  }

  /** A state's message: a capitalised sentence for the client. */
  function GetMessage(s: StateCode): (m: string)
    ensures |m| > 0 && 'A' <= m[0] <= 'Z'
  {
    match s
    case InternalServerError => "Internal server error"
    case NotFound => "Cannot find the object in the Server."
    case DBError => "There is an error in dealing with Database."
    case PaginationError => "Paginated Data is not valid."
    case DuplicationError => "The object is duplicated."
  }

  /** The five codes are pairwise distinct, so a code names its state. */
  lemma GetCodeInjective(a: StateCode, b: StateCode)
    ensures GetCode(a) == GetCode(b) ==> a == b
  {
  }

  /** The five messages are pairwise distinct too. */
  lemma GetMessageInjective(a: StateCode, b: StateCode)
    ensures GetMessage(a) == GetMessage(b) ==> a == b
  {
  }

  /** `From<StateCode> for ErrorCode`: the state's code and message, and the code alone names the state. */
  function ToErrorCode(s: StateCode): (c: ErrorCode)
    ensures c.errorCode == GetCode(s) && c.message == GetMessage(s)
    ensures forall t :: c.errorCode == GetCode(t) ==> t == s
  {
    ErrorCode(GetCode(s), GetMessage(s))
  }

  /** Distinct states give distinct error codes, and the code field alone tells them apart. */
  lemma ToErrorCodeInjective(a: StateCode, b: StateCode)
    ensures ToErrorCode(a).errorCode == ToErrorCode(b).errorCode ==> a == b
  {
    GetCodeInjective(a, b);
  }

  /** `ResponseError for Errors`: each variant's status, with its payload as the body. */
  function ErrorsResponse(e: Errors): (r: HttpResponse)
    ensures r.status == BAD_REQUEST <==> e.BadReq? || e.BadRequest?
    ensures r.status == NOT_FOUND <==> e.NotFound?
    ensures r.status == INTERNAL_SERVER_ERROR <==> e.InternalServerError?
    ensures e.BadReq? ==> r.body == CodeList(e.codes)
    ensures !e.BadReq? ==> r.body == Code(e.code)
  {
    match e
    case BadReq(codes) => HttpResponse(BAD_REQUEST, CodeList(codes))
    case BadRequest(code) => HttpResponse(BAD_REQUEST, Code(code))
    case NotFound(code) => HttpResponse(NOT_FOUND, Code(code))
    case InternalServerError(code) => HttpResponse(INTERNAL_SERVER_ERROR, Code(code))
  }

  const INTERNAL_SERVER_ERROR_TEXT: string := "Internal Server Error"

  /**
   * `ResponseError for Error`: only BadRequest and NotFound keep their text;
   * every other variant, a store failure included, becomes a bare 500.
   */
  function ErrorResponse(e: Error): (r: HttpResponse)
    ensures r.status == BAD_REQUEST <==> e.BadRequest?
    ensures r.status == NOT_FOUND <==> e.NotFound?
    ensures r.status == INTERNAL_SERVER_ERROR <==> !(e.BadRequest? || e.NotFound?)
    ensures e.BadRequest? || e.NotFound? ==> r.body == Text(e.text)
    ensures r.status == INTERNAL_SERVER_ERROR ==> r.body == Text(INTERNAL_SERVER_ERROR_TEXT)
  {
    match e
    case BadRequest(text) => HttpResponse(BAD_REQUEST, Text(text))
    case NotFound(text) => HttpResponse(NOT_FOUND, Text(text))
    case _ => HttpResponse(INTERNAL_SERVER_ERROR, Text(INTERNAL_SERVER_ERROR_TEXT))
  }

  /** `From<DieselError> for Error`: the client error is kept, and the response is a bare 500. */
  function FromDieselError(err: DieselError): (r: Error)
    ensures r.DBError? && r.cause == err
    ensures ErrorResponse(r) == HttpResponse(INTERNAL_SERVER_ERROR, Text(INTERNAL_SERVER_ERROR_TEXT))
  {
    Error.DBError(err)
  }

  /** `From<String> for Error`: the text is kept, yet the response is a bare 500 that drops it. */
  function FromString(req: string): (r: Error)
    ensures r.HttpRequest? && r.text == req
    ensures ErrorResponse(r) == HttpResponse(INTERNAL_SERVER_ERROR, Text(INTERNAL_SERVER_ERROR_TEXT))
  {
    HttpRequest(req)
  }

  /** A converted client failure answers 500, a missing row included: the engine-level NotFound is never produced by conversion. */
  lemma ConvertedErrorsAreInternal(err: DieselError, req: string)
    ensures ErrorResponse(FromDieselError(err)) == HttpResponse(INTERNAL_SERVER_ERROR, Text(INTERNAL_SERVER_ERROR_TEXT))
    ensures ErrorResponse(FromString(req)).status == INTERNAL_SERVER_ERROR
  {
  }

  predicate HaveMessages(errs: seq<ValidationError>) {
    forall i :: 0 <= i < |errs| ==> errs[i].message.Some?
  }

  predicate KindHasMessages(kind: ValidationErrorsKind) {
    kind.Field? ==> HaveMessages(kind.errors)
  }

  predicate FieldsHaveMessages(fields: seq<(string, ValidationErrorsKind)>) {
    forall i :: 0 <= i < |fields| ==> KindHasMessages(fields[i].1)
  }

  /** The collector unwraps every field error's message; one without a message makes it panic. */
  predicate AllFieldErrorsHaveMessages(error: ValidationErrors) {
    FieldsHaveMessages(error.fields)
  }

  /** The error codes of one field's errors, one per error, in order. */
  function FieldErrorCodes(errs: seq<ValidationError>): (codes: seq<ErrorCode>)
    requires HaveMessages(errs)
    ensures |codes| == |errs|
  {
    if errs == [] then [] else [ErrorCode(errs[0].code, errs[0].message.value)] + FieldErrorCodes(errs[1..])
  }

  /** A kind's contribution: a field's error codes; nothing for a struct or a list. */
  function KindErrorCodes(kind: ValidationErrorsKind): (codes: seq<ErrorCode>)
    requires KindHasMessages(kind)
    ensures !kind.Field? ==> codes == []
  {
    match kind
    case Struct => []
    case List => []
    case Field(errs) => FieldErrorCodes(errs)
  }

  /** The number of field-level errors in `fields`. */
  function FieldErrorCount(fields: seq<(string, ValidationErrorsKind)>): nat {
    if fields == [] then 0
    else (if fields[0].1.Field? then |fields[0].1.errors| else 0) + FieldErrorCount(fields[1..])
  }

  /**
   * All error codes `validate_errors` appends for `fields`, in iteration
   * order: exactly one per field-level error; structs and lists add none.
   */
  function CollectedErrorCodes(fields: seq<(string, ValidationErrorsKind)>): (codes: seq<ErrorCode>)
    requires FieldsHaveMessages(fields)
    ensures |codes| == FieldErrorCount(fields)
  {
    if fields == [] then []
    else
      assert FieldsHaveMessages(fields[1..]) by {
        assert forall i :: 1 <= i < |fields| ==> fields[1..][i - 1] == fields[i];
      }
      KindErrorCodes(fields[0].1) + CollectedErrorCodes(fields[1..])
  }

  /** Each field error gives the error code at its own position: its code, its message unwrapped. */
  lemma {:induction false} FieldErrorCodesAt(errs: seq<ValidationError>, k: nat)
    requires HaveMessages(errs) && k < |errs|
    ensures FieldErrorCodes(errs)[k] == ErrorCode(errs[k].code, errs[k].message.value)
  {
    if k > 0 {
      assert errs[1..][k - 1] == errs[k];
      FieldErrorCodesAt(errs[1..], k - 1);
    }
  }

  /**
   * Concatenation regroups freely. Dafny knows this unaided; the named
   * step only keeps the collector's loop invariants cheap to check.
   */
  lemma AppendAssociative(a: seq<ErrorCode>, b: seq<ErrorCode>, c: seq<ErrorCode>)
    ensures (a + b) + c == a + (b + c)
  {
  }

  /**
   * `ErrorCode::validate_errors`: appends to `errors` one error code per
   * field-level validation error, in iteration order. The vector is the
   * caller's `&mut`, so the model passes it in and hands the extended
   * vector back.
   */
  method ValidateErrors(error: ValidationErrors, errors: seq<ErrorCode>) returns (pushed: seq<ErrorCode>)
    requires AllFieldErrorsHaveMessages(error)
    ensures pushed == errors + CollectedErrorCodes(error.fields)
    ensures |pushed| == |errors| + FieldErrorCount(error.fields)
  {
    var fields := error.fields;
    pushed := errors;
    var i := 0;
    while i < |fields|
      invariant 0 <= i <= |fields|
      invariant FieldsHaveMessages(fields[i..])
      invariant pushed + CollectedErrorCodes(fields[i..]) == errors + CollectedErrorCodes(fields)
    {
      var kind := fields[i].1;
      ghost var before := pushed;
      assert fields[i..][0] == fields[i] && fields[i..][1..] == fields[i + 1..];
      assert CollectedErrorCodes(fields[i..]) == KindErrorCodes(kind) + CollectedErrorCodes(fields[i + 1..]);
      match kind {
        case Struct =>
        case List =>
        case Field(errs) =>
          var j := 0;
          while j < |errs|
            invariant 0 <= j <= |errs|
            invariant HaveMessages(errs[j..])
            invariant pushed + FieldErrorCodes(errs[j..]) == before + FieldErrorCodes(errs)
          {
            assert errs[j..][0] == errs[j] && errs[j..][1..] == errs[j + 1..];
            var code := ErrorCode(errs[j].code, errs[j].message.value);
            assert FieldErrorCodes(errs[j..]) == [code] + FieldErrorCodes(errs[j + 1..]);
            AppendAssociative(pushed, [code], FieldErrorCodes(errs[j + 1..]));
            pushed := pushed + [code];
            j := j + 1;
          }
          assert errs[j..] == [];
      }
      assert pushed == before + KindErrorCodes(kind);
      AppendAssociative(before, KindErrorCodes(kind), CollectedErrorCodes(fields[i + 1..]));
      i := i + 1;
    }
  }
}
