/** The global exception handler: every exception that escapes a controller
    becomes an HTTP status and a JSON body of string pairs. */
module ExceptionHandling {
  import opened Domain
  import opened Text

  datatype Response = Response(status: int, body: map<string, string>)

  const NotFound := 404
  const BadRequest := 400
  const Unauthorized := 401
  const MethodNotAllowed := 405
  const Conflict := 409
  const UnsupportedMediaType := 415
  const InternalServerError := 500
  const ServiceUnavailable := 503

  /** The usual body: one "error" entry. */
  function ErrorBody(message: string): map<string, string> {
    map["error" := message]
  }

  // ---------------------------------------------------------------- validation errors

  /** The validation body: field name to message, a later error of the same
      field overwriting an earlier one. */
  function FieldMessages(errors: seq<FieldError>): map<string, string> {
    if errors == [] then map[]
    else
      var last := errors[|errors| - 1];
      FieldMessages(errors[..|errors| - 1])[last.field := last.message]
  }

  /** Exactly the fields with an error have an entry. */
  lemma {:induction false} FieldMessagesKeys(errors: seq<FieldError>)
    ensures forall f :: f in FieldMessages(errors) <==> exists i :: 0 <= i < |errors| && errors[i].field == f
  {
    if errors != [] {
      var front := errors[..|errors| - 1];
      var last := errors[|errors| - 1];
      FieldMessagesKeys(front);
      forall f ensures f in FieldMessages(errors) <==> exists i :: 0 <= i < |errors| && errors[i].field == f {
        if f == last.field {
          assert errors[|errors| - 1].field == f;
        } else if f in FieldMessages(front) {
          var i :| 0 <= i < |front| && front[i].field == f;
          assert errors[i].field == f;
        } else {
          forall i | 0 <= i < |errors| ensures errors[i].field != f {
            if i < |front| {
              assert errors[i] == front[i];
            }
          }
        }
      }
    }
  }

  /** The entry of a field holds the message of its last error. */
  lemma {:induction false} FieldMessagesLast(errors: seq<FieldError>)
    ensures forall i :: 0 <= i < |errors| && (forall j :: i < j < |errors| ==> errors[j].field != errors[i].field) ==>
              errors[i].field in FieldMessages(errors) && FieldMessages(errors)[errors[i].field] == errors[i].message
  {
    if errors != [] {
      var front := errors[..|errors| - 1];
      FieldMessagesLast(front);
      assert forall i :: 0 <= i < |front| ==> front[i] == errors[i];
    }
  }

  /** The forEach of handleValidationExceptions, filling a map in encounter order. */
  method CollectFieldMessages(errors: seq<FieldError>) returns (m: map<string, string>)
    ensures m == FieldMessages(errors)
  {
    m := map[];
    for i := 0 to |errors|
      invariant m == FieldMessages(errors[..i])
    {
      assert errors[..i + 1][..i] == errors[..i];
      m := m[errors[i].field := errors[i].message];
    }
    assert errors[..|errors|] == errors;
  }

  // ---------------------------------------------------------------- 415 message

  predicate IsWildcard(part: string) {
    part == "*"
  }

  /** MediaType.isCompatibleWith without subtype suffixes: a wildcard type
      matches everything, and within one type a wildcard subtype matches every
      subtype. */
  predicate Compatible(a: MediaType, b: MediaType) {
    IsWildcard(a.kind) || IsWildcard(b.kind)
    || (a.kind == b.kind && (a.subtype == b.subtype || IsWildcard(a.subtype) || IsWildcard(b.subtype)))
  }

  const ApplicationJson := MediaType("application", "json")
  const ApplicationOctetStream := MediaType("application", "octet-stream")
  const MultipartFormData := MediaType("multipart", "form-data")

  const MultipartOnlyMessage := "잘못된 요청 형식입니다. "
    + "이 API는 'multipart/form-data' 형식의 요청만 지원합니다. JSON 데이터와 파일을 함께 보내주세요."
  const OctetStreamMessage := "지원하지 않는 Content-Type "
    + "입니다. form-data로 JSON 객체를 보낼 경우, 해당 파트의 Content-Type을 'application/json'으로 명시적으로 지정해야 합니다."
  const InvalidMimeMessage := "요청의 Content-Type "
    + "형식이 올바르지 않습니다. 'type/subtype' 형식(예: 'application/json')을 사용해야 합니다."
  const MissingContentTypeMessage := "Content-Type 헤더가 누락되었거나 형식이 잘못되었습니다."

  /** MediaType.toString for a type without parameters. */
  function MediaTypeText(t: MediaType): string {
    t.kind + "/" + t.subtype
  }

  /** List.toString: "[a, b, c]". */
  function MediaTypesText(ts: seq<MediaType>): string {
    "[" + JoinedMediaTypes(ts) + "]"
  }

  function JoinedMediaTypes(ts: seq<MediaType>): string {
    if ts == [] then ""
    else if |ts| == 1 then MediaTypeText(ts[0])
    else MediaTypeText(ts[0]) + ", " + JoinedMediaTypes(ts[1..])
  }

  function UnsupportedTypeMessage(contentType: MediaType, supported: seq<MediaType>): string {
    "지원하지 않는 Content-Type('" + MediaTypeText(contentType) + "') 입니다. 지원되는 형식: " + MediaTypesText(supported)
  }

  /** The message of the 415 answer, chosen by the request's content type. */
  function UnsupportedMediaTypeMessage(contentType: Option<MediaType>, supported: seq<MediaType>, message: string): string {
    if contentType.Some? then
      if Compatible(contentType.value, ApplicationJson) && MultipartFormData in supported then MultipartOnlyMessage
      else if Compatible(contentType.value, ApplicationOctetStream) then OctetStreamMessage
      else UnsupportedTypeMessage(contentType.value, supported)
    else if Contains(message, "Invalid mime type") then InvalidMimeMessage
    else MissingContentTypeMessage
  }

  /** The five cases of the 415 message are told apart exactly as follows. */
  lemma UnsupportedMediaTypeMessageCases(contentType: Option<MediaType>, supported: seq<MediaType>, message: string)
    ensures UnsupportedMediaTypeMessage(contentType, supported, message) == MultipartOnlyMessage <==>
              contentType.Some? && Compatible(contentType.value, ApplicationJson) && MultipartFormData in supported
    ensures UnsupportedMediaTypeMessage(contentType, supported, message) == OctetStreamMessage <==>
              contentType.Some? && !(Compatible(contentType.value, ApplicationJson) && MultipartFormData in supported)
              && Compatible(contentType.value, ApplicationOctetStream)
    ensures UnsupportedMediaTypeMessage(contentType, supported, message) == InvalidMimeMessage <==>
              contentType.None? && Contains(message, "Invalid mime type")
    ensures UnsupportedMediaTypeMessage(contentType, supported, message) == MissingContentTypeMessage <==>
              contentType.None? && !Contains(message, "Invalid mime type")
  {
    if contentType.Some? {
      var t := contentType.value;
      if !(Compatible(t, ApplicationJson) && MultipartFormData in supported) && !Compatible(t, ApplicationOctetStream) {
        UnsupportedTypeMessageIsDistinct(t, supported);
      }
    }
  }

  /** The formatted message differs from the four fixed ones: it alone begins
      with its own fixed prefix. */
  lemma UnsupportedTypeMessageIsDistinct(t: MediaType, supported: seq<MediaType>)
    ensures UnsupportedTypeMessage(t, supported) != MultipartOnlyMessage
    ensures UnsupportedTypeMessage(t, supported) != OctetStreamMessage
    ensures UnsupportedTypeMessage(t, supported) != InvalidMimeMessage
    ensures UnsupportedTypeMessage(t, supported) != MissingContentTypeMessage
  {
    var m := UnsupportedTypeMessage(t, supported);
    assert m[0] == '지' && m[20] == '(';
    assert MultipartOnlyMessage[0] == '잘';
    assert OctetStreamMessage[20] == ' ';
    assert InvalidMimeMessage[0] == '요';
    assert MissingContentTypeMessage[0] == 'C';
  }

  // ---------------------------------------------------------------- the mapping

  const NoResourceMessage := "요청하신 페이지 또는 리소스를 찾을 수 없습니다."
  const JwtFailureMessage := "인증에 실패했습니다. 유효하지 않거나 만료된 토큰입니다."
  const UnreadableBodyMessage := "요청 본문(Request Body)의 형식이 잘못되었거나 비어있습니다."
  const AnalysisServerMessage := "분석 서버와 통신하는 중 오류가 발생했습니다. 잠시 후 다시 시도해 주세요."
  const InternalErrorMessage := "서버 내부 오류가 발생했습니다. 관리자에게 문의하세요."

  function MethodNotSupportedMessage(supportedMethods: string): string {
    "지원하지 않는 요청 방식입니다. 허용되는 방식은 " + supportedMethods + " 입니다."
  }

  /** The status and body the handler answers an exception with. */
  function Handle(e: Error): Response {
    match e
    case NoResourceFound(_) => Response(NotFound, ErrorBody(NoResourceMessage))
    case MethodNotSupported(methods) => Response(MethodNotAllowed, ErrorBody(MethodNotSupportedMessage(methods)))
    case JwtVerification(_) => Response(Unauthorized, ErrorBody(JwtFailureMessage))
    case ArgumentNotValid(errors) => Response(BadRequest, FieldMessages(errors))
    case EntityNotFound(m) => Response(NotFound, ErrorBody(m))
    case MessageNotReadable(_) => Response(BadRequest, ErrorBody(UnreadableBodyMessage))
    case InvalidFile(m) => Response(BadRequest, ErrorBody(m))
    case IllegalArgument(m) => Response(Conflict, ErrorBody(m))
    case IllegalState(m) => Response(Conflict, ErrorBody(m))
    case MediaTypeNotSupported(t, supported, m) =>
      Response(UnsupportedMediaType, ErrorBody(UnsupportedMediaTypeMessage(t, supported, m)))
    case PythonApi(status, m) => Response(status, ErrorBody(m))
    case ResourceAccess(_) => Response(ServiceUnavailable, ErrorBody(AnalysisServerMessage))
    case Unhandled(_) => Response(InternalServerError, ErrorBody(InternalErrorMessage))
  }

  /** The exceptions whose own message is shown to the client. */
  predicate ShowsOwnMessage(e: Error) {
    e.EntityNotFound? || e.InvalidFile? || e.IllegalArgument? || e.IllegalState? || e.PythonApi?
  }

  /** Status classes: each status comes from its own exception kinds (or
      from an analysis server that itself answered with it), an analysis-server
      error keeps its own status and message, the fixed messages go with their
      kinds, and the exception text of an unexpected exception never reaches
      the client. */
  lemma HandleSpec(e: Error)
    ensures Handle(e).status == NotFound <==> (e.EntityNotFound? || e.NoResourceFound? || (e.PythonApi? && e.status == NotFound))
    ensures Handle(e).status == Conflict <==> (e.IllegalArgument? || e.IllegalState? || (e.PythonApi? && e.status == Conflict))
    ensures Handle(e).status == BadRequest <==>
              (e.InvalidFile? || e.MessageNotReadable? || e.ArgumentNotValid? || (e.PythonApi? && e.status == BadRequest))
    ensures Handle(e).status == InternalServerError <==> (e.Unhandled? || (e.PythonApi? && e.status == InternalServerError))
    ensures Handle(e).status == Unauthorized <==> (e.JwtVerification? || (e.PythonApi? && e.status == Unauthorized))
    ensures Handle(e).status == MethodNotAllowed <==> (e.MethodNotSupported? || (e.PythonApi? && e.status == MethodNotAllowed))
    ensures Handle(e).status == UnsupportedMediaType <==>
              (e.MediaTypeNotSupported? || (e.PythonApi? && e.status == UnsupportedMediaType))
    ensures Handle(e).status == ServiceUnavailable <==> (e.ResourceAccess? || (e.PythonApi? && e.status == ServiceUnavailable))
    ensures e.PythonApi? ==> Handle(e).status == e.status
    ensures e.JwtVerification? ==> Handle(e).body == map["error" := JwtFailureMessage]
    ensures e.ResourceAccess? ==> Handle(e).body == map["error" := AnalysisServerMessage]
    ensures e.MethodNotSupported? ==> Handle(e).body == map["error" := MethodNotSupportedMessage(e.supportedMethods)]
    ensures e.MediaTypeNotSupported? ==>
              Handle(e).body == map["error" := UnsupportedMediaTypeMessage(e.contentType, e.supported, e.message)]
    ensures ShowsOwnMessage(e) ==> Handle(e).body == map["error" := e.message]
    ensures e.Unhandled? ==> Handle(e).body == map["error" := InternalErrorMessage]
    ensures !e.ArgumentNotValid? ==> Handle(e).body.Keys == {"error"}
  {
  }
}
