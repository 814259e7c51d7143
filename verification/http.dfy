/** The JSON responses the handlers send, and the error mapper: the five
    registered error handlers, each a fixed body for one HTTP status. */
module Http {
  import opened Wrappers
  import opened DataAccess

  /** The JSON body of a response. Keys that vary between handlers (including
      the misspelt ones) are kept as data. */
  datatype Body =
    | CategoriesBody(categories: map<int, string>)
    | QuestionsBody(questionsKey: string, questions: seq<Question>, totalQuestions: int,
                    currentCategory: Option<string>, categoryMap: Option<map<int, string>>)
    | MessageBody(messageKey: string, message: string)
    | QuestionBody(question: Question)
    | ErrorBody(error: int, message: string)
  {
    /** The `success` field. */
    predicate Success()
    {
      !ErrorBody?
    }
  }

  datatype Response = Response(status: int, body: Body)

  /** The statuses that have a registered error handler. */
  datatype HttpError = BadRequest | NotFound | MethodNotAllowed | Unprocessable | InternalError

  function Code(e: HttpError): int
  {
    match e
    case BadRequest => 400
    case NotFound => 404
    case MethodNotAllowed => 405
    case Unprocessable => 422
    case InternalError => 500
  }

  function Message(e: HttpError): string
  {
    match e
    case BadRequest => "Bad request error"
    case NotFound => "Resource not found"
    case MethodNotAllowed => "Invalid method"
    case Unprocessable => "Unprocessable resource"
    case InternalError => "An internal error has occured, please try again"
  }

  /** The error handler registered for a status, if any. */
  function HandlerFor(code: int): (r: Option<HttpError>)
    ensures r.Some? ==> Code(r.value) == code
    ensures r.None? <==> forall e: HttpError :: Code(e) != code
  {
    if code == 400 then Some(BadRequest)
    else if code == 404 then Some(NotFound)
    else if code == 405 then Some(MethodNotAllowed)
    else if code == 422 then Some(Unprocessable)
    else if code == 500 then Some(InternalError)
    else None
  }

  /** `abort(code)`: the response of the handler registered for `code`. */
  function Abort(e: HttpError): (r: Response)
    ensures r.status == Code(e) && r.body.ErrorBody? && r.body.error == r.status
    ensures r.body.message == Message(e)
    ensures !r.body.Success()
    ensures HandlerFor(r.status) == Some(e)
  {
    Response(Code(e), ErrorBody(Code(e), Message(e)))
  }

  /** The mapper is a bijection between the five errors and their statuses, and
      no two of them share a message. */
  lemma {:induction false} ErrorTableIsOneToOne(e1: HttpError, e2: HttpError)
    ensures HandlerFor(Code(e1)) == Some(e1)
    ensures Code(e1) == Code(e2) <==> e1 == e2
    ensures Message(e1) == Message(e2) <==> e1 == e2
  {
    if e1 != e2 {
      // The five messages all have different lengths.
      assert |Message(e1)| != |Message(e2)|;
    }
  }
}
