/**
 * The request and response as the handlers see them: a request whose
 * `params` and `query` the dispatcher fills in, and a response reduced to
 * the status code and the body written.
 */
module Http {
  import opened Values

  /** What `res.end(...)` writes. */
  datatype Body =
    | Empty
    | Task(task: Record)
    | Tasks(tasks: seq<Record>)
    | Problem(name: string, message: string, action: string, statusCode: int)

  datatype Response = Response(status: int, body: Body)

  /** An error body reports the status code the response was written with. */
  predicate Consistent(r: Response)
  {
    r.body.Problem? ==> r.body.statusCode == r.status
  }

  /** The 400 answer to malformed input. */
  function ValidationFailure(): (r: Response)
    ensures r.status == 400 && r.body.Problem? && r.body.name == "ValidationError" && Consistent(r)
  {
    Response(400, Problem("ValidationError", "Ocorreu algum erro de validação.",
      "Ajuste os dados enviados e tente novamente.", 400))
  }

  /** The 404 answer to a missing route or a missing task. */
  function NotFound(): (r: Response)
    ensures r.status == 404 && r.body.Problem? && r.body.name == "NotFoundError" && Consistent(r)
  {
    Response(404, Problem("NotFoundError", "O recurso não foi encontrado.",
      "Verifique os dados e tente novamente.", 404))
  }

  class Request {
    const verb: string
    const url: string
    /** `req.body`, as the JSON body parser left it. */
    const body: Payload
    /** Undefined in the source until the dispatcher assigns them; they start empty here, and nothing reads them before that assignment. */
    var params: map<string, string>
    var query: map<string, string>

    constructor (verb: string, url: string, body: Payload)
      ensures this.verb == verb && this.url == url && this.body == body
      ensures params == map[] && query == map[]
    {
      this.verb := verb;
      this.url := url;
      this.body := body;
      params := map[];
      query := map[];
    }
  }
}
