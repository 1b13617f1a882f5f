/** The outcome of a request handler and the uniform error envelope that
    the error handlers registered by both application variants produce. */
module Http {
  import opened Basics

  /** The failure conditions a handler can end in: an explicit `abort(code)`
      or an exception (caught and re-signalled, or left to Flask, which
      turns it into an internal server error). */
  datatype Failure = BadRequest | NotFound | Unprocessable | Internal

  /** The numeric HTTP status of a failure. */
  function Code(f: Failure): int
  {
    match f
    case BadRequest => 400
    case NotFound => 404
    case Unprocessable => 422
    case Internal => 500
  }

  /** The result of one handler: a success payload or a failure. */
  datatype Reply<+T> = Ok(body: T) | Err(failure: Failure)

  /** A handler that changes the store returns the reply together with the
      store as it is after the request. */
  datatype Effect<+T, +S> = Effect(reply: Reply<T>, after: S)

  /** The JSON body `{success: false, error: code}` of every error response. */
  datatype ErrorEnvelope = ErrorEnvelope(success: bool, error: int)

  /** The error handler Flask dispatches to for a response status: the four
      `@app.errorhandler` registrations, and nothing for any other status. */
  function HandlerFor(status: int): (r: Option<Failure>)
    ensures r.Some? <==> status in {400, 404, 422, 500}
    ensures r.Some? ==> Code(r.value) == status
  {
    if status == 400 then Some(BadRequest)
    else if status == 404 then Some(NotFound)
    else if status == 422 then Some(Unprocessable)
    else if status == 500 then Some(Internal)
    else None
  }

  /** What the registered handler for a status sends back: the envelope and
      the status it is sent with; None for a status with no handler. */
  function ErrorResponse(status: int): (r: Option<(int, ErrorEnvelope)>)
    ensures r.Some? <==> HandlerFor(status).Some?
    ensures r.Some? ==> r.value.0 == status && r.value.1 == ErrorEnvelope(false, status)
  {
    match HandlerFor(status)
    case None => None
    case Some(f) => Some((Code(f), ErrorEnvelope(false, Code(f))))
  }

  /** The HTTP status a reply is sent with. */
  function Status<T>(r: Reply<T>): (s: int)
    ensures r.Ok? <==> s == 200
    ensures r.Err? ==> HandlerFor(s) == Some(r.failure)
  {
    match r
    case Ok(_) => 200
    case Err(f) => Code(f)
  }

  /** Every failure a handler can end in has a registered error handler, and
      the response carries the failure's own code both as status and in the
      body: the code and the handler choice are inverse to each other. */
  lemma EnvelopeRoundTrip(f: Failure)
    ensures HandlerFor(Code(f)) == Some(f)
    ensures ErrorResponse(Code(f)) == Some((Code(f), ErrorEnvelope(false, Code(f))))
  {
  }

  /** A handler body wrapped in `try: ... except: abort(422)`: whatever is
      raised inside it, an `abort` with another code included, leaves as
      422. */
  function CatchAll<T>(r: Reply<T>): (g: Reply<T>)
    ensures r.Ok? ==> g == r
    ensures r.Err? ==> g == Err(Unprocessable)
  {
    match r
    case Ok(_) => r
    case Err(_) => Err(Unprocessable)
  }
}
