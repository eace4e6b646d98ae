/**
 * The `/send_application/` handler: take a worker connection from the pool,
 * read the request body, wrap the request in an envelope, serialise it, send
 * it as one frame on the connection, wait for one reply frame and return that
 * reply as the HTTP response. Every I/O call is an abstract outcome supplied
 * by the caller; the model decides the status, the body and the pool effect.
 */
module Bridge {
  import opened Wrappers
  import opened PoolSpec
  import opened Pool

  newtype byte = b: int | 0 <= b < 256
  type Bytes = seq<byte>

  /** The parts of the inbound HTTP request the handler copies into the envelope (`verb` is the HTTP method). */
  datatype Request = Request(verb: string, path: string, header: map<string, seq<string>>)

  /** The envelope forwarded to the worker: method, path, header multimap and raw body. */
  datatype Envelope = Envelope(verb: string, path: string, headers: map<string, seq<string>>, body: Bytes)

  /**
   * What the I/O calls yield, in handler order: the request body (or a read
   * error), the serialised envelope (or a marshalling error), whether the
   * frame write succeeded, and the reply frame (or a read error).
   */
  datatype IoResults = IoResults(body: Option<Bytes>, marshalled: Option<Bytes>, written: bool, reply: Option<Bytes>)

  /** The ways one forwarded call can fail. */
  datatype DispatchError = NoWorkerAvailable | BodyReadFailed | SerializationFailed | ForwardFailed | ReplyFailed

  /** The observable steps the handler performs, in order. */
  datatype Step<H> = ReadBody | Marshal(envelope: Envelope) | WriteFrame(conn: H, frame: Bytes) | ReadFrame(conn: H)

  /** The outcome of one forwarded call together with the steps it performed. */
  datatype Exchange<H> = Exchange(result: Result<Bytes, DispatchError>, trace: seq<Step<H>>)

  /** A plain-text body, or raw bytes with their content type. */
  datatype Body = Text(message: string) | Data(contentType: string, bytes: Bytes)

  datatype Response = Response(status: int, body: Body)

  const STATUS_OK := 200
  const STATUS_INTERNAL_SERVER_ERROR := 500
  const STATUS_SERVICE_UNAVAILABLE := 503

  /** The envelope built from the request and the body that was read. */
  function EnvelopeOf(req: Request, body: Bytes): Envelope
  {
    Envelope(req.verb, req.path, req.header, body)
  }

  /** The text sent to the caller for each failure. */
  function ErrorMessage(e: DispatchError): string
  {
    match e
    case NoWorkerAvailable => "No WebSocket connections available"
    case BodyReadFailed => "Failed to read request body"
    case SerializationFailed => "Failed to serialize request"
    case ForwardFailed => "Failed to forward message"
    case ReplyFailed => "Failed to read response message"
  }

  /**
   * The HTTP response for an outcome: 200 with the reply bytes as JSON,
   * 503 when no worker is registered, 500 with a message for any other failure.
   */
  function Render(result: Result<Bytes, DispatchError>): (resp: Response)
    ensures resp.status == STATUS_OK <==> result.Success?
    ensures resp.status == STATUS_SERVICE_UNAVAILABLE <==> result == Failure(NoWorkerAvailable)
    ensures resp.status == STATUS_INTERNAL_SERVER_ERROR <==> result.Failure? && result.error != NoWorkerAvailable
    ensures result.Success? ==> resp.body == Data("application/json", result.value)
    ensures result.Failure? ==> resp.body == Text(ErrorMessage(result.error))
  {
    match result
    case Success(reply) => Response(STATUS_OK, Data("application/json", reply))
    case Failure(NoWorkerAvailable) => Response(STATUS_SERVICE_UNAVAILABLE, Text(ErrorMessage(NoWorkerAvailable)))
    case Failure(e) => Response(STATUS_INTERNAL_SERVER_ERROR, Text(ErrorMessage(e)))
  }

  /** Distinct outcomes give distinct responses, so the caller can tell every failure apart. */
  lemma RenderDistinguishes(a: Result<Bytes, DispatchError>, b: Result<Bytes, DispatchError>)
    requires Render(a) == Render(b)
    ensures a == b
  {
  }

  /**
   * The decision logic of one forwarded call, given the connection `Get`
   * handed out (None when the pool was empty) and the I/O outcomes. Checks
   * run in handler order and the first failure decides the outcome.
   */
  function Forward<H>(conn: Option<H>, req: Request, io: IoResults): (x: Exchange<H>)
    ensures x.result == Failure(NoWorkerAvailable) <==> conn.None?
    ensures conn.None? ==> x.trace == []
    ensures x.result.Success? <==>
      conn.Some? && io.body.Some? && io.marshalled.Some? && io.written && io.reply.Some?
    ensures x.result.Success? ==> x.result.value == io.reply.value
    ensures x.result == Failure(BodyReadFailed) <==> conn.Some? && io.body.None?
    ensures x.result == Failure(SerializationFailed) <==> conn.Some? && io.body.Some? && io.marshalled.None?
    ensures x.result == Failure(ForwardFailed) <==>
      conn.Some? && io.body.Some? && io.marshalled.Some? && !io.written
    ensures x.result in {Failure(NoWorkerAvailable), Failure(BodyReadFailed), Failure(SerializationFailed)} ==>
      forall i :: 0 <= i < |x.trace| ==> !x.trace[i].WriteFrame? && !x.trace[i].ReadFrame?
    ensures x.result == Failure(ForwardFailed) ==>
      forall i :: 0 <= i < |x.trace| ==> !x.trace[i].ReadFrame?
    ensures forall i :: 0 <= i < |x.trace| && (x.trace[i].WriteFrame? || x.trace[i].ReadFrame?) ==>
      conn == Some(x.trace[i].conn)
    ensures forall i :: 0 <= i < |x.trace| && x.trace[i].Marshal? ==>
      io.body.Some? && x.trace[i].envelope.verb == req.verb && x.trace[i].envelope.path == req.path &&
      x.trace[i].envelope.headers == req.header && x.trace[i].envelope.body == io.body.value
    ensures forall i :: 0 <= i < |x.trace| && x.trace[i].WriteFrame? ==>
      io.marshalled.Some? && x.trace[i].frame == io.marshalled.value
    ensures forall i :: 0 <= i < |x.trace| && x.trace[i].ReadFrame? ==> 0 < i && x.trace[i - 1].WriteFrame?
    ensures conn.Some? ==> |x.trace| > 0 && x.trace[0] == ReadBody
    // every step the handler reaches is performed, in order, exactly at its position
    ensures conn.Some? && io.body.Some? ==> |x.trace| >= 2 && x.trace[1].Marshal?
    ensures conn.Some? && io.body.Some? && io.marshalled.Some? ==>
      |x.trace| >= 3 && x.trace[2] == WriteFrame(conn.value, io.marshalled.value)
    ensures conn.Some? && io.body.Some? && io.marshalled.Some? && io.written ==>
      |x.trace| == 4 && x.trace[3] == ReadFrame(conn.value)
    // no step is retried: at most one body read, marshal, frame write and frame read
    ensures |x.trace| <= 4
    ensures forall i, j :: 0 <= i < j < |x.trace| ==>
      !(x.trace[i].ReadBody? && x.trace[j].ReadBody?) && !(x.trace[i].Marshal? && x.trace[j].Marshal?) &&
      !(x.trace[i].WriteFrame? && x.trace[j].WriteFrame?) && !(x.trace[i].ReadFrame? && x.trace[j].ReadFrame?)
  {
    match conn
    case None => Exchange(Failure(NoWorkerAvailable), [])
    case Some(c) =>
      if io.body.None? then Exchange(Failure(BodyReadFailed), [ReadBody])
      else
        var env := EnvelopeOf(req, io.body.value);
        if io.marshalled.None? then Exchange(Failure(SerializationFailed), [ReadBody, Marshal(env)])
        else
          var frame := io.marshalled.value;
          if !io.written then Exchange(Failure(ForwardFailed), [ReadBody, Marshal(env), WriteFrame(c, frame)])
          else
            var steps := [ReadBody, Marshal(env), WriteFrame(c, frame), ReadFrame(c)];
            if io.reply.None? then Exchange(Failure(ReplyFailed), steps)
            else Exchange(Success(io.reply.value), steps)
  }

  /**
   * The handler: `Get` a connection, then read, wrap, serialise, send and
   * await the reply, returning at the first failure. The pool is only
   * rotated: no outcome removes the connection, so a worker whose write or
   * read failed stays in rotation.
   */
  method SendApplication<H(==)>(pool: ConnPool<H>, req: Request, io: IoResults)
    returns (resp: Response, trace: seq<Step<H>>)
    modifies pool
    ensures pool.conns == Rotate(old(pool.conns))
    ensures multiset(pool.conns) == multiset(old(pool.conns))
    ensures Front(old(pool.conns)).Some? ==> Front(old(pool.conns)).value in pool.conns
    ensures var x := Forward(Front(old(pool.conns)), req, io); resp == Render(x.result) && trace == x.trace
  {
    var conn := pool.Get();
    if conn.None? {
      resp := Response(STATUS_SERVICE_UNAVAILABLE, Text(ErrorMessage(NoWorkerAvailable)));
      trace := [];
      return;
    }
    var c := conn.value;

    trace := [ReadBody];
    if io.body.None? {
      resp := Response(STATUS_INTERNAL_SERVER_ERROR, Text(ErrorMessage(BodyReadFailed)));
      return;
    }

    var envelope := EnvelopeOf(req, io.body.value);
    trace := trace + [Marshal(envelope)];
    if io.marshalled.None? {
      resp := Response(STATUS_INTERNAL_SERVER_ERROR, Text(ErrorMessage(SerializationFailed)));
      return;
    }

    trace := trace + [WriteFrame(c, io.marshalled.value)];
    if !io.written {
      resp := Response(STATUS_INTERNAL_SERVER_ERROR, Text(ErrorMessage(ForwardFailed)));
      return;
    }

    trace := trace + [ReadFrame(c)];
    if io.reply.None? {
      resp := Response(STATUS_INTERNAL_SERVER_ERROR, Text(ErrorMessage(ReplyFailed)));
      return;
    }

    resp := Response(STATUS_OK, Data("application/json", io.reply.value));
  }
}
