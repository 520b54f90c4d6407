/**
 * The call dispatcher of ca2a: the closed set of supported methods, the
 * `Client.invoke` dispatch on the method name, and the normalisation of
 * JSON-RPC response envelopes into the payloads that are printed
 * (`get_result` and the non-verbose branch of `show_response`).
 *
 * The transport and the request-shape validation are external: they enter
 * as function parameters, so a call is visible in the outcome only.
 */
module Dispatch {
  import opened Wrappers
  import opened JsonValues

  // ---------------------------------------------------------------------
  // Supported methods
  // ---------------------------------------------------------------------

  const SendMethod: string := "message/send"
  const StreamMethod: string := "message/stream"

  /** METHODS: the closed set of method names the client accepts. */
  const Methods: seq<string> := [SendMethod, StreamMethod]

  /** The membership test `method in METHODS`. */
  predicate IsSupportedMethod(m: string)
    ensures IsSupportedMethod(m) <==> m == "message/send" || m == "message/stream"
  {
    m in Methods
  }

  // ---------------------------------------------------------------------
  // Response envelopes and their payloads
  // ---------------------------------------------------------------------

  /** The root of a JSON-RPC response, as a closed sum of the shapes the client knows. */
  datatype Envelope =
    | ErrorResp(error: Json)         // JSONRPCErrorResponse
    | SendSuccess(result: Json)      // SendMessageSuccessResponse
    | StreamSuccess(result: Json)    // SendStreamingMessageSuccessResponse
    | Other(raw: Json)               // any other root, by its dump with None fields left out

  /** What the transport hands back: one envelope, or the envelopes of a stream in arrival order. */
  datatype Response = Unary(envelope: Envelope) | Stream(chunks: seq<Envelope>)

  /** "Unsupported A2A response: ..." */
  datatype ResponseError = UnsupportedResponse(raw: Json)

  /** The output of one response: the payloads printed, in order, then the error that stopped it, if any. */
  datatype Printed = Printed(payloads: seq<Json>, failure: Option<ResponseError>)

  /** `get_result`: the payload an envelope carries, or the error naming an unknown envelope. */
  function GetResult(resp: Envelope): (r: Result<Json, ResponseError>)
    ensures r.Failure? <==> resp.Other?
    ensures r.Failure? ==> r.error == UnsupportedResponse(resp.raw)
    ensures resp.ErrorResp? ==> r == Success(resp.error)
    ensures resp.SendSuccess? || resp.StreamSuccess? ==> r == Success(resp.result)
  {
    match resp
    case ErrorResp(error) => Success(error)
    case SendSuccess(result) => Success(result)
    case StreamSuccess(result) => Success(result)
    case Other(raw) => Failure(UnsupportedResponse(raw))
  }

  /**
   * The output of a stream: one payload per envelope in arrival order, up to
   * the first envelope that is not understood, whose error ends the output.
   */
  function RenderChunks(chunks: seq<Envelope>): (out: Printed)
    ensures |out.payloads| <= |chunks|
    ensures out.failure.None? ==> |out.payloads| == |chunks|
    ensures out.failure.Some? ==>
      |out.payloads| < |chunks| && GetResult(chunks[|out.payloads|]) == Failure(out.failure.value)
  {
    if chunks == [] then Printed([], None)
    else
      match GetResult(chunks[0])
      case Failure(e) => Printed([], Some(e))
      case Success(payload) =>
        var rest := RenderChunks(chunks[1..]);
        Printed([payload] + rest.payloads, rest.failure)
  }

  /** Each printed payload is the result of the envelope at the same position of the stream. */
  lemma {:induction false} RenderChunksPayloads(chunks: seq<Envelope>)
    ensures forall i :: 0 <= i < |RenderChunks(chunks).payloads| ==>
      GetResult(chunks[i]) == Success(RenderChunks(chunks).payloads[i])
  {
    if chunks != [] && GetResult(chunks[0]).Success? {
      RenderChunksPayloads(chunks[1..]);
      var out := RenderChunks(chunks);
      forall i | 1 <= i < |out.payloads| ensures GetResult(chunks[i]) == Success(out.payloads[i]) {
        assert chunks[i] == chunks[1..][i - 1];
      }
    }
  }

  /** The output of any response; a unary one prints exactly one payload or fails. */
  function Render(response: Response): (out: Printed)
    ensures response.Unary? ==> out == RenderChunks([response.envelope])
    ensures response.Unary? ==> |out.payloads| + (if out.failure.Some? then 1 else 0) == 1
    ensures response.Stream? ==> out == RenderChunks(response.chunks)
  {
    match response
    case Unary(envelope) =>
      (match GetResult(envelope)
       case Success(payload) => Printed([payload], None)
       case Failure(e) => Printed([], Some(e)))
    case Stream(chunks) => RenderChunks(chunks)
  }

  /**
   * Output is never rolled back: what a prefix of the stream printed is a
   * prefix of what the whole stream prints, and once the prefix has failed,
   * later envelopes change nothing.
   */
  lemma {:induction false} RenderIsIncremental(a: seq<Envelope>, b: seq<Envelope>)
    ensures RenderChunks(a).failure.None? ==>
      RenderChunks(a + b) == Printed(RenderChunks(a).payloads + RenderChunks(b).payloads, RenderChunks(b).failure)
    ensures RenderChunks(a).failure.Some? ==> RenderChunks(a + b) == RenderChunks(a)
  {
    if a == [] {
      assert a + b == b;
    } else {
      var ab := a + b;
      assert ab[0] == a[0] && ab[1..] == a[1..] + b;
      match GetResult(a[0])
      case Failure(e) =>
        assert RenderChunks(ab) == Printed([], Some(e));
      case Success(p) =>
        RenderIsIncremental(a[1..], b);
        var tail, tailB := RenderChunks(a[1..]), RenderChunks(a[1..] + b);
        assert RenderChunks(a) == Printed([p] + tail.payloads, tail.failure);
        assert RenderChunks(ab) == Printed([p] + tailB.payloads, tailB.failure);
        if tail.failure.None? {
          assert [p] + tail.payloads + RenderChunks(b).payloads == [p] + (tail.payloads + RenderChunks(b).payloads);
        }
    }
  }

  /** The non-verbose branch of `show_response`: prints each payload as its envelope arrives. */
  method ShowResponse(response: Response) returns (out: Printed)
    ensures out == Render(response)
  {
    match response {
      case Unary(envelope) =>
        var result := GetResult(envelope);
        if result.Failure? {
          return Printed([], Some(result.error));
        }
        out := Printed([result.value], None);
      case Stream(chunks) =>
        var printed: seq<Json> := [];
        var i := 0;
        while i < |chunks|
          invariant 0 <= i <= |chunks|
          invariant RenderChunks(chunks) ==
            Printed(printed + RenderChunks(chunks[i..]).payloads, RenderChunks(chunks[i..]).failure)
        {
          assert chunks[i..][1..] == chunks[i + 1..];
          var result := GetResult(chunks[i]);
          if result.Failure? {
            assert RenderChunks(chunks[i..]) == Printed([], Some(result.error));
            assert printed + [] == printed;
            return Printed(printed, Some(result.error));
          }
          assert printed + RenderChunks(chunks[i..]).payloads
            == (printed + [result.value]) + RenderChunks(chunks[i + 1..]).payloads;
          printed := printed + [result.value];
          i := i + 1;
        }
        assert chunks[i..] == [];
        assert printed + [] == printed;
        out := Printed(printed, None);
    }
  }

  // ---------------------------------------------------------------------
  // Client.invoke
  // ---------------------------------------------------------------------

  /** The fields of a `Client`. */
  datatype Client = Client(url: string, methodName: string, params: map<string, Json>, headers: map<string, string>)

  /** What reaches the transport: the extra HTTP headers and the request parameters. */
  datatype Request = Request(headers: map<string, string>, params: map<string, Json>)

  /** The two transport operations. */
  datatype CallKind = SendMessage | SendMessageStreaming

  /** The errors `invoke` raises before calling the transport. */
  datatype InvokeError =
    | UnsupportedMethod(methodName: string)   // "Unsupported method: ..."
    | InvalidParams                       // the request-shape validation failed

  /** One invocation: rejected before any transport call, or one call and its output. */
  datatype Outcome =
    | Rejected(error: InvokeError)
    | Called(kind: CallKind, request: Request, printed: Printed)

  /**
   * `Client.invoke` without the verbose echo. `validate` stands for the
   * request-shape validation of the parameters; `sendMessage` and
   * `sendMessageStreaming` for the transport's two calls.
   */
  method Invoke(client: Client, validate: map<string, Json> -> bool,
                sendMessage: Request -> Envelope, sendMessageStreaming: Request -> seq<Envelope>)
    returns (outcome: Outcome)
    ensures outcome.Rejected? <==> !IsSupportedMethod(client.methodName) || !validate(client.params)
    ensures !IsSupportedMethod(client.methodName) ==> outcome == Rejected(UnsupportedMethod(client.methodName))
    ensures IsSupportedMethod(client.methodName) && !validate(client.params) ==> outcome == Rejected(InvalidParams)
    ensures outcome.Called? ==>
      var request := Request(client.headers, client.params);
      outcome.request == request
      && (client.methodName == SendMethod ==>
            outcome.kind == SendMessage && outcome.printed == Render(Unary(sendMessage(request))))
      && (client.methodName == StreamMethod ==>
            outcome.kind == SendMessageStreaming && outcome.printed == Render(Stream(sendMessageStreaming(request))))
  {
    var request := Request(client.headers, client.params);
    match client.methodName {
      case "message/send" =>
        if !validate(client.params) {
          return Rejected(InvalidParams);
        }
        var printed := ShowResponse(Unary(sendMessage(request)));
        outcome := Called(SendMessage, request, printed);
      case "message/stream" =>
        if !validate(client.params) {
          return Rejected(InvalidParams);
        }
        var printed := ShowResponse(Stream(sendMessageStreaming(request)));
        outcome := Called(SendMessageStreaming, request, printed);
      case _ =>
        outcome := Rejected(UnsupportedMethod(client.methodName));
    }
  }
}
