/**
 * The `main` entry point of ca2a without argparse and printing: check the
 * method against METHODS, parse the items, then invoke the client.
 * Usage errors end the run before any client or transport exists.
 */
module Cli {
  import opened Wrappers
  import opened JsonValues
  import opened Items
  import opened Dispatch

  /** The errors `main` reports through `parser.error`. */
  datatype UsageError =
    | InvalidMethod(methodName: string)   // "Invalid method: ... (choose from ...)"
    | InvalidItems(error: ItemError)      // the message of the parse error

  /**
   * How a run ends: a usage error, an exception that escapes `main` (one
   * that `json.loads` raises and that is not a ValueError), or the outcome
   * of the one invocation.
   */
  datatype Exit = Usage(error: UsageError) | Crashed(message: string) | Ran(outcome: Outcome)

  /** `main` after argument parsing, with the verbose flag off. */
  method Run(url: string, methodName: string, items: seq<string>,
             jsonLoads: string -> Loaded, validate: map<string, Json> -> bool,
             sendMessage: Request -> Envelope, sendMessageStreaming: Request -> seq<Envelope>)
    returns (exit: Exit)
    ensures !IsSupportedMethod(methodName) ==> exit == Usage(InvalidMethod(methodName))
    ensures IsSupportedMethod(methodName) && Parsed(items, jsonLoads).Failure? ==>
      var error := Parsed(items, jsonLoads).error;
      exit == if error.LoadsException? then Crashed(error.message) else Usage(InvalidItems(error))
    ensures IsSupportedMethod(methodName) && Parsed(items, jsonLoads).Success? ==>
      var maps := Parsed(items, jsonLoads).value;
      exit.Ran?
      && (exit.outcome.Rejected? <==> !validate(maps.params))
      && (exit.outcome.Rejected? ==> exit.outcome.error == InvalidParams)
      && (exit.outcome.Called? ==>
            var request := Request(maps.headers, maps.params);
            exit.outcome.request == request
            && exit.outcome.printed == Render(
                 if methodName == SendMethod then Unary(sendMessage(request))
                 else Stream(sendMessageStreaming(request))))
  {
    if !IsSupportedMethod(methodName) {
      return Usage(InvalidMethod(methodName));
    }
    var parsed := ParseItems(items, jsonLoads);
    if parsed.Failure? {
      if parsed.error.LoadsException? {
        return Crashed(parsed.error.message);
      }
      return Usage(InvalidItems(parsed.error));
    }
    var client := Client(url, methodName, parsed.value.params, parsed.value.headers);
    var outcome := Invoke(client, validate, sendMessage, sendMessageStreaming);
    exit := Ran(outcome);
  }

  /**
   * The process exit status: argparse's `parser.error` exits with 2, an
   * uncaught exception with 1, a completed call with 0.
   */
  function ExitStatus(exit: Exit): (code: int)
    ensures code == 0 <==> exit.Ran? && exit.outcome.Called? && exit.outcome.printed.failure.None?
    ensures code == 2 <==> exit.Usage?
    ensures code == 1 <==> exit.Crashed? || (exit.Ran? && (exit.outcome.Rejected? || exit.outcome.printed.failure.Some?))
    ensures code == 0 || code == 1 || code == 2
  {
    match exit
    case Usage(_) => 2
    case Crashed(_) => 1
    case Ran(Rejected(_)) => 1
    case Ran(Called(_, _, printed)) => if printed.failure.Some? then 1 else 0
  }
}
