# ca2a core in Dafny

A model of the core of `ca2a`, a command-line client for agents that speak the
A2A protocol over JSON-RPC. It covers three parts:

- the **item parser** (`parse_items`). It turns command-line items such as
  `name=Alice`, `age:=30` and `x-api-key:secret` into a parameter map and an
  HTTP-header map;
- the **method check**. The method must be one of `message/send` and
  `message/stream`. `main` checks this, and `Client.invoke` checks it again
  through its `match`;
- **response normalisation** (`get_result` and the non-verbose branch of
  `show_response`). It turns each JSON-RPC envelope into the payload that is
  printed. This covers one envelope for `message/send` and a stream of them
  for `message/stream`.

Modules, one file each:

- `Wrappers` (wrappers.dfy) holds `Option` and `Result`.
- `JsonValues` (json.dfy) holds the decoded JSON value.
- `Items` (items.dfy) is the item parser.
- `Dispatch` (dispatch.dfy) holds METHODS, the envelopes, `get_result`,
  `show_response` and `Client.invoke`.
- `Cli` (cli.dfy) is `main`.

The source uses a regular expression: `^([^:=]+)(=|:=|:)(.+)$` with DOTALL. The
model replaces it with an explicit scan:

- `KeyLength` finds the longest prefix that contains no `:` and no `=`.
- `MatchItem` then picks the separator in the alternation's order.

The ghost predicate `Matches` says what any reading of an item as
`key SEP value` looks like. `TriedBefore` gives the order in which the
backtracking engine tries those readings. `MatchItemIsRegexMatch` proves two
things:

- the scan fails exactly when no reading exists;
- otherwise it returns the reading the engine would reach first.

Two imperative parts are methods with loops:

- the `for` loop of `parse_items`, which updates two dictionaries, is
  `Items.ParseItems`. Its dictionaries are two `map` variables.
- the `async for` loop of `show_response` is `Dispatch.ShowResponse`. Its
  output is a sequence of printed payloads.

Each of these is proved equal to a specification function (`Parsed`,
`Render`). The lemmas about those functions state the source's promises.

Parameters stand in for the code outside the core:

- `jsonLoads: string -> Loaded` is `json.loads`. It returns a value, or it
  raises one of three kinds of error: a `JSONDecodeError`, some other
  `ValueError`, or an exception that is not a `ValueError`.
- `validate: map<string, Json> -> bool` is `MessageSendParams.model_validate`.
- `sendMessage` and `sendMessageStreaming` are the transport's two calls.

A transport call shows up only in the `Called` outcome. No transport call is
made unless the exit is `Ran(Called(..))`; `Usage`, `Crashed` and `Rejected`
all end before it.

Some consequences of the code that are easy to miss:

- Separators are not matched longest first. The alternation tries `=`, `:=`
  and `:` in that order, and it backtracks. So a bare `k:=`, with nothing
  after the separator, becomes the header `k` with value `"="`
  (`BareColonEqIsHeader`).
- `k:==` is a JSON parameter whose text is `"="` (`ColonEqEqIsJson`).
- `main` rejects an unsupported method before it parses the items, so the
  method error wins over an item error (`Cli.Run`).
- `parse` turns only a `JSONDecodeError` into "Invalid JSON value". Any other
  `ValueError` of `json.loads` reaches `main` with its own message and becomes
  a usage error. An exception that is not a `ValueError` escapes `main`, and
  the process exits with status 1 (`Cli.Run`, `Cli.ExitStatus`).

## Model

| member | source | states |
|---|---|---|
| Items.KeyLength | ca2a.py:119 | The scanned key is the longest prefix with no ':' or '='. Every character before it is a non-separator, and the character at its end, if any, is ':' or '='. |
| Items.MatchItem | ca2a.py:119-129 | A successful match splits the item exactly into key + separator + value. The key is non-empty and has no ':' or '='. The separator is "=", ":=" or ":". The value is the non-empty rest of the item, kept verbatim. |
| Items.KeyIsMaximal | ca2a.py:119 | Every reading of an item has the same key: the maximal prefix with no ':' or '='. |
| Items.MatchItemFindsReading | ca2a.py:119 | If an item has any reading, a match is found. It is that reading, or, when the reading is `k:` with a value of '=' followed by more text, the `k:=` reading of the same item. |
| Items.MatchItemIsRegexMatch | ca2a.py:119-127 | The scan fails if and only if the pattern has no reading of the item. Otherwise it returns the reading the backtracking engine tries first: longest key, then "=", ":=", ":" in that order. |
| Items.ParseItem | ca2a.py:124-142 | An item fails with "Invalid item" naming the whole item exactly when the pattern does not match. Every other failure comes from a `:=` item's JSON decoding. The "Unsupported separator" arm cannot be reached. A stored entry's key is the matched key. |
| Items.StringParamItem | ca2a.py:129-132 | `k=v`, with a valid key and a non-empty v, stores the string v as parameter k. |
| Items.JsonParamItem | ca2a.py:133-138 | `k:=v`, with a non-empty v, stores the JSON decoding of v as parameter k. A decode error fails with "Invalid JSON value" naming v. Any other error of the decoder is raised unchanged. It is never a header. |
| Items.HeaderItem | ca2a.py:139-140 | `k:v` stores v as header k, unless v is '=' followed by more text. |
| Items.BareColonEqIsHeader | ca2a.py:119-140 | The bare `k:=` backtracks to the header k with value "=". |
| Items.ColonEqEqIsJson | ca2a.py:119-138 | `k:==` is a JSON parameter with text "=", so it fails with "Invalid JSON value" naming "=". |
| Items.InvalidItemIffNoReading | ca2a.py:125-127 | An item fails with "Invalid item" naming it exactly when it has no `key SEP value` reading. |
| Items.ParseItems | ca2a.py:121-147 | The loop that updates the two dictionaries returns exactly `Parsed(items)`. That is the first item's error, or the maps built by storing every entry in order. |
| Items.FailureIsFinal | ca2a.py:144-145 | Once an item has failed, no later item changes the result. |
| Items.ParseAllPointwise | ca2a.py:144-145 | On success there is one entry per item, and entry i is the parse of item i. |
| Items.ParseAllFailsAtFirstBadItem | ca2a.py:144-147 | The whole parse fails if and only if some item fails, and then with the error of the first failing item. |
| Items.ParseAllOfGoodItems | ca2a.py:144-147 | When every item parses, the whole parse succeeds with the maps built from the entries in order. |
| Items.ParsedFailsAtFirstBadItem | ca2a.py:144-147 | If item i fails and all earlier items parse, the whole parse fails with item i's error. |
| Items.CollectLastWins | ca2a.py:129-145 | A key is in the parameter map, or in the header map, if and only if some entry stores it in that map. Its value is the one from the last such entry. |
| Items.ParsedLastItemWins | ca2a.py:129-145 | After a successful parse, every parameter and every header comes from the last item that stores that key in that map. The two maps are filled independently. |
| Items.ExampleItems | ca2a.py:115-147 | `name=Alice age:=30 x-api-key:secret` gives params {name: "Alice", age: decode("30")} and headers {x-api-key: "secret"}. |
| Items.SameKeyInBothMaps | ca2a.py:130-140 | `a=1 a:2` gives parameter a = "1" and header a = "2". The same key lives in both maps independently. |
| Items.BadTokenFails | ca2a.py:125-145 | `name=Alice bad_token` fails the whole parse with "Invalid item" naming `bad_token`, so no partial maps are returned. |
| Dispatch.IsSupportedMethod | ca2a.py:26-29 | A method is supported if and only if it is "message/send" or "message/stream". |
| Dispatch.GetResult | ca2a.py:70-81 | An error envelope yields its error. Either success envelope yields its result. Any other envelope fails with "Unsupported A2A response" naming its dump. |
| Dispatch.RenderChunks | ca2a.py:91-94 | A stream prints at most one payload per envelope. It stops only at an envelope that fails, and that envelope's error ends the output. |
| Dispatch.RenderChunksPayloads | ca2a.py:91-94 | The i-th printed payload is the result of the i-th envelope to arrive. |
| Dispatch.Render | ca2a.py:90-97 | A unary response prints exactly one payload, or fails with nothing printed, just as a one-envelope stream would. A streamed response prints like `RenderChunks`. |
| Dispatch.RenderIsIncremental | ca2a.py:91-94 | Output is never rolled back. What a prefix of the stream printed stays a prefix of what the whole stream prints. After the first failure, later envelopes change nothing. |
| Dispatch.ShowResponse | ca2a.py:90-97 | The loop over the envelopes prints exactly `Render(response)`. |
| Dispatch.Invoke | ca2a.py:40-62 | An unsupported method is rejected with "Unsupported method" and no transport call. Supported methods with invalid parameters are rejected before any call. Otherwise "message/send" makes one unary call and "message/stream" one streaming call, each with the client's headers and parameters, and prints the rendered response. |
| Cli.Run | ca2a.py:175-191 | An unsupported method is a usage error before items are parsed or any client exists. Otherwise a bad item is a usage error with the parse error and no client, unless the decoder raised something other than a ValueError, which escapes `main`. Otherwise the one invocation uses the parsed maps, and its "Unsupported method" arm is never reached. |
| Cli.ExitStatus | ca2a.py:175-191 | The status is always 0, 1 or 2. Status 0 means exactly that the call completed and printed every envelope. Status 2 means exactly a usage error. Status 1 means exactly that an exception escaped `main`: a decoder exception that is not a ValueError, a rejected call, or an unsupported envelope met while printing. |

## Left out

- Verbose mode (ca2a.py:64-67, 83-89). It only echoes the request and the raw envelopes, so the model always runs with it off.
- `print_json`, `model_dump_json`, pygments highlighting and `isatty` (ca2a.py:105-112). These are output formatting. A printed payload is modelled as the `Json` value itself.
- `asyncio`, `async for` and `is_async_iterator` (ca2a.py:86, 92, 100-102, 191). The stream is a finite `seq` of envelopes, and which call was made decides whether the response is unary or streamed.
- `httpx.AsyncClient` and `A2AClient` (ca2a.py:41-42, 50, 58). They are the network transport, so they are function parameters. Transport failures are not modelled. The `headers or None` choice is not modelled either, since an empty map and `None` add the same headers.
- `MessageSendParams.model_validate` and the request classes (ca2a.py:46-47, 54-55). These are external schema validation, modelled as a predicate `validate`. The request carries the raw parameter map, not the validated object.
- `uuid4()` request ids (ca2a.py:47, 55). They are random, and no property depends on them.
- `json.loads` internals (ca2a.py:135). It is the oracle `jsonLoads`, which decides for each text whether it decodes and which error it raises otherwise. Numbers are kept as their text.
- argparse wiring (ca2a.py:151-173). It is argument plumbing; the model starts from the parsed url, method and items.
