/**
 * The two routes of the HTTP server: `/chat`, which validates the request,
 * asks the agent and reshapes its reply, and `/start-demo`, which streams the
 * demo's narration between a start event and a completion event.
 *
 * The agent of `/chat` is an oracle from the message to the chunks of its
 * streamed reply, or the text of the error that the stream threw. Whether the
 * agent and its configuration were initialised is the flag `ready`.
 */
module Server {
  import opened Wrappers
  import opened Scan
  import opened Patterns
  import opened DemoLogic
  import opened EventStream

  // ---------------------------------------------------------------------------
  // /chat

  const STATUS_OK: nat := 200
  const STATUS_BAD_REQUEST: nat := 400
  const STATUS_INTERNAL_ERROR: nat := 500
  const STATUS_UNAVAILABLE: nat := 503

  const MISSING_MESSAGE_ERROR := "Message is required"
  const MISSING_MESSAGE_HINT := "Please enter a message."
  const NOT_READY_ERROR := "Agent not initialized"
  const NOT_READY_HINT := "The AI agent is not ready. Please check your environment variables and restart the server."
  const INTERNAL_ERROR := "Internal server error"
  const CHAT_FAILED_HINT := "Sorry, there was an error processing your message. Please check the server logs for details."

  /** A JSON body: the reshaped reply, or an error with the text shown to the user. */
  datatype Body = Reply(response: string) | Failure(error: string, userMessage: string)

  datatype Response = Response(status: nat, body: Body)

  /** The agent, seen from `/chat`: message to streamed reply or error text. */
  type ChatAgent = string -> Result<seq<Chunk>, string>

  /** `x?.[1] || d`: a capture that is missing or empty gives way to the default. */
  function OrDefault(g: Option<string>, d: string): (r: string)
    ensures g.Some? && g.value != [] ==> r == g.value
    ensures g.None? || g.value == [] ==> r == d
  {
    if g.Some? && g.value != [] then g.value else d
  }

  /** The first capture of `p` in `s`, or `d`. */
  function Capture(p: Matcher, s: string, d: string): string {
    OrDefault(FirstGroup(p, s), d)
  }

  /** The five lines a `Wallet Details` reply is rewritten into, around its three captures. */
  function WalletLines(address: string, eth: string, native: string): (ls: seq<string>)
    ensures |ls| == 5
  {
    [ "Wallet Details:",
      "- Address: " + address,
      "- Network: Base Mainnet",
      "- ETH Balance: " + eth + " ETH",
      "- Native Balance: " + native + " WEI" ]
  }

  /** The Markdown line that links a transaction hash. */
  function TxLinkLine(hash: string): string {
    "Transaction: [" + LINK_TEXT + "](" + TX_URL + hash + ")"
  }

  /** The two pieces a reply mentioning `0x` is rewritten into, around its two captures. */
  function TxLines(action: string, hash: string): (ls: seq<string>)
    ensures |ls| == 2
  {
    [action + ".", TxLinkLine(hash)]
  }

  /** The wallet block of a reply. */
  function WalletBlock(s: string): string {
    JoinLines(WalletLines(Capture(MatchAddress, s, ""), Capture(MatchEth, s, "0"), Capture(MatchNative, s, "0")))
  }

  /** The transaction block of a reply. */
  function TxBlock(s: string): string {
    JoinLines(TxLines(Capture(MatchAction, s, "Transaction completed"), Capture(MatchTxHash, s, "")))
  }

  /**
   * The reshaping of the accumulated reply: a wallet block, else a
   * transaction block, else the reply unchanged.
   */
  function ShapeReply(s: string): string {
    if Contains(s, "Wallet Details") then WalletBlock(s)
    else if Contains(s, "0x") then TxBlock(s)
    else s
  }

  /**
   * The `/chat` handler: a missing or empty message is refused first, then an
   * uninitialised agent; an error thrown while streaming is an internal error;
   * otherwise the accumulated reply is reshaped.
   */
  function Chat(message: Option<string>, ready: bool, agent: ChatAgent): (r: Response)
    ensures r.status == STATUS_BAD_REQUEST <==> message.None? || message.value == []
    ensures r.status == STATUS_UNAVAILABLE <==> message.Some? && message.value != [] && !ready
    ensures r.status == STATUS_INTERNAL_ERROR <==> message.Some? && message.value != [] && ready && agent(message.value).Err?
    ensures r.status == STATUS_OK <==> message.Some? && message.value != [] && ready && agent(message.value).Ok?
    ensures r.body.Reply? <==> r.status == STATUS_OK
  {
    if message.None? || message.value == [] then
      Response(STATUS_BAD_REQUEST, Failure(MISSING_MESSAGE_ERROR, MISSING_MESSAGE_HINT))
    else if !ready then
      Response(STATUS_UNAVAILABLE, Failure(NOT_READY_ERROR, NOT_READY_HINT))
    else
      match agent(message.value)
      case Err(_) => Response(STATUS_INTERNAL_ERROR, Failure(INTERNAL_ERROR, CHAT_FAILED_HINT))
      case Ok(chunks) => Response(STATUS_OK, Reply(ShapeReply(ReplyText(chunks))))
  }

  // ---------------------------------------------------------------------------
  // /start-demo

  const STARTING_MESSAGE := "Starting demo..."
  const COMPLETED_MESSAGE := "Demo completed!"
  const DEMO_NOT_READY_HINT := "The AI agent is not ready."
  /** The pause after each demo step, in milliseconds. */
  const DEMO_DELAY: nat := 5000

  /** A refusal with a JSON body, or an event stream. */
  datatype DemoResponse =
    | Refused(status: nat, error: string, userMessage: string)
    | Streamed(status: nat, stream: string)

  /** The demo's narration between the start event and the completion event. */
  function Bracketed(t: seq<Event>): (es: seq<Event>)
    ensures |es| == |t| + 2
  {
    [Event(STARTING_MESSAGE, false)] + t + [Event(COMPLETED_MESSAGE, false)]
  }

  /** The `/start-demo` handler: refuse when not ready, else stream the bracketed demo. */
  function StartDemo(ready: bool, agent: Agent): (r: DemoResponse)
    ensures r.Refused? <==> !ready
  {
    if !ready then Refused(STATUS_UNAVAILABLE, NOT_READY_ERROR, DEMO_NOT_READY_HINT)
    else Streamed(STATUS_OK, Frames(Bracketed(Trace(RunDemo(agent, DEMO_DELAY)))))
  }
}
