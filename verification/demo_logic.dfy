/**
 * The demo script of the server: its constants and command tables, the two
 * extractors applied to the agent's free-text replies, and the sequence that
 * checks the balance and then drives the Alux and Xocolatl protocol steps.
 *
 * The agent is an oracle from the number of a dispatch (0 for the balance
 * query, 1 to 7 for the Alux steps, 8 to 10 for the Xocolatl steps) to the
 * chunks of its streamed reply or the text of the error it threw. The run is a
 * pure function of that oracle, returning the log of its effects.
 */
module DemoLogic {
  import opened Wrappers
  import opened Scan
  import opened Patterns
  import opened Decimals

  /** 0.0002 ETH, in wei. */
  const REQUIRED_BALANCE: nat := 200000000000000
  const DEMO_AMOUNT_ETH: string := "0.0001"
  const DEMO_AMOUNT_XOC: string := "0.05"
  /** Default pause after each step, in milliseconds. */
  const DELAY: nat := 15000
  /** Pause after each user turn, in milliseconds. */
  const MESSAGE_DELAY: nat := 1000
  /** The Xocolatl loop writes its pause as the literal 1000. */
  const XOCOLATL_PAUSE: nat := 1000

  const ALUX_DEMO_STEPS: seq<string> := [
    "wrap " + DEMO_AMOUNT_ETH + " eth to weth",
    "approve " + DEMO_AMOUNT_ETH + " weth in the alux protocol",
    "supply " + DEMO_AMOUNT_ETH + " weth as collateral in the alux protocol",
    "borrow " + DEMO_AMOUNT_XOC + " xoc in the alux protocol",
    "approve " + DEMO_AMOUNT_XOC + " xoc in the alux protocol",
    "repay " + DEMO_AMOUNT_XOC + " xoc in the alux protocol",
    "withdraw " + DEMO_AMOUNT_ETH + " weth from alux protocol"
  ]

  const XOCOLATL_DEMO_STEPS: seq<string> := [
    "approve " + DEMO_AMOUNT_ETH + " weth in the xocolatl protocol",
    "supply " + DEMO_AMOUNT_ETH + " weth as collateral in xocolatl",
    "mint " + DEMO_AMOUNT_XOC + " xoc"
  ]

  const BALANCE_QUERY: string := "show wallet balance in base mainnet"
  /** viem's `formatEther(REQUIRED_BALANCE)` is "0.0002". */
  const INSUFFICIENT_MESSAGE: string := "Insufficient balance. Need at least 0.0002 ETH"
  const ALUX_HEADER: string := "\n=== Starting Alux Protocol Demo ===\n"
  const XOCOLATL_HEADER: string := "\n=== Starting Xocolatl Protocol Demo ===\n"
  const SUCCESS_MESSAGE: string := "Demo completed successfully!"

  /** The last narration of a run that caught an error, whose string form is `error`. */
  function FailureMessage(error: string): string {
    "Demo failed: " + error
  }

  // ---------------------------------------------------------------------------
  // Balance extraction

  /**
   * `extractBalance`: the amount after the first `Native Balance:` or
   * `ETH Balance:` label (any case) that is followed by a number, in wei; 0
   * when there is no such label or the number does not parse.
   */
  function ExtractBalance(response: string): (wei: nat)
    ensures FirstGroup(MatchBalance, response).None? ==> wei == 0
    ensures FirstGroup(MatchBalance, response).Some? && ParseDecimal(FirstGroup(MatchBalance, response).value).None? ==> wei == 0
  {
    match FirstGroup(MatchBalance, response)
    case None => 0
    case Some(g) =>
      match ParseDecimal(g)
      case None => 0
      case Some(d) => Wei(d)
  }

  // ---------------------------------------------------------------------------
  // Transaction links

  /** What `formatTransactionLink` puts in place of a labelled hash. */
  function ExplorerLink(hash: string): string {
    "\nTransaction: " + "[" + LINK_TEXT + "](" + TX_URL + hash + ")"
  }

  /** The Markdown link's text and the block explorer's transaction URL. */
  const LINK_TEXT := "View on Basescan"
  const TX_URL := "https://basescan.org/tx/"

  /**
   * `formatTransactionLink`: every labelled hash, left to right, becomes an
   * explorer link (the pattern is global), then the text is trimmed.
   */
  function FormatTransactionLink(tx: string): (r: string)
    ensures r == [] || (!IsSpace(r[0]) && !IsSpace(r[|r| - 1]))
    ensures NoMatchFrom(MatchLabelledHash, tx, 0) ==> r == Trim(tx)
  {
    LabelledHashAdvances();
    Trim(ReplaceFrom(MatchLabelledHash, ExplorerLink, tx, 0))
  }

  // ---------------------------------------------------------------------------
  // The demo sequence

  /**
   * One chunk of a streamed agent reply: the content under its `agent` key,
   * its `tools` key, or neither.
   */
  datatype Chunk = Chunk(agent: Option<string>, tools: Option<string>)

  /** What a chunk adds to the reply: the `agent` content wins over the `tools` content. */
  function ChunkText(c: Chunk): string {
    if c.agent.Some? then c.agent.value
    else if c.tools.Some? then c.tools.value
    else []
  }

  /** The accumulated reply: the chunks' contributions, in arrival order. */
  function ReplyText(chunks: seq<Chunk>): string
    decreases |chunks|
  {
    if chunks == [] then [] else ReplyText(chunks[..|chunks| - 1]) + ChunkText(chunks[|chunks| - 1])
  }

  /** The agent, seen from the demo: dispatch number to streamed reply or error text. */
  type Agent = nat -> Result<seq<Chunk>, string>

  /** One call of the narration callback. */
  datatype Event = Event(text: string, isUser: bool)

  /** What the run does, in order: send a command, narrate, or pause. */
  datatype Effect = Dispatch(command: string) | Notify(event: Event) | Sleep(ms: nat)

  /** The effects of a phase's steps, and whether a dispatch failed among them. */
  datatype Outcome = Outcome(log: seq<Effect>, failed: bool)

  /** The agent's reply to one step as it is narrated, after `format` (`formatTransactionLink` in a run). */
  function Narrated(format: string -> string, chunks: seq<Chunk>): Event {
    Event(format(ReplyText(chunks)), false)
  }

  /**
   * The loop over one phase's `steps`, whose first dispatch has number `base`:
   * narrate the step, pause, dispatch it, narrate the reply passed through
   * `format`, pause; a failed dispatch is narrated and ends the loop.
   */
  function RunSteps(agent: Agent, format: string -> string, pause: nat, delay: nat, steps: seq<string>, base: nat): (o: Outcome)
    decreases |steps|
  {
    if steps == [] then Outcome([], false)
    else
      var turn := [Notify(Event(steps[0], true)), Sleep(pause), Dispatch(steps[0])];
      match agent(base)
      case Err(e) => Outcome(turn + [Notify(Event(FailureMessage(e), false))], true)
      case Ok(chunks) =>
        var rest := RunSteps(agent, format, pause, delay, steps[1..], base + 1);
        Outcome(turn + [Notify(Narrated(format, chunks)), Sleep(delay)] + rest.log, rest.failed)
  }

  /**
   * The control flow of `runDemoSequence`, with the balance extractor and the
   * reply formatter as parameters: query the balance, stop below the
   * threshold, then run the Alux phase and, if it did not fail, the Xocolatl
   * phase and the closing narration. An error of the agent is narrated once
   * and ends the run.
   */
  function RunSequence(agent: Agent, extract: string -> nat, format: string -> string, delay: nat): seq<Effect> {
    var query := [Dispatch(BALANCE_QUERY)];
    match agent(0)
    case Err(e) => query + [Notify(Event(FailureMessage(e), false))]
    case Ok(chunks) =>
      if extract(ReplyText(chunks)) < REQUIRED_BALANCE then
        query + [Notify(Event(INSUFFICIENT_MESSAGE, false))]
      else
        var alux := RunSteps(agent, format, MESSAGE_DELAY, delay, ALUX_DEMO_STEPS, 1);
        var opening := query + [Notify(Event(ALUX_HEADER, false)), Sleep(MESSAGE_DELAY)] + alux.log;
        if alux.failed then opening
        else
          var xoc := RunSteps(agent, format, XOCOLATL_PAUSE, delay, XOCOLATL_DEMO_STEPS, 1 + |ALUX_DEMO_STEPS|);
          var body := opening + [Notify(Event(XOCOLATL_HEADER, false))] + xoc.log;
          if xoc.failed then body else body + [Notify(Event(SUCCESS_MESSAGE, false))]
  }

  /** `runDemoSequence(agent, config, onMessage, delay)`: the sequence with `extractBalance` and `formatTransactionLink`. */
  function RunDemo(agent: Agent, delay: nat): seq<Effect> {
    RunSequence(agent, ExtractBalance, FormatTransactionLink, delay)
  }

  /** The commands a log sends to the agent, in order. */
  function Commands(log: seq<Effect>): seq<string>
    decreases |log|
  {
    if log == [] then []
    else (if log[0].Dispatch? then [log[0].command] else []) + Commands(log[1..])
  }

  /** The calls of the narration callback in a log, in order. */
  function Trace(log: seq<Effect>): seq<Event>
    decreases |log|
  {
    if log == [] then []
    else (if log[0].Notify? then [log[0].event] else []) + Trace(log[1..])
  }
}
