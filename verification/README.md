# agentexoc demo server, modelled in Dafny

This project models the part of the agentexoc server that runs the on-chain demo:

- The demo script `server/src/scripts/demoLogic.ts`:
  - its constants and command tables;
  - `extractBalance`, which reads a wallet balance out of the agent's free-text reply;
  - `formatTransactionLink`, which turns every labelled transaction hash into a Basescan link;
  - `runDemoSequence`. It queries the balance and stops below 0.0002 ETH. Otherwise it drives the seven Alux steps and then the three Xocolatl steps, narrating every command and every reply. Any error of the agent is narrated once and ends the run.
- The two routes of `server/src/server.ts`:
  - `/chat` validates the request in a fixed order (400, then 503, then 500 on an error, else 200). It reshapes the agent's reply: a `Wallet Details` reply becomes a five-line block, otherwise a reply mentioning `0x` becomes an action line and a link line, and any other reply passes through unchanged.
  - `/start-demo` streams the demo as server-sent events. Each event is framed as `data: <json>\n\n`. The demo's narration sits between a `Starting demo...` event and a `Demo completed!` event. The route answers 503 when the agent is not initialised, and the demo runs with a 5000 ms step delay.

The agent is an oracle. For the demo, it maps the number of a dispatch to the chunks of its streamed reply, or to the text of the error it threw (the thrown value is taken to have a string form; see "## Left out"):

- 0 is the balance query;
- 1 to 7 are the Alux steps;
- 8 to 10 are the Xocolatl steps.

For `/chat`, the agent maps the message to the same kind of result. A run of the demo is a pure function of that oracle. It returns the log of its effects: dispatches, narrations and pauses.

`RunSequence` takes the balance extractor and the reply formatter as parameters. `RunDemo` is its instance with `ExtractBalance` and `FormatTransactionLink`. Every property proved about `RunSequence` holds for any extractor and any formatter, so it holds for the demo in particular.

Modules:

- `Wrappers`: `Option` and `Result`.
- `Scan`: character classes, runs, `trim`, `split('\n')` and `join('\n')`.
- `Patterns`: each regular expression of the core as an explicit matcher. It also holds the leftmost search behind `String.prototype.match` and the global `String.prototype.replace`.
- `Decimals`: `parseFloat` on digits and dots, and an exact conversion of ether to wei.
- `PatternProps` and `ExtractorProps`: properties of the matchers and the two extractors.
- `DemoLogic`: the demo script.
- `DemoProps`: properties of the run.
- `EventStream`:
  - `JSON.stringify` of `{ message, isUser }`, following QuoteJSONString in section 25.5.2 of ECMA-262;
  - the `data:` frame;
  - a reader of such a stream, following the event-stream interpretation of the WHATWG HTML standard, restricted to `data:` lines.
- `Server`: the two routes.
- `ServerProps`: properties of the two routes.

Regular expressions follow JavaScript semantics without the `u` flag:

- under `i`, a non-ASCII character never folds onto an ASCII one; every literal and class in these patterns is ASCII, so folding only `A`-`Z` is exact for them (non-ASCII case pairs such as `é`/`É` are not folded, see "## Left out");
- `\s` is JavaScript white space and line terminators, the same set that `trim` strips;
- `\b` uses ASCII word characters.

Three consequences of the code that the model makes explicit:

- `formatTransactionLink`'s pattern carries the `g` flag, so it rewrites every labelled hash in the reply.
- A run whose replies all arrive narrates 23 times: the two phase headers, fourteen Alux turns, six Xocolatl turns and the success message. `/start-demo` adds its two bracketing events.
- When a step fails, its command has already been sent to the agent: the failure comes out of the `agent.stream` call or its iteration. So a failure at the fourth Alux step counts the balance query and four Alux commands as sent. Before the failure, the run also narrates that step's user turn.

## Model

| member | source | states |
|---|---|---|
| Scan.LowerEqual | server/src/scripts/demoLogic.ts:28 | a character of the text compares equal to an ASCII character of a pattern under the `i` flag exactly when they are equal or are the same ASCII letter in the two cases |
| Scan.NonAsciiNeverFoldsToAscii | server/src/scripts/demoLogic.ts:28 | under the `i` flag without `u`, a non-ASCII character of the text never matches an ASCII pattern character, so folding only `A`-`Z` is exact against ASCII patterns |
| Scan.Trim | server/src/scripts/demoLogic.ts:47 | `trim` removes a white-space run at each end, so the result sits inside the input with only white space around it, and the result neither starts nor ends with white space |
| Scan.TrimUnique | server/src/scripts/demoLogic.ts:47 | any framing of the input that neither starts nor ends with white space is what `trim` returns |
| Scan.Lines | server/src/server.ts:88-94 | a split by line feed has at least one piece, and no piece holds a line feed |
| Scan.LinesOfJoin | server/src/server.ts:88-94 | joining line-feed-free lines and splitting again gives the same lines back |
| Scan.JoinOfLines | server/src/server.ts:88-94 | joining the pieces of a split gives the text back |
| Scan.LinesSnoc | server/src/server.ts:101-104 | splitting a text, a line feed and a line-feed-free last line gives the text's lines, then that line |
| Patterns.MatchBalance | server/src/scripts/demoLogic.ts:28 | a match of the balance pattern starts at a balance label and captures a non-empty run of digits and dots that ends inside the text |
| Patterns.RunAfter | server/src/server.ts:83-84 | `\s*([cls]+)` matches exactly when a character of the class follows the white space, and then captures the maximal run of the class there |
| Patterns.MatchAddress | server/src/server.ts:83 | the address pattern matches at a position exactly when `Address:` starts there and a hex digit or `x` follows the white space after it; the group is the maximal run of such characters after that white space |
| Patterns.MatchEth | server/src/server.ts:84 | the ETH pattern matches at a position exactly when `ETH Balance:` starts there and a digit or a dot follows the white space after it; the group is the maximal run of digits and dots after that white space |
| Patterns.MatchNative | server/src/server.ts:85 | a match starts at `Native Balance:`, and its group is taken at the first position, on the same line, from which digits, white space and `WEI` follow; the group is the whole digit run from there |
| Patterns.WeiDigitsAt | server/src/server.ts:85 | `(\d+)\s*WEI` matches at a position exactly with a non-empty digit run that no digit follows, then white space, then `WEI`, and the group is that run |
| Patterns.DigitsBeforeWeiIsFirst | server/src/server.ts:85 | the lazy `.*?` stops at the first position, before any line break, where `(\d+)\s*WEI` matches |
| Patterns.MatchTxHash | server/src/server.ts:98 | the hash pattern matches at a position exactly when `0x` (either case) and 64 hex digits start there, and the match is those 66 characters |
| Patterns.MatchAction | server/src/server.ts:99 | the action pattern matches at a position exactly when `Successfully` (any case) starts there and the white space after it either reaches a character other than a full stop or is at least two characters long; the group runs to the next full stop or the end, and starts after all the white space, or at its last character when a full stop or the end follows the white space |
| Patterns.MatchLabelledHash | server/src/scripts/demoLogic.ts:45 | a match of the labelled-hash pattern starts at a transaction label and captures a non-empty hash that ends inside the text |
| Patterns.Leftmost | server/src/scripts/demoLogic.ts:28 | the search finds the first position at or after `i` where the pattern matches; when it finds nothing, no position from `i` on matches |
| Patterns.FirstGroup | server/src/server.ts:83-85 | `match(...)?.[1]` is missing exactly when the pattern matches nowhere; otherwise it is the group of the leftmost match |
| Patterns.LeftmostIsFirst | server/src/scripts/demoLogic.ts:28 | when `pos` is the first matching position from `i` on, the search returns the match at `pos` |
| Patterns.ReplaceFrom | server/src/scripts/demoLogic.ts:44-46 | the global replacement leaves a text from `i` on unchanged when the pattern matches nowhere there |
| Patterns.ReplaceAtLeftmost | server/src/scripts/demoLogic.ts:44-46 | the global replacement copies the text up to the leftmost match, puts the replacement of its group, and goes on after the match |
| Patterns.LabelledHashAdvances | server/src/scripts/demoLogic.ts:45 | the labelled-hash pattern never matches the empty string, so the global replacement always moves on |
| Decimals.ParseDecimal | server/src/scripts/demoLogic.ts:32 | `parseFloat` of digits and dots gives NaN exactly when the text neither starts with a digit nor with a dot followed by a digit; otherwise it reads a whole part and a fraction of digits |
| Decimals.ParseDecimalOfLiteral | server/src/scripts/demoLogic.ts:32 | `parseFloat` reads `whole.fraction` back as written, whatever non-digit follows |
| Decimals.ParseDecimalOfWhole | server/src/scripts/demoLogic.ts:32 | `parseFloat` reads digits without a dot back as that whole number, whatever follows other than a digit or a dot |
| Decimals.ScaledIsFloor | server/src/scripts/demoLogic.ts:32 | scaling by `10^n` is `floor(value * 10^n)`, the wei amount being `n = 18`: the exact value times `10^n` lies in `[r, r + 1)` |
| Decimals.ScaledShortFraction | server/src/scripts/demoLogic.ts:32 | with at most `n` fractional digits (18 for wei), scaling by `10^n` is exact |
| Decimals.ScaledLongFraction | server/src/scripts/demoLogic.ts:32 | with more than `n` fractional digits (18 for wei), scaling by `10^n` truncates toward zero |
| Decimals.Wei | server/src/scripts/demoLogic.ts:32 | the wei amount of `whole.fraction` is the whole ethers times `10^18` plus less than one ether more; `ScaledIsFloor` states that it is exactly `floor(value * 10^18)` |
| PatternProps.BalanceTagAt | server/src/scripts/demoLogic.ts:28 | either balance label, in any case, is recognised where it occurs and ends where the label ends |
| PatternProps.RunAfterOf | server/src/scripts/demoLogic.ts:28 | `\s*([cls]+)` takes all the white space and then exactly the maximal run of the class |
| PatternProps.BalanceGroupAfter | server/src/scripts/demoLogic.ts:28 | the group `extractBalance` reads is the number after the first label that a number follows |
| PatternProps.AddressAt | server/src/server.ts:83 | `Address:`, white space and a maximal non-empty run of hex digits and `x` match, capturing the run |
| PatternProps.EthAt | server/src/server.ts:84 | `ETH Balance:`, white space and a maximal non-empty run of digits and dots match, capturing the run |
| PatternProps.WeiDigitsOf | server/src/server.ts:85 | a maximal digit run, white space and `WEI` match `(\d+)\s*WEI` at the run, capturing it |
| PatternProps.FirstWeiDigitsFound | server/src/server.ts:85 | when `j` is the first position on the line where `(\d+)\s*WEI` matches, the lazy search finds the match at `j` |
| PatternProps.NativeAt | server/src/server.ts:85 | `Native Balance:`, text without digits or line breaks, a digit run, white space and `WEI` match, capturing the digits |
| PatternProps.ActionAt | server/src/server.ts:99 | `Successfully` in any case, white space, and a run without full stops that starts with a non-space character and ends before a full stop or the end, match with that run as the group |
| PatternProps.ActionBacktracks | server/src/server.ts:99 | `Successfully` followed by two or more white-space characters and then a full stop or the end matches with the last white-space character as the group, because `\s+` gives one back |
| PatternProps.TxTagAt | server/src/scripts/demoLogic.ts:45 | a transaction label at a position is recognised and ends where the label ends |
| PatternProps.LabelledHashAt | server/src/scripts/demoLogic.ts:45 | a label, white space and 64 hex digits that no word character follows match, capturing the hash |
| PatternProps.LabelledHashShape | server/src/scripts/demoLogic.ts:45 | every labelled-hash match is a label, white space and `0x` with 64 hex digits, with a word boundary after it |
| PatternProps.TxTagShape | server/src/scripts/demoLogic.ts:45 | the text a recognised label spans is one of the three labels, in some case |
| PatternProps.LongHexRunNotRewritten | server/src/scripts/demoLogic.ts:45 | a labelled run of more than 64 hex digits does not match, because `\b` fails after the 64th digit |
| PatternProps.NoTagBeforeNonWord | server/src/scripts/demoLogic.ts:45 | no labelled hash starts at a character that is not a word character |
| PatternProps.ReplaceTwoMatches | server/src/scripts/demoLogic.ts:44-46 | replacing in a text made of a match, one unmatched character and a match replaces both and keeps the character |
| PatternProps.OneTaggedHash | server/src/scripts/demoLogic.ts:44-46 | a text that is one labelled hash is replaced as a whole by the replacement of its hash |
| PatternProps.TwoTaggedHashes | server/src/scripts/demoLogic.ts:44-46 | two labelled hashes with one non-word character between them are both replaced |
| DemoLogic.ExtractBalance | server/src/scripts/demoLogic.ts:26-37 | the balance is 0 when no label is followed by a number, and 0 when the captured number is NaN to `parseFloat` |
| DemoLogic.FormatTransactionLink | server/src/scripts/demoLogic.ts:43-48 | the result is trimmed at both ends; a text without any labelled hash is only trimmed |
| DemoLogic.ReplyText | server/src/scripts/demoLogic.ts:66-73 | the accumulated reply; `DemoProps.ReplyTextInOrder`, `ReplyInOrderSnoc`, `ReplyTextAppend` and `AgentPartWins` state that it reads the chunks front to back, taking a chunk's `agent` part before its `tools` part |
| DemoLogic.RunSteps | server/src/scripts/demoLogic.ts:86-106 | one phase's loop; `DemoProps.StepsSucceed`, `StepsFail`, `StepsFailedIff`, `StepsFirstCommand` and `StepsPaced` state what it sends, narrates and pauses, and that it fails exactly when a dispatch fails |
| DemoLogic.RunSequence | server/src/scripts/demoLogic.ts:59-138 | the run for any extractor and formatter; `DemoProps.GateIff`, `SuccessCommands`, `SuccessTrace`, `FailFast`, `AlwaysTerminal`, `CommandsArePrefix` and `DemoPaced` state its gate, its commands, its narration and its ending |
| DemoLogic.RunDemo | server/src/scripts/demoLogic.ts:53-139 | the run with `extractBalance` and `formatTransactionLink`; every `RunSequence` lemma applies to it, and `DemoProps.DemoRepliesTrimmed` and `ServerProps.CompletedAfterAnyEnding` state what holds for this instance |
| ExtractorProps.RequiredBalanceInWei | server/src/scripts/demoLogic.ts:5 | 0.0002 ether is the required balance of 200000000000000 wei |
| ExtractorProps.BalanceFromFirstLabel | server/src/scripts/demoLogic.ts:26-37 | the balance is the number after the first label that a number follows, converted exactly to wei |
| ExtractorProps.RequiredBalanceReadExactly | server/src/scripts/demoLogic.ts:26-37 | wherever the first label followed by a number stands, either label in any case, then any white space, then `0.0002`, reads as exactly the required balance |
| ExtractorProps.ThresholdParses | server/src/scripts/demoLogic.ts:32 | `0.0002` parses to a decimal whose wei value is the required balance |
| ExtractorProps.NoLabelMeansZero | server/src/scripts/demoLogic.ts:28-35 | text without either label, in any case, has balance 0, so the gate fails closed |
| ExtractorProps.LoneDotMeansZero | server/src/scripts/demoLogic.ts:32-35 | wherever the first label followed by a number stands, either label in any case, then any white space, then only a dot, gives balance 0, because `parseFloat(".")` is NaN |
| ExtractorProps.NoLabelNoRewrite | server/src/scripts/demoLogic.ts:43-48 | without any label, untagged hashes stay as they are and the text is only trimmed |
| ExtractorProps.LinkTrims | server/src/scripts/demoLogic.ts:46-47 | the link's leading line break is exactly what the final trim removes |
| ExtractorProps.SingleHashBecomesLink | server/src/scripts/demoLogic.ts:43-48 | a text that is one labelled hash becomes the link line alone |
| ExtractorProps.EveryLabelledHashRewritten | server/src/scripts/demoLogic.ts:43-48 | the rewrite is global: two labelled hashes both become links, and the character between them is kept |
| ExtractorProps.LinkThenMore | server/src/scripts/demoLogic.ts:47 | trimming a link, a character and another link drops only the first line break |
| DemoProps.AnsweredStep | server/src/scripts/demoLogic.ts:86-106 | an answered step sends its command once, narrates the step and then the reply, and pauses for the turn pause plus the delay |
| DemoProps.FailedStep | server/src/scripts/demoLogic.ts:86-93 | a failed step sends its command, narrates the step and then the error, and pauses before the dispatch |
| DemoProps.TurnsLength | server/src/scripts/demoLogic.ts:86-106 | a phase whose replies all arrive narrates twice per step |
| DemoProps.StepsSucceed | server/src/scripts/demoLogic.ts:86-106 | a phase whose replies all arrive does not fail, sends exactly its steps in order, narrates every turn, pauses `n * (pause + delay)` and paces every dispatch |
| DemoProps.StepsFail | server/src/scripts/demoLogic.ts:86-106 | when step `k` is the first to fail, the phase fails, sends steps 0 to `k` and nothing after, and ends its narration with that step's turn and the error |
| DemoProps.FailedAfterAnswer | server/src/scripts/demoLogic.ts:86-106 | an answered first step in front of a failed rest gives a failed phase whose commands and narration extend the rest's |
| DemoProps.StepsFailedIff | server/src/scripts/demoLogic.ts:86-106 | a phase fails exactly when one of its dispatches fails |
| DemoProps.StepsFirstCommand | server/src/scripts/demoLogic.ts:86-93 | whatever the agent answers, a phase sends its first step first |
| DemoProps.StepsPaced | server/src/scripts/demoLogic.ts:86-93 | whatever the agent answers, every dispatch of a phase follows the user turn naming it and the phase's pause |
| DemoProps.OpeningEffects | server/src/scripts/demoLogic.ts:59-84 | the opening sends the balance query, narrates the Alux header and pauses one second |
| DemoProps.BalanceQueryFailureStops | server/src/scripts/demoLogic.ts:59-73 | when the balance query fails, it is the only command and its error the only narration |
| DemoProps.InsufficientBalanceStops | server/src/scripts/demoLogic.ts:75-80 | below the threshold, the balance query is the only command and the refusal the only narration |
| DemoProps.GateIff | server/src/scripts/demoLogic.ts:75-80 | after an answered balance query, the demo sends more commands exactly when the balance reaches the threshold |
| DemoProps.ClosingEffects | server/src/scripts/demoLogic.ts:108-134 | after a Xocolatl phase that succeeded, the closing adds its header before and the success message after, and no command or pause |
| DemoProps.PhasesSucceed | server/src/scripts/demoLogic.ts:82-131 | with all replies arriving, both phases succeed, send their tables and narrate their turns; the Alux phase pauses `7 * (1000 + delay)` and the Xocolatl phase `3 * (1000 + delay)` |
| DemoProps.SuccessCommands | server/src/scripts/demoLogic.ts:59-131 | with the gate passed and all replies arriving, the demo sends all eleven commands in table order |
| DemoProps.SuccessTrace | server/src/scripts/demoLogic.ts:82-134 | with the gate passed and all replies arriving, the narration is the Alux header, the Alux turns, the Xocolatl header, the Xocolatl turns and the success message |
| DemoProps.SuccessNarrationCount | server/src/scripts/demoLogic.ts:82-134 | a successful run narrates 23 times |
| DemoProps.SuccessPauses | server/src/scripts/demoLogic.ts:82-131 | a successful run pauses one second after the Alux header and then before and after every step |
| DemoProps.AluxFailure | server/src/scripts/demoLogic.ts:86-138 | when Alux step `k` is the first to fail, the commands stop at it and its error is the last narration |
| DemoProps.XocolatlFailure | server/src/scripts/demoLogic.ts:111-138 | when Xocolatl step `k` is the first to fail, all Alux commands and the Xocolatl commands up to it are sent, and its error is the last narration |
| DemoProps.FailFast | server/src/scripts/demoLogic.ts:59-138 | when dispatch `k` is the first protocol step to fail, exactly the first `k + 1` commands are sent and the error is the last narration |
| DemoProps.FailureTextOf | server/src/scripts/demoLogic.ts:137 | every narrated error starts with `Demo failed: ` |
| DemoProps.AlwaysTerminal | server/src/scripts/demoLogic.ts:59-138 | whatever the agent does, the run narrates, and its last narration is not a user turn but the refusal, the success message or an error |
| DemoProps.CommandsArePrefix | server/src/scripts/demoLogic.ts:59-138 | whatever the agent does, the commands sent are a non-empty prefix of the balance query and the two tables |
| DemoProps.DemoPaced | server/src/scripts/demoLogic.ts:59-131 | whatever the agent does, the run starts with the balance query, and every later dispatch follows its user turn and a one-second pause |
| DemoProps.ClosingPaced | server/src/scripts/demoLogic.ts:109-131 | the Xocolatl dispatches are paced by the literal 1000, the same as the Alux ones |
| DemoProps.ReplyTextInOrder | server/src/scripts/demoLogic.ts:66-73 | accumulating chunk by chunk is reading the chunks front to back |
| DemoProps.ReplyInOrderSnoc | server/src/scripts/demoLogic.ts:95-102 | a chunk at the end contributes last |
| DemoProps.ReplyTextAppend | server/src/server.ts:71-78 | the reply accumulated over a stream split in two parts is the first part's reply followed by the second's |
| DemoProps.AgentPartWins | server/src/scripts/demoLogic.ts:66-73 | a chunk with both an `agent` and a `tools` part contributes only its `agent` part |
| DemoProps.FirstFailure | server/src/scripts/demoLogic.ts:86-106 | when some dispatch of a range fails, there is a first one, and all before it are answered |
| DemoProps.DemoRepliesTrimmed | server/src/scripts/demoLogic.ts:103-104 | in the demo, every reply a phase narrates has passed through `formatTransactionLink` and is trimmed, and every user turn is one of the steps |
| EventStream.HexChar | server/src/server.ts:137 | a `\u00xx` escape writes hex digits |
| EventStream.Json | server/src/server.ts:137 | `JSON.stringify({ message, isUser })`; `DecodeJsonOfJson` states that parsing it gives the event back, and `JsonIsOneLine` that it holds no line break |
| EventStream.Frame | server/src/server.ts:138 | `data: `, the event's JSON and a blank line; `FrameLine` and `DecodeFrame` state that reading it gives the event back and stops after the blank line |
| EventStream.Frames | server/src/server.ts:136-139 | the frames written one after the other; `DecodeFramesOfFrames` states that reading them gives the events back, and `FramesAppend` that they compose |
| EventStream.EscapeChar | server/src/server.ts:137 | a character is written as itself exactly when it is not a control character, a quote or a backslash; otherwise it is a backslash escape of at most six characters, and no control character is written |
| EventStream.EscapeIsPrintable | server/src/server.ts:137 | an escaped message holds no control character |
| EventStream.JsonIsOneLine | server/src/server.ts:137-138 | a serialised event holds no line feed or carriage return, so a frame's blank line is its only end |
| EventStream.ReadEscaped | server/src/server.ts:137 | reading an escaped string and its closing quote gives the string back and stops right after the quote |
| EventStream.DecodeJsonOfJson | server/src/server.ts:137 | parsing a serialised event gives the event back |
| EventStream.FrameLine | server/src/server.ts:138 | a frame is `data: `, its event's line, a blank line, and then what follows |
| EventStream.DecodeFrame | server/src/server.ts:138 | reading one frame in front of readable text gives its event in front of the text's events |
| EventStream.DecodeFramesOfFrames | server/src/server.ts:136-139 | reading the frames of a sequence of events gives the sequence back |
| EventStream.FramesAppend | server/src/server.ts:136-139 | the frames of two sequences of events are the frames of the first, then of the second |
| Server.WalletLines | server/src/server.ts:88-94 | the wallet block has five lines |
| Server.TxLines | server/src/server.ts:101-104 | the transaction block has two pieces |
| Server.WalletBlock | server/src/server.ts:81-95 | the wallet block; `ServerProps.WalletBlockLines`, `WalletAddress`, `WalletEthBalance`, `WalletNativeBalance` and the three `WalletDefault` lemmas state its five lines, its first captures and its defaults |
| Server.TxBlock | server/src/server.ts:97-105 | the transaction block; `ServerProps.TxBlockLines`, `TxBlockTwoLines`, `TxHashIsFirst`, `TxWithoutHash` and `TxWithoutAction` state its lines, its hash and its defaults |
| Server.ShapeReply | server/src/server.ts:80-107 | the reshaping; `ServerProps.WalletBlockLines`, `TxBlockLines` and `OtherRepliesUnchanged` state its three branches in the order the code tests them |
| Server.Chat | server/src/server.ts:49-115 | the status is 400 exactly for a missing or empty message, 503 exactly for a message with no agent, 500 exactly when the agent's stream fails, and otherwise 200; only a 200 carries a reply |
| Server.Bracketed | server/src/server.ts:142-155 | the stream carries the demo's narration and two more events |
| Server.StartDemo | server/src/server.ts:117-156 | `/start-demo` refuses exactly when the agent is not initialised |
| ServerProps.MissingMessageFirst | server/src/server.ts:51-57 | a missing or empty message gets 400 and the missing-message error, whether or not the agent is ready |
| ServerProps.NotReadySecond | server/src/server.ts:59-64 | a message with no agent gets 503 and the not-ready error |
| ServerProps.RefusalIgnoresAgent | server/src/server.ts:51-64 | both refusals come before the agent is asked, so they do not depend on it |
| ServerProps.AnsweredIsShaped | server/src/server.ts:66-107 | an answered message gets 200 and the reshaping of its chunks' text, read front to back |
| ServerProps.FirstGroupAt | server/src/server.ts:83-85 | when `j` is the first position where the pattern matches, `match(...)?.[1]` is the group there |
| ServerProps.CaptureLaw | server/src/server.ts:83-85 | for a pattern whose group is never empty, `match(...)?.[1] || d` is the group of the leftmost match, and it is `d` exactly when nothing matches or that group is `d` itself |
| ServerProps.AddressEmptyIff | server/src/server.ts:83-90 | the address line is left empty exactly when the `Address:` pattern matches nowhere |
| ServerProps.CaptureDefault | server/src/server.ts:83-85 | where the pattern matches nowhere, the capture is the default |
| ServerProps.CaptureIsOneLine | server/src/server.ts:83-85 | a capture is free of line feeds when the class it captures and the default are |
| ServerProps.WalletLinesSplit | server/src/server.ts:88-94 | with line-feed-free captures, the joined wallet block splits back into its five lines |
| ServerProps.WalletCapturesAreOneLine | server/src/server.ts:83-85 | the three wallet captures hold no line feed |
| ServerProps.WalletBlockLines | server/src/server.ts:81-95 | a `Wallet Details` reply becomes exactly the five wallet lines, with the three captures |
| ServerProps.WalletAddress | server/src/server.ts:83-90 | the wallet block shows the first `Address:` capture |
| ServerProps.WalletEthBalance | server/src/server.ts:84-92 | the wallet block shows the first `ETH Balance:` capture |
| ServerProps.WalletNativeBalance | server/src/server.ts:85-93 | the wallet block shows the digits of the first `Native Balance: ... WEI` capture |
| ServerProps.WalletDefaultAddress | server/src/server.ts:83-90 | without an address capture, the address line is left empty |
| ServerProps.WalletDefaultEth | server/src/server.ts:84-92 | without an ETH capture, the ETH balance shows 0 |
| ServerProps.WalletDefaultNative | server/src/server.ts:85-93 | without a native capture, the native balance shows 0 |
| ServerProps.HashIsOneLine | server/src/server.ts:98 | a matched hash holds no line feed |
| ServerProps.HashCaptureIsOneLine | server/src/server.ts:98 | the hash capture holds no line feed |
| ServerProps.TxLinkLineIsOneLine | server/src/server.ts:103 | the link line holds no line feed when the hash holds none |
| ServerProps.TxLinesSplit | server/src/server.ts:101-104 | the joined transaction block splits into the action's lines and then the link line |
| ServerProps.TxBlockLines | server/src/server.ts:97-105 | a reply with `0x` and without `Wallet Details` becomes the action's lines with a full stop, then the link line |
| ServerProps.OneLine | server/src/server.ts:101-104 | a piece without line feeds is its own only line |
| ServerProps.TxBlockTwoLines | server/src/server.ts:97-105 | when the captured action stays on one line, the block is exactly the action line and the link line |
| ServerProps.TxHashIsFirst | server/src/server.ts:98-103 | the link carries the first run of `0x` and 64 hex digits, in either case |
| ServerProps.TxWithoutHash | server/src/server.ts:98-103 | without a hash, the link is left without one |
| ServerProps.TxWithoutAction | server/src/server.ts:99-104 | without an action capture, the block is `Transaction completed.` and the link line |
| ServerProps.DefaultActionLine | server/src/server.ts:99-102 | the default action with its full stop is one line |
| ServerProps.OtherRepliesUnchanged | server/src/server.ts:81-107 | a reply with neither `Wallet Details` nor `0x` is passed through unchanged |
| ServerProps.DemoRefusedWhenNotReady | server/src/server.ts:119-124 | without an agent, `/start-demo` answers 503 with the not-ready error |
| ServerProps.BracketedShape | server/src/server.ts:142-155 | the stream's events are the start event, the demo's narration unchanged, and the completion event |
| ServerProps.StreamIsFramed | server/src/server.ts:136-155 | the stream is the start frame, the demo's frames and the completion frame, one after the other |
| ServerProps.FramesAround | server/src/server.ts:136-139 | the frames of three sequences of events, one after the other, are their frames one after the other |
| ServerProps.DemoStreamReadsBack | server/src/server.ts:117-156 | with an agent, `/start-demo` answers 200, and its stream reads back as the start event, the demo's narration with a 5000 ms delay, and the completion event |
| ServerProps.CompletedAfterAnyEnding | server/src/server.ts:142-155 | whatever the agent does, as long as each error it throws has a string form, `Demo completed!` is the last event, and the event before it is not a user turn but the refusal, the success message or an error |
| ServerProps.CompletedAfterSequence | server/src/server.ts:142-155 | the same ending for any balance extractor, reply formatter and delay |
| ServerProps.TerminalThenCompleted | server/src/server.ts:142-155 | a narration that ends on the refusal, the success message or an error is followed by `Demo completed!` and nothing else |
| ServerProps.EndsBeforeCompletion | server/src/server.ts:142-155 | the last event of the stream is `Demo completed!` and the one before it is the narration's last |

## Left out

- Floating point: `extractBalance` computes `Math.floor(parseFloat(x) * 1e18)` in binary floating point. The model computes `floor(x * 10^18)` exactly. The source's relative error is about 2^-53, so its absolute error grows with the amount: about 16 wei at 0.123456789 ETH, and thousands of wei at a few ETH.
- DemoLogic.ExtractBalance: above about 1.8e290 ETH the source's product is `Infinity`, `BigInt` throws, the `catch` (demoLogic.ts lines 33-35) returns 0 and the gate stops the demo. The model's exact wei amount is huge and passes the gate, so `DemoProps.GateIff` and `ExtractorProps.BalanceFromFirstLabel` differ from the source there.
- Timers: `setTimeout` pauses are recorded as `Sleep` effects with their lengths. Wall-clock time is not modelled.
- Asynchrony and streaming: the agent's stream is modelled as its completed list of chunks, or as an error.
- Errors are not located inside a stream: an error thrown partway through a stream is modelled as the step's only outcome.
- Callback errors: the narration callback is assumed not to throw. The server's callback only writes to the response.
- Agent errors without a string form: the agent's thrown value is assumed to convert to a string. A thrown Symbol, or an object with a null prototype, makes `${error}` at demoLogic.ts line 137 throw a TypeError; `runDemoSequence` then rejects, and `/start-demo`'s `catch` (server.ts lines 157-172) writes its own failure event and ends the stream without `Demo completed!`. That `catch` branch is not modelled.
- ServerProps.CompletedAfterAnyEnding: holds only for an agent whose thrown values have a string form; otherwise the stream ends on the `catch`'s failure event instead of `Demo completed!`.
- ServerProps.DemoStreamReadsBack: holds only for an agent whose thrown values have a string form, for the same reason.
- Session configuration: the `config` object and the agent's initialisation (`initializeAgent`) are the flag `ready`.
- Other files: `src/chatbot.ts`, the WETH action provider, `demo.ts` and the client are not part of this model.
- Message types: non-string values of `message` are not modelled. A missing or empty message is modelled; other falsy values such as `0` or `false` are not.
- Chunk contents: non-string chunk contents, and a chunk with an `agent` key whose value is `undefined`, are not modelled. A chunk carries an optional `agent` text and an optional `tools` text.
- Characters: they are Unicode scalar values, so lone surrogates, and `JSON.stringify`'s escaping of them, are not modelled.
- The stream reader: it is a partner for the round trip. It reads `data:` frames and JSON objects of exactly the shape this server writes, and is not a general JSON or event-stream parser.
- Scan.LowerEqual: stated for the model's folding of `A`-`Z` only. JavaScript's `i` flag without `u` also upper-cases non-ASCII letters, so `é` matches `É` and `ω` matches `Ω`; the model keeps such pairs apart. As no non-ASCII character canonicalises onto an ASCII one, this makes no difference against the ASCII patterns of this server.
- HTTP details: CORS, headers, the port and logging are not modelled.
- `formatEther`: only its value on the required balance, "0.0002", is modelled; it appears as the literal in the insufficient-balance message.
- ServerProps.TxBlockTwoLines: it requires that the captured action hold no line feed. `[^.]+` can span lines, and then the block has more than two lines; `TxBlockLines` states the general case.
