/**
 * Properties of the server's routes: the order of the `/chat` checks, the
 * line structure of the reshaped replies, and the bracketing and framing of
 * the `/start-demo` stream.
 */
module ServerProps {
  import opened Wrappers
  import opened Scan
  import opened Patterns
  import opened DemoLogic
  import opened DemoProps
  import opened EventStream
  import opened Server

  // ---------------------------------------------------------------------------
  // /chat: the checks and their order

  /** A missing or empty message is refused with 400, even when the agent is not ready. */
  lemma MissingMessageFirst(message: Option<string>, ready: bool, agent: ChatAgent)
    requires message.None? || message.value == []
    ensures var r := Chat(message, ready, agent);
      && r.status == STATUS_BAD_REQUEST
      && r.body.Failure?
      && r.body.error == MISSING_MESSAGE_ERROR && r.body.userMessage == MISSING_MESSAGE_HINT
  {
  }

  /** A message with an uninitialised agent is refused with 503. */
  lemma NotReadySecond(message: Option<string>, agent: ChatAgent)
    requires message.Some? && message.value != []
    ensures var r := Chat(message, false, agent);
      && r.status == STATUS_UNAVAILABLE
      && r.body.Failure?
      && r.body.error == NOT_READY_ERROR && r.body.userMessage == NOT_READY_HINT
  {
  }

  /** The refusals are decided before the agent is consulted: any two agents give the same refusal. */
  lemma RefusalIgnoresAgent(message: Option<string>, ready: bool, a1: ChatAgent, a2: ChatAgent)
    requires message.None? || message.value == [] || !ready
    ensures Chat(message, ready, a1) == Chat(message, ready, a2)
  {
  }

  /** An answered message is reshaped from the chunks of the reply, in order. */
  lemma AnsweredIsShaped(message: string, agent: ChatAgent)
    requires message != [] && agent(message).Ok?
    ensures var r := Chat(Some(message), true, agent);
      && r.status == STATUS_OK
      && r.body.Reply?
      && r.body.response == ShapeReply(ReplyInOrder(agent(message).value))
  {
    ReplyTextInOrder(agent(message).value);
  }

  // ---------------------------------------------------------------------------
  // /chat: the reshaped replies

  /** The first capture of a pattern is the group of its leftmost match. */
  lemma FirstGroupAt(p: Matcher, s: string, j: nat)
    requires j <= |s| && p(s, j).Some?
    requires forall i :: 0 <= i < j ==> p(s, i).None?
    ensures FirstGroup(p, s) == Some(p(s, j).value.group)
  {
    LeftmostIsFirst(p, s, 0, j);
  }

  /** A capture made of `cls` characters only, or a default, holds no line feed. */
  lemma CaptureIsOneLine(p: Matcher, s: string, d: string, cls: CharClass)
    requires AllIn(d, NotLineFeed)
    requires forall c: char :: In(c, cls) ==> c != '\n'
    requires FirstGroup(p, s).Some? ==> AllIn(FirstGroup(p, s).value, cls)
    ensures AllIn(Capture(p, s, d), NotLineFeed)
  {
  }

  /** Two pieces without line feeds make a piece without line feeds. */
  lemma AllInConcat(a: string, b: string)
    requires AllIn(a, NotLineFeed) && AllIn(b, NotLineFeed)
    ensures AllIn(a + b, NotLineFeed)
  {
    forall k | 0 <= k < |a + b| ensures In((a + b)[k], NotLineFeed) {
      if k < |a| { assert (a + b)[k] == a[k]; } else { assert (a + b)[k] == b[k - |a|]; }
    }
  }

  /** The fixed text of the wallet lines holds no line feed. */
  lemma WalletTextIsOneLine()
    ensures AllIn("Wallet Details:", NotLineFeed) && AllIn("- Network: Base Mainnet", NotLineFeed)
    ensures AllIn("- Address: ", NotLineFeed)
    ensures AllIn("- ETH Balance: ", NotLineFeed) && AllIn(" ETH", NotLineFeed)
    ensures AllIn("- Native Balance: ", NotLineFeed) && AllIn(" WEI", NotLineFeed)
  {
  }

  /** Wallet lines around one-line captures split back into exactly those five lines. */
  lemma WalletLinesSplit(address: string, eth: string, native: string)
    requires AllIn(address, NotLineFeed) && AllIn(eth, NotLineFeed) && AllIn(native, NotLineFeed)
    ensures Lines(JoinLines(WalletLines(address, eth, native))) == WalletLines(address, eth, native)
  {
    WalletTextIsOneLine();
    AllInConcat("- Address: ", address);
    AllInConcat("- ETH Balance: ", eth);
    AllInConcat("- ETH Balance: " + eth, " ETH");
    AllInConcat("- Native Balance: ", native);
    AllInConcat("- Native Balance: " + native, " WEI");
    LinesOfJoin(WalletLines(address, eth, native));
  }

  /** The Address, ETH and native captures never span lines. */
  lemma WalletCapturesAreOneLine(s: string)
    ensures AllIn(Capture(MatchAddress, s, ""), NotLineFeed)
    ensures AllIn(Capture(MatchEth, s, "0"), NotLineFeed)
    ensures AllIn(Capture(MatchNative, s, "0"), NotLineFeed)
  {
    CaptureIsOneLine(MatchAddress, s, "", AddressChar);
    CaptureIsOneLine(MatchEth, s, "0", DecimalChar);
    CaptureIsOneLine(MatchNative, s, "0", Digit);
  }

  /**
   * A reply that mentions `Wallet Details` becomes exactly the five wallet
   * lines around its captures, even when it also mentions `0x`.
   */
  lemma WalletBlockLines(s: string)
    requires Contains(s, "Wallet Details")
    ensures Lines(ShapeReply(s)) == WalletLines(Capture(MatchAddress, s, ""), Capture(MatchEth, s, "0"), Capture(MatchNative, s, "0"))
  {
    WalletCapturesAreOneLine(s);
    WalletLinesSplit(Capture(MatchAddress, s, ""), Capture(MatchEth, s, "0"), Capture(MatchNative, s, "0"));
  }

  /** The wallet block shows the first `Address:` capture. */
  lemma WalletAddress(s: string, j: nat)
    requires Contains(s, "Wallet Details")
    requires j <= |s| && MatchAddress(s, j).Some?
    requires forall i :: 0 <= i < j ==> MatchAddress(s, i).None?
    ensures |Lines(ShapeReply(s))| == 5 && Lines(ShapeReply(s))[1] == "- Address: " + MatchAddress(s, j).value.group
  {
    var a := Capture(MatchAddress, s, "");
    FirstGroupAt(MatchAddress, s, j);
    assert a == MatchAddress(s, j).value.group;
    WalletBlockLines(s);
    assert Lines(ShapeReply(s)) == WalletLines(a, Capture(MatchEth, s, "0"), Capture(MatchNative, s, "0"));
  }

  /** The wallet block shows the first `ETH Balance:` capture. */
  lemma WalletEthBalance(s: string, j: nat)
    requires Contains(s, "Wallet Details")
    requires j <= |s| && MatchEth(s, j).Some?
    requires forall i :: 0 <= i < j ==> MatchEth(s, i).None?
    ensures |Lines(ShapeReply(s))| == 5 && Lines(ShapeReply(s))[3] == "- ETH Balance: " + MatchEth(s, j).value.group + " ETH"
  {
    var e := Capture(MatchEth, s, "0");
    FirstGroupAt(MatchEth, s, j);
    assert e == MatchEth(s, j).value.group;
    WalletBlockLines(s);
    assert Lines(ShapeReply(s)) == WalletLines(Capture(MatchAddress, s, ""), e, Capture(MatchNative, s, "0"));
  }

  /** The wallet block shows the digits of the first `Native Balance: … WEI` capture. */
  lemma WalletNativeBalance(s: string, j: nat)
    requires Contains(s, "Wallet Details")
    requires j <= |s| && MatchNative(s, j).Some?
    requires forall i :: 0 <= i < j ==> MatchNative(s, i).None?
    ensures |Lines(ShapeReply(s))| == 5 && Lines(ShapeReply(s))[4] == "- Native Balance: " + MatchNative(s, j).value.group + " WEI"
  {
    var n := Capture(MatchNative, s, "0");
    FirstGroupAt(MatchNative, s, j);
    assert n == MatchNative(s, j).value.group;
    WalletBlockLines(s);
    assert Lines(ShapeReply(s)) == WalletLines(Capture(MatchAddress, s, ""), Capture(MatchEth, s, "0"), n);
  }

  /** Every match of `p` captures something. */
  ghost predicate GroupsNonEmpty(p: Matcher) {
    forall t: string, i: nat :: p(t, i).Some? ==> p(t, i).value.group != []
  }

  /**
   * With a pattern whose group is never empty, `match(...)?.[1] || d` is the
   * group of the leftmost match, and the default exactly when there is none
   * or the leftmost group is the default itself.
   */
  lemma CaptureLaw(p: Matcher, s: string, d: string)
    requires GroupsNonEmpty(p)
    ensures !NoMatchFrom(p, s, 0) ==> Leftmost(p, s, 0).Some? && Capture(p, s, d) == Leftmost(p, s, 0).value.m.group
    ensures Capture(p, s, d) == d <==> NoMatchFrom(p, s, 0) || FirstGroup(p, s) == Some(d)
  {
    if !NoMatchFrom(p, s, 0) {
      var f := Leftmost(p, s, 0).value;
      assert p(s, f.pos).Some?;
    }
  }

  /** The address line is left empty exactly when no `Address:` pattern matches. */
  lemma AddressEmptyIff(s: string)
    ensures Capture(MatchAddress, s, "") == "" <==> NoMatchFrom(MatchAddress, s, 0)
  {
    assert GroupsNonEmpty(MatchAddress) by {
      forall t: string, i: nat | MatchAddress(t, i).Some? ensures MatchAddress(t, i).value.group != [] {
        var m := MatchAddress(t, i).value;
        assert i + 8 <= RunEnd(t, i + 8, Space) < m.end;
      }
    }
    CaptureLaw(MatchAddress, s, "");
  }

  /** Where `p` matches nowhere, its capture is the default. */
  lemma CaptureDefault(p: Matcher, s: string, d: string)
    requires NoMatchFrom(p, s, 0)
    ensures Capture(p, s, d) == d
  {
    assert FirstGroup(p, s).None?;
  }

  /** Without an `Address:` capture, the wallet block shows an empty address. */
  lemma WalletDefaultAddress(s: string)
    requires Contains(s, "Wallet Details") && NoMatchFrom(MatchAddress, s, 0)
    ensures |Lines(ShapeReply(s))| == 5 && Lines(ShapeReply(s))[1] == "- Address: "
  {
    CaptureDefault(MatchAddress, s, "");
    WalletBlockLines(s);
    assert Lines(ShapeReply(s)) == WalletLines("", Capture(MatchEth, s, "0"), Capture(MatchNative, s, "0"));
    assert "- Address: " + "" == "- Address: ";
  }

  /** Without an `ETH Balance:` capture, the wallet block shows a zero ETH balance. */
  lemma WalletDefaultEth(s: string)
    requires Contains(s, "Wallet Details") && NoMatchFrom(MatchEth, s, 0)
    ensures |Lines(ShapeReply(s))| == 5 && Lines(ShapeReply(s))[3] == "- ETH Balance: 0 ETH"
  {
    assert "- ETH Balance: " + "0" + " ETH" == "- ETH Balance: 0 ETH";
    CaptureDefault(MatchEth, s, "0");
    WalletBlockLines(s);
    assert Lines(ShapeReply(s)) == WalletLines(Capture(MatchAddress, s, ""), "0", Capture(MatchNative, s, "0"));
  }

  /** Without a `Native Balance: … WEI` capture, the wallet block shows a zero native balance. */
  lemma WalletDefaultNative(s: string)
    requires Contains(s, "Wallet Details") && NoMatchFrom(MatchNative, s, 0)
    ensures |Lines(ShapeReply(s))| == 5 && Lines(ShapeReply(s))[4] == "- Native Balance: 0 WEI"
  {
    assert "- Native Balance: " + "0" + " WEI" == "- Native Balance: 0 WEI";
    CaptureDefault(MatchNative, s, "0");
    WalletBlockLines(s);
    assert Lines(ShapeReply(s)) == WalletLines(Capture(MatchAddress, s, ""), Capture(MatchEth, s, "0"), "0");
  }

  /** A matched hash is `0x` and hex digits: no line feed. */
  lemma HashIsOneLine(s: string, j: nat)
    requires MatchTxHash(s, j).Some?
    ensures AllIn(MatchTxHash(s, j).value.group, NotLineFeed)
  {
    var g := MatchTxHash(s, j).value.group;
    forall k | 0 <= k < |g| ensures g[k] != '\n' {
      assert g[k] == s[j + k];
    }
  }

  /** The hash capture never spans lines. */
  lemma HashCaptureIsOneLine(s: string)
    ensures AllIn(Capture(MatchTxHash, s, ""), NotLineFeed)
  {
    var g := FirstGroup(MatchTxHash, s);
    if g.Some? && g.value != [] {
      var j :| 0 <= j <= |s| && MatchTxHash(s, j).Some? && MatchTxHash(s, j).value.group == g.value;
      HashIsOneLine(s, j);
    }
  }

  /** The link line holds no line feed when the hash holds none. */
  lemma TxLinkLineIsOneLine(hash: string)
    requires AllIn(hash, NotLineFeed)
    ensures AllIn(TxLinkLine(hash), NotLineFeed)
  {
    var pre := "Transaction: [" + LINK_TEXT + "](" + TX_URL;
    assert AllIn(pre, NotLineFeed) && AllIn(")", NotLineFeed);
    AllInConcat(pre, hash);
    AllInConcat(pre + hash, ")");
  }

  /** The transaction lines split into the action's lines and then the link line. */
  lemma TxLinesSplit(action: string, hash: string)
    requires AllIn(hash, NotLineFeed)
    ensures Lines(JoinLines(TxLines(action, hash))) == Lines(action + ".") + [TxLinkLine(hash)]
  {
    var ls := TxLines(action, hash);
    TxLinkLineIsOneLine(hash);
    assert JoinLines(ls) == ls[0] + "\n" + JoinLines(ls[1..]);
    assert JoinLines(ls[1..]) == ls[1];
    LinesSnoc(ls[0], ls[1]);
  }

  /**
   * A reply that mentions `0x` but not `Wallet Details` ends with the link
   * line; what comes before it is the action and its full stop, which spans
   * more than one line exactly when the captured action does.
   */
  lemma TxBlockLines(s: string)
    requires !Contains(s, "Wallet Details") && Contains(s, "0x")
    ensures Lines(ShapeReply(s)) == Lines(Capture(MatchAction, s, "Transaction completed") + ".") + [TxLinkLine(Capture(MatchTxHash, s, ""))]
  {
    HashCaptureIsOneLine(s);
    TxLinesSplit(Capture(MatchAction, s, "Transaction completed"), Capture(MatchTxHash, s, ""));
  }

  /** A piece without line feeds is its own only line. */
  lemma OneLine(t: string)
    requires AllIn(t, NotLineFeed)
    ensures Lines(t) == [t]
  {
    RunEndOf(t, 0, t, NotLineFeed);
    assert t[..|t|] == t;
  }

  /** When the captured action stays on one line, the transaction block is exactly two lines. */
  lemma TxBlockTwoLines(s: string)
    requires !Contains(s, "Wallet Details") && Contains(s, "0x")
    requires AllIn(Capture(MatchAction, s, "Transaction completed"), NotLineFeed)
    ensures Lines(ShapeReply(s)) == TxLines(Capture(MatchAction, s, "Transaction completed"), Capture(MatchTxHash, s, ""))
  {
    var action := Capture(MatchAction, s, "Transaction completed");
    TxBlockLines(s);
    assert AllIn(".", NotLineFeed);
    AllInConcat(action, ".");
    OneLine(action + ".");
  }

  /** The link carries the first `0x`-and-64-hex-digits run, in either case, cut to its first 66 characters. */
  lemma TxHashIsFirst(s: string, j: nat)
    requires !Contains(s, "Wallet Details") && Contains(s, "0x")
    requires HashAt(s, j) && forall i :: 0 <= i < j ==> !HashAt(s, i)
    ensures var ls := Lines(ShapeReply(s)); ls[|ls| - 1] == TxLinkLine(s[j..j + HASH_LENGTH])
  {
    TxBlockLines(s);
    FirstGroupAt(MatchTxHash, s, j);
  }

  /** Without a hash, the link is left without one. */
  lemma TxWithoutHash(s: string)
    requires !Contains(s, "Wallet Details") && Contains(s, "0x")
    requires forall i :: 0 <= i <= |s| ==> !HashAt(s, i)
    ensures var ls := Lines(ShapeReply(s)); ls[|ls| - 1] == TxLinkLine("")
  {
    TxBlockLines(s);
  }

  /** Without `Successfully` and a following action, the block is the default action and the link. */
  lemma TxWithoutAction(s: string)
    requires !Contains(s, "Wallet Details") && Contains(s, "0x")
    requires NoMatchFrom(MatchAction, s, 0)
    ensures Lines(ShapeReply(s)) == ["Transaction completed.", TxLinkLine(Capture(MatchTxHash, s, ""))]
  {
    CaptureDefault(MatchAction, s, "Transaction completed");
    TxBlockLines(s);
    assert Lines(ShapeReply(s)) == Lines("Transaction completed" + ".") + [TxLinkLine(Capture(MatchTxHash, s, ""))];
    DefaultActionLine();
  }

  /** The default action and its full stop are one line. */
  lemma DefaultActionLine()
    ensures Lines("Transaction completed" + ".") == ["Transaction completed."]
  {
    var t := "Transaction completed" + ".";
    assert t == "Transaction completed.";
    assert AllIn(t, NotLineFeed);
    OneLine(t);
  }

  /** A reply that mentions neither `Wallet Details` nor `0x` is passed through unchanged. */
  lemma OtherRepliesUnchanged(s: string)
    requires !Contains(s, "Wallet Details") && !Contains(s, "0x")
    ensures ShapeReply(s) == s
  {
  }

  // ---------------------------------------------------------------------------
  // /start-demo

  /** Without an initialised agent, the demo is refused with 503 and nothing is streamed. */
  lemma DemoRefusedWhenNotReady(agent: Agent)
    ensures var r := StartDemo(false, agent);
      && r.Refused? && r.status == STATUS_UNAVAILABLE
      && r.error == NOT_READY_ERROR && r.userMessage == DEMO_NOT_READY_HINT
  {
  }

  /** The bracketing of any narration: the start event, the narration unchanged, the completion event. */
  lemma BracketedShape(t: seq<Event>)
    ensures var es := Bracketed(t);
      && es[0] == Event(STARTING_MESSAGE, false)
      && es[|es| - 1] == Event(COMPLETED_MESSAGE, false)
      && es[1..|es| - 1] == t
  {
    var es := Bracketed(t);
    assert es == [Event(STARTING_MESSAGE, false)] + (t + [Event(COMPLETED_MESSAGE, false)]);
    assert es[1..|es| - 1] == t;
  }

  /** The stream is the start frame, the demo's frames and the completion frame, one after the other. */
  lemma StreamIsFramed(t: seq<Event>)
    ensures Frames(Bracketed(t)) == Frame(Event(STARTING_MESSAGE, false)) + Frames(t) + Frame(Event(COMPLETED_MESSAGE, false))
  {
    var start, done := Event(STARTING_MESSAGE, false), Event(COMPLETED_MESSAGE, false);
    FramesAround([start], t, [done]);
    FramesOne(start);
    FramesOne(done);
  }

  /** The frames of three pieces, one after the other. */
  lemma FramesAround(a: seq<Event>, t: seq<Event>, c: seq<Event>)
    ensures Frames(a + t + c) == Frames(a) + Frames(t) + Frames(c)
  {
    FramesAppend(a, t);
    FramesAppend(a + t, c);
  }

  /** One event is one frame. */
  lemma FramesOne(e: Event)
    ensures Frames([e]) == Frame(e)
  {
    assert [e][1..] == [];
  }

  /**
   * With an initialised agent, the stream reads back as the start event, the
   * demo's narration unchanged and in order, and the completion event.
   */
  lemma DemoStreamReadsBack(agent: Agent)
    ensures var r := StartDemo(true, agent);
      && r.Streamed? && r.status == STATUS_OK
      && DecodeFrames(r.stream).Some?
      && DecodeFrames(r.stream).value == Bracketed(Trace(RunDemo(agent, DEMO_DELAY)))
  {
    DecodeFramesOfFrames(Bracketed(Trace(RunDemo(agent, DEMO_DELAY))));
  }

  /**
   * `Demo completed!` follows whatever ended the demo: the refusal for an
   * insufficient balance, the success message, or a caught error.
   */
  lemma CompletedAfterAnyEnding(agent: Agent)
    ensures var es := Bracketed(Trace(RunDemo(agent, DEMO_DELAY)));
      && |es| >= 3
      && es[|es| - 1] == Event(COMPLETED_MESSAGE, false)
      && !es[|es| - 2].isUser
      && (es[|es| - 2].text == INSUFFICIENT_MESSAGE || es[|es| - 2].text == SUCCESS_MESSAGE || IsFailureText(es[|es| - 2].text))
  {
    var log := RunDemo(agent, DEMO_DELAY);
    assert log == RunSequence(agent, ExtractBalance, FormatTransactionLink, DEMO_DELAY);
    CompletedAfterSequence(agent, ExtractBalance, FormatTransactionLink, DEMO_DELAY);
  }

  /** The same for any balance reader, link formatter and delay. */
  lemma CompletedAfterSequence(agent: Agent, extract: string -> nat, format: string -> string, delay: nat)
    ensures var es := Bracketed(Trace(RunSequence(agent, extract, format, delay)));
      && |es| >= 3
      && es[|es| - 1] == Event(COMPLETED_MESSAGE, false)
      && !es[|es| - 2].isUser
      && (es[|es| - 2].text == INSUFFICIENT_MESSAGE || es[|es| - 2].text == SUCCESS_MESSAGE || IsFailureText(es[|es| - 2].text))
  {
    var t := Trace(RunSequence(agent, extract, format, delay));
    AlwaysTerminal(agent, extract, format, delay);
    TerminalThenCompleted(t);
  }

  /** A narration that ends on the refusal, the success message or an error is followed by the completion event. */
  lemma TerminalThenCompleted(t: seq<Event>)
    requires |t| > 0 && !t[|t| - 1].isUser
    requires var x := t[|t| - 1].text; x == INSUFFICIENT_MESSAGE || x == SUCCESS_MESSAGE || IsFailureText(x)
    ensures var es := Bracketed(t);
      && |es| >= 3
      && es[|es| - 1] == Event(COMPLETED_MESSAGE, false)
      && !es[|es| - 2].isUser
      && (es[|es| - 2].text == INSUFFICIENT_MESSAGE || es[|es| - 2].text == SUCCESS_MESSAGE || IsFailureText(es[|es| - 2].text))
  {
    EndsBeforeCompletion(t);
  }

  /** The event before the completion event is the narration's last. */
  lemma EndsBeforeCompletion(t: seq<Event>)
    requires |t| > 0
    ensures var es := Bracketed(t);
      |es| >= 3 && es[|es| - 1] == Event(COMPLETED_MESSAGE, false) && es[|es| - 2] == t[|t| - 1]
  {
    var es := Bracketed(t);
    assert es == ([Event(STARTING_MESSAGE, false)] + t) + [Event(COMPLETED_MESSAGE, false)];
  }
}
