/** Properties of `extractBalance` and `formatTransactionLink`. */
module ExtractorProps {
  import opened Wrappers
  import opened Scan
  import opened Patterns
  import opened Decimals
  import opened PatternProps
  import opened DemoLogic

  /** 0.0002 ether is the demo's `REQUIRED_BALANCE` in wei. */
  lemma RequiredBalanceInWei()
    ensures Wei(Decimal("0", "0002")) == REQUIRED_BALANCE
  {
    assert DigitsValue("0") == 0;
    assert DigitsValue("0002") == 2 by {
      assert "0002"[..3] == "000";
      assert "000"[..2] == "00";
      assert "00"[..1] == "0";
      assert "0"[..0] == "";
    }
    assert Pow10(14) == 100000000000000;
  }

  /**
   * The balance is read from the first place where a tag (in any case) is
   * followed by optional white space and a number; the number is converted
   * exactly to wei.
   */
  lemma BalanceFromFirstLabel(prefix: string, tag: string, ws: string, num: string, rest: string, d: Decimal)
    requires IsBalanceTag(tag)
    requires AllIn(ws, Space)
    requires |num| > 0 && AllIn(num, DecimalChar)
    requires rest == [] || !In(rest[0], DecimalChar)
    requires ParseDecimal(num) == Some(d)
    requires forall j :: 0 <= j < |prefix| ==> MatchBalance(prefix + tag + ws + num + rest, j).None?
    ensures ExtractBalance(prefix + tag + ws + num + rest) == Wei(d)
  {
    BalanceGroupAfter(prefix, tag, ws, num, rest);
  }

  /**
   * The demo's threshold is read exactly: wherever the first tag followed by
   * a number stands, either label in any case, then white space, then
   * `0.0002`, is 200000000000000 wei.
   */
  lemma RequiredBalanceReadExactly(prefix: string, tag: string, ws: string, rest: string)
    requires IsBalanceTag(tag)
    requires AllIn(ws, Space)
    requires rest == [] || !In(rest[0], DecimalChar)
    requires forall j :: 0 <= j < |prefix| ==> MatchBalance(prefix + tag + ws + "0.0002" + rest, j).None?
    ensures ExtractBalance(prefix + tag + ws + "0.0002" + rest) == REQUIRED_BALANCE
  {
    var d := ThresholdParses();
    BalanceFromFirstLabel(prefix, tag, ws, "0.0002", rest, d);
  }

  /** `0.0002` parses to the decimal whose wei value is the threshold. */
  lemma ThresholdParses() returns (d: Decimal)
    ensures ParseDecimal("0.0002") == Some(d) && Wei(d) == REQUIRED_BALANCE
  {
    d := Decimal("0", "0002");
    ParseDecimalOfLiteral("0", "0002", []);
    assert "0" + "." + "0002" + [] == "0.0002";
    RequiredBalanceInWei();
  }

  /** Text without either tag, in any case, has balance 0: the gate then fails closed. */
  lemma NoLabelMeansZero(s: string)
    requires forall j :: 0 <= j <= |s| ==> !AtFold(s, j, "Native Balance:") && !AtFold(s, j, "ETH Balance:")
    ensures ExtractBalance(s) == 0
  {
    forall j | 0 <= j <= |s| ensures MatchBalance(s, j).None? {
      assert BalanceLabelEnd(s, j).None?;
    }
  }

  /**
   * When the first tag followed by a number is followed only by a dot, the
   * balance is 0, as `parseFloat(".")` is NaN.
   */
  lemma LoneDotMeansZero(prefix: string, tag: string, ws: string, rest: string)
    requires IsBalanceTag(tag)
    requires AllIn(ws, Space)
    requires rest == [] || !In(rest[0], DecimalChar)
    requires forall j :: 0 <= j < |prefix| ==> MatchBalance(prefix + tag + ws + "." + rest, j).None?
    ensures ExtractBalance(prefix + tag + ws + "." + rest) == 0
  {
    assert ParseDecimal(".").None?;
    BalanceGroupAfter(prefix, tag, ws, ".", rest);
  }

  /** Without any tag (in any case), the text is only trimmed: untagged hashes stay as they are. */
  lemma NoLabelNoRewrite(s: string)
    requires forall j :: 0 <= j <= |s| ==> TxLabelEnd(s, j).None?
    ensures FormatTransactionLink(s) == Trim(s)
  {
  }

  /** The explorer link's leading line break is what the final trim removes. */
  lemma LinkTrims(h: string)
    ensures Trim(ExplorerLink(h)) == ExplorerLink(h)[1..]
  {
    LinkEnds(h);
    TrimFirst(ExplorerLink(h));
  }

  /** An explorer link starts with a line break and `T` and ends with `)`. */
  lemma LinkEnds(h: string)
    ensures var t := ExplorerLink(h);
      |t| >= 2 && t[0] == '\n' && t[1] == 'T' && t[|t| - 1] == ')'
  {
    var t := ExplorerLink(h);
    assert t == "\nTransaction: " + ("[" + LINK_TEXT + "](" + TX_URL + h + ")");
  }

  /** One tagged hash and nothing else becomes the link line alone. */
  lemma SingleHashBecomesLink(tag: string, gap: string, h: string)
    requires IsTxTag(tag) && AllIn(gap, Space) && IsTxHash(h)
    ensures FormatTransactionLink(tag + gap + h) == ExplorerLink(h)[1..]
  {
    OneTaggedHash(ExplorerLink, tag, gap, h);
    LinkTrims(h);
  }


  /**
   * The rewrite is global: two tagged hashes, apart by one character that is
   * not a word character, both become links that keep their hash characters.
   */
  lemma EveryLabelledHashRewritten(t1: string, g1: string, h1: string, c: char, t2: string, g2: string, h2: string)
    requires IsTxTag(t1) && AllIn(g1, Space) && IsTxHash(h1)
    requires !IsWordChar(c)
    requires IsTxTag(t2) && AllIn(g2, Space) && IsTxHash(h2)
    ensures FormatTransactionLink((t1 + g1 + h1) + [c] + (t2 + g2 + h2))
         == ExplorerLink(h1)[1..] + ([c] + ExplorerLink(h2))
  {
    var u1, u2 := t1 + g1 + h1, t2 + g2 + h2;
    var s := u1 + [c] + u2;
    TwoTaggedHashes(ExplorerLink, s, u1, c, u2, t1, g1, h1, t2, g2, h2);
    FormatOfReplaced(s);
    LinkThenMore(ExplorerLink(h1), c, ExplorerLink(h2), h1, h2);
  }

  /** `formatTransactionLink` trims what the global replacement gives. */
  lemma FormatOfReplaced(s: string)
    ensures Advancing(MatchLabelledHash)
    ensures FormatTransactionLink(s) == Trim(ReplaceFrom(MatchLabelledHash, ExplorerLink, s, 0))
  {
    LabelledHashAdvances();
  }

  /** Trimming a link, one character and another link drops only the first line break. */
  lemma LinkThenMore(l1: string, c: char, l2: string, h1: string, h2: string)
    requires l1 == ExplorerLink(h1) && l2 == ExplorerLink(h2)
    ensures Trim(l1 + ([c] + l2)) == l1[1..] + ([c] + l2)
  {
    LinkEnds(h1);
    LinkEnds(h2);
    var t := l1 + ([c] + l2);
    assert t[0] == l1[0] && t[1] == l1[1];
    assert t[|t| - 1] == l2[|l2| - 1];
    TrimFirst(t);
    assert t[1..] == l1[1..] + ([c] + l2);
  }
}
