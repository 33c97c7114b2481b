/**
 * Facts about single matches of the balance and labelled-hash patterns, and
 * about the global replacement on texts that hold one or two labelled hashes.
 */
module PatternProps {
  import opened Wrappers
  import opened Scan
  import opened Patterns

  // ---------------------------------------------------------------------------
  // Balance tags

  /** `Native Balance:` or `ETH Balance:`, letters in any case. */
  predicate IsBalanceTag(tag: string) {
    || (|tag| == 15 && AtFold(tag, 0, "Native Balance:"))
    || (|tag| == 12 && AtFold(tag, 0, "ETH Balance:"))
  }

  /** A balance tag at `p` is recognised and ends where the tag ends. */
  lemma BalanceTagAt(s: string, p: nat, tag: string)
    requires IsBalanceTag(tag) && At(s, p, tag)
    ensures BalanceLabelEnd(s, p).Some? && BalanceLabelEnd(s, p).value == p + |tag|
  {
    assert s[p] == tag[0];
    if |tag| == 15 && AtFold(tag, 0, "Native Balance:") {
      AtFoldAt(s, p, tag, "Native Balance:");
    } else {
      AtFoldAt(s, p, tag, "ETH Balance:");
      assert Lower(tag[0]) == Lower("ETH Balance:"[0]) == 'e';
      assert Lower("Native Balance:"[0]) == 'n';
    }
  }

  /** `\s*([cls]+)` reads the white space `ws` and then exactly the run `num`. */
  lemma RunAfterOf(s: string, l: nat, ws: string, num: string, cls: CharClass)
    requires At(s, l, ws + num) && AllIn(ws, Space)
    requires |num| > 0 && AllIn(num, cls) && !IsSpace(num[0])
    requires l + |ws| + |num| == |s| || !In(s[l + |ws| + |num|], cls)
    ensures RunAfter(s, l, cls).Some?
    ensures RunAfter(s, l, cls).value.end == l + |ws| + |num| && RunAfter(s, l, cls).value.group == num
  {
    AtConcat(s, l, ws, num);
    assert s[l + |ws|] == num[0];
    RunEndOf(s, l, ws, Space);
    RunEndOf(s, l + |ws|, num, cls);
  }

  /** The group `extractBalance` reads is the number after the first tag followed by one. */
  lemma BalanceGroupAfter(prefix: string, tag: string, ws: string, num: string, rest: string)
    requires IsBalanceTag(tag)
    requires AllIn(ws, Space)
    requires |num| > 0 && AllIn(num, DecimalChar)
    requires rest == [] || !In(rest[0], DecimalChar)
    requires forall j :: 0 <= j < |prefix| ==> MatchBalance(prefix + tag + ws + num + rest, j).None?
    ensures FirstGroup(MatchBalance, prefix + tag + ws + num + rest).Some?
    ensures FirstGroup(MatchBalance, prefix + tag + ws + num + rest).value == num
  {
    var s := prefix + tag + ws + num + rest;
    var p := |prefix|;
    var e := p + |tag| + |ws| + |num|;
    assert s[p..e] == tag + (ws + num);
    AtConcat(s, p, tag, ws + num);
    BalanceTagAt(s, p, tag);
    if rest != [] {
      assert s[e] == rest[0];
    }
    assert In(num[0], DecimalChar);
    RunAfterOf(s, p + |tag|, ws, num, DecimalChar);
    LeftmostIsFirst(MatchBalance, s, 0, p);
  }

  /** The tags as written are tags. */
  lemma TagsAreTags()
    ensures IsBalanceTag("Native Balance:") && IsBalanceTag("ETH Balance:")
    ensures IsTxTag("Transaction:") && IsTxTag("transaction hash:") && IsTxTag("hash:")
  {
  }

  // ---------------------------------------------------------------------------
  // Labelled hashes

  /** A transaction hash as the patterns accept it: `0x` or `0X` and 64 hex digits of either case. */
  predicate IsTxHash(h: string) {
    |h| == HASH_LENGTH && HashAt(h, 0)
  }

  /** `Transaction:`, `transaction hash:` or `hash:`, letters in any case. */
  predicate IsTxTag(tag: string) {
    || (|tag| == 12 && AtFold(tag, 0, "Transaction:"))
    || (|tag| == 17 && AtFold(tag, 0, "transaction hash:"))
    || (|tag| == 5 && AtFold(tag, 0, "hash:"))
  }

  /** A transaction tag at `p` is recognised and ends where the tag ends. */
  lemma TxTagAt(s: string, p: nat, tag: string)
    requires IsTxTag(tag) && At(s, p, tag)
    ensures TxLabelEnd(s, p).Some? && TxLabelEnd(s, p).value == p + |tag|
  {
    assert s[p] == tag[0];
    if |tag| == 12 && AtFold(tag, 0, "Transaction:") {
      AtFoldAt(s, p, tag, "Transaction:");
    } else if |tag| == 17 && AtFold(tag, 0, "transaction hash:") {
      AtFoldAt(s, p, tag, "transaction hash:");
      // the two longer tags part at their twelfth character
      assert s[p + 11] == tag[11];
      assert Lower(tag[11]) == Lower("transaction hash:"[11]) == ' ';
      assert Lower("Transaction:"[11]) == ':';
    } else {
      AtFoldAt(s, p, tag, "hash:");
      assert Lower(tag[0]) == Lower("hash:"[0]) == 'h';
      assert Lower("Transaction:"[0]) == 't' && Lower("transaction hash:"[0]) == 't';
    }
  }

  /** Every tag ends in a colon, which is not a word character. */
  lemma TxTagEndsInColon(tag: string)
    requires IsTxTag(tag)
    ensures !IsWordChar(tag[|tag| - 1])
  {
    if |tag| == 12 && AtFold(tag, 0, "Transaction:") {
      assert Lower(tag[11]) == Lower("Transaction:"[11]);
    } else if |tag| == 17 && AtFold(tag, 0, "transaction hash:") {
      assert Lower(tag[16]) == Lower("transaction hash:"[16]);
    } else {
      assert Lower(tag[4]) == Lower("hash:"[4]);
    }
  }

  /** A hash written at `a` is a hash at `a`. */
  lemma HashAtOf(s: string, a: nat, h: string)
    requires At(s, a, h) && IsTxHash(h)
    ensures HashAt(s, a)
  {
    assert forall k :: 0 <= k < HASH_LENGTH ==> s[a + k] == h[k];
  }

  /** The match of a hash tagged `tag` plus `gap` white space at position `p` of `s`. */
  lemma LabelledHashAt(s: string, p: nat, tag: string, gap: string, h: string)
    requires IsTxTag(tag)
    requires AllIn(gap, Space)
    requires IsTxHash(h)
    requires At(s, p, tag + gap + h)
    requires p + |tag| + |gap| + HASH_LENGTH == |s| || !IsWordChar(s[p + |tag| + |gap| + HASH_LENGTH])
    ensures MatchLabelledHash(s, p).Some?
    ensures MatchLabelledHash(s, p).value.end == p + |tag| + |gap| + HASH_LENGTH
    ensures MatchLabelledHash(s, p).value.group == h
  {
    assert tag + gap + h == tag + (gap + h);
    AtConcat(s, p, tag, gap + h);
    TxTagAt(s, p, tag);
    AtIndex(s, p, tag, |tag| - 1);
    TxTagEndsInColon(tag);
    HashAfterTag(s, p, p + |tag|, gap, h);
  }

  /** The hash part of `LabelledHashAt`, once the tag is known to end at `l` with a colon. */
  lemma HashAfterTag(s: string, p: nat, l: nat, gap: string, h: string)
    requires TxLabelEnd(s, p).Some? && TxLabelEnd(s, p).value == l
    requires 0 < l && !IsWordChar(s[l - 1])
    requires AllIn(gap, Space) && IsTxHash(h)
    requires At(s, l, gap + h)
    requires l + |gap| + HASH_LENGTH == |s| || !IsWordChar(s[l + |gap| + HASH_LENGTH])
    ensures MatchLabelledHash(s, p).Some?
    ensures MatchLabelledHash(s, p).value.end == l + |gap| + HASH_LENGTH
    ensures MatchLabelledHash(s, p).value.group == h
  {
    AtConcat(s, l, gap, h);
    var a := l + |gap|;
    AtIndex(s, a, h, 0);
    GapThenWord(s, l, gap, h[0]);
    HashAtOf(s, a, h);
    AtIndex(s, a, h, HASH_LENGTH - 1);
    assert WordBoundary(s, a + HASH_LENGTH);
    assert s[a..a + HASH_LENGTH] == h;
    MatchLabelledHashOf(s, p, l, a);
  }


  /** Unfolding the labelled-hash pattern at `i` once its parts are known. */
  lemma MatchLabelledHashOf(s: string, i: nat, l: nat, a: nat)
    requires TxLabelEnd(s, i).Some? && TxLabelEnd(s, i).value == l
    requires l <= |s| && RunEnd(s, l, Space) == a
    requires HashAt(s, a) && WordBoundary(s, a) && WordBoundary(s, a + HASH_LENGTH)
    ensures MatchLabelledHash(s, i).Some?
    ensures MatchLabelledHash(s, i).value.end == a + HASH_LENGTH
    ensures MatchLabelledHash(s, i).value.group == s[a..a + HASH_LENGTH]
  {
  }

  /**
   * White space `gap` at `l`, after a non-word character, then a word
   * character `c`: `\s*` takes the whole gap and `\b` holds before `c`.
   */
  lemma GapThenWord(s: string, l: nat, gap: string, c: char)
    requires At(s, l, gap) && AllIn(gap, Space)
    requires l > 0 && !IsWordChar(s[l - 1])
    requires l + |gap| < |s| && s[l + |gap|] == c && IsWordChar(c)
    ensures RunEnd(s, l, Space) == l + |gap|
    ensures WordBoundary(s, l + |gap|)
  {
    var a := l + |gap|;
    SpaceIsNotWord(c);
    assert !In(s[a], Space);
    RunEndOf(s, l, gap, Space);
    if |gap| > 0 {
      AtIndex(s, l, gap, |gap| - 1);
      assert In(gap[|gap| - 1], Space);
      SpaceIsNotWord(s[a - 1]);
    }
  }

  /** What a labelled-hash match consists of: a tag (any case) that the white space and the hash follow. */
  lemma LabelledHashShape(s: string, i: nat)
    requires i <= |s|
    requires MatchLabelledHash(s, i).Some?
    ensures var m := MatchLabelledHash(s, i).value;
      var l := TxLabelEnd(s, i).value;
      && IsTxTag(s[i..l])
      && l + HASH_LENGTH <= m.end
      && AllIn(s[l..m.end - HASH_LENGTH], Space)
      && m.group == s[m.end - HASH_LENGTH..m.end]
      && IsTxHash(m.group)
      && (m.end == |s| || !IsWordChar(s[m.end]))
  {
    TxTagShape(s, i);
    var m := MatchLabelledHash(s, i).value;
    var l := TxLabelEnd(s, i).value;
    var a := RunEnd(s, l, Space);
    assert m.end == a + HASH_LENGTH;
    assert forall k :: 0 <= k < HASH_LENGTH ==> m.group[k] == s[a + k];
    assert IsWordChar(s[m.end - 1]);
  }

  /** The text a recognised tag spans is a tag. */
  lemma TxTagShape(s: string, i: nat)
    requires TxLabelEnd(s, i).Some?
    ensures IsTxTag(s[i..TxLabelEnd(s, i).value])
  {
    var t := s[i..TxLabelEnd(s, i).value];
    assert forall k :: 0 <= k < |t| ==> t[k] == s[i + k];
  }

  /** A tagged hex run of 65 digits or more is not a hash: nothing matches at its tag. */
  lemma LongHexRunNotRewritten(s: string, i: nat)
    requires i <= |s|
    requires TxLabelEnd(s, i).Some?
    requires var a := RunEnd(s, TxLabelEnd(s, i).value, Space);
      a + HASH_LENGTH < |s| && IsHexDigit(s[a + HASH_LENGTH])
    ensures MatchLabelledHash(s, i).None?
  {
  }

  /** No tag starts at a character that is not a word character. */
  lemma NoTagBeforeNonWord(s: string, i: nat)
    requires i < |s| && !IsWordChar(s[i])
    ensures MatchLabelledHash(s, i).None?
  {
    assert Lower(s[i]) == s[i];
    assert Lower("Transaction:"[0]) == 't' && Lower("transaction hash:"[0]) == 't' && Lower("hash:"[0]) == 'h';
    assert TxLabelEnd(s, i).None?;
  }

  /** A text that is one match, one unmatched character and one match to its end. */
  lemma ReplaceTwoMatches(p: Matcher, repl: string -> string, s: string, m1: Match, m2: Match)
    requires Advancing(p)
    requires p(s, 0).Some? && p(s, 0).value == m1
    requires m1.end < |s| && p(s, m1.end).None?
    requires p(s, m1.end + 1).Some? && p(s, m1.end + 1).value == m2 && m2.end == |s|
    ensures ReplaceFrom(p, repl, s, 0) == repl(m1.group) + ([s[m1.end]] + repl(m2.group))
  {
    var r2 := ReplaceFrom(p, repl, s, m1.end + 1);
    assert r2 == repl(m2.group) + ReplaceFrom(p, repl, s, |s|);
    assert r2 == repl(m2.group);
    assert ReplaceFrom(p, repl, s, m1.end) == [s[m1.end]] + r2;
  }

  /** Replacing in a text that is one tagged hash: the whole text becomes `repl` of the hash. */
  lemma OneTaggedHash(repl: string -> string, tag: string, gap: string, h: string)
    requires IsTxTag(tag) && AllIn(gap, Space) && IsTxHash(h)
    ensures Advancing(MatchLabelledHash)
    ensures ReplaceFrom(MatchLabelledHash, repl, tag + gap + h, 0) == repl(h)
  {
    LabelledHashAdvances();
    var s := tag + gap + h;
    assert At(s, 0, tag + gap + h);
    LabelledHashAt(s, 0, tag, gap, h);
    assert ReplaceFrom(MatchLabelledHash, repl, s, 0) == repl(h) + ReplaceFrom(MatchLabelledHash, repl, s, |s|);
  }

  /**
   * Replacing in a text of two tagged hashes apart by one character that is
   * not a word character: both hashes are replaced and the character is kept.
   */
  lemma TwoTaggedHashes(repl: string -> string, s: string, u1: string, c: char, u2: string,
                        t1: string, g1: string, h1: string, t2: string, g2: string, h2: string)
    requires IsTxTag(t1) && AllIn(g1, Space) && IsTxHash(h1)
    requires !IsWordChar(c)
    requires IsTxTag(t2) && AllIn(g2, Space) && IsTxHash(h2)
    requires u1 == t1 + g1 + h1 && u2 == t2 + g2 + h2 && s == u1 + [c] + u2
    ensures Advancing(MatchLabelledHash)
    ensures ReplaceFrom(MatchLabelledHash, repl, s, 0) == repl(h1) + ([c] + repl(h2))
  {
    FirstOfTwo(s, u1, c, u2, t1, g1, h1);
    SecondOfTwo(s, u1, c, u2, t2, g2, h2);
    LabelledHashTwice(repl, s, |u1|, h1, h2);
  }

  /** The replacement over a text the labelled-hash pattern matches twice, apart by one character. */
  lemma LabelledHashTwice(repl: string -> string, s: string, e1: nat, h1: string, h2: string)
    requires MatchLabelledHash(s, 0).Some?
    requires MatchLabelledHash(s, 0).value.end == e1 && MatchLabelledHash(s, 0).value.group == h1
    requires e1 < |s| && MatchLabelledHash(s, e1).None?
    requires MatchLabelledHash(s, e1 + 1).Some?
    requires MatchLabelledHash(s, e1 + 1).value.end == |s| && MatchLabelledHash(s, e1 + 1).value.group == h2
    ensures Advancing(MatchLabelledHash)
    ensures ReplaceFrom(MatchLabelledHash, repl, s, 0) == repl(h1) + ([s[e1]] + repl(h2))
  {
    LabelledHashAdvances();
    var m1, m2 := MatchLabelledHash(s, 0).value, MatchLabelledHash(s, e1 + 1).value;
    ReplaceTwoMatches(MatchLabelledHash, repl, s, m1, m2);
  }

  /** The first of two tagged hashes is the match at 0, and none starts at the separator. */
  lemma FirstOfTwo(s: string, u1: string, c: char, u2: string, t1: string, g1: string, h1: string)
    requires IsTxTag(t1) && AllIn(g1, Space) && IsTxHash(h1)
    requires !IsWordChar(c)
    requires u1 == t1 + g1 + h1 && s == u1 + [c] + u2
    ensures |u1| < |s| && s[|u1|] == c
    ensures MatchLabelledHash(s, 0).Some?
    ensures MatchLabelledHash(s, 0).value.end == |u1| && MatchLabelledHash(s, 0).value.group == h1
    ensures MatchLabelledHash(s, |u1|).None?
  {
    assert s[0..|u1|] == u1;
    assert s[|u1|] == c;
    LabelledHashAt(s, 0, t1, g1, h1);
    NoTagBeforeNonWord(s, |u1|);
  }

  /** The second of two tagged hashes is the match after the separator, up to the end. */
  lemma SecondOfTwo(s: string, u1: string, c: char, u2: string, t2: string, g2: string, h2: string)
    requires IsTxTag(t2) && AllIn(g2, Space) && IsTxHash(h2)
    requires u2 == t2 + g2 + h2 && s == u1 + [c] + u2
    ensures MatchLabelledHash(s, |u1| + 1).Some?
    ensures MatchLabelledHash(s, |u1| + 1).value.end == |s| && MatchLabelledHash(s, |u1| + 1).value.group == h2
  {
    assert s[|u1| + 1..|s|] == u2;
    LabelledHashAt(s, |u1| + 1, t2, g2, h2);
  }

  // ---------------------------------------------------------------------------
  // The wallet-details and action patterns of the server

  /** `Address:`, white space `ws` and a whole run `addr` of address characters: the match reads exactly `addr`. */
  lemma AddressAt(s: string, p: nat, ws: string, addr: string)
    requires At(s, p, "Address:") && At(s, p + 8, ws + addr) && AllIn(ws, Space)
    requires |addr| > 0 && AllIn(addr, AddressChar)
    requires p + 8 + |ws| + |addr| == |s| || !In(s[p + 8 + |ws| + |addr|], AddressChar)
    ensures MatchAddress(s, p) == Some(Match(p + 8 + |ws| + |addr|, addr))
  {
    assert In(addr[0], AddressChar);
    RunAfterOf(s, p + 8, ws, addr, AddressChar);
  }

  /** `ETH Balance:`, white space `ws` and a whole run `num` of digits and dots: the match reads exactly `num`. */
  lemma EthAt(s: string, p: nat, ws: string, num: string)
    requires At(s, p, "ETH Balance:") && At(s, p + 12, ws + num) && AllIn(ws, Space)
    requires |num| > 0 && AllIn(num, DecimalChar)
    requires p + 12 + |ws| + |num| == |s| || !In(s[p + 12 + |ws| + |num|], DecimalChar)
    ensures MatchEth(s, p) == Some(Match(p + 12 + |ws| + |num|, num))
  {
    assert In(num[0], DecimalChar);
    RunAfterOf(s, p + 12, ws, num, DecimalChar);
  }

  /** Digits `num`, white space `ws` and `WEI` at `k`: `(\d+)\s*WEI` reads exactly `num`. */
  lemma WeiDigitsOf(s: string, k: nat, num: string, ws: string)
    requires At(s, k, num) && At(s, k + |num|, ws) && WeiAt(s, k + |num| + |ws|)
    requires |num| > 0 && AllIn(num, Digit) && AllIn(ws, Space)
    ensures WeiDigitsAt(s, k) == Some(Match(k + |num| + |ws| + 3, num))
  {
    var d := k + |num|;
    var w := d + |ws|;
    if ws != [] {
      AtIndex(s, d, ws, 0);
    }
    RunEndOf(s, k, num, Digit);
    RunEndOf(s, d, ws, Space);
    WeiDigitsAtRuns(s, k, num, ws);
  }

  /** `(\d+)\s*WEI` at `k`, once the digit run `num` and the white space `ws` after it are known to be whole. */
  lemma WeiDigitsAtRuns(s: string, k: nat, num: string, ws: string)
    requires |num| > 0 && At(s, k, num)
    requires RunEnd(s, k, Digit) == k + |num| && RunEnd(s, k + |num|, Space) == k + |num| + |ws|
    requires WeiAt(s, k + |num| + |ws|)
    ensures WeiDigitsAt(s, k) == Some(Match(k + |num| + |ws| + 3, num))
  {
    assert s[k..k + |num|] == num;
  }

  /** The lazy prefix stops at the first position where `(\d+)\s*WEI` succeeds. */
  lemma {:induction false} FirstWeiDigitsFound(s: string, k: nat, j: nat)
    requires FirstWeiDigits(s, k, j)
    ensures DigitsBeforeWei(s, k) == WeiDigitsAt(s, j)
    decreases j - k
  {
    if k < j {
      assert LazySkips(s, k);
      FirstWeiDigitsFound(s, k + 1, j);
    }
  }

  /**
   * `Native Balance:`, then text `mid` with no digit and no line terminator,
   * then digits `num`, white space `ws` and `WEI`, each where the one before
   * ends: the match reads exactly `num`.
   */
  lemma NativeAt(s: string, i: nat, mid: string, num: string, ws: string)
    requires At(s, i, "Native Balance:") && At(s, i + 15, mid)
    requires At(s, i + 15 + |mid|, num) && At(s, i + 15 + |mid| + |num|, ws)
    requires WeiAt(s, i + 15 + |mid| + |num| + |ws|)
    requires forall k :: 0 <= k < |mid| ==> !IsDigit(mid[k]) && !IsLineTerminator(mid[k])
    requires |num| > 0 && AllIn(num, Digit) && AllIn(ws, Space)
    ensures MatchNative(s, i) == Some(Match(i + 15 + |mid| + |num| + |ws| + 3, num))
  {
    var j := i + 15 + |mid|;
    WeiDigitsOf(s, j, num, ws);
    SkipsText(s, i + 15, mid);
    NativeAtFirst(s, i, j, Match(i + 15 + |mid| + |num| + |ws| + 3, num));
  }

  /** After the label, the native-balance match is the digits-and-`WEI` match where the lazy prefix stops. */
  lemma NativeAtFirst(s: string, i: nat, j: nat, m: Match)
    requires At(s, i, "Native Balance:") && FirstWeiDigits(s, i + 15, j) && WeiDigitsAt(s, j) == Some(m)
    ensures MatchNative(s, i) == Some(m)
  {
    FirstWeiDigitsFound(s, i + 15, j);
  }

  /** The lazy prefix grows over text with no digit and no line terminator. */
  lemma SkipsText(s: string, a: nat, mid: string)
    requires At(s, a, mid)
    requires forall k :: 0 <= k < |mid| ==> !IsDigit(mid[k]) && !IsLineTerminator(mid[k])
    ensures forall q :: a <= q < a + |mid| ==> LazySkips(s, q)
  {
    forall q | a <= q < a + |mid|
      ensures LazySkips(s, q)
    {
      AtIndex(s, a, mid, q - a);
      assert RunEnd(s, q, Digit) == q;
    }
  }

  /**
   * `Successfully` in any case, white space `ws`, then `act` up to a dot or
   * the end of the text: the match reads exactly `act`.
   */
  lemma ActionAt(s: string, i: nat, ws: string, act: string)
    requires AtFold(s, i, "Successfully") && At(s, i + 12, ws + act)
    requires |ws| > 0 && AllIn(ws, Space)
    requires |act| > 0 && AllIn(act, NotDot) && !IsSpace(act[0])
    requires i + 12 + |ws| + |act| == |s| || s[i + 12 + |ws| + |act|] == '.'
    ensures MatchAction(s, i) == Some(Match(i + 12 + |ws| + |act|, act))
  {
    AtConcat(s, i + 12, ws, act);
    assert s[i + 12 + |ws|] == act[0];
    RunEndOf(s, i + 12, ws, Space);
    RunEndOf(s, i + 12 + |ws|, act, NotDot);
  }

  /**
   * `Successfully` followed by two or more white-space characters and then a
   * dot or the end of the text: `\s+` gives back its last character, which
   * becomes the whole group.
   */
  lemma ActionBacktracks(s: string, i: nat, ws: string)
    requires AtFold(s, i, "Successfully") && At(s, i + 12, ws)
    requires |ws| >= 2 && AllIn(ws, Space)
    requires i + 12 + |ws| == |s| || s[i + 12 + |ws|] == '.'
    ensures MatchAction(s, i) == Some(Match(i + 12 + |ws|, [ws[|ws| - 1]]))
  {
    var w := i + 12 + |ws|;
    RunEndOf(s, i + 12, ws, Space);
    AtIndex(s, i + 12, ws, |ws| - 1);
    assert s[w - 1] != '.';
    RunEndOf(s, w - 1, [ws[|ws| - 1]], NotDot);
    assert s[w - 1..w] == [ws[|ws| - 1]];
  }
}
