/**
 * Character classes and scanning primitives of ECMAScript regular expressions
 * (without the `u` flag), as the server's patterns use them.
 */
module Scan {

  /** The character classes that appear in the server's patterns. */
  datatype CharClass =
    | Space        // `\s`
    | Digit        // `\d`
    | DecimalChar  // `[\d.]`
    | HexDigit     // `[a-f0-9]` under the `i` flag
    | AddressChar  // `[0-9a-fA-Fx]`
    | NotDot       // `[^.]`
    | NotLineFeed  // anything but U+000A, where `join('\n')` cuts lines

  /** ECMAScript WhiteSpace or LineTerminator: what `\s` matches and `trim()` strips. */
  predicate IsSpace(c: char) {
    || c == '\t' || c == '\n' || c == '\U{000B}' || c == '\U{000C}' || c == '\r'
    || c == ' ' || c == '\U{00A0}' || c == '\U{1680}'
    || ('\U{2000}' <= c <= '\U{200A}')
    || c == '\U{2028}' || c == '\U{2029}' || c == '\U{202F}' || c == '\U{205F}'
    || c == '\U{3000}' || c == '\U{FEFF}'
  }

  predicate IsDigit(c: char) {
    '0' <= c <= '9'
  }

  /** `[a-f0-9]` with the `i` flag: upper-case hex letters match too. */
  predicate IsHexDigit(c: char) {
    IsDigit(c) || 'a' <= c <= 'f' || 'A' <= c <= 'F'
  }

  /** The characters `\b` counts as word characters. */
  predicate IsWordChar(c: char) {
    IsDigit(c) || 'a' <= c <= 'z' || 'A' <= c <= 'Z' || c == '_'
  }

  /** The characters `.` refuses without the `s` flag. */
  predicate IsLineTerminator(c: char) {
    c == '\n' || c == '\r' || c == '\U{2028}' || c == '\U{2029}'
  }

  /** White space and word characters are disjoint. */
  lemma SpaceIsNotWord(c: char)
    ensures IsSpace(c) ==> !IsWordChar(c)
  {
  }

  predicate In(c: char, cls: CharClass) {
    match cls
    case Space => IsSpace(c)
    case Digit => IsDigit(c)
    case DecimalChar => IsDigit(c) || c == '.'
    case HexDigit => IsHexDigit(c)
    case AddressChar => IsDigit(c) || 'a' <= c <= 'f' || 'A' <= c <= 'F' || c == 'x'
    case NotDot => c != '.'
    case NotLineFeed => c != '\n'
  }

  /**
   * Case folding of the `i` flag without `u`, as far as it matters against
   * ASCII pattern text: a character that is not ASCII never folds onto an
   * ASCII one, so comparing with an ASCII pattern character only needs
   * `A`-`Z` folded. Non-ASCII case pairs are left unfolded.
   */
  function Lower(c: char): (l: char)
    ensures 'A' <= c <= 'Z' ==> 'a' <= l <= 'z' && l as int - c as int == 32
    ensures !('A' <= c <= 'Z') ==> l == c
  {
    if 'A' <= c <= 'Z' then (c as int + 32) as char else c
  }

  /**
   * Two characters compare equal under `Lower` exactly when they are equal or
   * are the same ASCII letter in the two cases; when `b` is an ASCII pattern
   * character, this is the comparison the `i` flag makes.
   */
  lemma LowerEqual(a: char, b: char)
    ensures Lower(a) == Lower(b) <==>
      || a == b
      || ('A' <= a <= 'Z' && b as int == a as int + 32)
      || ('A' <= b <= 'Z' && a as int == b as int + 32)
  {
  }

  /** A non-ASCII character of the text never compares equal to an ASCII pattern character. */
  lemma NonAsciiNeverFoldsToAscii(a: char, b: char)
    requires a as int >= 128 && b as int < 128
    ensures Lower(a) != Lower(b)
  {
  }

  /** `p` occurs at position `i` of `s`. */
  predicate At(s: string, i: nat, p: string) {
    i + |p| <= |s| && s[i..i + |p|] == p
  }

  /** `p` occurs at position `i` of `s`, letters compared under the `i` flag. */
  predicate AtFold(s: string, i: nat, p: string) {
    && i + |p| <= |s|
    && forall k :: 0 <= k < |p| ==> Lower(s[i + k]) == Lower(p[k])
  }

  /** `String.prototype.includes`. */
  predicate Contains(s: string, t: string) {
    exists i: nat | i <= |s| :: At(s, i, t)
  }

  predicate AllIn(s: string, cls: CharClass) {
    forall k :: 0 <= k < |s| ==> In(s[k], cls)
  }

  /** The end of the longest run of `cls` characters that starts at `i`. */
  function RunEnd(s: string, i: nat, cls: CharClass): (j: nat)
    requires i <= |s|
    ensures i <= j <= |s|
    ensures forall k :: i <= k < j ==> In(s[k], cls)
    ensures j == |s| || !In(s[j], cls)
    decreases |s| - i
  {
    if i < |s| && In(s[i], cls) then RunEnd(s, i + 1, cls) else i
  }

  /** The `k`-th character of an occurrence of `t` at `i`. */
  lemma AtIndex(s: string, i: nat, t: string, k: nat)
    requires At(s, i, t) && k < |t|
    ensures s[i + k] == t[k]
  {
    assert s[i + k] == s[i..i + |t|][k];
  }

  /** Splitting an occurrence of `a + b` into its two halves. */
  lemma AtConcat(s: string, i: nat, a: string, b: string)
    requires At(s, i, a + b)
    ensures At(s, i, a) && At(s, i + |a|, b)
  {
    assert s[i..i + |a|] == (a + b)[..|a|];
    assert s[i + |a|..i + |a| + |b|] == (a + b)[|a|..];
  }

  /** An occurrence of `t` that matches `lit` under the `i` flag is one of `lit` in `s`. */
  lemma AtFoldAt(s: string, i: nat, t: string, lit: string)
    requires At(s, i, t) && |t| == |lit| && AtFold(t, 0, lit)
    ensures AtFold(s, i, lit)
  {
    forall k | 0 <= k < |lit| ensures Lower(s[i + k]) == Lower(lit[k]) {
      assert s[i + k] == s[i..i + |t|][k] == t[0 + k];
    }
  }

  /** A whole run `t` of `cls` at `i`, followed by something else, is where `RunEnd` stops. */
  lemma {:induction false} RunEndOf(s: string, i: nat, t: string, cls: CharClass)
    requires At(s, i, t) && AllIn(t, cls)
    requires i + |t| == |s| || !In(s[i + |t|], cls)
    ensures RunEnd(s, i, cls) == i + |t|
    decreases |t|
  {
    if t != [] {
      assert s[i] == t[0];
      assert s[i + 1..i + 1 + |t[1..]|] == t[1..];
      RunEndOf(s, i + 1, t[1..], cls);
    }
  }

  /** The start of the longest run of white space that ends at `j` and begins at or after `lo`. */
  function BackRunStart(s: string, lo: nat, j: nat): (i: nat)
    requires lo <= j <= |s|
    ensures lo <= i <= j
    ensures forall k :: i <= k < j ==> IsSpace(s[k])
    ensures i == lo || !IsSpace(s[i - 1])
    decreases j
  {
    if lo < j && IsSpace(s[j - 1]) then BackRunStart(s, lo, j - 1) else j
  }

  /** `r` sits at `lo` in `s` with nothing but white space around it. */
  predicate Framed(s: string, r: string, lo: nat) {
    && lo + |r| <= |s|
    && s[lo..lo + |r|] == r
    && (forall k :: 0 <= k < lo ==> IsSpace(s[k]))
    && (forall k :: lo + |r| <= k < |s| ==> IsSpace(s[k]))
  }

  /** `String.prototype.trim`: strip white space from both ends. */
  function Trim(s: string): (r: string)
    ensures exists lo: nat :: Framed(s, r, lo)
    ensures r == [] || (!IsSpace(r[0]) && !IsSpace(r[|r| - 1]))
  {
    var lo := RunEnd(s, 0, Space);
    var hi := BackRunStart(s, lo, |s|);
    assert Framed(s, s[lo..hi], lo);
    s[lo..hi]
  }

  /** The one string that `Trim` can return on a framing of it. */
  lemma TrimUnique(s: string, r: string, lo: nat)
    requires Framed(s, r, lo)
    requires r == [] || (!IsSpace(r[0]) && !IsSpace(r[|r| - 1]))
    ensures Trim(s) == r
  {
    var a := RunEnd(s, 0, Space);
    var b := BackRunStart(s, a, |s|);
    if r == [] {
      assert a == |s|;
      assert Trim(s) == [];
    } else {
      assert a == lo;
      assert b == lo + |r|;
    }
  }
  /** Trimming text that is white space only at its first character drops that character. */
  lemma TrimFirst(t: string)
    requires |t| >= 2 && IsSpace(t[0]) && !IsSpace(t[1]) && !IsSpace(t[|t| - 1])
    ensures Trim(t) == t[1..]
  {
    assert Framed(t, t[1..], 1);
    TrimUnique(t, t[1..], 1);
  }


  /** `s.split('\n')`: the pieces between line feeds. */
  function Lines(s: string): (ls: seq<string>)
    ensures |ls| >= 1
    ensures forall k :: 0 <= k < |ls| ==> AllIn(ls[k], NotLineFeed)
    decreases |s|
  {
    var k := RunEnd(s, 0, NotLineFeed);
    if k == |s| then [s] else [s[..k]] + Lines(s[k + 1..])
  }

  /** `ls.join('\n')`. */
  function JoinLines(ls: seq<string>): string
    requires |ls| >= 1
    decreases |ls|
  {
    if |ls| == 1 then ls[0] else ls[0] + "\n" + JoinLines(ls[1..])
  }

  /** Splitting a join of line-feed-free pieces gives the pieces back. */
  lemma {:induction false} LinesOfJoin(ls: seq<string>)
    requires |ls| >= 1
    requires forall k :: 0 <= k < |ls| ==> AllIn(ls[k], NotLineFeed)
    ensures Lines(JoinLines(ls)) == ls
    decreases |ls|
  {
    var s := JoinLines(ls);
    var h := ls[0];
    var k := RunEnd(s, 0, NotLineFeed);
    if |ls| == 1 {
      assert s == h;
      assert k == |s|;
    } else {
      var t := JoinLines(ls[1..]);
      assert s == h + "\n" + t;
      assert forall j :: 0 <= j < |h| ==> s[j] == h[j];
      assert s[|h|] == '\n';
      assert k == |h|;
      assert s[..k] == h;
      assert s[k + 1..] == t;
      LinesOfJoin(ls[1..]);
      assert ls == [h] + ls[1..];
    }
  }

  /** Splitting text, a line feed and a last line free of line feeds: the text's pieces, then that line. */
  lemma {:induction false} LinesSnoc(a: string, b: string)
    requires AllIn(b, NotLineFeed)
    ensures Lines(a + "\n" + b) == Lines(a) + [b]
    decreases |a|
  {
    var s := a + "\n" + b;
    var k := RunEnd(a, 0, NotLineFeed);
    assert forall j :: 0 <= j < |a| ==> s[j] == a[j];
    assert RunEnd(s, 0, NotLineFeed) == k by {
      if k == |a| {
        assert s[k] == '\n';
        RunEndOf(s, 0, a, NotLineFeed);
      } else {
        assert s[..k] == a[..k];
        RunEndOf(s, 0, a[..k], NotLineFeed);
      }
    }
    if k == |a| {
      assert s[..k] == a && s[k + 1..] == b;
      RunEndOf(b, 0, b, NotLineFeed);
    } else {
      assert s[..k] == a[..k];
      assert s[k + 1..] == a[k + 1..] + "\n" + b;
      LinesSnoc(a[k + 1..], b);
    }
  }

  /** Joining the pieces of a split gives the text back. */
  lemma {:induction false} JoinOfLines(s: string)
    ensures JoinLines(Lines(s)) == s
    decreases |s|
  {
    var k := RunEnd(s, 0, NotLineFeed);
    if k < |s| {
      JoinOfLines(s[k + 1..]);
      assert s == s[..k] + "\n" + s[k + 1..];
    }
  }
}
