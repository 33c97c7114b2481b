/**
 * The regular expressions of the demo logic and of the server, each written
 * out as an explicit matcher at one position, plus the leftmost search that
 * `String.prototype.match` performs and the global replacement that
 * `String.prototype.replace` performs with a `g` pattern.
 *
 * Backtracking is resolved by hand for each pattern: a greedy `\s*` or `\s+`
 * followed by a class that excludes white space can only succeed on the
 * longest white-space run (or, for `\s+[^.]`, one character shorter), and
 * `\d+\s*WEI` can only succeed on a whole digit run.
 */
module Patterns {
  import opened Wrappers
  import opened Scan

  /** A match: where it ends and what its (first) capture group holds. */
  datatype Match = Match(end: nat, group: string)

  /** A match together with the position it starts at. */
  datatype Found = Found(pos: nat, m: Match)

  /** `0x` followed by 64 hex digits. */
  const HASH_LENGTH: nat := 66

  /** `0x` (either case of `x`) and 64 hex digits start at `i`. */
  predicate HashAt(s: string, i: nat) {
    && i + HASH_LENGTH <= |s|
    && s[i] == '0'
    && Lower(s[i + 1]) == 'x'
    && forall k :: i + 2 <= k < i + HASH_LENGTH ==> IsHexDigit(s[k])
  }

  /** `\b` at position `j`: a word character on exactly one side. */
  predicate WordBoundary(s: string, j: nat)
    requires j <= |s|
  {
    (j > 0 && IsWordChar(s[j - 1])) != (j < |s| && IsWordChar(s[j]))
  }

  /** `\s*([cls]+)` from position `l`: optional white space, then a non-empty run of `cls`. */
  function RunAfter(s: string, l: nat, cls: CharClass): (r: Option<Match>)
    requires l <= |s|
    ensures r.Some? <==> RunEnd(s, l, Space) < |s| && In(s[RunEnd(s, l, Space)], cls)
    ensures r.Some? ==> l < r.value.end <= |s| && |r.value.group| > 0
    ensures r.Some? ==> AllIn(r.value.group, cls)
    ensures r.Some? ==> RunEnd(s, l, Space) < r.value.end && r.value.group == s[RunEnd(s, l, Space)..r.value.end]
    ensures r.Some? ==> r.value.end == |s| || !In(s[r.value.end], cls)
  {
    var a := RunEnd(s, l, Space);
    var b := RunEnd(s, a, cls);
    if a < b then Some(Match(b, s[a..b])) else None
  }

  /** The end of `(?:Native Balance:|ETH Balance:)` at `i`, any case. */
  function BalanceLabelEnd(s: string, i: nat): (r: Option<nat>)
    ensures r.Some? ==> i < r.value <= |s|
  {
    if AtFold(s, i, "Native Balance:") then Some(i + 15)
    else if AtFold(s, i, "ETH Balance:") then Some(i + 12)
    else None
  }

  /** The end of `(?:Transaction:|transaction hash:|hash:)` at `i`, any case. */
  function TxLabelEnd(s: string, i: nat): (r: Option<nat>)
    ensures r.Some? ==> i < r.value <= |s|
  {
    if AtFold(s, i, "Transaction:") then Some(i + 12)
    else if AtFold(s, i, "transaction hash:") then Some(i + 17)
    else if AtFold(s, i, "hash:") then Some(i + 5)
    else None
  }

  /** `(?:Native Balance:|ETH Balance:)\s*([\d.]+)` under the `i` flag. */
  function MatchBalance(s: string, i: nat): (r: Option<Match>)
    ensures r.Some? ==> BalanceLabelEnd(s, i).Some?
    ensures r.Some? ==> i < r.value.end <= |s| && |r.value.group| > 0
    ensures r.Some? ==> AllIn(r.value.group, DecimalChar)
  {
    match BalanceLabelEnd(s, i)
    case None => None
    case Some(l) => RunAfter(s, l, DecimalChar)
  }

  /** `Address:\s*([0-9a-fA-Fx]+)`, case-sensitive. */
  function MatchAddress(s: string, i: nat): (r: Option<Match>)
    ensures r.Some? <==> At(s, i, "Address:") && (var a := RunEnd(s, i + 8, Space); a < |s| && In(s[a], AddressChar))
    ensures r.Some? ==> i < r.value.end <= |s| && |r.value.group| > 0
    ensures r.Some? ==> AllIn(r.value.group, AddressChar)
    ensures r.Some? ==>
      && i + 8 <= RunEnd(s, i + 8, Space) < r.value.end
      && r.value.group == s[RunEnd(s, i + 8, Space)..r.value.end]
    ensures r.Some? ==> r.value.end == |s| || !In(s[r.value.end], AddressChar)
  {
    if At(s, i, "Address:") then RunAfter(s, i + 8, AddressChar) else None
  }

  /** `ETH Balance:\s*([\d.]+)`, case-sensitive. */
  function MatchEth(s: string, i: nat): (r: Option<Match>)
    ensures r.Some? <==> At(s, i, "ETH Balance:") && (var a := RunEnd(s, i + 12, Space); a < |s| && In(s[a], DecimalChar))
    ensures r.Some? ==> i < r.value.end <= |s| && |r.value.group| > 0
    ensures r.Some? ==> AllIn(r.value.group, DecimalChar)
    ensures r.Some? ==>
      && i + 12 <= RunEnd(s, i + 12, Space) < r.value.end
      && r.value.group == s[RunEnd(s, i + 12, Space)..r.value.end]
    ensures r.Some? ==> r.value.end == |s| || !In(s[r.value.end], DecimalChar)
  {
    if At(s, i, "ETH Balance:") then RunAfter(s, i + 12, DecimalChar) else None
  }

  /** `0x[a-f0-9]{64}` under the `i` flag; the group is the whole match. */
  function MatchTxHash(s: string, i: nat): (r: Option<Match>)
    ensures r.Some? <==> HashAt(s, i)
    ensures r.Some? ==> r.value.end == i + HASH_LENGTH <= |s| && r.value.group == s[i..i + HASH_LENGTH]
  {
    if HashAt(s, i) then Some(Match(i + HASH_LENGTH, s[i..i + HASH_LENGTH])) else None
  }

  /**
   * `(?:Transaction:|transaction hash:|hash:)\s*(\b0x[a-f0-9]{64}\b)` under the
   * `i` flag. At most one label occurs at a position, so the first one found
   * decides; the `\b` before `0x` always holds after a colon or white space.
   */
  function MatchLabelledHash(s: string, i: nat): (r: Option<Match>)
    ensures r.Some? ==> TxLabelEnd(s, i).Some?
    ensures r.Some? ==> i < r.value.end <= |s| && |r.value.group| > 0
  {
    match TxLabelEnd(s, i)
    case None => None
    case Some(l) =>
      var a := RunEnd(s, l, Space);
      if HashAt(s, a) && WordBoundary(s, a) && WordBoundary(s, a + HASH_LENGTH)
      then Some(Match(a + HASH_LENGTH, s[a..a + HASH_LENGTH]))
      else None
  }

  /** The letters `WEI` at `w`. */
  predicate WeiAt(s: string, w: nat) {
    w + 3 <= |s| && s[w] == 'W' && s[w + 1] == 'E' && s[w + 2] == 'I'
  }

  /**
   * `(\d+)\s*WEI` at exactly `k`: a whole run of digits, optional white
   * space, then `WEI`. A shorter digit run would leave a digit where `\s*WEI`
   * has to start, so only the whole run can succeed.
   */
  function WeiDigitsAt(s: string, k: nat): (r: Option<Match>)
    requires k <= |s|
    ensures r.Some? ==>
      var d := k + |r.value.group|;
      var w := r.value.end - 3;
      && k < d <= w < r.value.end <= |s|
      && r.value.group == s[k..d]
      && (forall q :: k <= q < d ==> IsDigit(s[q])) && !IsDigit(s[d])
      && (forall q :: d <= q < w ==> IsSpace(s[q])) && WeiAt(s, w)
  {
    var d := RunEnd(s, k, Digit);
    var w := RunEnd(s, d, Space);
    if k < d && WeiAt(s, w) then
      assert s[w] == 'W';
      Some(Match(w + 3, s[k..d]))
    else None
  }

  /**
   * `.*?(\d+)\s*WEI` from position `k`: the lazy prefix grows one character
   * at a time, never over a line terminator, until the rest succeeds.
   */
  function DigitsBeforeWei(s: string, k: nat): (r: Option<Match>)
    requires k <= |s|
    ensures r.Some? ==> k < r.value.end <= |s| && |r.value.group| > 0
    ensures r.Some? ==> AllIn(r.value.group, Digit)
    decreases |s| - k
  {
    var here := WeiDigitsAt(s, k);
    if here.Some? then here
    else if k < |s| && !IsLineTerminator(s[k]) then DigitsBeforeWei(s, k + 1)
    else None
  }

  /** A match of the lazy search is the digits-and-`WEI` match at the first position where one succeeds. */
  lemma {:induction false} DigitsBeforeWeiIsFirst(s: string, k: nat)
    requires k <= |s|
    ensures DigitsBeforeWei(s, k).Some? ==> exists j :: FirstWeiDigits(s, k, j) && WeiDigitsAt(s, j) == DigitsBeforeWei(s, k)
    decreases |s| - k
  {
    var r := DigitsBeforeWei(s, k);
    if WeiDigitsAt(s, k).Some? {
      assert FirstWeiDigits(s, k, k);
    } else if r.Some? {
      assert LazySkips(s, k);
      assert r == DigitsBeforeWei(s, k + 1);
      DigitsBeforeWeiIsFirst(s, k + 1);
      var j :| FirstWeiDigits(s, k + 1, j) && WeiDigitsAt(s, j) == r;
      FirstWeiDigitsStep(s, k, j);
    }
  }

  /**
   * Position `j` is where `.*?(\d+)\s*WEI` from `k` succeeds: no line
   * terminator before it, and the digits-and-`WEI` part fails at every
   * earlier position and succeeds at `j`.
   */
  predicate FirstWeiDigits(s: string, k: nat, j: nat) {
    && k <= j < |s|
    && WeiDigitsAt(s, j).Some?
    && forall q :: k <= q < j ==> LazySkips(s, q)
  }

  /** The lazy prefix may grow over position `q`: it is no line terminator, and `(\d+)\s*WEI` fails there. */
  predicate LazySkips(s: string, q: nat) {
    q < |s| && !IsLineTerminator(s[q]) && WeiDigitsAt(s, q).None?
  }

  /** A failed start that is not a line terminator moves where the lazy prefix may end. */
  lemma FirstWeiDigitsStep(s: string, k: nat, j: nat)
    requires k < |s| && !IsLineTerminator(s[k]) && WeiDigitsAt(s, k).None?
    requires FirstWeiDigits(s, k + 1, j)
    ensures FirstWeiDigits(s, k, j)
  {
    assert LazySkips(s, k);
  }

  /** `Native Balance:.*?(\d+)\s*WEI`, case-sensitive. */
  function MatchNative(s: string, i: nat): (r: Option<Match>)
    ensures r.Some? ==> At(s, i, "Native Balance:")
    ensures r.Some? ==> i < r.value.end <= |s| && |r.value.group| > 0
    ensures r.Some? ==> AllIn(r.value.group, Digit)
    ensures r.Some? ==> exists j :: FirstWeiDigits(s, i + 15, j) && WeiDigitsAt(s, j) == r
  {
    if At(s, i, "Native Balance:") then
      DigitsBeforeWeiIsFirst(s, i + 15);
      DigitsBeforeWei(s, i + 15)
    else None
  }

  /**
   * `\s+([^.]+)` from position `a`. The group starts after all the white
   * space, or on its last character when the white space is followed by a
   * dot or the end of the text, and runs up to the next dot.
   */
  function SpacedNonDots(s: string, a: nat): (r: Option<Match>)
    requires a <= |s|
    ensures r.Some? <==>
      var w := RunEnd(s, a, Space);
      a < w && ((w < |s| && s[w] != '.') || a + 1 < w)
    ensures r.Some? ==> a < r.value.end <= |s| && |r.value.group| > 0
    ensures r.Some? ==> AllIn(r.value.group, NotDot)
    ensures r.Some? ==> r.value.end == |s| || s[r.value.end] == '.'
    ensures r.Some? ==>
      var start := r.value.end - |r.value.group|;
      && a < start
      && r.value.group == s[start..r.value.end]
      && (forall q :: a <= q < start ==> IsSpace(s[q]))
      && (|| start == RunEnd(s, a, Space)
          || (start + 1 == RunEnd(s, a, Space) && (start + 1 == |s| || s[start + 1] == '.')))
  {
    var w := RunEnd(s, a, Space);
    var start := if w < |s| && s[w] != '.' then w else w - 1;
    if a < start then
      assert s[start] != '.';
      var e := RunEnd(s, start, NotDot);
      var g := s[start..e];
      assert e - |g| == start;
      assert forall q :: a <= q < start ==> IsSpace(s[q]);
      assert start == w || (start + 1 == w && (w == |s| || s[w] == '.'));
      Some(Match(e, g))
    else None
  }

  /** `Successfully\s+([^.]+)` under the `i` flag. */
  function MatchAction(s: string, i: nat): (r: Option<Match>)
    ensures r.Some? <==>
      && AtFold(s, i, "Successfully")
      && var w := RunEnd(s, i + 12, Space);
         i + 12 < w && ((w < |s| && s[w] != '.') || i + 13 < w)
    ensures r.Some? ==> i < r.value.end <= |s| && |r.value.group| > 0
    ensures r.Some? ==> AllIn(r.value.group, NotDot)
    ensures r.Some? ==> r.value.end == |s| || s[r.value.end] == '.'
    ensures r.Some? ==>
      var start := r.value.end - |r.value.group|;
      && i + 12 < start
      && r.value.group == s[start..r.value.end]
      && (forall q :: i + 12 <= q < start ==> IsSpace(s[q]))
      && (|| start == RunEnd(s, i + 12, Space)
          || (start + 1 == RunEnd(s, i + 12, Space) && (start + 1 == |s| || s[start + 1] == '.')))
  {
    if AtFold(s, i, "Successfully") then SpacedNonDots(s, i + 12) else None
  }

  /** A pattern, as the match it finds at each position. */
  type Matcher = (string, nat) -> Option<Match>

  /** Every match of `p` is non-empty and inside the text. */
  ghost predicate Advancing(p: Matcher) {
    forall s: string, i: nat :: p(s, i).Some? ==> i < p(s, i).value.end <= |s|
  }

  /** The leftmost match of `p` that starts at or after `i`. */
  function Leftmost(p: Matcher, s: string, i: nat): (r: Option<Found>)
    requires i <= |s|
    ensures r.Some? ==> i <= r.value.pos <= |s| && p(s, r.value.pos) == Some(r.value.m)
    ensures r.Some? ==> forall j :: i <= j < r.value.pos ==> p(s, j).None?
    ensures r.None? ==> forall j :: i <= j <= |s| ==> p(s, j).None?
    decreases |s| - i
  {
    var here := p(s, i);
    if here.Some? then Some(Found(i, here.value))
    else if i == |s| then None
    else Leftmost(p, s, i + 1)
  }

  /** The first capture group of `s.match(p)`, as a non-global match returns it. */
  function FirstGroup(p: Matcher, s: string): (g: Option<string>)
    ensures g.None? <==> forall j :: 0 <= j <= |s| ==> p(s, j).None?
    ensures g.Some? ==> exists j :: 0 <= j <= |s| && p(s, j).Some? && p(s, j).value.group == g.value
    ensures g.Some? ==> Leftmost(p, s, 0).Some? && g.value == Leftmost(p, s, 0).value.m.group
  {
    match Leftmost(p, s, 0)
    case None => None
    case Some(f) => Some(f.m.group)
  }

  /** No match of `p` starts at or after `i`. */
  predicate NoMatchFrom(p: Matcher, s: string, i: nat)
    requires i <= |s|
  {
    forall j :: i <= j <= |s| ==> p(s, j).None?
  }

  /**
   * `s.replace(p, repl)` for a global `p`, from position `i`: each match,
   * left to right, is replaced by `repl` of its group, and the search goes on
   * after it.
   */
  function ReplaceFrom(p: Matcher, repl: string -> string, s: string, i: nat): (r: string)
    requires Advancing(p)
    requires i <= |s|
    ensures NoMatchFrom(p, s, i) ==> r == s[i..]
    decreases |s| - i
  {
    if i == |s| then []
    else
      match p(s, i)
      case Some(m) => repl(m.group) + ReplaceFrom(p, repl, s, m.end)
      case None => [s[i]] + ReplaceFrom(p, repl, s, i + 1)
  }

  /** Replacing copies the text up to the leftmost match, replaces it, and goes on after it. */
  lemma {:induction false} ReplaceAtLeftmost(p: Matcher, repl: string -> string, s: string, i: nat)
    requires Advancing(p)
    requires i <= |s|
    requires Leftmost(p, s, i).Some?
    ensures var f := Leftmost(p, s, i).value;
      f.m.end <= |s| && ReplaceFrom(p, repl, s, i) == s[i..f.pos] + (repl(f.m.group) + ReplaceFrom(p, repl, s, f.m.end))
    decreases |s| - i
  {
    var f := Leftmost(p, s, i).value;
    assert f.pos < f.m.end <= |s|;
    if f.pos == i {
      var after := repl(f.m.group) + ReplaceFrom(p, repl, s, f.m.end);
      assert p(s, i).Some? && p(s, i).value == f.m;
      assert ReplaceFrom(p, repl, s, i) == after;
      assert s[i..f.pos] + after == after;
    } else {
      assert p(s, i).None?;
      assert ReplaceFrom(p, repl, s, i) == [s[i]] + ReplaceFrom(p, repl, s, i + 1);
      assert Leftmost(p, s, i + 1) == Leftmost(p, s, i);
      ReplaceAtLeftmost(p, repl, s, i + 1);
      ConsSlice(s, i, f.pos, repl(f.m.group) + ReplaceFrom(p, repl, s, f.m.end));
    }
  }

  /** Peeling the first character off a slice, as a string equation. */
  lemma ConsSlice(s: string, i: nat, j: nat, tail: string)
    requires i < j <= |s|
    ensures [s[i]] + (s[i + 1..j] + tail) == s[i..j] + tail
  {
    assert s[i..j] == [s[i]] + s[i + 1..j];
  }

  /** The labelled-hash pattern never matches the empty string. */
  lemma LabelledHashAdvances()
    ensures Advancing(MatchLabelledHash)
  {
    forall s: string, i: nat | MatchLabelledHash(s, i).Some?
      ensures i < MatchLabelledHash(s, i).value.end <= |s|
    {
    }
  }

  /** When the first match at or after `i` is at `pos`, the leftmost search finds it. */
  lemma {:induction false} LeftmostIsFirst(p: Matcher, s: string, i: nat, pos: nat)
    requires i <= pos <= |s|
    requires p(s, pos).Some?
    requires forall j :: i <= j < pos ==> p(s, j).None?
    ensures Leftmost(p, s, i) == Some(Found(pos, p(s, pos).value))
    decreases pos - i
  {
    if i < pos {
      LeftmostIsFirst(p, s, i + 1, pos);
    }
  }
}
