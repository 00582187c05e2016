/** What a screen rule looks at: the regions of a capture, and the matcher tree over an arbitrary
    regular expression oracle. */
module Regions {
  import opened Basics
  import opened Text
  import opened Ansi

  // ----- regions --------------------------------------------------------------------------------

  datatype Region = Title | TailLines(n: nat) | BottomNonEmptyLines(n: nat) | VisibleScreen

  datatype Snapshot = Snapshot(title: string, tail: string, visibleHeight: Option<nat>, capturedAt: u64)

  function DropReturn(line: string): string {
    if line != "" && line[|line| - 1] == '\r' then line[..|line| - 1] else line
  }

  /** `str::lines`: a line ending is a newline, or a carriage return and a newline; the last one is
      optional. */
  function Lines(s: string): seq<string> {
    var pieces := Split(s, '\n');
    var last := |pieces| - 1;
    seq(last, i requires 0 <= i < last => DropReturn(pieces[i])) + if pieces[last] == "" then [] else [pieces[last]]
  }

  /** `lines[len.saturating_sub(n)..]` */
  function Tail(lines: seq<string>, n: nat): seq<string> {
    if |lines| <= n then lines else lines[|lines| - n..]
  }

  /** A row is blank when nothing but white space is left of it without its control sequences. */
  predicate Blank(line: string) {
    TrimStart(Strip(line)) == ""
  }

  /** Every character a terminal would show of a blank row is white space. */
  lemma BlankExactly(line: string)
    ensures Blank(line) <==> forall i | 0 <= i < |Strip(line)| :: IsWhitespace(Strip(line)[i])
  {
    TrimmedAway(Strip(line));
  }

  lemma {:induction false} TrimmedAway(s: string)
    ensures TrimStart(s) == "" <==> forall i | 0 <= i < |s| :: IsWhitespace(s[i])
    decreases |s|
  {
    if s != "" && IsWhitespace(s[0]) {
      TrimmedAway(s[1..]);
      assert forall i | 0 < i < |s| :: s[i] == s[1..][i - 1];
    }
  }

  /** `rposition` of the last row with content. */
  function LastContent(lines: seq<string>): Option<nat>
    decreases |lines|
  {
    if lines == [] then None
    else if !Blank(lines[|lines| - 1]) then Some(|lines| - 1)
    else LastContent(lines[..|lines| - 1])
  }

  lemma {:induction false} LastContentInRange(lines: seq<string>)
    ensures LastContent(lines).Some? ==> LastContent(lines).value < |lines|
    decreases |lines|
  {
    if lines != [] { LastContentInRange(lines[..|lines| - 1]); }
  }

  function Bottom(lines: seq<string>, n: nat): seq<string> {
    match LastContent(lines)
    case None => []
    case Some(end) =>
      LastContentInRange(lines);
      lines[if end + 1 < n then 0 else end + 1 - n..end + 1]
  }

  function ExtractRegion(region: Region, snap: Snapshot): string {
    match region
    case Title => Strip(snap.title)
    case TailLines(n) => Strip(Join(Tail(Lines(snap.tail), n), '\n'))
    case BottomNonEmptyLines(n) => Strip(Join(Bottom(Lines(snap.tail), n), '\n'))
    case VisibleScreen =>
      var lines := Lines(snap.tail);
      Strip(Join(if snap.visibleHeight.None? then lines else Tail(lines, snap.visibleHeight.value), '\n'))
  }

  /** Only blank rows from `k` on, and content just before it. */
  predicate ContentEnds(lines: seq<string>, k: nat) {
    && k <= |lines|
    && (forall i | k <= i < |lines| :: Blank(lines[i]))
    && (k > 0 ==> !Blank(lines[k - 1]))
  }

  lemma {:induction false} LastContentExact(lines: seq<string>, k: nat)
    requires ContentEnds(lines, k)
    ensures LastContent(lines) == if k == 0 then None else Some(k - 1)
    decreases |lines|
  {
    if k < |lines| {
      LastContentExact(lines[..|lines| - 1], k);
    }
  }

  /** The bottom window is the tail window of the capture without its trailing blank rows. */
  lemma BottomIsTailOfContent(lines: seq<string>, k: nat, n: nat)
    requires ContentEnds(lines, k)
    ensures Bottom(lines, n) == Tail(lines[..k], n)
  {
    LastContentExact(lines, k);
  }

  /** Every capture has exactly one such end of content. */
  lemma {:induction false} ContentEndsOnce(lines: seq<string>) returns (k: nat)
    ensures ContentEnds(lines, k)
    ensures forall j | ContentEnds(lines, j) :: j == k
    decreases |lines|
  {
    k := |lines|;
    if lines != [] && Blank(lines[|lines| - 1]) {
      k := ContentEndsOnce(lines[..|lines| - 1]);
      forall i | k <= i < |lines| ensures Blank(lines[i]) {
        if i < |lines| - 1 { assert lines[i] == lines[..|lines| - 1][i]; }
      }
    }
  }

  /** The last `n` of the lines, or all of them. */
  ghost predicate LastOf(window: seq<string>, lines: seq<string>, n: nat) {
    && |window| == (if |lines| < n then |lines| else n)
    && exists before: seq<string> :: before + window == lines
  }

  lemma TailIsLast(lines: seq<string>, n: nat)
    ensures LastOf(Tail(lines, n), lines, n)
  {
    var before := lines[..|lines| - |Tail(lines, n)|];
    assert before + Tail(lines, n) == lines;
  }

  /** Each region reads its own window: the title; the last rows of the capture; the last rows before its
      trailing blank ones; the rows of the screen, or the whole capture when their number is unknown.
      Control sequences are gone from all of them. */
  lemma RegionsExact(region: Region, snap: Snapshot, k: nat) returns (w: seq<string>)
    requires ContentEnds(Lines(snap.tail), k)
    ensures ExtractRegion(region, snap) == Strip(if region.Title? then snap.title else Join(w, '\n'))
    ensures region.TailLines? ==> LastOf(w, Lines(snap.tail), region.n)
    ensures region.BottomNonEmptyLines? ==> LastOf(w, Lines(snap.tail)[..k], region.n)
    ensures region.VisibleScreen? && snap.visibleHeight.None? ==> w == Lines(snap.tail)
    ensures region.VisibleScreen? && snap.visibleHeight.Some? ==> LastOf(w, Lines(snap.tail), snap.visibleHeight.value)
  {
    var lines := Lines(snap.tail);
    match region
    case Title => w := [];
    case TailLines(n) =>
      w := Tail(lines, n);
      TailIsLast(lines, n);
    case BottomNonEmptyLines(n) =>
      w := Bottom(lines, n);
      BottomIsTailOfContent(lines, k, n);
      TailIsLast(lines[..k], n);
    case VisibleScreen =>
      w := if snap.visibleHeight.None? then lines else Tail(lines, snap.visibleHeight.value);
      if snap.visibleHeight.Some? { TailIsLast(lines, snap.visibleHeight.value); }
  }

  /** Rows with their endings, each a newline or a carriage return and a newline. */
  function Ended(rows: seq<string>, crlfs: seq<bool>): string
    requires |crlfs| == |rows|
    decreases |rows|
  {
    if rows == [] then "" else rows[0] + (if crlfs[0] then "\r\n" else "\n") + Ended(rows[1..], crlfs[1..])
  }

  lemma LinesOfPiece(piece: string, rest: string)
    requires '\n' !in piece
    ensures Lines(piece + ['\n'] + rest) == [DropReturn(piece)] + Lines(rest)
  {
    SplitOnceExact(piece + ['\n'] + rest, '\n', piece, rest);
    var pieces := Split(rest, '\n');
    var all := Split(piece + ['\n'] + rest, '\n');
    assert all == [piece] + pieces;
    assert all[|all| - 1] == pieces[|pieces| - 1];
  }

  lemma LinesStep(row: string, crlf: bool, rest: string)
    requires '\n' !in row && (row != "" ==> row[|row| - 1] != '\r')
    ensures Lines(row + (if crlf then "\r\n" else "\n") + rest) == [row] + Lines(rest)
  {
    var piece := if crlf then row + "\r" else row;
    assert piece + ['\n'] + rest == row + (if crlf then "\r\n" else "\n") + rest;
    LinesOfPiece(piece, rest);
    if crlf { assert (row + "\r")[..|row|] == row; }
  }

  /** Reading the lines of ended rows, and of a last one without an ending, gives them back. */
  lemma {:induction false} LinesRead(rows: seq<string>, crlfs: seq<bool>, last: string)
    requires |crlfs| == |rows| && '\n' !in last
    requires forall i | 0 <= i < |rows| ::
      '\n' !in rows[i] && (rows[i] != "" ==> rows[i][|rows[i]| - 1] != '\r')
    ensures Lines(Ended(rows, crlfs) + last) == rows + if last == "" then [] else [last]
    decreases |rows|
  {
    if rows == [] {
      NoSeparator(last, '\n');
      assert Ended(rows, crlfs) + last == last;
    } else {
      var rest := Ended(rows[1..], crlfs[1..]);
      LinesRead(rows[1..], crlfs[1..], last);
      LinesStep(rows[0], crlfs[0], rest + last);
      Associate(rows[0], if crlfs[0] then "\r\n" else "\n", rest, last);
      assert Ended(rows, crlfs) + last == rows[0] + (if crlfs[0] then "\r\n" else "\n") + (rest + last);
    }
  }

  // ----- matchers -------------------------------------------------------------------------------

  /** A regular expression is a number the oracle knows. */
  datatype Matcher =
    | Contains(needle: string)
    | Regex(id: nat)
    | LineRegex(id: nat)
    | LastMatchingLine(selector: Matcher, judge: Matcher)
    | Any(of: seq<Matcher>)
    | All(of: seq<Matcher>)
    | Not(inner: Matcher)

  predicate Matches(m: Matcher, re: (nat, string) -> bool, text: string)
    decreases m, 1, 0
  {
    match m
    case Contains(needle) => Find(text, needle).Some?
    case Regex(id) => re(id, text)
    case LineRegex(id) => exists i | 0 <= i < |Lines(text)| :: re(id, Lines(text)[i])
    case LastMatchingLine(selector, judge) => LastMatches(m, re, Lines(text))
    case Any(of) => exists i | 0 <= i < |of| :: Matches(of[i], re, text)
    case All(of) => forall i | 0 <= i < |of| :: Matches(of[i], re, text)
    case Not(inner) => !Matches(inner, re, text)
  }

  /** The search from the last line up. */
  predicate LastMatches(m: Matcher, re: (nat, string) -> bool, lines: seq<string>)
    requires m.LastMatchingLine?
    decreases m, 0, |lines|
  {
    lines != [] &&
      if Matches(m.selector, re, lines[|lines| - 1]) then Matches(m.judge, re, lines[|lines| - 1])
      else LastMatches(m, re, lines[..|lines| - 1])
  }

  /** The last line the selector picks, and no other, is judged. */
  lemma {:induction false} LastMatchesExact(m: Matcher, re: (nat, string) -> bool, lines: seq<string>)
    requires m.LastMatchingLine?
    ensures LastMatches(m, re, lines) <==> exists i | 0 <= i < |lines| ::
              && Matches(m.selector, re, lines[i]) && Matches(m.judge, re, lines[i])
              && forall j | i < j < |lines| :: !Matches(m.selector, re, lines[j])
    decreases |lines|
  {
    if lines != [] && !Matches(m.selector, re, lines[|lines| - 1]) {
      LastMatchesExact(m, re, lines[..|lines| - 1]);
    }
  }

  // ----- the search, as it runs -------------------------------------------------------------------

  /** `Matcher::matches`: each connective stops at the first child that decides it. */
  method Match(m: Matcher, re: (nat, string) -> bool, text: string) returns (hit: bool)
    ensures hit <==> Matches(m, re, text)
    decreases m
  {
    match m {
      case Contains(needle) => hit := Find(text, needle).Some?;
      case Regex(id) => hit := re(id, text);
      case LineRegex(id) => hit := AnyLine(id, re, Lines(text));
      case LastMatchingLine(selector, judge) =>
        var lines := Lines(text);
        var i := |lines|;
        assert lines[..i] == lines;
        while i > 0
          invariant 0 <= i <= |lines|
          invariant LastMatches(m, re, lines) <==> LastMatches(m, re, lines[..i])
        {
          i := i - 1;
          assert lines[..i + 1][..i] == lines[..i];
          var picked := Match(selector, re, lines[i]);
          if picked {
            hit := Match(judge, re, lines[i]);
            return;
          }
        }
        return false;
      case Any(of) =>
        for i := 0 to |of|
          invariant forall k | 0 <= k < i :: !Matches(of[k], re, text)
        {
          hit := Match(of[i], re, text);
          if hit { return; }
        }
        return false;
      case All(of) =>
        for i := 0 to |of|
          invariant forall k | 0 <= k < i :: Matches(of[k], re, text)
        {
          hit := Match(of[i], re, text);
          if !hit { return; }
        }
        return true;
      case Not(inner) =>
        var inside := Match(inner, re, text);
        return !inside;
    }
  }

  method AnyLine(id: nat, re: (nat, string) -> bool, lines: seq<string>) returns (hit: bool)
    ensures hit <==> exists i | 0 <= i < |lines| :: re(id, lines[i])
  {
    for i := 0 to |lines|
      invariant forall k | 0 <= k < i :: !re(id, lines[k])
    {
      if re(id, lines[i]) { return true; }
    }
    return false;
  }

  // ----- what the connectives mean ------------------------------------------------------------------

  function Negations(ms: seq<Matcher>): seq<Matcher> {
    seq(|ms|, i requires 0 <= i < |ms| => Not(ms[i]))
  }

  /** Of a matcher and its negation exactly one accepts. `all` fails exactly where some child's negation
      holds, and `any` exactly where they all do; so `all` of nothing accepts and `any` of nothing does
      not. */
  lemma ConnectivesDual(m: Matcher, ms: seq<Matcher>, re: (nat, string) -> bool, text: string)
    ensures Matches(m, re, text) != Matches(Not(m), re, text)
    ensures Matches(All(ms), re, text) != Matches(Any(Negations(ms)), re, text)
    ensures Matches(Any(ms), re, text) != Matches(All(Negations(ms)), re, text)
    ensures Matches(All([]), re, text) && !Matches(Any([]), re, text)
  {
    var ns := Negations(ms);
    assert forall i | 0 <= i < |ms| :: Matches(ns[i], re, text) == !Matches(ms[i], re, text);
  }

  /** A child more: `all` narrows and `any` widens, by exactly that child. */
  lemma ConnectivesGrow(m: Matcher, ms: seq<Matcher>, re: (nat, string) -> bool, text: string)
    ensures Matches(All(ms + [m]), re, text) <==> Matches(All(ms), re, text) && Matches(m, re, text)
    ensures Matches(Any(ms + [m]), re, text) <==> Matches(Any(ms), re, text) || Matches(m, re, text)
  {
    assert forall i | 0 <= i < |ms| :: (ms + [m])[i] == ms[i];
    assert (ms + [m])[|ms|] == m;
  }

  /** The leaves: `contains` is an occurrence at some index, the expressions are the oracle's on the whole
      text, on some line, and on the last line the selector picks. */
  lemma LeavesExact(re: (nat, string) -> bool, text: string, needle: string, id: nat, judge: nat)
    ensures Matches(Contains(needle), re, text) <==> exists at: nat :: OccursAt(text, needle, at)
    ensures Matches(Regex(id), re, text) <==> re(id, text)
    ensures Matches(LineRegex(id), re, text) <==> exists line | line in Lines(text) :: re(id, line)
    ensures Matches(LastMatchingLine(Regex(id), Regex(judge)), re, text)
       <==> exists i | 0 <= i < |Lines(text)| ::
              && re(id, Lines(text)[i]) && re(judge, Lines(text)[i])
              && forall k | i < k < |Lines(text)| :: !re(id, Lines(text)[k])
  {
    FindExact(text, needle);
    LastMatchesExact(LastMatchingLine(Regex(id), Regex(judge)), re, Lines(text));
  }
}
