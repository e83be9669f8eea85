/**
 * The code variant of the text prompt. It compiles like a text prompt with the type word
 * "code"; its reconciliation runs the text prompt's, then prefers the body of a fenced block in
 * the reply, then re-indents brace-delimited code line by line from the brace depth.
 */
module CodePrompts {
  import opened Wrappers
  import opened Element
  import opened JsString
  import opened Seqs
  import opened ComplexPrompts
  import opened TextPrompts

  const FenceOpen := "```"
  const FenceClose := "\n```"

  predicate IsLetter(c: char) {
    'a' <= c <= 'z' || 'A' <= c <= 'Z'
  }

  /** End of the run of ASCII letters that starts at `i` (the language tag of an opener). */
  function LetterRun(s: string, i: nat): (n: nat)
    requires i <= |s|
    ensures i <= n <= |s|
    ensures forall k :: i <= k < n ==> IsLetter(s[k])
    ensures n < |s| ==> !IsLetter(s[n])
    decreases |s| - i
  {
    if i == |s| || !IsLetter(s[i]) then i else LetterRun(s, i + 1)
  }

  /** A match of the fence pattern: the opener's position and the captured body `s[start..end]`. */
  datatype Fence = Fence(open: nat, start: nat, end: nat)

  /**
   * The match of the fence pattern that begins at `p`: three backquotes, the maximal run of
   * letters, a line feed, then a non-empty body that reaches the LAST line feed followed by
   * three backquotes (the capture is greedy, so later closers win).
   */
  function FenceAt(s: string, p: nat): (r: Option<Fence>)
    ensures r.Some? ==> r.value.open == p && OccursAt(s, FenceOpen, p)
    ensures r.Some? ==> p + 4 <= r.value.start < r.value.end && r.value.end + 4 <= |s|
    ensures r.Some? ==> s[r.value.start - 1] == '\n'
    ensures r.Some? ==> forall k :: p + 3 <= k < r.value.start - 1 ==> IsLetter(s[k])
    ensures r.Some? ==> OccursAt(s, FenceClose, r.value.end)
    ensures r.Some? ==> forall j :: r.value.end < j ==> !OccursAt(s, FenceClose, j)
  {
    if !OccursAt(s, FenceOpen, p) then None
    else
      var c := LetterRun(s, p + 3);
      if c == |s| || s[c] != '\n' then None
      else
        match LastIndexOf(s, FenceClose, |s|)
        case None => None
        case Some(q) => if q < c + 2 then None else Some(Fence(p, c + 1, q))
  }

  /** `raw.match(REGEXP)`: the match at the leftmost position where the pattern matches at all. */
  function FindFence(s: string, from: nat): (r: Option<Fence>)
    ensures r.Some? ==> from <= r.value.open && FenceAt(s, r.value.open) == r
    ensures r.Some? ==> forall p :: from <= p < r.value.open ==> FenceAt(s, p).None?
    ensures r.None? ==> forall p :: from <= p ==> FenceAt(s, p).None?
    decreases |s| - from
  {
    if from >= |s| then None
    else if FenceAt(s, from).Some? then FenceAt(s, from)
    else FindFence(s, from + 1)
  }

  /** The first capture group of the fence pattern, when the reply matches it. */
  function FencedBody(raw: string): Option<string> {
    match FindFence(raw, 0)
    case None => None
    case Some(f) => Some(raw[f.start..f.end])
  }

  /**
   * A reply holding one fenced block, with no backquote before or after it, yields the block's
   * body whatever that body holds (even a line that starts with three backquotes).
   */
  lemma FencedBodyOfBlock(pre: string, lang: string, body: string, post: string)
    requires '`' !in pre && '`' !in post && |body| >= 1
    requires forall k :: 0 <= k < |lang| ==> IsLetter(lang[k])
    ensures FencedBody(pre + FenceOpen + lang + "\n" + body + FenceClose + post) == Some(body)
  {
    var s := pre + FenceOpen + lang + "\n" + body + FenceClose + post;
    var c := |pre| + 3 + |lang|;
    var q0 := c + 1 + |body|;
    BlockFenceAt(pre, lang, body, post);
    forall p | 0 <= p < |pre| ensures FenceAt(s, p).None? {
      assert s[p] == pre[p];
      if OccursAt(s, FenceOpen, p) {
        OccurrenceStart(s, FenceOpen, p);
      }
    }
    assert s[c + 1..q0] == body;
  }

  lemma BlockFenceAt(pre: string, lang: string, body: string, post: string)
    requires '`' !in post && |body| >= 1
    requires forall k :: 0 <= k < |lang| ==> IsLetter(lang[k])
    ensures var s := pre + FenceOpen + lang + "\n" + body + FenceClose + post;
      var c := |pre| + 3 + |lang|;
      FenceAt(s, |pre|) == Some(Fence(|pre|, c + 1, c + 1 + |body|))
  {
    var s := pre + FenceOpen + lang + "\n" + body + FenceClose + post;
    var p0 := |pre|;
    var c := p0 + 3 + |lang|;
    var q0 := c + 1 + |body|;
    assert s[p0..p0 + 3] == FenceOpen;
    assert s[c] == '\n';
    forall k | p0 + 3 <= k < c ensures IsLetter(s[k]) {
      assert s[k] == lang[k - p0 - 3];
    }
    assert LetterRun(s, p0 + 3) == c;
    assert s[q0..q0 + 4] == FenceClose;
    forall k | q0 + 4 <= k < |s| ensures s[k] != '`' {
      assert s[k] == post[k - q0 - 4];
    }
    LastCloser(s, q0);
  }

  /** The closer that no backquote follows is the last one. */
  lemma LastCloser(s: string, q0: nat)
    requires OccursAt(s, FenceClose, q0)
    requires forall k :: q0 + 4 <= k < |s| ==> s[k] != '`'
    ensures LastIndexOf(s, FenceClose, |s|) == Some(q0)
  {
    assert FenceClose[3] == '`';
    LastOccurrence(s, FenceClose, q0);
  }

  /** A reply without any backquote has no fenced block. */
  lemma NoFenceWithoutBackquote(raw: string)
    requires '`' !in raw
    ensures FencedBody(raw) == None
  {
    forall p: nat ensures !OccursAt(raw, FenceOpen, p) {
      if OccursAt(raw, FenceOpen, p) {
        OccurrenceEnd(raw, FenceOpen, p);
      }
    }
  }

  // Re-indentation

  /** Whether a line closes a block: its first non-whitespace character is a closing brace. */
  predicate Closes(line: string) {
    ClosesFrom(line, 0)
  }

  predicate ClosesFrom(line: string, i: nat)
    decreases |line| - i
  {
    i < |line| && if IsWs(line[i]) then ClosesFrom(line, i + 1) else line[i] == '}'
  }

  /** Whether a line opens a block: its last non-whitespace character is an opening brace. */
  predicate Opens(line: string) {
    OpensTo(line, |line|)
  }

  predicate OpensTo(line: string, j: nat)
    requires j <= |line|
  {
    0 < j && if IsWs(line[j - 1]) then OpensTo(line, j - 1) else line[j - 1] == '{'
  }

  /** The scanners decide what `line.trim().startsWith("}")` and `line.trim().endsWith("{")` do. */
  lemma ClosesOpensAreTrimTests(line: string)
    ensures Closes(line) <==> StartsWith(Trim(line), "}")
    ensures Opens(line) <==> EndsWith(Trim(line), "{")
  {
    TrimEdges(line);
    ClosesFromRun(line, 0);
    OpensToRun(line, |line|);
    OneCharAffix(Trim(line), '}');
    OneCharAffix(Trim(line), '{');
  }

  /** The trimmed line runs from the first to the last non-whitespace character. */
  lemma TrimEdges(line: string)
    ensures var a, b := WsRunFrom(line, 0), WsRunTo(line, |line|);
      if a < |line| then a < b && |Trim(line)| > 0 && Trim(line)[0] == line[a] && Trim(line)[|Trim(line)| - 1] == line[b - 1]
      else b == 0 && Trim(line) == []
  {
    var a, b := WsRunFrom(line, 0), WsRunTo(line, |line|);
    if a < |line| {
      assert b > a;
      assert Trim(line) == line[a..b];
    } else {
      assert b == 0;
    }
  }

  lemma OneCharAffix(s: string, c: char)
    ensures StartsWith(s, [c]) <==> |s| > 0 && s[0] == c
    ensures EndsWith(s, [c]) <==> |s| > 0 && s[|s| - 1] == c
  {
    if |s| > 0 {
      assert s[..1] == [s[0]];
      assert s[|s| - 1..] == [s[|s| - 1]];
    }
  }

  lemma {:induction false} ClosesFromRun(line: string, i: nat)
    requires i <= |line|
    ensures ClosesFrom(line, i) <==> WsRunFrom(line, i) < |line| && line[WsRunFrom(line, i)] == '}'
    decreases |line| - i
  {
    if i < |line| && IsWs(line[i]) {
      ClosesFromRun(line, i + 1);
    }
  }

  lemma {:induction false} OpensToRun(line: string, j: nat)
    requires j <= |line|
    ensures OpensTo(line, j) <==> 0 < WsRunTo(line, j) && line[WsRunTo(line, j) - 1] == '{'
  {
    if 0 < j && IsWs(line[j - 1]) {
      OpensToRun(line, j - 1);
    }
  }

  /** A line rewritten at `depth`: that many spaces, none when negative, then its code. */
  function Indent(line: string, depth: int): string {
    Spaces(if depth < 0 then 0 else depth) + TrimStart(line)
  }

  /** Indenting keeps a line's code, so whether it opens or closes a block, and never indents by a negative width. */
  lemma IndentKeepsCode(line: string, depth: int)
    ensures |Indent(line, depth)| == (if depth < 0 then 0 else depth) + |TrimStart(line)|
    ensures TrimStart(Indent(line, depth)) == TrimStart(line) && Trim(Indent(line, depth)) == Trim(line)
    ensures Closes(Indent(line, depth)) == Closes(line) && Opens(Indent(line, depth)) == Opens(line)
  {
    TrimStartOfIndented(if depth < 0 then 0 else depth, line);
    ClosesOpensAreTrimTests(line);
    ClosesOpensAreTrimTests(Indent(line, depth));
  }

  /**
   * The re-indentation loop over the lines, from the given depth: the depth drops by two before
   * a closing line and rises by two after an opening one.
   */
  function Reindent(lines: seq<string>, depth: int): (r: seq<string>)
    ensures |r| == |lines|
  {
    if lines == [] then []
    else
      var d := if Closes(lines[0]) then depth - 2 else depth;
      var line := Indent(lines[0], d);
      [line] + Reindent(lines[1..], if Opens(line) then d + 2 else d)
  }

  /** How many of the lines open a block. */
  function CountOpens(lines: seq<string>): (n: nat)
    ensures n <= |lines|
  {
    if lines == [] then 0 else (if Opens(lines[0]) then 1 else 0) + CountOpens(lines[1..])
  }

  /** How many of the lines close a block. */
  function CountCloses(lines: seq<string>): (n: nat)
    ensures n <= |lines|
  {
    if lines == [] then 0 else (if Closes(lines[0]) then 1 else 0) + CountCloses(lines[1..])
  }

  /**
   * The depth of each output line, counted rather than carried: the starting depth, plus two
   * per opening line before it, minus two per closing line up to and including it.
   */
  lemma {:induction false} ReindentByCounts(lines: seq<string>, depth: int, i: nat)
    requires i < |lines|
    ensures Reindent(lines, depth)[i]
      == Indent(lines[i], depth + 2 * CountOpens(lines[..i]) - 2 * CountCloses(lines[..i + 1]))
  {
    if i == 0 {
      ReindentHead(lines, depth);
    } else {
      var next := ReindentTail(lines, depth, i);
      var rest, k := lines[1..], i - 1;
      ReindentByCounts(rest, next, k);
      var dk := next + 2 * CountOpens(rest[..k]) - 2 * CountCloses(rest[..k + 1]);
      assert dk == depth + 2 * CountOpens(lines[..i]) - 2 * CountCloses(lines[..i + 1]) by {
        assert k + 1 == i;
        CountsShift(lines, i);
      }
      assert rest[k] == lines[i];
    }
  }

  /** The first output line is the first line at the starting depth, less two if it closes. */
  lemma ReindentHead(lines: seq<string>, depth: int)
    requires |lines| > 0
    ensures Reindent(lines, depth)[0]
      == Indent(lines[0], depth + 2 * CountOpens(lines[..0]) - 2 * CountCloses(lines[..1]))
  {
    CountHead(lines[..1]);
    assert lines[..1][1..] == [];
  }

  /** Later output lines are those of the remaining lines, from the depth after the first. */
  lemma ReindentTail(lines: seq<string>, depth: int, i: nat) returns (next: int)
    requires 0 < i < |lines|
    ensures next == depth + (if Opens(lines[0]) then 2 else 0) - (if Closes(lines[0]) then 2 else 0)
    ensures Reindent(lines, depth)[i] == Reindent(lines[1..], next)[i - 1]
  {
    next := NextDepth(lines[0], depth);
    var d := if Closes(lines[0]) then depth - 2 else depth;
    assert Reindent(lines, depth) == [Indent(lines[0], d)] + Reindent(lines[1..], next);
  }

  /** The depth after a line, as the loop carries it, in terms of the line alone. */
  lemma NextDepth(line: string, depth: int) returns (next: int)
    ensures var d := if Closes(line) then depth - 2 else depth;
      next == (if Opens(Indent(line, d)) then d + 2 else d)
    ensures next == depth + (if Opens(line) then 2 else 0) - (if Closes(line) then 2 else 0)
  {
    var d := if Closes(line) then depth - 2 else depth;
    IndentKeepsCode(line, d);
    next := if Opens(Indent(line, d)) then d + 2 else d;
  }

  lemma CountsShift(lines: seq<string>, i: nat)
    requires 0 < i < |lines|
    ensures lines[1..][i - 1] == lines[i]
    ensures CountOpens(lines[..i]) == (if Opens(lines[0]) then 1 else 0) + CountOpens(lines[1..][..i - 1])
    ensures CountCloses(lines[..i + 1]) == (if Closes(lines[0]) then 1 else 0) + CountCloses(lines[1..][..i])
  {
    SliceShift(lines, i);
    CountHead(lines[..i]);
    CountHead(lines[..i + 1]);
  }

  lemma CountHead(lines: seq<string>)
    requires lines != []
    ensures CountOpens(lines) == (if Opens(lines[0]) then 1 else 0) + CountOpens(lines[1..])
    ensures CountCloses(lines) == (if Closes(lines[0]) then 1 else 0) + CountCloses(lines[1..])
  {
  }

  lemma SliceShift<T>(s: seq<T>, i: nat)
    requires 0 < i < |s|
    ensures s[..i][1..] == s[1..][..i - 1] && s[..i + 1][1..] == s[1..][..i]
    ensures s[..i][0] == s[0] && s[..i + 1][0] == s[0]
  {
  }

  /** Re-indenting re-indented lines changes nothing: the result depends on trimmed lines only. */
  lemma {:induction false} ReindentIdempotent(lines: seq<string>, depth: int)
    ensures Reindent(Reindent(lines, depth), depth) == Reindent(lines, depth)
  {
    if lines != [] {
      var r := Reindent(lines, depth);
      var d := if Closes(lines[0]) then depth - 2 else depth;
      var line := Indent(lines[0], d);
      var next := if Opens(line) then d + 2 else d;
      IndentKeepsCode(lines[0], d);
      assert r == [line] + Reindent(lines[1..], next);
      assert r[0] == line && r[1..] == Reindent(lines[1..], next);
      assert Indent(line, d) == line;
      ReindentIdempotent(lines[1..], next);
    }
  }

  /**
   * A three-line block: its body goes two spaces in and its closing line comes back to
   * column 0, each line keeping its code.
   */
  lemma ReindentBlock(open: string, body: string, close: string)
    requires Opens(open) && !Closes(open)
    requires !Opens(body) && !Closes(body)
    requires Closes(close)
    ensures Reindent([open, body, close], 0)
      == [TrimStart(open), "  " + TrimStart(body), TrimStart(close)]
  {
    ReindentPair(body, close, 2);
    var r0 := ReindentCons(open, [body, close], 0);
    assert [open] + [body, close] == [open, body, close];
    IndentBy(open, 0);
    IndentBy(body, 2);
    IndentBy(close, 0);
  }

  lemma ReindentPair(a: string, b: string, depth: int)
    ensures var d := if Closes(a) then depth - 2 else depth;
      var n := if Opens(a) then d + 2 else d;
      Reindent([a, b], depth) == [Indent(a, d), Indent(b, if Closes(b) then n - 2 else n)]
  {
    var d := if Closes(a) then depth - 2 else depth;
    var n := if Opens(a) then d + 2 else d;
    ReindentLast(b, n);
    var r := ReindentCons(a, [b], depth);
    assert [a] + [b] == [a, b];
  }

  lemma ReindentLast(line: string, depth: int)
    ensures Reindent([line], depth) == [Indent(line, if Closes(line) then depth - 2 else depth)]
  {
    var r := ReindentCons(line, [], depth);
    assert [line] + [] == [line];
  }

  lemma IndentBy(line: string, depth: int)
    ensures depth <= 0 ==> Indent(line, depth) == TrimStart(line)
    ensures depth == 2 ==> Indent(line, depth) == "  " + TrimStart(line)
  {
    assert Spaces(0) == "" && Spaces(2) == "  ";
  }

  /**
   * A stray closing line takes the depth below zero, yet the next line is not indented by a
   * negative width: it starts at column 0.
   */
  lemma ReindentStrayClose(close: string, line: string)
    requires Closes(close) && !Opens(close) && !Closes(line)
    ensures Reindent([close, line], 0) == [TrimStart(close), TrimStart(line)]
  {
    ReindentPair(close, line, 0);
    IndentBy(close, 0);
    IndentBy(line, -2);
  }

  lemma ReindentCons(line: string, rest: seq<string>, depth: int) returns (r: seq<string>)
    ensures r == Reindent(rest, if Opens(line) then (if Closes(line) then depth - 2 else depth) + 2
                               else (if Closes(line) then depth - 2 else depth))
    ensures Reindent([line] + rest, depth)
      == [Indent(line, if Closes(line) then depth - 2 else depth)] + r
  {
    var d := if Closes(line) then depth - 2 else depth;
    IndentKeepsCode(line, d);
    assert ([line] + rest)[0] == line && ([line] + rest)[1..] == rest;
    r := Reindent(rest, if Opens(line) then d + 2 else d);
  }

  /** Re-indentation keeps every character except whitespace in front of a line's code. */
  lemma IndentKeepsChars(line: string, depth: int, c: char)
    ensures c != ' ' && c in Indent(line, depth) ==> c in line
    ensures !IsWs(c) && c in line ==> c in Indent(line, depth)
  {
    var n := WsRunFrom(line, 0);
    var sp := if depth < 0 then 0 else depth;
    if c != ' ' && c in Indent(line, depth) {
      var k :| 0 <= k < |Indent(line, depth)| && Indent(line, depth)[k] == c;
      assert k >= sp;
      assert line[n + k - sp] == c;
    }
    if !IsWs(c) && c in line {
      var k :| 0 <= k < |line| && line[k] == c;
      assert k >= n;
      assert Indent(line, depth)[sp + k - n] == c;
    }
  }

  /** A character other than the separator occurs in a join exactly when it occurs in a part. */
  lemma {:induction false} CharInJoin(parts: seq<string>, sep: char, c: char)
    requires c != sep
    ensures c in Join(parts, [sep]) <==> exists i :: 0 <= i < |parts| && c in parts[i]
  {
    if |parts| > 1 {
      CharInJoin(parts[1..], sep, c);
      var j := Join(parts[1..], [sep]);
      assert Join(parts, [sep]) == parts[0] + [sep] + j;
      if c in Join(parts, [sep]) && c !in parts[0] {
        assert c in j;
        var i :| 0 <= i < |parts[1..]| && c in parts[1..][i];
        assert c in parts[i + 1];
      }
      if exists i :: 0 <= i < |parts| && c in parts[i] {
        var i :| 0 <= i < |parts| && c in parts[i];
        if i > 0 {
          assert c in parts[1..][i - 1];
        }
      }
    }
  }

  /** The re-indentation step: only text holding both braces is split, re-indented and rejoined. */
  function FixIndentation(s: string): string {
    if '{' in s && '}' in s then Join(Reindent(Split(s, '\n'), 0), "\n") else s
  }

  /** Re-indentation keeps the number of lines and rewrites each by `Reindent` from depth 0. */
  lemma FixIndentationLines(s: string)
    requires '{' in s && '}' in s
    ensures Split(FixIndentation(s), '\n') == Reindent(Split(s, '\n'), 0)
    ensures |Split(FixIndentation(s), '\n')| == |Split(s, '\n')|
  {
    var ls := Split(s, '\n');
    var r := Reindent(ls, 0);
    forall i | 0 <= i < |r| ensures '\n' !in r[i] {
      ReindentByCounts(ls, 0, i);
      IndentKeepsChars(ls[i], 2 * CountOpens(ls[..i]) - 2 * CountCloses(ls[..i + 1]), '\n');
    }
    SplitJoin(r, '\n');
  }

  /** Re-indenting re-indented text changes nothing. */
  lemma FixIndentationIdempotent(s: string)
    ensures FixIndentation(FixIndentation(s)) == FixIndentation(s)
  {
    if '{' in s && '}' in s {
      var ls := Split(s, '\n');
      var r := Reindent(ls, 0);
      var t := Join(r, "\n");
      FixIndentationLines(s);
      JoinSplit(s, '\n');
      KeepsBrace(ls, '{');
      KeepsBrace(ls, '}');
      ReindentIdempotent(ls, 0);
    }
  }

  /** A brace in the lines is still there after re-indenting and joining them. */
  lemma KeepsBrace(ls: seq<string>, c: char)
    requires c == '{' || c == '}'
    requires c in Join(ls, "\n")
    ensures c in Join(Reindent(ls, 0), "\n")
  {
    CharInJoin(ls, '\n', c);
    var i :| 0 <= i < |ls| && c in ls[i];
    var r := Reindent(ls, 0);
    KeepsBraceAt(ls, i, c, 0);
    CharInJoin(r, '\n', c);
  }

  /** A brace on a line is still on that line after re-indenting from any depth. */
  lemma {:induction false} KeepsBraceAt(ls: seq<string>, i: nat, c: char, depth: int)
    requires c == '{' || c == '}'
    requires i < |ls| && c in ls[i]
    ensures c in Reindent(ls, depth)[i]
  {
    if i == 0 {
      var d := if Closes(ls[0]) then depth - 2 else depth;
      assert Reindent(ls, depth)[0] == Indent(ls[0], d);
      BraceSurvivesIndent(ls[0], d, c);
    } else {
      var next := ReindentTail(ls, depth, i);
      KeepsBraceAt(ls[1..], i - 1, c, next);
    }
  }

  lemma BraceSurvivesIndent(line: string, depth: int, c: char)
    requires c == '{' || c == '}'
    requires c in line
    ensures c in Indent(line, depth)
  {
    assert !IsWs(c);
    IndentKeepsChars(line, depth, c);
  }

  /** Text without both braces is left as it is (code in a language without braces). */
  lemma FixIndentationNeedsBothBraces(s: string)
    requires '{' !in s || '}' !in s
    ensures FixIndentation(s) == s
  {
  }

  // Reconciliation

  /**
   * `getCleanResult` of a code prompt: the text prompt's reconciliation, replaced by the fenced
   * body when the reply has one, then re-indented.
   */
  function CodeClean(p: ComplexPrompt, buffer: seq<SubPromptResult>, raw: string): string
    requires TextReady(p, buffer)
  {
    var text := TextClean(p, buffer, raw);
    FixIndentation(match FencedBody(raw) case Some(b) => b case None => text)
  }

  /** A fenced reply is reconciled to its re-indented body, whatever the buffer holds. */
  lemma CodeCleanOfFencedReply(p: ComplexPrompt, buffer: seq<SubPromptResult>,
                               pre: string, lang: string, body: string, post: string)
    requires TextReady(p, buffer)
    requires '`' !in pre && '`' !in post && |body| >= 1
    requires forall k :: 0 <= k < |lang| ==> IsLetter(lang[k])
    ensures CodeClean(p, buffer, pre + FenceOpen + lang + "\n" + body + FenceClose + post)
      == FixIndentation(body)
  {
    FencedBodyOfBlock(pre, lang, body, post);
  }

  /** A reply without a fence is reconciled as by a text prompt, then re-indented. */
  lemma CodeCleanOfPlainReply(p: ComplexPrompt, buffer: seq<SubPromptResult>, raw: string)
    requires TextReady(p, buffer) && '`' !in raw
    ensures CodeClean(p, buffer, raw) == FixIndentation(TextClean(p, buffer, raw))
  {
    NoFenceWithoutBackquote(raw);
  }

  /** The inherited instruction refers to entities as code. */
  lemma CodeInstruction(t: string, e: EntityElement)
    ensures Instruction([TextSeg(t), EntitySeg(e)], "code", 0) == t + "code delimited by 0]"
  {
    TagsZeroOne();
    var es := [TextSeg(t), EntitySeg(e)];
    assert es[1..] == [EntitySeg(e)] && es[1..][1..] == [];
    assert Instruction(es[1..], "code", 0) == "code" + " delimited by " + Tag(0) + "";
    assert Instruction(es, "code", 0) == t + Instruction(es[1..], "code", 0);
  }

  /** The loop of `getCleanResult`: rewrites each line in place, carrying the depth along. */
  method ReindentInPlace(lines: array<string>)
    modifies lines
    ensures lines[..] == Reindent(old(lines[..]), 0)
  {
    ghost var input := lines[..];
    var indentation := 0;
    for i := 0 to lines.Length
      invariant lines[..i] + Reindent(input[i..], indentation) == Reindent(input, 0)
      invariant lines[i..] == input[i..]
    {
      ghost var before := indentation;
      var line := lines[i];
      assert line == input[i];
      if Closes(line) {
        indentation := indentation - 2;
      }
      var rewritten := Spaces(if indentation < 0 then 0 else indentation) + TrimStart(line);
      assert rewritten == Indent(input[i], indentation);
      if Opens(rewritten) {
        indentation := indentation + 2;
      }
      ghost var current := lines[..];
      ReindentStep(current[..i], input, i, before, rewritten, indentation, Reindent(input, 0));
      UpdateAt(current, i, rewritten);
      lines[i] := rewritten;
      assert lines[..] == current[i := rewritten];
    }
    assert input[lines.Length..] == [];
    assert lines[..lines.Length] == lines[..];
  }

  /** One turn of the loop: the next line rewritten at the depth it carries, and the depth after it. */
  lemma ReindentStep(done: seq<string>, input: seq<string>, i: nat, depth: int,
                     line: string, next: int, whole: seq<string>)
    requires i < |input| && done + Reindent(input[i..], depth) == whole
    requires line == Indent(input[i], if Closes(input[i]) then depth - 2 else depth)
    requires next == (if Opens(line) then (if Closes(input[i]) then depth - 2 else depth) + 2
                      else (if Closes(input[i]) then depth - 2 else depth))
    ensures (done + [line]) + Reindent(input[i + 1..], next) == whole
  {
    assert input[i..][0] == input[i] && input[i..][1..] == input[i + 1..];
    assert Reindent(input[i..], depth) == [line] + Reindent(input[i + 1..], next);
  }

  /**
   * `getCleanResult` of a code prompt: the inherited reconciliation (with its effect on the
   * buffer), the fenced body if any, and the in-place re-indentation of its lines.
   */
  method CleanCode(p: TextPrompt, raw: string) returns (r: string)
    requires p.Valid() && p.isCode
    modifies p
    ensures r == CodeClean(p.Base(), old(p.subPromptResults), raw)
    ensures |p.targets| > 0 && |p.targets| == |old(p.subPromptResults)| ==>
      p.subPromptResults == SortBy(old(p.subPromptResults), ResultStart)
    ensures !(|p.targets| > 0 && |p.targets| == |old(p.subPromptResults)|) ==>
      p.subPromptResults == old(p.subPromptResults)
    ensures p.Valid()
  {
    r := p.CleanResult(raw);
    var fenced := FencedBody(raw);
    if fenced.Some? {
      r := fenced.value;
    }
    r := FixIndentationOf(r);
  }

  /** The re-indentation step: split into lines, rewrite them in place, join them again. */
  method FixIndentationOf(s: string) returns (r: string)
    ensures r == FixIndentation(s)
  {
    r := s;
    if '{' in s && '}' in s {
      var parts := Split(s, '\n');
      var lines := new string[|parts|](i requires 0 <= i < |parts| => parts[i]);
      assert lines[..] == parts;
      ReindentInPlace(lines);
      r := Join(lines[..], "\n");
    }
  }
}
