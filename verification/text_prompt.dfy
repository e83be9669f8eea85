/**
 * Prompts over a text artifact. A prompt with targets becomes one sub-request per target, in
 * which the artifact is shown with the target replaced by `<blank>` and every referenced entity
 * wrapped in `k]…k]`; the replies are buffered per target and spliced back into the artifact at
 * the targets' original offsets. A prompt without targets becomes one whole-artifact request
 * whose reply has the `k]` tags stripped.
 */
module TextPrompts {
  import opened Wrappers
  import opened JsString
  import opened Seqs
  import opened Element
  import opened ComplexPrompts

  const Blank := "<blank>"
  const BlankEcho := "<blank>: "
  const Arrow := " -> "

  /** One buffered reply: the target it answers and the raw text the service returned. */
  datatype SubPromptResult = SubPromptResult(target: EntityElement, result: string)

  predicate ResultsAreSpans(rs: seq<SubPromptResult>) {
    forall i :: 0 <= i < |rs| ==> IsTextSpan(rs[i].target)
  }

  /** Sort key of a buffered reply: its target's start offset. */
  function ResultStart(r: SubPromptResult): int {
    StartOf(r.target)
  }

  function ResultEnd(r: SubPromptResult): int {
    EndOf(r.target)
  }

  // ---------------------------------------------------------------------------------------
  // cleanReplacement

  /** The text of the artifact that a target span covers. */
  function PreviousText(entityStr: string, target: EntityElement): string
  {
    Substring(entityStr, StartOf(target), EndOf(target))
  }

  /** Drops one echo of `previous -> `, then one echo of `<blank>: `, from the front of a reply. */
  function StripEchoes(previous: string, result: string): (r: string)
    ensures EndsWith(result, r)
  {
    var r1 := if StartsWith(result, previous + Arrow) then result[|previous + Arrow|..] else result;
    var r2 := if StartsWith(r1, BlankEcho) then r1[|BlankEcho|..] else r1;
    assert result[|result| - |r1|..] == r1;
    assert r1[|r1| - |r2|..] == r2;
    r2
  }

  /**
   * `cleanReplacement`: the trimmed reply, framed by the leading and trailing whitespace runs
   * of the text it replaces.
   */
  function CleanReplacement(entityStr: string, target: EntityElement, result: string): string
  {
    var previous := PreviousText(entityStr, target);
    LeadingWs(previous) + Trim(StripEchoes(previous, result)) + TrailingWs(previous)
  }

  /**
   * Whatever the reply, the cleaned replacement starts and ends with exactly the whitespace
   * runs of the replaced text, and what lies between them is the trimmed reply.
   */
  lemma CleanReplacementKeepsSpacing(entityStr: string, target: EntityElement, result: string)
    requires Trim(StripEchoes(PreviousText(entityStr, target), result)) != []
    ensures var previous := PreviousText(entityStr, target);
      var r := CleanReplacement(entityStr, target, result);
      LeadingWs(r) == LeadingWs(previous) && TrailingWs(r) == TrailingWs(previous)
      && Trim(r) == Trim(StripEchoes(previous, result))
  {
    var previous := PreviousText(entityStr, target);
    var l, core, t := LeadingWs(previous), Trim(StripEchoes(previous, result)), TrailingWs(previous);
    var r := CleanReplacement(entityStr, target, result);
    assert r == l + core + t;
    PaddedParts(l, core, t);
  }

  /** A blank span is restored on both sides of the reply: its whitespace is duplicated. */
  lemma CleanReplacementOfBlankSpan(entityStr: string, target: EntityElement, result: string)
    requires AllWs(PreviousText(entityStr, target))
    ensures var previous := PreviousText(entityStr, target);
      CleanReplacement(entityStr, target, result)
        == previous + Trim(StripEchoes(previous, result)) + previous
  {
    AllWsLeadingTrailing(PreviousText(entityStr, target));
  }

  /** A reply that echoes `previous -> ` has that echo, and only that echo, removed. */
  lemma CleanReplacementDropsArrowEcho(entityStr: string, target: EntityElement, x: string)
    requires !StartsWith(x, BlankEcho)
    ensures var previous := PreviousText(entityStr, target);
      CleanReplacement(entityStr, target, previous + Arrow + x)
        == LeadingWs(previous) + Trim(x) + TrailingWs(previous)
  {
    var previous := PreviousText(entityStr, target);
    var result := previous + Arrow + x;
    assert result[..|previous + Arrow|] == previous + Arrow;
    assert result[|previous + Arrow|..] == x;
  }

  /** A reply that starts with `<blank>: ` has that prefix removed before trimming. */
  lemma CleanReplacementDropsBlankEcho(entityStr: string, target: EntityElement, x: string)
    requires !StartsWith(BlankEcho + x, PreviousText(entityStr, target) + Arrow)
    ensures var previous := PreviousText(entityStr, target);
      CleanReplacement(entityStr, target, BlankEcho + x)
        == LeadingWs(previous) + Trim(x) + TrailingWs(previous)
  {
    var result := BlankEcho + x;
    assert result[..|BlankEcho|] == BlankEcho;
    assert result[|BlankEcho|..] == x;
  }

  /** Replying with the target's own (trimmed) text gives the target's text back. */
  lemma CleanReplacementOfSameText(entityStr: string, target: EntityElement)
    requires !AllWs(PreviousText(entityStr, target))
    requires !StartsWith(Trim(PreviousText(entityStr, target)), BlankEcho)
    ensures CleanReplacement(entityStr, target, Trim(PreviousText(entityStr, target)))
      == PreviousText(entityStr, target)
  {
    var previous := PreviousText(entityStr, target);
    var core := Trim(previous);
    assert Trim(core) == core by {
      TrimOfPadded([], core, []);
      assert [] + core + [] == core;
    }
    TrimDecomposition(previous);
    assert !StartsWith(core, previous + Arrow) by {
      assert |core| <= |previous|;
    }
    assert StripEchoes(previous, core) == core;
  }

  // ---------------------------------------------------------------------------------------
  // Splicing replacements into the artifact

  /** A replacement of the span `[start, end)` by `repl`. */
  datatype Piece = Piece(start: int, end: int, repl: string)

  /**
   * The accumulation both reconciliation and tagging perform: the text from the last offset to
   * the next piece's start, then the piece's replacement, and the rest of the text at the end.
   * Offsets are used as `substring` uses them, clamped and swapped.
   */
  function Splice(s: string, ps: seq<Piece>, from: int): (r: string)
    ensures ps == [] && 0 <= from <= |s| ==> r == s[from..]
    decreases |ps|
  {
    if ps == [] then Substring(s, from, |s|)
    else Substring(s, from, ps[0].start) + ps[0].repl + Splice(s, ps[1..], ps[0].end)
  }

  /** Pieces lie inside the text and follow each other without overlapping. */
  predicate Ordered(s: string, ps: seq<Piece>) {
    (forall i :: 0 <= i < |ps| ==> 0 <= ps[i].start <= ps[i].end <= |s|)
    && (forall i, j :: 0 <= i < j < |ps| ==> ps[i].end <= ps[j].start)
  }

  /** The offset before which a list of pieces leaves the text alone. */
  function FirstStart(s: string, ps: seq<Piece>): int {
    if ps == [] then |s| else ps[0].start
  }

  function ReplaceSpan(s: string, p: Piece): (r: string)
    requires 0 <= p.start <= p.end <= |s|
    ensures |r| == |s| - (p.end - p.start) + |p.repl|
  {
    s[..p.start] + p.repl + s[p.end..]
  }

  /**
   * Reference definition: every span replaced, the rightmost first, so that the offsets of the
   * spans still to be replaced stay valid.
   */
  function ReplaceAll(s: string, ps: seq<Piece>): (r: string)
    requires Ordered(s, ps)
    ensures FirstStart(s, ps) <= |r| && r[..FirstStart(s, ps)] == s[..FirstStart(s, ps)]
  {
    if ps == [] then s
    else
      var t := ReplaceAll(s, ps[1..]);
      assert ps[0].end <= FirstStart(s, ps[1..]);
      assert t[..ps[0].start] == s[..ps[0].start];
      ReplaceSpan(t, ps[0])
  }

  /** Splicing sorted, disjoint pieces replaces each span by its replacement and nothing else. */
  lemma {:induction false} SpliceReplacesSpans(s: string, ps: seq<Piece>, from: int)
    requires Ordered(s, ps) && 0 <= from <= FirstStart(s, ps)
    ensures s[..from] + Splice(s, ps, from) == ReplaceAll(s, ps)
    decreases |ps|
  {
    if ps == [] {
      assert s[..from] + s[from..] == s;
    } else {
      var p, rest := ps[0], ps[1..];
      OrderedTail(s, ps);
      SpliceReplacesSpans(s, rest, p.end);
      var tail := Splice(s, rest, p.end);
      var t := ReplaceAll(s, rest);
      assert Splice(s, ps, from) == s[from..p.start] + p.repl + tail;
      assert ReplaceAll(s, ps) == t[..p.start] + p.repl + t[p.end..];
      SpliceStep(s, from, p, tail, t);
    }
  }

  /** The text algebra of one splicing step. */
  lemma SpliceStep(s: string, from: int, p: Piece, tail: string, t: string)
    requires 0 <= from <= p.start <= p.end <= |s|
    requires t == s[..p.end] + tail
    ensures s[..from] + (s[from..p.start] + p.repl + tail) == t[..p.start] + p.repl + t[p.end..]
  {
    assert t[..p.start] == s[..p.start];
    assert t[p.end..] == tail;
    assert s[..from] + s[from..p.start] == s[..p.start];
  }

  /** Dropping the first piece keeps the rest ordered, and they all start after it ends. */
  lemma OrderedTail(s: string, ps: seq<Piece>)
    requires Ordered(s, ps) && ps != []
    ensures Ordered(s, ps[1..]) && ps[0].end <= FirstStart(s, ps[1..])
  {
    if |ps| > 1 {
      assert ps[0].end <= ps[1].start;
    }
  }

  // ---------------------------------------------------------------------------------------
  // getCleanResult

  function PieceOf(entityStr: string, r: SubPromptResult): Piece
  {
    Piece(StartOf(r.target), EndOf(r.target), CleanReplacement(entityStr, r.target, r.result))
  }

  function Pieces(entityStr: string, rs: seq<SubPromptResult>): seq<Piece> {
    seq(|rs|, i requires 0 <= i < |rs| => PieceOf(entityStr, rs[i]))
  }

  function Tag(k: nat): string {
    IntToString(k) + "]"
  }

  /** Removes every `k]` tag, for `k` from `from` up to `n - 1`, one tag number after another. */
  function StripTags(s: string, from: nat, n: nat): (r: string)
    ensures |r| <= |s|
    decreases n - from
  {
    if from >= n then s else StripTags(RemoveAll(s, Tag(from)), from + 1, n)
  }

  lemma {:induction false} StripTagsWithoutBrackets(s: string, from: nat, n: nat)
    requires ']' !in s
    ensures StripTags(s, from, n) == s
    decreases n - from
  {
    if from < n {
      var pat := Tag(from);
      assert pat[|pat| - 1] == ']';
      forall j ensures !OccursAt(s, pat, j) {
        if OccursAt(s, pat, j) {
          OccurrenceEnd(s, pat, j);
        }
      }
      StripTagsWithoutBrackets(s, from + 1, n);
    }
  }

  /** A reply as the tagging asks for it: plain text and tag marks `k]`. */
  datatype Chunk = Words(text: string) | Mark(k: nat)

  /** The reply with only the marks numbered `from` or more left in it. */
  function Rendered(cs: seq<Chunk>, from: nat): string {
    if cs == [] then ""
    else RenderedChunk(cs[0], from) + Rendered(cs[1..], from)
  }

  function RenderedChunk(c: Chunk, from: nat): string {
    match c
    case Words(t) => t
    case Mark(k) => if k < from then "" else Tag(k)
  }

  /** The plain text of a reply, every mark left out. */
  function Plain(cs: seq<Chunk>): string {
    if cs == [] then "" else (if cs[0].Words? then cs[0].text else "") + Plain(cs[1..])
  }

  /** Texts hold no `]`, and marks are single-digit. */
  predicate SingleDigitMarks(cs: seq<Chunk>) {
    forall i :: 0 <= i < |cs| ==> match cs[i] case Words(t) => ']' !in t case Mark(k) => k < 10
  }

  /** A single-digit tag is its digit and the bracket. */
  lemma SingleDigitTag(k: nat)
    requires k < 10
    ensures Tag(k) == [DigitChar(k), ']']
  {
  }

  /** A tag never starts with the bracket, whatever its number. */
  lemma TagStart(k: nat)
    ensures |Tag(k)| >= 2 && Tag(k)[0] != ']' && Tag(k)[|Tag(k)| - 1] == ']'
  {
    IntToStringChars(k);
    assert Tag(k)[0] == IntToString(k)[0];
  }

  /** What is left of a reply never starts with a bracket. */
  lemma {:induction false} RenderedStart(cs: seq<Chunk>, from: nat)
    requires SingleDigitMarks(cs)
    ensures Rendered(cs, from) == [] || Rendered(cs, from)[0] != ']'
    decreases |cs|
  {
    if cs != [] {
      assert SingleDigitMarks(cs[1..]) by {
        forall i | 0 <= i < |cs[1..]| ensures cs[1..][i] == cs[i + 1] { }
      }
      RenderedStart(cs[1..], from);
      match cs[0]
      case Words(t) => {
        assert t != [] ==> t[0] in t;
      }
      case Mark(k) => {
        TagStart(k);
      }
    }
  }

  /** Removing tag `m` from one chunk removes it if the chunk is that mark, and nothing else. */
  lemma RemoveMarkFromChunk(c: Chunk, m: nat)
    requires m < 10 && match c case Words(t) => ']' !in t case Mark(k) => k < 10
    ensures RemoveAll(RenderedChunk(c, m), Tag(m)) == RenderedChunk(c, m + 1)
  {
    var pat := Tag(m);
    SingleDigitTag(m);
    match c
    case Words(t) => {
      OccurrencesHoldLast(t, pat);
    }
    case Mark(k) => {
      if k == m {
        assert pat + [] == pat;
        RemoveAllLeadingPattern(pat, []);
      } else if k > m {
        SingleDigitTag(k);
        DigitCharsDiffer(k, m);
        assert Tag(k)[0] != pat[0];
      }
    }
  }

  /** Removing tag `m` from a reply drops exactly its marks `m]`. */
  lemma {:induction false} RemoveMark(cs: seq<Chunk>, m: nat)
    requires SingleDigitMarks(cs) && m < 10
    ensures RemoveAll(Rendered(cs, m), Tag(m)) == Rendered(cs, m + 1)
    decreases |cs|
  {
    var pat := Tag(m);
    SingleDigitTag(m);
    if cs != [] {
      var h, tail := RenderedChunk(cs[0], m), Rendered(cs[1..], m);
      assert SingleDigitMarks(cs[1..]) by {
        forall i | 0 <= i < |cs[1..]| ensures cs[1..][i] == cs[i + 1] { }
      }
      forall j | |h| - |pat| < j < |h| && OccursAt(h + tail, pat, j)
        ensures tail != [] && tail[0] == ']'
      {
        assert (h + tail)[j..j + 2][1] == (h + tail)[|h|];
      }
      RenderedStart(cs[1..], m);
      RemoveAllSplit(h, tail, pat);
      RemoveMarkFromChunk(cs[0], m);
      RemoveMark(cs[1..], m);
    }
  }

  /**
   * Removing the tags `from]` up to `n - 1]`, one number after another, drops exactly those
   * marks from a reply with single-digit marks.
   */
  lemma {:induction false} StripTagsOfMarkedReply(cs: seq<Chunk>, from: nat, n: nat)
    requires SingleDigitMarks(cs) && from <= n <= 10
    ensures StripTags(Rendered(cs, from), from, n) == Rendered(cs, n)
    decreases n - from
  {
    if from < n {
      RemoveMark(cs, from);
      StripTagsOfMarkedReply(cs, from + 1, n);
    }
  }

  /** With every mark numbered below `n`, nothing but the plain text is left. */
  lemma {:induction false} RenderedPlain(cs: seq<Chunk>, n: nat)
    requires forall i :: 0 <= i < |cs| && cs[i].Mark? ==> cs[i].k < n
    ensures Rendered(cs, n) == Plain(cs)
    decreases |cs|
  {
    if cs != [] {
      assert forall i :: 0 <= i < |cs[1..]| ==> cs[1..][i] == cs[i + 1];
      RenderedPlain(cs[1..], n);
    }
  }

  /**
   * The reply to an untargeted prompt with at most ten entities, written as the prompt asks
   * (text without brackets and the tags `0]` to `n - 1]`), loses its tags and keeps its text.
   */
  lemma StripTagsOfTaggedReply(cs: seq<Chunk>, n: nat)
    requires SingleDigitMarks(cs) && n <= 10
    requires forall i :: 0 <= i < |cs| && cs[i].Mark? ==> cs[i].k < n
    ensures StripTags(Rendered(cs, 0), 0, n) == Plain(cs)
  {
    StripTagsOfMarkedReply(cs, 0, n);
    RenderedPlain(cs, n);
  }

  /**
   * From eleven entities on, removing `0]` first also cuts the `0]` off every tag `10]`, so
   * the digit `1` is left where the tags were.
   */
  lemma StripTagsCutsTagTen()
    ensures StripTags("10]x10]", 0, 11) == "1x1"
  {
    TagsZeroOne();
    RemoveZeroFromTen();
    StripTagsWithoutBrackets("1x1", 1, 11);
  }

  lemma RemoveZeroFromTen()
    ensures RemoveAll("10]x10]", "0]") == "1x1"
  {
    var pat := "0]";
    var rest := "x1" + pat + "";
    assert "10]x10]" == "1" + pat + rest;
    assert !OccursAt("1" + pat + rest, pat, 0) by {
      assert ("1" + pat + rest)[0] != pat[0];
    }
    RemoveAllDropsOccurrence("1", rest, pat);
    assert !OccursAt(rest, pat, 0) by {
      assert rest[0] != pat[0];
    }
    assert !OccursAt(rest, pat, 1) by {
      assert rest[2] != pat[1];
    }
    RemoveAllDropsOccurrence("x1", "", pat);
  }

  predicate TextReady(p: ComplexPrompt, buffer: seq<SubPromptResult>) {
    AllTextSpans(p.targets) && ResultsAreSpans(buffer)
  }

  /**
   * `getCleanResult` of a text prompt, given the buffered replies: with a reply for every
   * target, the replies spliced in ascending start order; with targets but missing replies, the
   * raw reply spliced into the first target; without targets, the raw reply with its tags
   * removed.
   */
  function TextClean(p: ComplexPrompt, buffer: seq<SubPromptResult>, raw: string): string
    requires TextReady(p, buffer)
  {
    if |p.targets| > 0 && |p.targets| == |buffer| then
      Splice(p.entityStr, Pieces(p.entityStr, SortBy(buffer, ResultStart)), 0)
    else if |p.targets| > 0 then
      var t := p.targets[0];
      Substring(p.entityStr, 0, StartOf(t)) + CleanReplacement(p.entityStr, t, raw)
        + Substring(p.entityStr, EndOf(t), |p.entityStr|)
    else
      StripTags(raw, 0, |Entities(p.promptElements)|)
  }

  /** Sorting keeps every buffered reply about a text span. */
  lemma SortedResultsAreSpans(buffer: seq<SubPromptResult>)
    requires ResultsAreSpans(buffer)
    ensures ResultsAreSpans(SortBy(buffer, ResultStart))
  {
    var sorted := SortBy(buffer, ResultStart);
    forall i | 0 <= i < |sorted| ensures IsTextSpan(sorted[i].target) {
      assert sorted[i] in multiset(buffer);
    }
  }

  /** The targets of a list of replies lie inside the text and follow each other without overlap. */
  predicate Disjoint(s: string, rs: seq<SubPromptResult>) {
    (forall i :: 0 <= i < |rs| ==> 0 <= StartOf(rs[i].target) <= EndOf(rs[i].target) <= |s|)
    && forall i, j :: 0 <= i < j < |rs| ==> EndOf(rs[i].target) <= StartOf(rs[j].target)
  }

  lemma {:induction false} PiecesOrdered(s: string, rs: seq<SubPromptResult>)
    requires Disjoint(s, rs)
    ensures Ordered(s, Pieces(s, rs))
  {
    var ps := Pieces(s, rs);
    forall i | 0 <= i < |ps| ensures 0 <= ps[i].start <= ps[i].end <= |s| {
      assert ps[i] == PieceOf(s, rs[i]);
    }
    forall i, j | 0 <= i < j < |ps| ensures ps[i].end <= ps[j].start {
      assert ps[i] == PieceOf(s, rs[i]) && ps[j] == PieceOf(s, rs[j]);
    }
  }

  /**
   * Targets that are non-empty, lie inside the text and pairwise do not overlap, in whatever
   * order the replies arrived.
   */
  predicate NonOverlapping(s: string, rs: seq<SubPromptResult>) {
    (forall i :: 0 <= i < |rs| ==> 0 <= StartOf(rs[i].target) && EndOf(rs[i].target) <= |s|)
    && Apart(rs, ResultStart, ResultEnd)
  }

  /** Sorting non-overlapping replies by start makes their targets follow each other. */
  lemma {:induction false} SortedDisjoint(s: string, rs: seq<SubPromptResult>)
    requires NonOverlapping(s, rs)
    ensures Disjoint(s, SortBy(rs, ResultStart))
  {
    var sorted := SortBy(rs, ResultStart);
    forall i | 0 <= i < |sorted|
      ensures 0 <= StartOf(sorted[i].target) <= EndOf(sorted[i].target) <= |s|
    {
      var x := IndexOfElement(rs, sorted[i]);
      assert ResultStart(rs[x]) < ResultEnd(rs[x]);
    }
    forall i, j | 0 <= i < j < |sorted|
      ensures EndOf(sorted[i].target) <= StartOf(sorted[j].target)
    {
      PermutedPairFollows(rs, sorted, ResultStart, ResultEnd, i, j);
    }
  }

  /**
   * With a reply for every target, and replies whose targets follow each other once sorted, the
   * result is the artifact with each target span replaced by its cleaned reply.
   */
  lemma {:induction false} TextCleanReplacesTargets(p: ComplexPrompt, buffer: seq<SubPromptResult>, raw: string)
    requires TextReady(p, buffer)
    requires |p.targets| > 0 && |p.targets| == |buffer|
    requires Disjoint(p.entityStr, SortBy(buffer, ResultStart))
    ensures TextClean(p, buffer, raw) == ReplaceAll(p.entityStr, Pieces(p.entityStr, SortBy(buffer, ResultStart)))
  {
    var sorted := SortBy(buffer, ResultStart);
    PiecesOrdered(p.entityStr, sorted);
    SpliceReplacesSpans(p.entityStr, Pieces(p.entityStr, sorted), 0);
    assert p.entityStr[..0] == [];
  }

  /**
   * The order in which replies arrived does not matter when no two targets start at the same
   * offset: the buffer is sorted before it is spliced.
   */
  lemma TextCleanIgnoresArrivalOrder(p: ComplexPrompt, b1: seq<SubPromptResult>,
                                     b2: seq<SubPromptResult>, raw: string)
    requires TextReady(p, b1) && TextReady(p, b2)
    requires multiset(b1) == multiset(b2) && DistinctKeys(b1, ResultStart)
    ensures TextClean(p, b1, raw) == TextClean(p, b2, raw)
  {
    assert |b1| == |multiset(b1)| == |multiset(b2)| == |b2|;
    SortIgnoresArrivalOrder(b1, b2, ResultStart);
  }

  /**
   * With targets but an incomplete buffer, only the first target is rewritten, with the raw
   * reply; the rest of the artifact is kept.
   */
  lemma TextCleanIncompleteBuffer(p: ComplexPrompt, buffer: seq<SubPromptResult>, raw: string)
    requires TextReady(p, buffer)
    requires |p.targets| > 0 && |p.targets| != |buffer|
    requires 0 <= StartOf(p.targets[0]) <= EndOf(p.targets[0]) <= |p.entityStr|
    ensures var t := p.targets[0];
      TextClean(p, buffer, raw) == ReplaceSpan(p.entityStr,
        Piece(StartOf(t), EndOf(t), CleanReplacement(p.entityStr, t, raw)))
  {
  }

  /** Without targets, a reply that contains no `]` is returned as it is. */
  lemma TextCleanUntaggedReply(p: ComplexPrompt, buffer: seq<SubPromptResult>, raw: string)
    requires TextReady(p, buffer) && |p.targets| == 0 && ']' !in raw
    ensures TextClean(p, buffer, raw) == raw
  {
    StripTagsWithoutBrackets(raw, 0, |Entities(p.promptElements)|);
  }

  /**
   * Without targets, a reply that carries the tags of the prompt's entities (at most ten of
   * them) is cleaned into its words alone.
   */
  lemma TextCleanOfTaggedReply(p: ComplexPrompt, buffer: seq<SubPromptResult>, cs: seq<Chunk>)
    requires TextReady(p, buffer) && |p.targets| == 0
    requires SingleDigitMarks(cs) && |Entities(p.promptElements)| <= 10
    requires forall i :: 0 <= i < |cs| && cs[i].Mark? ==> cs[i].k < |Entities(p.promptElements)|
    ensures TextClean(p, buffer, Rendered(cs, 0)) == Plain(cs)
  {
    StripTagsOfTaggedReply(cs, |Entities(p.promptElements)|);
  }

  // ---------------------------------------------------------------------------------------
  // getTaggedEntityStr

  datatype TagItem = TagItem(sidx: int, eidx: int, isTarget: bool)

  function SIdx(t: TagItem): int {
    t.sidx
  }

  /** The span of a referenced entity, to be wrapped in tags. */
  function EntityItem(e: EntityElement): TagItem {
    TagItem(StartOf(e), EndOf(e), false)
  }

  function EntityItems(es: seq<EntityElement>): seq<TagItem> {
    seq(|es|, i requires 0 <= i < |es| => EntityItem(es[i]))
  }

  /** The spans to tag: the target, if any, then the entities in segment order. */
  function TagItems(target: Option<EntityElement>, es: seq<PromptElement>): seq<TagItem>
  {
    (if target.Some? then [TagItem(StartOf(target.value), EndOf(target.value), true)] else [])
      + EntityItems(Entities(es))
  }

  /** The text that replaces a tagged span: `<blank>` for the target, `k]text k]` for an entity. */
  function TagRepl(s: string, e: TagItem, k: nat): string {
    if e.isTarget then Blank else Tag(k) + Substring(s, e.sidx, e.eidx) + Tag(k)
  }

  /** The entity counter after a tagged span: only entities are counted. */
  function NextCount(e: TagItem, k: nat): nat {
    if e.isTarget then k else k + 1
  }

  function EIdx(t: TagItem): int {
    t.eidx
  }

  /** How many of the items are entities. */
  function EntityCount(items: seq<TagItem>): nat {
    if items == [] then 0 else (if items[0].isTarget then 0 else 1) + EntityCount(items[1..])
  }

  /**
   * The replacement of each tagged span, the entities numbered from `k` in the order of the
   * (sorted) items.
   */
  function TagPieces(s: string, items: seq<TagItem>, k: nat): (ps: seq<Piece>)
    ensures |ps| == |items|
  {
    if items == [] then []
    else
      var e := items[0];
      [Piece(e.sidx, e.eidx, TagRepl(s, e, k))] + TagPieces(s, items[1..], NextCount(e, k))
  }

  /**
   * The piece of the item at `i` keeps the item's span, and an entity there is numbered `k`
   * plus the number of entities before it.
   */
  lemma {:induction false} TagPiecesAt(s: string, items: seq<TagItem>, k: nat, i: nat)
    requires i < |items|
    ensures TagPieces(s, items, k)[i]
      == Piece(items[i].sidx, items[i].eidx, TagRepl(s, items[i], k + EntityCount(items[..i])))
    decreases i
  {
    if i > 0 {
      var e, rest := items[0], items[1..];
      var k' := NextCount(e, k);
      TagPiecesAt(s, rest, k', i - 1);
      var pre := items[..i];
      assert pre[0] == e && pre[1..] == rest[..i - 1];
      assert EntityCount(pre) == (if e.isTarget then 0 else 1) + EntityCount(rest[..i - 1]);
      assert k + EntityCount(pre) == k' + EntityCount(rest[..i - 1]);
      assert rest[i - 1] == items[i];
      var ps, tail := TagPieces(s, items, k), TagPieces(s, rest, k');
      assert ps == [Piece(e.sidx, e.eidx, TagRepl(s, e, k))] + tail;
      assert ps[i] == tail[i - 1];
      assert tail[i - 1] == Piece(items[i].sidx, items[i].eidx, TagRepl(s, items[i], k + EntityCount(pre)));
    } else {
      assert EntityCount(items[..0]) == 0 by {
        assert items[..0] == [];
      }
      TagPiecesHead(s, items, k);
    }
  }

  lemma TagPiecesHead(s: string, items: seq<TagItem>, k: nat)
    requires items != []
    ensures TagPieces(s, items, k)[0] == Piece(items[0].sidx, items[0].eidx, TagRepl(s, items[0], k))
  {
  }

  /** `getTaggedEntityStr(s, target)` */
  function Tagged(s: string, target: Option<EntityElement>, es: seq<PromptElement>): string
  {
    Splice(s, TagPieces(s, SortBy(TagItems(target, es), SIdx), 0), 0)
  }

  /** The tagged spans lie inside the text. */
  predicate ItemsInside(s: string, items: seq<TagItem>) {
    forall i :: 0 <= i < |items| ==> 0 <= items[i].sidx && items[i].eidx <= |s|
  }

  /**
   * With the target and the entities non-empty, inside the artifact and pairwise apart, the
   * tagged artifact is the artifact with every span replaced, in ascending start order: the
   * target by `<blank>`, and the entity that is the `k`-th from the start by `k]`, its text and
   * `k]` again.
   */
  lemma TaggedReplacesSpans(s: string, target: Option<EntityElement>, es: seq<PromptElement>)
    requires ItemsInside(s, TagItems(target, es)) && Apart(TagItems(target, es), SIdx, EIdx)
    ensures var sorted := SortBy(TagItems(target, es), SIdx); var ps := TagPieces(s, sorted, 0);
      && Ordered(s, ps)
      && Tagged(s, target, es) == ReplaceAll(s, ps)
      && forall i :: 0 <= i < |sorted| ==>
           (ps[i].start == sorted[i].sidx && ps[i].end == sorted[i].eidx
            && ps[i].repl == if sorted[i].isTarget then Blank
                             else var k := EntityCount(sorted[..i]);
                               Tag(k) + s[sorted[i].sidx..sorted[i].eidx] + Tag(k))
  {
    var sorted := SortBy(TagItems(target, es), SIdx);
    var ps := TagPieces(s, sorted, 0);
    SortedItemsOrdered(s, TagItems(target, es));
    SpliceReplacesSpans(s, ps, 0);
    assert s[..0] + Splice(s, ps, 0) == Splice(s, ps, 0);
    assert Tagged(s, target, es) == Splice(s, ps, 0);
    OrderedTagPieces(s, sorted);
  }

  /** The pieces of items whose pieces are in order, item by item. */
  lemma OrderedTagPieces(s: string, items: seq<TagItem>)
    requires Ordered(s, TagPieces(s, items, 0))
    ensures var ps := TagPieces(s, items, 0);
      forall i :: 0 <= i < |items| ==>
        (ps[i].start == items[i].sidx && ps[i].end == items[i].eidx
         && ps[i].repl == if items[i].isTarget then Blank
                          else var k := EntityCount(items[..i]);
                            Tag(k) + s[items[i].sidx..items[i].eidx] + Tag(k))
  {
    var ps := TagPieces(s, items, 0);
    forall i | 0 <= i < |items|
      ensures ps[i].start == items[i].sidx && ps[i].end == items[i].eidx
      ensures ps[i].repl == if items[i].isTarget then Blank
                            else var k := EntityCount(items[..i]);
                              Tag(k) + s[items[i].sidx..items[i].eidx] + Tag(k)
    {
      TagPiecesAt(s, items, 0, i);
      assert 0 <= ps[i].start <= ps[i].end <= |s|;
      TagPieceText(s, items, i);
    }
  }

  /** The piece of an item inside the text: `<blank>`, or the numbered tags around its text. */
  lemma TagPieceText(s: string, items: seq<TagItem>, i: nat)
    requires i < |items| && 0 <= items[i].sidx <= items[i].eidx <= |s|
    ensures TagPieces(s, items, 0)[i].repl == if items[i].isTarget then Blank
      else var k := EntityCount(items[..i]); Tag(k) + s[items[i].sidx..items[i].eidx] + Tag(k)
  {
    TagPiecesAt(s, items, 0, i);
  }

  /** Sorted by start, spans that are apart give pieces that follow each other. */
  lemma SortedItemsOrdered(s: string, items: seq<TagItem>)
    requires ItemsInside(s, items) && Apart(items, SIdx, EIdx)
    ensures Ordered(s, TagPieces(s, SortBy(items, SIdx), 0))
  {
    var ps := TagPieces(s, SortBy(items, SIdx), 0);
    forall i | 0 <= i < |ps| ensures 0 <= ps[i].start <= ps[i].end <= |s| {
      SortedPieceInside(s, items, i);
    }
    forall i, j | 0 <= i < j < |ps| ensures ps[i].end <= ps[j].start {
      SortedPiecesFollow(s, items, i, j);
    }
  }

  lemma SortedPieceInside(s: string, items: seq<TagItem>, i: nat)
    requires ItemsInside(s, items) && Apart(items, SIdx, EIdx) && i < |items|
    ensures var ps := TagPieces(s, SortBy(items, SIdx), 0); 0 <= ps[i].start <= ps[i].end <= |s|
  {
    var sorted := SortBy(items, SIdx);
    TagPiecesAt(s, sorted, 0, i);
    var x := IndexOfElement(items, sorted[i]);
    assert 0 <= items[x].sidx && items[x].eidx <= |s|;
    assert SIdx(items[x]) < EIdx(items[x]);
  }

  lemma SortedPiecesFollow(s: string, items: seq<TagItem>, i: nat, j: nat)
    requires Apart(items, SIdx, EIdx) && i < j < |items|
    ensures var ps := TagPieces(s, SortBy(items, SIdx), 0); ps[i].end <= ps[j].start
  {
    var sorted := SortBy(items, SIdx);
    TagPiecesAt(s, sorted, 0, i);
    TagPiecesAt(s, sorted, 0, j);
    assert SIdx(sorted[i]) <= SIdx(sorted[j]);
    PermutedPairFollows(items, sorted, SIdx, EIdx, i, j);
  }

  /** Nothing to tag: the artifact is returned unchanged. */
  lemma TaggedNothing(s: string, es: seq<PromptElement>)
    requires NoEntities(es)
    ensures Tagged(s, None, es) == s
  {
    EntitiesOfTexts(es);
  }

  /** A lone target is replaced by exactly `<blank>`, and the text around it is kept. */
  lemma TaggedTargetOnly(s: string, target: EntityElement, es: seq<PromptElement>)
    requires NoEntities(es)
    requires 0 <= StartOf(target) <= EndOf(target) <= |s|
    ensures Tagged(s, Some(target), es) == s[..StartOf(target)] + Blank + s[EndOf(target)..]
  {
    EntitiesOfTexts(es);
    var items := TagItems(Some(target), es);
    assert items == [TagItem(StartOf(target), EndOf(target), true)];
    assert SortBy(items, SIdx) == items;
    var ps := TagPieces(s, items, 0);
    assert ps == [Piece(StartOf(target), EndOf(target), Blank)];
    assert ps[1..] == [];
  }

  /**
   * Tags are numbered by position in the artifact while the instruction numbers entities in
   * segment order: with the first referenced entity placed after the second, `0]` wraps the
   * second entity's text.
   */
  lemma TagNumbersFollowPosition()
    ensures var a := EntityElement(0, 0, "b", "b", TextData(1, 2, "b"));
      var b := EntityElement(0, 0, "a", "a", TextData(0, 1, "a"));
      var es := [EntitySeg(a), EntitySeg(b)];
      Tagged("ab", None, es) == "0]a0]1]b1]"
      && Instruction(es, "text", 0) == "text delimited by 0]text delimited by 1]"
  {
    var a := EntityElement(0, 0, "b", "b", TextData(1, 2, "b"));
    var b := EntityElement(0, 0, "a", "a", TextData(0, 1, "a"));
    TagsZeroOne();
    ExampleItemsSorted(a, b);
    ExampleTagPieces("ab", [TagItem(0, 1, false), TagItem(1, 2, false)]);
    ExampleSplice();
    ExampleInstruction(a, b);
  }

  lemma ExampleInstruction(a: EntityElement, b: EntityElement)
    requires Tag(0) == "0]" && Tag(1) == "1]"
    ensures Instruction([EntitySeg(a), EntitySeg(b)], "text", 0)
      == "text delimited by 0]text delimited by 1]"
  {
    var es := [EntitySeg(a), EntitySeg(b)];
    assert es[1..] == [EntitySeg(b)] && es[1..][1..] == [];
    assert Instruction(es[1..][1..], "text", 2) == "";
    ExampleInstructionText(Tag(0), Tag(1));
  }

  lemma ExampleInstructionText(t0: string, t1: string)
    requires t0 == "0]" && t1 == "1]"
    ensures "text" + " delimited by " + t0 + ("text" + " delimited by " + t1 + "")
      == "text delimited by 0]text delimited by 1]"
  {
  }

  lemma TagsZeroOne()
    ensures Tag(0) == "0]" && Tag(1) == "1]"
  {
    assert IntToString(0) == "0" && IntToString(1) == "1";
  }

  lemma ExampleItemsSorted(a: EntityElement, b: EntityElement)
    requires a == EntityElement(0, 0, "b", "b", TextData(1, 2, "b"))
    requires b == EntityElement(0, 0, "a", "a", TextData(0, 1, "a"))
    ensures SortBy(TagItems(None, [EntitySeg(a), EntitySeg(b)]), SIdx)
      == [TagItem(0, 1, false), TagItem(1, 2, false)]
  {
    var es := [EntitySeg(a), EntitySeg(b)];
    assert es[1..] == [EntitySeg(b)] && es[1..][1..] == [];
    assert Entities(es) == [a, b];
    var items := TagItems(None, es);
    assert items == [TagItem(1, 2, false), TagItem(0, 1, false)];
    assert items[1..] == [TagItem(0, 1, false)] && items[1..][1..] == [];
  }

  lemma ExampleTagPieces(s: string, items: seq<TagItem>)
    requires Tag(0) == "0]" && Tag(1) == "1]"
    requires s == "ab" && items == [TagItem(0, 1, false), TagItem(1, 2, false)]
    ensures TagPieces(s, items, 0) == [Piece(0, 1, "0]a0]"), Piece(1, 2, "1]b1]")]
  {
    assert items[1..] == [TagItem(1, 2, false)] && items[1..][1..] == [];
    assert Tag(0) + Substring(s, 0, 1) + Tag(0) == "0]a0]";
    assert Tag(1) + Substring(s, 1, 2) + Tag(1) == "1]b1]";
    assert TagPieces(s, items[1..], 1) == [Piece(1, 2, Tag(1) + Substring(s, 1, 2) + Tag(1))];
  }

  lemma ExampleSplice()
    ensures Splice("ab", [Piece(0, 1, "0]a0]"), Piece(1, 2, "1]b1]")], 0) == "0]a0]1]b1]"
  {
    var ps := [Piece(0, 1, "0]a0]"), Piece(1, 2, "1]b1]")];
    assert ps[1..] == [Piece(1, 2, "1]b1]")] && ps[1..][1..] == [];
    assert Substring("ab", 0, 0) == [] && Substring("ab", 1, 1) == [];
  }

  // ---------------------------------------------------------------------------------------
  // toGPTPrompt

  /**
   * The instruction: text segments as they are, and `<type> delimited by k]` for the k-th
   * entity segment, counted in segment order.
   */
  function Instruction(es: seq<PromptElement>, typeStr: string, k: nat): string {
    if es == [] then ""
    else
      match es[0]
      case TextSeg(t) => t + Instruction(es[1..], typeStr, k)
      case EntitySeg(_) =>
        typeStr + " delimited by " + Tag(k) + Instruction(es[1..], typeStr, k + 1)
  }

  /** A prompt without entity segments has its own text as instruction. */
  lemma {:induction false} InstructionOfTexts(es: seq<PromptElement>, typeStr: string, k: nat)
    requires NoEntities(es)
    ensures Instruction(es, typeStr, k) == ToString(es)
  {
    if es != [] {
      InstructionOfTexts(es[1..], typeStr, k);
    }
  }

  /** The instruction of a concatenation: the second part continues the numbering of the first. */
  lemma {:induction false} InstructionAppend(a: seq<PromptElement>, b: seq<PromptElement>, typeStr: string, k: nat)
    ensures Instruction(a + b, typeStr, k)
      == Instruction(a, typeStr, k) + Instruction(b, typeStr, k + |Entities(a)|)
  {
    if a == [] {
      assert a + b == b;
      assert Instruction(a, typeStr, k) == "" && |Entities(a)| == 0;
      assert "" + Instruction(b, typeStr, k) == Instruction(b, typeStr, k);
    } else {
      var ab := a + b;
      assert ab[0] == a[0];
      assert ab[1..] == a[1..] + b;
      var k' := if a[0].EntitySeg? then k + 1 else k;
      var head := match a[0] case TextSeg(t) => t case EntitySeg(_) => typeStr + " delimited by " + Tag(k);
      assert k + |Entities(a)| == k' + |Entities(a[1..])|;
      InstructionAppend(a[1..], b, typeStr, k');
      JoinStep(Instruction(ab, typeStr, k), Instruction(a, typeStr, k), head,
        Instruction(a[1..], typeStr, k'), Instruction(b, typeStr, k + |Entities(a)|),
        Instruction(a[1..] + b, typeStr, k'));
    }
  }

  /** Regrouping one head in front of a concatenation. */
  lemma JoinStep(whole: string, left: string, head: string, x: string, y: string, rest: string)
    requires whole == head + rest && rest == x + y && left == head + x
    ensures whole == left + y
  {
    Assoc(head, x, y);
  }

  /**
   * Every entity segment is described by the type and the tag whose number
   * counts the entity segments before it; text segments are copied.
   */
  lemma InstructionAtSegment(es: seq<PromptElement>, typeStr: string, i: nat)
    requires i < |es|
    ensures var k := |Entities(es[..i])|;
      Instruction(es, typeStr, 0)
        == Instruction(es[..i], typeStr, 0)
          + (match es[i]
             case TextSeg(t) => t
             case EntitySeg(_) => typeStr + " delimited by " + Tag(k))
          + Instruction(es[i + 1..], typeStr, k + (if es[i].EntitySeg? then 1 else 0))
  {
    var k := |Entities(es[..i])|;
    var whole := es[..i] + es[i..];
    assert whole == es;
    InstructionAppend(es[..i], es[i..], typeStr, 0);
    assert Instruction(whole, typeStr, 0) == Instruction(es[..i], typeStr, 0) + Instruction(es[i..], typeStr, k);
    assert es[i..][0] == es[i] && es[i..][1..] == es[i + 1..];
    var seg := match es[i] case TextSeg(t) => t case EntitySeg(_) => typeStr + " delimited by " + Tag(k);
    var rest := Instruction(es[i + 1..], typeStr, k + (if es[i].EntitySeg? then 1 else 0));
    assert Instruction(es[i..], typeStr, k) == seg + rest;
    JoinTail(Instruction(es, typeStr, 0), Instruction(es[..i], typeStr, 0),
      Instruction(es[i..], typeStr, k), seg, rest);
  }

  /** Regrouping a split tail behind a prefix. */
  lemma JoinTail(whole: string, left: string, mid: string, seg: string, rest: string)
    requires whole == left + mid && mid == seg + rest
    ensures whole == left + seg + rest
  {
    Assoc(left, seg, rest);
  }

  /** The sub-request text for one target. */
  function TargetPrompt(p: ComplexPrompt, current: string, t: EntityElement, typeStr: string): (r: string)
    ensures StartsWith(r, Tagged(current, Some(t), p.promptElements) + "\n<blank>: "
      + Substring(current, StartOf(t), EndOf(t)) + "\n\nINSTRUCTION: "
      + Instruction(p.promptElements, typeStr, 0))
    ensures EndsWith(r, "\nRewrite <blank>. Follow INSTRUCTION\n<blank>:")
  {
    var tail := "\nRewrite <blank>. Follow INSTRUCTION\n<blank>:";
    var r := Tagged(current, Some(t), p.promptElements) + "\n<blank>: "
      + Substring(current, StartOf(t), EndOf(t)) + "\n\nINSTRUCTION: "
      + Instruction(p.promptElements, typeStr, 0) + tail;
    assert r[|r| - |tail|..] == tail;
    r
  }

  /** The sub-request text when nothing is targeted. */
  function WholePrompt(p: ComplexPrompt, current: string, typeStr: string): (r: string)
    ensures StartsWith(r, Tagged(current, None, p.promptElements) + "\n\n"
      + Instruction(p.promptElements, typeStr, 0))
    ensures EndsWith(r, "\nKeep rest of the " + typeStr + " identical")
  {
    var tail := "\nKeep rest of the " + typeStr + " identical";
    var r := Tagged(current, None, p.promptElements) + "\n\n"
      + Instruction(p.promptElements, typeStr, 0) + tail;
    assert r[|r| - |tail|..] == tail;
    r
  }

  /** `toGPTPrompt` of a text prompt: one sub-request per target, or one for the whole artifact. */
  function TextCompile(p: ComplexPrompt, current: string, typeStr: string): (r: seq<SubPrompt>)
    requires AllTextSpans(p.targets) && AllTextSpans(Entities(p.promptElements))
    ensures |p.targets| == 0 ==> |r| == 1 && r[0].onDone == Ignore
    ensures |p.targets| > 0 ==> |r| == |p.targets|
    ensures |p.targets| > 0 ==> forall i :: 0 <= i < |r| ==> r[i].onDone == Record(p.targets[i])
    ensures |p.targets| == 0 ==> StartsWith(r[0].promptStr,
      Tagged(current, None, p.promptElements) + "\n\n" + Instruction(p.promptElements, typeStr, 0))
    ensures |p.targets| == 0 ==> EndsWith(r[0].promptStr, "\nKeep rest of the " + typeStr + " identical")
    ensures forall i :: 0 <= i < |r| && |p.targets| > 0 ==>
      StartsWith(r[i].promptStr, Tagged(current, Some(p.targets[i]), p.promptElements) + "\n<blank>: "
        + Substring(current, StartOf(p.targets[i]), EndOf(p.targets[i])) + "\n\nINSTRUCTION: "
        + Instruction(p.promptElements, typeStr, 0))
    ensures forall i :: 0 <= i < |r| && |p.targets| > 0 ==>
      EndsWith(r[i].promptStr, "\nRewrite <blank>. Follow INSTRUCTION\n<blank>:")
  {
    if |p.targets| == 0 then [SubPrompt(WholePrompt(p, current, typeStr), Ignore)]
    else
      seq(|p.targets|, i requires 0 <= i < |p.targets| =>
        SubPrompt(TargetPrompt(p, current, p.targets[i], typeStr), Record(p.targets[i])))
  }

  lemma EntityItemsSnoc(es: seq<EntityElement>, e: EntityElement)
    ensures EntityItems(es + [e]) == EntityItems(es) + [EntityItem(e)]
  {
  }

  /** One step of the tagging loop. */
  lemma TagStep(s: string, items: seq<TagItem>, i: nat, k: nat, last: int)
    requires i < |items|
    ensures Splice(s, TagPieces(s, items[i..], k), last)
      == Substring(s, last, items[i].sidx) + TagRepl(s, items[i], k)
        + Splice(s, TagPieces(s, items[i + 1..], NextCount(items[i], k)), items[i].eidx)
  {
    assert items[i..][1..] == items[i + 1..];
  }

  /** One step of the reconstruction loop. */
  lemma SpliceResultsStep(s: string, rs: seq<SubPromptResult>, i: nat, last: int)
    requires i < |rs|
    ensures Splice(s, Pieces(s, rs[i..]), last)
      == Substring(s, last, StartOf(rs[i].target)) + PieceOf(s, rs[i]).repl
        + Splice(s, Pieces(s, rs[i + 1..]), EndOf(rs[i].target))
  {
    assert rs[i..][0] == rs[i] && rs[i..][1..] == rs[i + 1..];
    PiecesTail(s, rs[i..]);
  }

  lemma PiecesTail(s: string, rs: seq<SubPromptResult>)
    requires rs != []
    ensures Pieces(s, rs) != [] && Pieces(s, rs)[0] == PieceOf(s, rs[0])
    ensures Pieces(s, rs)[1..] == Pieces(s, rs[1..])
  {
  }

  /** Sorting keeps every buffered reply an answer to one of the targets. */
  lemma SortedResultsAnswerTargets(buffer: seq<SubPromptResult>, targets: seq<EntityElement>)
    requires forall i :: 0 <= i < |buffer| ==> buffer[i].target in targets
    ensures var sorted := SortBy(buffer, ResultStart);
      forall i :: 0 <= i < |sorted| ==> sorted[i].target in targets
  {
    var sorted := SortBy(buffer, ResultStart);
    forall i | 0 <= i < |sorted| ensures sorted[i].target in targets {
      assert sorted[i] in multiset(buffer);
      var j :| 0 <= j < |buffer| && buffer[j] == sorted[i];
    }
  }

  /**
   * A text prompt, and through `isCode` a code prompt: its segments and targets never change,
   * while `subPromptResults` buffers the replies recorded by the sub-requests' callbacks.
   */
  class TextPrompt {
    const entityStr: string
    const targets: seq<EntityElement>
    const promptElements: seq<PromptElement>
    const isReusable: bool
    const isCode: bool
    var subPromptResults: seq<SubPromptResult>

    /** Every span the prompt reads is a text span, and every buffered reply answers a target. */
    predicate Valid()
      reads this
    {
      AllTextSpans(targets) && AllTextSpans(Entities(promptElements))
      && ResultsAreSpans(subPromptResults)
      && forall i :: 0 <= i < |subPromptResults| ==> subPromptResults[i].target in targets
    }

    constructor(entityStr: string, targets: seq<EntityElement>, promptElements: seq<PromptElement>,
                isReusable: bool, isCode: bool)
      requires AllTextSpans(targets) && AllTextSpans(Entities(promptElements))
      ensures this.entityStr == entityStr && this.targets == targets
      ensures this.promptElements == promptElements && this.isReusable == isReusable
      ensures this.isCode == isCode && subPromptResults == []
      ensures Valid()
    {
      this.entityStr := entityStr;
      this.targets := targets;
      this.promptElements := promptElements;
      this.isReusable := isReusable;
      this.isCode := isCode;
      subPromptResults := [];
    }

    function Base(): ComplexPrompt {
      ComplexPrompt(entityStr, targets, promptElements, isReusable)
    }

    /** `getTypeStr()`: the word the instruction uses for entity references. */
    function TypeStr(): string {
      if isCode then "code" else "text"
    }

    /** The callback of a per-target sub-request: buffers one reply and changes nothing else. */
    method RecordResult(target: EntityElement, result: string)
      requires Valid() && target in targets
      modifies this
      ensures subPromptResults == old(subPromptResults) + [SubPromptResult(target, result)]
      ensures Valid()
    {
      subPromptResults := subPromptResults + [SubPromptResult(target, result)];
    }

    /**
     * `getCleanResult`: sorts the buffer in place when it holds a reply for every target, and
     * returns the reconciled artifact.
     */
    method CleanResult(raw: string) returns (r: string)
      requires Valid()
      modifies this
      ensures r == TextClean(Base(), old(subPromptResults), raw)
      ensures |targets| > 0 && |targets| == |old(subPromptResults)| ==>
        subPromptResults == SortBy(old(subPromptResults), ResultStart)
      ensures !(|targets| > 0 && |targets| == |old(subPromptResults)|) ==>
        subPromptResults == old(subPromptResults)
      ensures Valid()
    {
      if |targets| > 0 && |targets| == |subPromptResults| {
        var buffer := subPromptResults;
        subPromptResults := SortBy(subPromptResults, ResultStart);
        SortedResultsAreSpans(buffer);
        SortedResultsAnswerTargets(buffer, targets);
        r := SpliceResults(subPromptResults);
      } else if |targets| > 0 {
        var t := targets[0];
        r := Substring(entityStr, 0, StartOf(t)) + CleanReplacement(entityStr, t, raw)
          + Substring(entityStr, EndOf(t), |entityStr|);
      } else {
        r := RemoveTags(raw);
      }
    }

    /** The reconstruction loop: text up to each reply's target, then the cleaned reply. */
    method SpliceResults(rs: seq<SubPromptResult>) returns (r: string)
      ensures r == Splice(entityStr, Pieces(entityStr, rs), 0)
    {
      var acc := "";
      var last := 0;
      for i := 0 to |rs|
        invariant acc + Splice(entityStr, Pieces(entityStr, rs[i..]), last)
          == Splice(entityStr, Pieces(entityStr, rs), 0)
      {
        var e := rs[i];
        var before := Substring(entityStr, last, StartOf(e.target));
        var repl := CleanReplacement(entityStr, e.target, e.result);
        SpliceResultsStep(entityStr, rs, i, last);
        Assoc(acc, before + repl, Splice(entityStr, Pieces(entityStr, rs[i + 1..]), EndOf(e.target)));
        Assoc(acc, before, repl);
        acc := acc + before + repl;
        last := EndOf(e.target);
      }
      assert rs[|rs|..] == [];
      r := acc + Substring(entityStr, last, |entityStr|);
    }

    /** The tag-removal loop: `k]` removed for each entity segment, counting from 0. */
    method RemoveTags(raw: string) returns (r: string)
      ensures r == StripTags(raw, 0, |Entities(promptElements)|)
    {
      r := raw;
      var counter := 0;
      for i := 0 to |promptElements|
        invariant counter == |Entities(promptElements[..i])| <= |Entities(promptElements)|
        invariant StripTags(r, counter, |Entities(promptElements)|)
          == StripTags(raw, 0, |Entities(promptElements)|)
      {
        EntitiesStep(promptElements, i);
        if promptElements[i].EntitySeg? {
          r := RemoveAll(r, Tag(counter));
          counter := counter + 1;
        }
      }
      assert promptElements[..|promptElements|] == promptElements;
    }

    /**
     * `getTaggedEntityStr(s, target)`: collects the spans to tag, sorts them by start, then
     * rebuilds the text with the target blanked and the entities wrapped in numbered tags.
     */
    method TaggedEntityStr(s: string, target: Option<EntityElement>) returns (r: string)
      ensures r == Tagged(s, target, promptElements)
    {
      var items := ElementsToTag(target);
      items := SortBy(items, SIdx);
      r := TagSpans(s, items);
    }

    /** The collection loop: the target first, if any, then the entities in segment order. */
    method ElementsToTag(target: Option<EntityElement>) returns (items: seq<TagItem>)
      ensures items == TagItems(target, promptElements)
    {
      items := [];
      if target.Some? {
        items := items + [TagItem(StartOf(target.value), EndOf(target.value), true)];
      }
      ghost var prefix := items;
      for i := 0 to |promptElements|
        invariant items == prefix + EntityItems(Entities(promptElements[..i]))
      {
        EntitiesStep(promptElements, i);
        var e := promptElements[i];
        if e.EntitySeg? {
          EntityItemsSnoc(Entities(promptElements[..i]), e.entity);
          Assoc(prefix, EntityItems(Entities(promptElements[..i])), [EntityItem(e.entity)]);
          items := items + [TagItem(StartOf(e.entity), EndOf(e.entity), false)];
        }
      }
      assert promptElements[..|promptElements|] == promptElements;
    }

    /** The rebuilding loop: text up to each span, then `<blank>` or the tagged span. */
    method TagSpans(s: string, items: seq<TagItem>) returns (r: string)
      ensures r == Splice(s, TagPieces(s, items, 0), 0)
    {
      var acc := "";
      var last := 0;
      var counter := 0;
      for i := 0 to |items|
        invariant acc + Splice(s, TagPieces(s, items[i..], counter), last)
          == Splice(s, TagPieces(s, items, 0), 0)
      {
        var e := items[i];
        var before := Substring(s, last, e.sidx);
        var repl: string;
        if e.isTarget {
          repl := Blank;
        } else {
          repl := Tag(counter) + Substring(s, e.sidx, e.eidx) + Tag(counter);
        }
        TagStep(s, items, i, counter, last);
        Assoc(acc, before + repl, Splice(s, TagPieces(s, items[i + 1..], NextCount(e, counter)), e.eidx));
        Assoc(acc, before, repl);
        acc := acc + before + repl;
        if !e.isTarget {
          counter := counter + 1;
        }
        last := e.eidx;
      }
      assert items[|items|..] == [];
      r := acc + Substring(s, last, |s|);
    }

    /** `toGPTPrompt(current)`, with the type word of this variant. */
    method ToGPTPrompt(current: string) returns (r: seq<SubPrompt>)
      requires Valid()
      ensures r == TextCompile(Base(), current, TypeStr())
    {
      var instruction := Instruction(promptElements, TypeStr(), 0);
      r := TargetSubPrompts(current, instruction);
      if |r| == 0 {
        var sub := WholeSubPrompt(current, instruction);
        r := r + [sub];
      }
    }

    /** The loop over the targets: one sub-request per target, in target order. */
    method TargetSubPrompts(current: string, instruction: string) returns (r: seq<SubPrompt>)
      requires Valid() && instruction == Instruction(promptElements, TypeStr(), 0)
      ensures |targets| > 0 ==> r == TextCompile(Base(), current, TypeStr())
      ensures |targets| == 0 ==> r == []
    {
      ghost var spec := TextCompile(Base(), current, TypeStr());
      r := [];
      for i := 0 to |targets|
        invariant |targets| > 0 ==> r == spec[..i]
        invariant |targets| == 0 ==> r == []
      {
        var sub := TargetSubPrompt(current, targets[i], instruction);
        assert sub == spec[i];
        PrefixSnoc(spec, i);
        r := r + [sub];
      }
      if |targets| > 0 {
        assert spec[..|targets|] == spec;
      }
    }

    /** Without targets, the single request over the whole artifact, whose callback does nothing. */
    method WholeSubPrompt(current: string, instruction: string) returns (sub: SubPrompt)
      requires instruction == Instruction(promptElements, TypeStr(), 0)
      ensures sub == SubPrompt(WholePrompt(Base(), current, TypeStr()), Ignore)
    {
      var tagged := TaggedEntityStr(current, None);
      sub := SubPrompt(tagged + "\n\n" + instruction + "\nKeep rest of the " + TypeStr() + " identical", Ignore);
    }

    /** The sub-request for one target, whose callback buffers the reply under that target. */
    method TargetSubPrompt(current: string, e: EntityElement, instruction: string)
      returns (sub: SubPrompt)
      requires instruction == Instruction(promptElements, TypeStr(), 0)
      ensures sub == SubPrompt(TargetPrompt(Base(), current, e, TypeStr()), Record(e))
    {
      var tagged := TaggedEntityStr(current, Some(e));
      var local := tagged + "\n<blank>: " + Substring(current, StartOf(e), EndOf(e))
        + "\n\nINSTRUCTION: " + instruction + "\nRewrite <blank>. Follow INSTRUCTION\n<blank>:";
      sub := SubPrompt(local, Record(e));
    }
  }
}
