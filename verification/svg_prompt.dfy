/**
 * The SVG variant. Its reconciliation keeps only the `<svg …</svg>` document of the reply,
 * falling back to the artifact it had; its compilation sends one request naming the selected
 * element ids and the selected locations.
 */
module SvgPrompts {
  import opened Wrappers
  import opened Element
  import opened JsString
  import opened Seqs
  import opened ComplexPrompts

  const SvgOpen := "<svg"
  const SvgClose := "</svg>"
  const ReturnText := "Return modified CODE that applies INSTRUCTION"

  /** A matched document: `s[start..end]`, from its opening `<svg` to the end of its `</svg>`. */
  datatype SvgBlock = SvgBlock(start: nat, end: nat)

  /**
   * `raw.match(REGEXP)` for the pattern `<svg`, anything, `</svg>`: the first `<svg`, and the
   * last `</svg>` that starts after it (the middle is greedy). When the last `</svg>` starts
   * before the first `<svg` ends, no `<svg` has any closer after it and nothing matches.
   */
  function FindSvg(s: string): (r: Option<SvgBlock>)
    ensures r.Some? ==> OccursAt(s, SvgOpen, r.value.start)
    ensures r.Some? ==> r.value.start + 10 <= r.value.end <= |s|
    ensures r.Some? ==> OccursAt(s, SvgClose, r.value.end - 6)
    ensures r.Some? ==> forall p :: 0 <= p < r.value.start ==> !OccursAt(s, SvgOpen, p)
    ensures r.Some? ==> forall q :: r.value.end - 6 < q ==> !OccursAt(s, SvgClose, q)
    ensures r.None? ==> forall p, q :: OccursAt(s, SvgOpen, p) && OccursAt(s, SvgClose, q) ==> q < p + 4
  {
    match IndexOf(s, SvgOpen, 0)
    case None => None
    case Some(p) =>
      match LastIndexOf(s, SvgClose, |s|)
      case None => None
      case Some(q) => if q < p + 4 then None else Some(SvgBlock(p, q + 6))
  }

  /** `getCleanResult`: the matched document, or the artifact as it was when there is none. */
  function SvgClean(entityStr: string, raw: string): (r: string)
    ensures FindSvg(raw).Some? ==> StartsWith(r, SvgOpen) && EndsWith(r, SvgClose)
    ensures FindSvg(raw).None? ==> r == entityStr
  {
    match FindSvg(raw)
    case None => entityStr
    case Some(b) =>
      var r := raw[b.start..b.end];
      assert r[..4] == raw[b.start..b.start + 4];
      assert r[|r| - 6..] == raw[b.end - 6..b.end];
      r
  }

  /**
   * A reply made of a document between text holding no `<` before it and no `>` after it is
   * reconciled to exactly that document, whatever the document holds.
   */
  lemma SvgCleanOfDocument(entityStr: string, pre: string, mid: string, post: string)
    requires '<' !in pre && '>' !in post
    ensures SvgClean(entityStr, pre + SvgOpen + mid + SvgClose + post) == SvgOpen + mid + SvgClose
  {
    var s := pre + SvgOpen + mid + SvgClose + post;
    var p0 := |pre|;
    var q0 := p0 + 4 + |mid|;
    assert OccursAt(s, SvgOpen, p0) && OccursAt(s, SvgClose, q0)
      && (forall k :: 0 <= k < p0 ==> s[k] != '<')
      && (forall k :: q0 + 6 <= k < |s| ==> s[k] != '>')
      && s[p0..q0 + 6] == SvgOpen + mid + SvgClose
    by {
      Framed(pre, SvgOpen, mid, SvgClose, post);
    }
    FirstSvgOpen(s, p0);
    LastSvgClose(s, q0);
  }

  /** The opener that no `<` precedes is the first one. */
  lemma FirstSvgOpen(s: string, p0: nat)
    requires OccursAt(s, SvgOpen, p0)
    requires forall k :: 0 <= k < p0 ==> s[k] != '<'
    ensures IndexOf(s, SvgOpen, 0) == Some(p0)
  {
    var first := IndexOf(s, SvgOpen, 0);
    if first.Some? && first.value < p0 {
      OccurrenceStart(s, SvgOpen, first.value);
    }
  }

  /** The closer that no `>` follows is the last one. */
  lemma LastSvgClose(s: string, q0: nat)
    requires OccursAt(s, SvgClose, q0)
    requires forall k :: q0 + 6 <= k < |s| ==> s[k] != '>'
    ensures LastIndexOf(s, SvgClose, |s|) == Some(q0)
  {
    assert SvgClose[5] == '>';
    LastOccurrence(s, SvgClose, q0);
  }

  /** A reply without any `<` holds no SVG document. */
  lemma NoSvgWithoutTag(raw: string)
    requires '<' !in raw
    ensures FindSvg(raw).None?
  {
    var found := FindSvg(raw);
    if found.Some? {
      OccurrenceStart(raw, SvgOpen, found.value.start);
    }
  }

  /** A reply without any `<` keeps the artifact as it was. */
  lemma SvgCleanWithoutTag(entityStr: string, raw: string)
    requires '<' !in raw
    ensures SvgClean(entityStr, raw) == entityStr
  {
    NoSvgWithoutTag(raw);
  }

  /** Cleaning a matched document again returns it unchanged. */
  lemma SvgCleanIdempotent(entityStr: string, raw: string)
    requires FindSvg(raw).Some?
    ensures SvgClean(entityStr, SvgClean(entityStr, raw)) == SvgClean(entityStr, raw)
  {
    var b := FindSvg(raw).value;
    var t := raw[b.start..b.end];
    var q := b.end - 6 - b.start;
    assert t[0..4] == raw[b.start..b.start + 4];
    assert t[q..q + 6] == raw[b.end - 6..b.end];
    assert OccursAt(t, SvgOpen, 0);
    assert IndexOf(t, SvgOpen, 0) == Some(0);
    assert OccursAt(t, SvgClose, q);
    assert LastIndexOf(t, SvgClose, |t|) == Some(q);
    assert t[0..q + 6] == t;
  }

  // toGPTPrompt

  predicate IsSvgSelection(e: EntityElement) {
    e.customData.SvgData?
  }

  predicate AllSvgSelections(es: seq<EntityElement>) {
    forall i :: 0 <= i < |es| ==> IsSvgSelection(es[i])
  }

  /** A selected location is an element whose id starts with "location". */
  predicate IsLocation(e: EntityElement)
    requires IsSvgSelection(e)
  {
    StartsWith(e.customData.id, "location")
  }

  /** What a location contributes: its id with the first "location " removed. */
  function LocationLabel(e: EntityElement): string
    requires IsSvgSelection(e)
  {
    ReplaceFirst(e.customData.id, "location ", "")
  }

  /** The labels of the selected locations, in target order. */
  function Locations(ts: seq<EntityElement>): (r: seq<string>)
    requires AllSvgSelections(ts)
    ensures |r| <= |ts|
  {
    if ts == [] then []
    else (if IsLocation(ts[0]) then [LocationLabel(ts[0])] else []) + Locations(ts[1..])
  }

  /** The ids of the other selected elements, in target order. */
  function Ids(ts: seq<EntityElement>): (r: seq<string>)
    requires AllSvgSelections(ts)
    ensures |r| <= |ts|
  {
    if ts == [] then []
    else (if IsLocation(ts[0]) then [] else [ts[0].customData.id]) + Ids(ts[1..])
  }

  /** Every target goes to exactly one of the two lists. */
  lemma {:induction false} PartitionCounts(ts: seq<EntityElement>)
    requires AllSvgSelections(ts)
    ensures |Locations(ts)| + |Ids(ts)| == |ts|
  {
    if ts != [] {
      PartitionCounts(ts[1..]);
    }
  }

  /** Both lists keep target order: they distribute over concatenation of target lists. */
  lemma {:induction false} PartitionAppend(a: seq<EntityElement>, b: seq<EntityElement>)
    requires AllSvgSelections(a) && AllSvgSelections(b)
    ensures AllSvgSelections(a + b)
    ensures Locations(a + b) == Locations(a) + Locations(b)
    ensures Ids(a + b) == Ids(a) + Ids(b)
  {
    if a != [] {
      assert (a + b)[1..] == a[1..] + b;
      PartitionAppend(a[1..], b);
    } else {
      assert a + b == b;
    }
  }

  /** The position in the location list of a selected location. */
  lemma {:induction false} LocationIndex(ts: seq<EntityElement>, i: nat) returns (k: nat)
    requires AllSvgSelections(ts) && i < |ts| && IsLocation(ts[i])
    ensures k < |Locations(ts)| && Locations(ts)[k] == LocationLabel(ts[i])
  {
    if i == 0 {
      k := 0;
    } else {
      var k' := LocationIndex(ts[1..], i - 1);
      k := (if IsLocation(ts[0]) then 1 else 0) + k';
    }
  }

  /** The position in the id list of a selected element that is not a location. */
  lemma {:induction false} IdIndex(ts: seq<EntityElement>, i: nat) returns (k: nat)
    requires AllSvgSelections(ts) && i < |ts| && !IsLocation(ts[i])
    ensures k < |Ids(ts)| && Ids(ts)[k] == ts[i].customData.id
  {
    if i == 0 {
      k := 0;
    } else {
      var k' := IdIndex(ts[1..], i - 1);
      k := (if IsLocation(ts[0]) then 0 else 1) + k';
    }
  }

  /** The request when nothing is selected: the artifact, then the instruction to return SVG. */
  function WholeSvgPrompt(p: ComplexPrompt, current: string): string {
    current + "\n\"Return modified SVG code to " + ToString(p.promptElements)
  }

  /** The `ID: …` line, empty without ids. */
  function IdLine(ids: seq<string>): string {
    if |ids| == 0 then "" else "ID: " + Join(ids, ", ")
  }

  /** The closing instruction, naming the ids and the locations only when there are some. */
  function ReturnLine(ids: seq<string>, locations: seq<string>): string {
    ReturnText
      + (if |ids| == 0 then "" else " to ID")
      + (if |locations| == 0 then "" else " at location " + Join(locations, " and "))
  }

  /** The request when elements are selected. */
  function TargetedSvgPrompt(p: ComplexPrompt, current: string, ids: seq<string>, locations: seq<string>): string {
    "CODE: " + current + "\nINSTRUCTION: " + ToString(p.promptElements) + "\n"
      + IdLine(ids) + "\n\n" + ReturnLine(ids, locations)
  }

  /** `toGPTPrompt` of the SVG variant: always exactly one request, whose reply is not recorded. */
  function SvgCompile(p: ComplexPrompt, current: string): (r: seq<SubPrompt>)
    requires AllSvgSelections(p.targets)
    ensures |r| == 1 && r[0].onDone == Ignore
  {
    if |p.targets| == 0 then [SubPrompt(WholeSvgPrompt(p, current), Ignore)]
    else [SubPrompt(TargetedSvgPrompt(p, current, Ids(p.targets), Locations(p.targets)), Ignore)]
  }

  /** Every selected element is named in the request: by its id, or by its location label. */
  lemma SvgPromptNamesTargets(p: ComplexPrompt, current: string, i: nat) returns (j: nat)
    requires AllSvgSelections(p.targets) && i < |p.targets|
    ensures var e := p.targets[i];
      OccursAt(SvgCompile(p, current)[0].promptStr, if IsLocation(e) then LocationLabel(e) else e.customData.id, j)
  {
    var ids, locations := Ids(p.targets), Locations(p.targets);
    var e := p.targets[i];
    if IsLocation(e) {
      var k := LocationIndex(p.targets, i);
      j := NamesLocation(p, current, ids, locations, k);
    } else {
      var k := IdIndex(p.targets, i);
      j := NamesId(p, current, ids, locations, k);
    }
  }

  /** The location list is the tail of the request. */
  lemma NamesLocation(p: ComplexPrompt, current: string, ids: seq<string>, locations: seq<string>, k: nat)
    returns (j: nat)
    requires k < |locations|
    ensures OccursAt(TargetedSvgPrompt(p, current, ids, locations), locations[k], j)
  {
    var joined := Join(locations, " and ");
    var lead := ReturnText + (if |ids| == 0 then "" else " to ID");
    var front := "CODE: " + current + "\nINSTRUCTION: " + ToString(p.promptElements) + "\n" + IdLine(ids) + "\n\n"
      + (lead + " at location ");
    assert TargetedSvgPrompt(p, current, ids, locations) == front + joined;
    var m := JoinContains(locations, " and ", k);
    OccursAfter(front, joined, locations[k], m);
    j := |front| + m;
  }

  /** The id list follows the `ID: ` label. */
  lemma NamesId(p: ComplexPrompt, current: string, ids: seq<string>, locations: seq<string>, k: nat)
    returns (j: nat)
    requires k < |ids|
    ensures OccursAt(TargetedSvgPrompt(p, current, ids, locations), ids[k], j)
  {
    var m := JoinContains(ids, ", ", k);
    var joined := Join(ids, ", ");
    OccursInContext("ID: ", joined, [], ids[k], m);
    assert "ID: " + joined + [] == IdLine(ids);
    var head := "CODE: " + current + "\nINSTRUCTION: " + ToString(p.promptElements) + "\n";
    var after := "\n\n" + ReturnLine(ids, locations);
    OccursInContext(head, IdLine(ids), after, ids[k], 4 + m);
    assert head + IdLine(ids) + after == TargetedSvgPrompt(p, current, ids, locations);
    j := |head| + 4 + m;
  }

  /** Without selected ids, the request has no `ID:` text and does not say "to ID". */
  lemma SvgPromptWithoutIds(p: ComplexPrompt, current: string)
    requires AllSvgSelections(p.targets) && |p.targets| > 0
    requires forall i :: 0 <= i < |p.targets| ==> IsLocation(p.targets[i])
    ensures SvgCompile(p, current)[0].promptStr
      == "CODE: " + current + "\nINSTRUCTION: " + ToString(p.promptElements) + "\n\n\n"
        + ReturnText + " at location " + Join(Locations(p.targets), " and ")
  {
    PartitionCounts(p.targets);
    OnlyLocations(p.targets);
  }

  lemma {:induction false} OnlyLocations(ts: seq<EntityElement>)
    requires AllSvgSelections(ts)
    requires forall i :: 0 <= i < |ts| ==> IsLocation(ts[i])
    ensures Ids(ts) == []
  {
    if ts != [] {
      OnlyLocations(ts[1..]);
    }
  }

  /**
   * The `forEach` of `toGPTPrompt`: each target's label pushed onto `locations` or its id onto
   * `ids`, then the request text built from the two lists.
   */
  method SvgToGPTPrompt(p: ComplexPrompt, current: string) returns (r: seq<SubPrompt>)
    requires AllSvgSelections(p.targets)
    ensures r == SvgCompile(p, current)
  {
    if |p.targets| == 0 {
      return [SubPrompt(current + "\n\"Return modified SVG code to " + ToString(p.promptElements), Ignore)];
    }
    var locations: seq<string> := [];
    var ids: seq<string> := [];
    for i := 0 to |p.targets|
      invariant locations == Locations(p.targets[..i])
      invariant ids == Ids(p.targets[..i])
    {
      var e := p.targets[i];
      PartitionAppend(p.targets[..i], [e]);
      assert p.targets[..i + 1] == p.targets[..i] + [e];
      assert [e][1..] == [];
      if StartsWith(e.customData.id, "location") {
        locations := locations + [ReplaceFirst(e.customData.id, "location ", "")];
      } else {
        ids := ids + [e.customData.id];
      }
    }
    assert p.targets[..|p.targets|] == p.targets;
    var idPart := if |ids| == 0 then "" else "ID: " + Join(ids, ", ");
    var toId := if |ids| == 0 then "" else " to ID";
    var atLocation := if |locations| == 0 then "" else " at location " + Join(locations, " and ");
    var finalPrompt := "CODE: " + current + "\nINSTRUCTION: " + ToString(p.promptElements) + "\n"
      + idPart + "\n\n" + (ReturnText + toId + atLocation);
    r := [SubPrompt(finalPrompt, Ignore)];
  }
}
