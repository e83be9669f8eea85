/**
 * Selecting a span of the generated text: the new range absorbs every earlier selection it
 * overlaps or touches, and the selection list ends with the new element. Offsets come from the
 * browser's selection; here they are the parameters `preceding` (the length of the text before
 * the selection) and the selected string itself.
 */
module TextSelection {
  import opened JsString
  import opened Element

  /** The range being built: offsets, the text it covers, and the corner of its rectangle. */
  datatype Span = Span(start: int, end: int, text: string, x: int, y: int)

  function Min(a: int, b: int): int { if a <= b then a else b }
  function Max(a: int, b: int): int { if a >= b then a else b }

  /**
   * The test of the merge loop: of the two ranges, the one starting first (the earlier
   * selection on a tie) must end at or after the start of the other.
   */
  predicate Touches(r: Span, e: EntityElement) {
    if r.start < StartOf(e) then r.end >= StartOf(e) else EndOf(e) >= r.start
  }

  /** The range after absorbing `e`: the union of the offsets and of the rectangles' corners. */
  function Absorb(r: Span, e: EntityElement, gptOutput: string): (m: Span)
    ensures m.start == Min(StartOf(e), r.start) && m.end == Max(EndOf(e), r.end)
    ensures m.text == Substring(gptOutput, m.start, m.end)
  {
    var start, end := Min(StartOf(e), r.start), Max(EndOf(e), r.end);
    Span(start, end, Substring(gptOutput, start, end), Min(e.x, r.x), Min(e.y, r.y))
  }

  /** The reference hull: the smallest start and the largest end over `r` and all of `es`. */
  function HullStart(r: Span, es: seq<EntityElement>): int {
    if es == [] then r.start else Min(HullStart(r, es[..|es| - 1]), StartOf(es[|es| - 1]))
  }

  function HullEnd(r: Span, es: seq<EntityElement>): int {
    if es == [] then r.end else Max(HullEnd(r, es[..|es| - 1]), EndOf(es[|es| - 1]))
  }

  /** The hull's start is a start of one of the ranges, and no range starts before it; likewise the end. */
  lemma {:induction false} HullBounds(r: Span, es: seq<EntityElement>)
    ensures HullStart(r, es) <= r.start && r.end <= HullEnd(r, es)
    ensures forall j :: 0 <= j < |es| ==> HullStart(r, es) <= StartOf(es[j]) && EndOf(es[j]) <= HullEnd(r, es)
    ensures HullStart(r, es) == r.start || exists j :: 0 <= j < |es| && HullStart(r, es) == StartOf(es[j])
    ensures HullEnd(r, es) == r.end || exists j :: 0 <= j < |es| && HullEnd(r, es) == EndOf(es[j])
    decreases |es|
  {
    if es != [] {
      var init := es[..|es| - 1];
      HullBounds(r, init);
      forall j | 0 <= j < |init| ensures es[j] == init[j] { }
      if HullStart(r, es) != r.start {
        if HullStart(r, es) == HullStart(r, init) {
          var j :| 0 <= j < |init| && HullStart(r, init) == StartOf(init[j]);
          assert es[j] == init[j];
        } else {
          assert HullStart(r, es) == StartOf(es[|es| - 1]);
        }
      }
      if HullEnd(r, es) != r.end {
        if HullEnd(r, es) == HullEnd(r, init) {
          var j :| 0 <= j < |init| && HullEnd(r, init) == EndOf(init[j]);
          assert es[j] == init[j];
        } else {
          assert HullEnd(r, es) == EndOf(es[|es| - 1]);
        }
      }
    }
  }

  /** Absorbing one more selection extends the hull by it. */
  lemma AbsorbExtendsHull(range: Span, absorbed: seq<EntityElement>, merged: Span, e: EntityElement, gptOutput: string)
    requires merged.start == HullStart(range, absorbed) && merged.end == HullEnd(range, absorbed)
    ensures Absorb(merged, e, gptOutput).start == HullStart(range, absorbed + [e])
    ensures Absorb(merged, e, gptOutput).end == HullEnd(range, absorbed + [e])
  {
    assert (absorbed + [e])[..|absorbed|] == absorbed;
  }

  /** The range `r` widened to the hull of `es`; `Touches` reads only its offsets. */
  function Hull(r: Span, es: seq<EntityElement>): Span {
    r.(start := HullStart(r, es), end := HullEnd(r, es))
  }

  /** Each absorbed selection touched the range as it was when that selection was absorbed. */
  predicate AbsorbedInTurn(range: Span, absorbed: seq<EntityElement>) {
    forall k :: 0 <= k < |absorbed| ==> Touches(Hull(range, absorbed[..k]), absorbed[k])
  }

  /** Absorbing a selection that touches the current hull keeps the absorption order justified. */
  lemma AbsorbedInTurnSnoc(range: Span, absorbed: seq<EntityElement>, e: EntityElement)
    requires AbsorbedInTurn(range, absorbed) && Touches(Hull(range, absorbed), e)
    ensures AbsorbedInTurn(range, absorbed + [e])
  {
    var a := absorbed + [e];
    forall k | 0 <= k < |a| ensures Touches(Hull(range, a[..k]), a[k]) {
      assert a[..k] == if k < |absorbed| then absorbed[..k] else absorbed;
    }
  }

  /** The remaining and the absorbed selections are together the initial list. */
  predicate Partition(rest: seq<EntityElement>, absorbed: seq<EntityElement>, elements: seq<EntityElement>) {
    multiset(rest) + multiset(absorbed) == multiset(elements)
  }

  /** Moving the selection at `i` from the remaining ones to the absorbed ones keeps the partition. */
  lemma PartitionMove(rest: seq<EntityElement>, absorbed: seq<EntityElement>, elements: seq<EntityElement>, i: nat)
    requires Partition(rest, absorbed, elements) && i < |rest|
    ensures Partition(rest[..i] + rest[i + 1..], absorbed + [rest[i]], elements)
  {
    assert rest == rest[..i] + [rest[i]] + rest[i + 1..];
  }

  /** Indices of the remaining selections in the initial list, increasing. */
  predicate KeptAt(rest: seq<EntityElement>, kept: seq<nat>, elements: seq<EntityElement>) {
    |kept| == |rest|
    && (forall j :: 0 <= j < |kept| ==> kept[j] < |elements| && rest[j] == elements[kept[j]])
    && (forall i, j :: 0 <= i < j < |kept| ==> kept[i] < kept[j])
  }

  lemma KeptAtRemove(rest: seq<EntityElement>, kept: seq<nat>, elements: seq<EntityElement>, idx: nat)
    requires KeptAt(rest, kept, elements) && idx < |rest|
    ensures KeptAt(rest[..idx] + rest[idx + 1..], kept[..idx] + kept[idx + 1..], elements)
  {
    var r, k := rest[..idx] + rest[idx + 1..], kept[..idx] + kept[idx + 1..];
    forall j | 0 <= j < |k| ensures k[j] < |elements| && r[j] == elements[k[j]] {
      if j < idx {
        assert k[j] == kept[j] && r[j] == rest[j];
      } else {
        assert k[j] == kept[j + 1] && r[j] == rest[j + 1];
      }
    }
    forall i, j | 0 <= i < j < |k| ensures k[i] < k[j] {
      var i', j' := if i < idx then i else i + 1, if j < idx then j else j + 1;
      assert k[i] == kept[i'] && k[j] == kept[j'];
    }
  }

  /** What the merge loop keeps between rounds, apart from the scan position. */
  ghost predicate Merging(elements: seq<EntityElement>, range: Span, gptOutput: string,
                          rest: seq<EntityElement>, merged: Span, absorbed: seq<EntityElement>, kept: seq<nat>)
  {
    && Partition(rest, absorbed, elements)
    && KeptAt(rest, kept, elements)
    && merged.start == HullStart(range, absorbed) && merged.end == HullEnd(range, absorbed)
    && (absorbed == [] ==> merged == range)
    && (absorbed != [] ==> merged.text == Substring(gptOutput, merged.start, merged.end))
  }

  /** Absorbing the selection at `idx` into the merged range keeps what the merge loop keeps. */
  lemma MergingAbsorb(elements: seq<EntityElement>, range: Span, gptOutput: string,
                      rest: seq<EntityElement>, merged: Span, absorbed: seq<EntityElement>, kept: seq<nat>, idx: nat)
    requires Merging(elements, range, gptOutput, rest, merged, absorbed, kept) && idx < |rest|
    ensures Merging(elements, range, gptOutput, rest[..idx] + rest[idx + 1..], Absorb(merged, rest[idx], gptOutput),
                    absorbed + [rest[idx]], kept[..idx] + kept[idx + 1..])
  {
    AbsorbExtendsHull(range, absorbed, merged, rest[idx], gptOutput);
    PartitionMove(rest, absorbed, elements, idx);
    KeptAtRemove(rest, kept, elements, idx);
  }

  /** The merge loop's invariant: `idx` selections scanned since the last absorption. */
  ghost predicate MergeLoop(elements: seq<EntityElement>, range: Span, gptOutput: string, rest: seq<EntityElement>,
                            merged: Span, absorbed: seq<EntityElement>, kept: seq<nat>, idx: int)
  {
    && 0 <= idx <= |rest|
    && (forall j :: 0 <= j < idx ==> !Touches(merged, rest[j]))
    && Merging(elements, range, gptOutput, rest, merged, absorbed, kept)
    && AbsorbedInTurn(range, absorbed)
  }

  /** A touching selection is absorbed, and the scan starts over. */
  lemma MergeAbsorbStep(elements: seq<EntityElement>, range: Span, gptOutput: string, rest: seq<EntityElement>,
                        merged: Span, absorbed: seq<EntityElement>, kept: seq<nat>, idx: nat)
    requires MergeLoop(elements, range, gptOutput, rest, merged, absorbed, kept, idx) && idx < |rest|
    requires Touches(merged, rest[idx])
    ensures MergeLoop(elements, range, gptOutput, rest[..idx] + rest[idx + 1..], Absorb(merged, rest[idx], gptOutput),
                      absorbed + [rest[idx]], kept[..idx] + kept[idx + 1..], 0)
  {
    MergingAbsorb(elements, range, gptOutput, rest, merged, absorbed, kept, idx);
    AbsorbedInTurnSnoc(range, absorbed, rest[idx]);
  }

  /** A selection that does not touch is skipped. */
  lemma MergeSkipStep(elements: seq<EntityElement>, range: Span, gptOutput: string, rest: seq<EntityElement>,
                      merged: Span, absorbed: seq<EntityElement>, kept: seq<nat>, idx: nat)
    requires MergeLoop(elements, range, gptOutput, rest, merged, absorbed, kept, idx) && idx < |rest|
    requires !Touches(merged, rest[idx])
    ensures MergeLoop(elements, range, gptOutput, rest, merged, absorbed, kept, idx + 1)
  {
  }

  /**
   * The merge loop. On return no remaining selection touches the merged range; the remaining
   * selections keep their order; the absorbed ones (in the order they were absorbed) and the
   * remaining ones are together the initial list; the merged offsets are the hull of the new
   * range and the absorbed selections, and the merged text is the output between them. Each
   * absorbed selection touched the range grown so far when it was absorbed.
   */
  method Merge(elements: seq<EntityElement>, range: Span, gptOutput: string)
    returns (rest: seq<EntityElement>, merged: Span, ghost absorbed: seq<EntityElement>, ghost kept: seq<nat>)
    ensures forall e :: e in rest ==> !Touches(merged, e)
    ensures Partition(rest, absorbed, elements)
    ensures KeptAt(rest, kept, elements)
    ensures merged.start == HullStart(range, absorbed) && merged.end == HullEnd(range, absorbed)
    ensures absorbed == [] ==> merged == range
    ensures absorbed != [] ==> merged.text == Substring(gptOutput, merged.start, merged.end)
    ensures AbsorbedInTurn(range, absorbed)
  {
    rest, merged, absorbed := elements, range, [];
    kept := seq(|elements|, j => j);
    var idx := 0;
    while idx < |rest|
      invariant 0 <= idx <= |rest|
      invariant MergeLoop(elements, range, gptOutput, rest, merged, absorbed, kept, idx)
      decreases |rest|, |rest| - idx
    {
      var e := rest[idx];
      if Touches(merged, e) {
        MergeAbsorbStep(elements, range, gptOutput, rest, merged, absorbed, kept, idx);
        merged := Absorb(merged, e, gptOutput);
        absorbed := absorbed + [e];
        rest := rest[..idx] + rest[idx + 1..];
        kept := kept[..idx] + kept[idx + 1..];
        idx := 0;
      } else {
        MergeSkipStep(elements, range, gptOutput, rest, merged, absorbed, kept, idx);
        idx := idx + 1;
      }
    }
  }

  /** The chip of a selection: short texts whole, longer ones as their first and last 8 characters. */
  function Label(text: string): (r: string)
    ensures |text| <= 16 ==> r == text
    ensures |text| > 16 ==> |r| == 23 && StartsWith(r, text[..8]) && EndsWith(r, text[|text| - 8..])
    ensures |text| > 16 ==> r[8..15] == " [...] "
  {
    if |text| > 16 then Substring(text, 0, 8) + " [...] " + Substring(text, |text| - 8, |text|) else text
  }

  /**
   * The selection list after the user selected `text` (non-empty) at offset `preceding`: the
   * earlier selections are kept only when adding to the selection (ctrl, meta, or the
   * multiple-selection mode), merged with the new range, and the new element goes last.
   */
  method Select(selected: seq<EntityElement>, adding: bool, preceding: int, text: string,
                x: int, y: int, gptOutput: string)
    returns (es: seq<EntityElement>, ghost absorbed: seq<EntityElement>, ghost kept: seq<nat>)
    ensures |text| == 0 ==> es == (if adding then selected else [])
    ensures |text| > 0 ==> |es| >= 1 && es[|es| - 1].textRepresentation == text
    ensures |text| > 0 ==> es[|es| - 1].caption == Label(text) && IsTextSpan(es[|es| - 1])
    ensures |text| > 0 ==>
      StartOf(es[|es| - 1]) <= preceding && preceding + |text| <= EndOf(es[|es| - 1])
    ensures |text| > 0 ==> forall j :: 0 <= j < |es| - 1 ==> !Touches(
      Span(StartOf(es[|es| - 1]), EndOf(es[|es| - 1]), es[|es| - 1].customData.text, es[|es| - 1].x, es[|es| - 1].y),
      es[j])
    ensures |text| > 0 && !adding ==> es == [EntityElement(x, y, Label(text), text, TextData(preceding, preceding + |text|, text))]
    ensures |text| > 0 ==> forall j :: 0 <= j < |es| - 1 ==> es[j] in selected && adding
    ensures |text| > 0 ==> var earlier := if adding then selected else [];
      Partition(es[..|es| - 1], absorbed, earlier) && KeptAt(es[..|es| - 1], kept, earlier)
    ensures |text| > 0 ==> var newRange := Span(preceding, preceding + |text|, text, x, y);
      AbsorbedInTurn(newRange, absorbed)
      && StartOf(es[|es| - 1]) == HullStart(newRange, absorbed)
      && EndOf(es[|es| - 1]) == HullEnd(newRange, absorbed)
  {
    var tmp := if adding then selected else [];
    absorbed, kept := [], [];
    if |text| > 0 {
      var newRange := Span(preceding, preceding + |text|, text, x, y);
      var rest, merged;
      rest, merged, absorbed, kept := Merge(tmp, newRange, gptOutput);
      HullBounds(newRange, absorbed);
      forall j | 0 <= j < |rest| ensures rest[j] in selected && adding {
        assert rest[j] == tmp[kept[j]];
      }
      es := rest + [EntityElement(merged.x, merged.y, Label(text), text, TextData(merged.start, merged.end, merged.text))];
      assert es[..|es| - 1] == rest;
    } else {
      es := tmp;
    }
  }
}
