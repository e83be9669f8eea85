/**
 * The base prompt: an artifact string, the entities it targets and the prompt's segments
 * (free text or references to entities). Every variant of the engine is built over these four
 * fields, and the base variant's compilation and reconciliation are the defaults the others
 * inherit.
 */
module ComplexPrompts {
  import opened Element
  import opened JsString

  datatype PromptElement =
    | TextSeg(text: string)
    | EntitySeg(entity: EntityElement)

  /**
   * What a sub-request does with its reply: nothing, or record it in the prompt's buffer
   * against the given target (the `onDone` closures, made first-order).
   */
  datatype Callback = Ignore | Record(target: EntityElement)

  datatype SubPrompt = SubPrompt(promptStr: string, onDone: Callback)

  /** The constructor's `isReusable` argument defaults to true at every call site that omits it. */
  datatype ComplexPrompt = ComplexPrompt(
    entityStr: string,
    targets: seq<EntityElement>,
    promptElements: seq<PromptElement>,
    isReusable: bool)

  function SegmentText(e: PromptElement): string {
    match e
    case TextSeg(t) => t
    case EntitySeg(en) => en.textRepresentation
  }

  /** `toString()`: every segment's text, in segment order. */
  function ToString(es: seq<PromptElement>): (r: string)
    ensures |es| == 1 ==> r == SegmentText(es[0])
  {
    if es == [] then "" else SegmentText(es[0]) + ToString(es[1..])
  }

  /** Rendering distributes over concatenation of segment lists. */
  lemma {:induction false} ToStringAppend(a: seq<PromptElement>, b: seq<PromptElement>)
    ensures ToString(a + b) == ToString(a) + ToString(b)
  {
    if a != [] {
      assert (a + b)[1..] == a[1..] + b;
      ToStringAppend(a[1..], b);
    } else {
      assert a + b == b;
    }
  }

  /** The entities referenced by the segments, in segment order. */
  function Entities(es: seq<PromptElement>): (r: seq<EntityElement>)
    ensures |r| <= |es|
    ensures forall e :: e in r <==> EntitySeg(e) in es
  {
    if es == [] then []
    else
      var rest := Entities(es[1..]);
      assert forall s :: s in es <==> s == es[0] || s in es[1..];
      if es[0].EntitySeg? then [es[0].entity] + rest else rest
  }

  lemma {:induction false} EntitiesAppend(a: seq<PromptElement>, b: seq<PromptElement>)
    ensures Entities(a + b) == Entities(a) + Entities(b)
  {
    if a != [] {
      assert (a + b)[1..] == a[1..] + b;
      EntitiesAppend(a[1..], b);
    } else {
      assert a + b == b;
    }
  }

  /** Walking the segments one at a time collects the entities one at a time. */
  lemma EntitiesStep(es: seq<PromptElement>, i: nat)
    requires i < |es|
    ensures Entities(es[..i + 1])
      == Entities(es[..i]) + (if es[i].EntitySeg? then [es[i].entity] else [])
    ensures |Entities(es[..i + 1])| <= |Entities(es)|
  {
    assert es[..i + 1] == es[..i] + [es[i]];
    EntitiesAppend(es[..i], [es[i]]);
    assert [es[i]][1..] == [];
    assert es == es[..i + 1] + es[i + 1..];
    EntitiesAppend(es[..i + 1], es[i + 1..]);
  }

  /** With no entity segment, nothing is referenced. */
  predicate NoEntities(es: seq<PromptElement>) {
    forall i :: 0 <= i < |es| ==> es[i].TextSeg?
  }

  lemma {:induction false} EntitiesOfTexts(es: seq<PromptElement>)
    requires NoEntities(es)
    ensures Entities(es) == []
  {
    if es != [] {
      EntitiesOfTexts(es[1..]);
    }
  }

  /**
   * `getLoadingElements()`: the entities of the segments, in segment order, then every target.
   */
  function LoadingElements(p: ComplexPrompt): (r: seq<EntityElement>)
    ensures |r| == |Entities(p.promptElements)| + |p.targets|
    ensures r[..|Entities(p.promptElements)|] == Entities(p.promptElements)
    ensures r[|Entities(p.promptElements)|..] == p.targets
    ensures forall e :: e in r <==> EntitySeg(e) in p.promptElements || e in p.targets
  {
    Entities(p.promptElements) + p.targets
  }

  /** The default `toGPTPrompt`: the artifact, a line break, then the prompt's text. */
  function DefaultCompile(p: ComplexPrompt, current: string): (r: seq<SubPrompt>)
    ensures |r| == 1 && r[0].onDone == Ignore
    ensures StartsWith(r[0].promptStr, current + "\n")
    ensures EndsWith(r[0].promptStr, ToString(p.promptElements))
    ensures |r[0].promptStr| == |current| + 1 + |ToString(p.promptElements)|
  {
    var s := current + "\n" + ToString(p.promptElements);
    assert s[..|current| + 1] == current + "\n";
    [SubPrompt(s, Ignore)]
  }
}
