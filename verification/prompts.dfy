/**
 * A prompt of any variant, as a value: the four base fields and the variant's own state (the
 * reply buffer of a text or code prompt, the detected kind of an unknown prompt). The store
 * calls the three polymorphic operations through `Compile`, `Deliver` and `Clean`.
 */
module Prompts {
  import opened Element
  import opened Seqs
  import opened ComplexPrompts
  import opened TextPrompts
  import opened CodePrompts
  import opened SvgPrompts
  import opened ChatPrompts
  import opened UnknownPrompts

  datatype Variant =
    | Plain
    | Chat
    | Text(buffer: seq<SubPromptResult>)
    | Code(buffer: seq<SubPromptResult>)
    | Svg
    | Unknown(detected: ActivityType)

  datatype Prompt = Prompt(base: ComplexPrompt, variant: Variant)

  /** What each variant assumes of the selections it was built over, and of its buffer. */
  predicate WellFormed(p: Prompt) {
    match p.variant
    case Text(b) => BufferFits(p.base, b)
    case Code(b) => BufferFits(p.base, b)
    case Svg => AllSvgSelections(p.base.targets)
    case _ => true
  }

  predicate BufferFits(base: ComplexPrompt, b: seq<SubPromptResult>) {
    TextReady(base, b) && AllTextSpans(Entities(base.promptElements))
    && forall i :: 0 <= i < |b| ==> b[i].target in base.targets
  }

  /**
   * `toGPTPrompt`, dispatched on the variant. Only text and code prompts ask for their replies
   * to be recorded, and only against their own targets.
   */
  function Compile(p: Prompt, current: string): (r: seq<SubPrompt>)
    requires WellFormed(p)
    ensures |r| >= 1
    ensures (p.variant.Text? || p.variant.Code?) && |p.base.targets| > 0 ==> |r| == |p.base.targets|
    ensures (p.variant.Text? || p.variant.Code?) && |p.base.targets| > 0 ==>
      forall i :: 0 <= i < |r| ==> r[i].onDone == Record(p.base.targets[i])
    ensures !((p.variant.Text? || p.variant.Code?) && |p.base.targets| > 0) ==> |r| == 1
    ensures !(p.variant.Text? || p.variant.Code?) ==> forall i :: 0 <= i < |r| ==> r[i].onDone == Ignore
    ensures forall i :: 0 <= i < |r| && r[i].onDone.Record? ==> r[i].onDone.target in p.base.targets
  {
    match p.variant
    case Plain => DefaultCompile(p.base, current)
    case Chat => ChatCompile(p.base, current)
    case Text(_) => TextCompile(p.base, current, "text")
    case Code(_) => TextCompile(p.base, current, "code")
    case Svg => SvgCompile(p.base, current)
    case Unknown(_) => DefaultCompile(p.base, current)
  }

  /** A sub-request's `onDone`: a recording callback appends one reply to the buffer. */
  function Deliver(p: Prompt, cb: Callback, reply: string): (q: Prompt)
    requires WellFormed(p)
    requires cb.Record? ==> cb.target in p.base.targets
    ensures WellFormed(q) && q.base == p.base
    ensures cb.Record? && p.variant.Text? ==> q.variant == Text(p.variant.buffer + [SubPromptResult(cb.target, reply)])
    ensures cb.Record? && p.variant.Code? ==> q.variant == Code(p.variant.buffer + [SubPromptResult(cb.target, reply)])
    ensures !(cb.Record? && (p.variant.Text? || p.variant.Code?)) ==> q == p
  {
    match (cb, p.variant)
    case (Record(t), Text(b)) => Prompt(p.base, Text(b + [SubPromptResult(t, reply)]))
    case (Record(t), Code(b)) => Prompt(p.base, Code(b + [SubPromptResult(t, reply)]))
    case _ => p
  }

  /** The buffer after a reconciliation: sorted by start offset when every target has a reply. */
  function SortedWhenComplete(base: ComplexPrompt, b: seq<SubPromptResult>): seq<SubPromptResult> {
    if |base.targets| > 0 && |base.targets| == |b| then SortBy(b, ResultStart) else b
  }

  /**
   * `getCleanResult`, dispatched on the variant: the new prompt state and the reconciled reply.
   * The base and chat variants return the reply as it is.
   */
  function Clean(p: Prompt, raw: string): (r: (Prompt, string))
    requires WellFormed(p)
    ensures WellFormed(r.0) && r.0.base == p.base
    ensures p.variant.Plain? || p.variant.Chat? ==> r == (p, raw)
    ensures p.variant.Text? ==> r == (Prompt(p.base, Text(SortedWhenComplete(p.base, p.variant.buffer))),
                                      TextClean(p.base, p.variant.buffer, raw))
    ensures p.variant.Code? ==> r == (Prompt(p.base, Code(SortedWhenComplete(p.base, p.variant.buffer))),
                                      CodeClean(p.base, p.variant.buffer, raw))
    ensures p.variant.Svg? ==> r == (p, SvgClean(p.base.entityStr, raw))
    ensures p.variant.Unknown? ==> r == (Prompt(p.base, Unknown(Detect(raw))), UnknownClean(p.base, raw))
  {
    match p.variant
    case Plain => (p, raw)
    case Chat => (p, raw)
    case Text(b) =>
      SortedFits(p.base, b);
      (Prompt(p.base, Text(SortedWhenComplete(p.base, b))), TextClean(p.base, b, raw))
    case Code(b) =>
      SortedFits(p.base, b);
      (Prompt(p.base, Code(SortedWhenComplete(p.base, b))), CodeClean(p.base, b, raw))
    case Svg => (p, SvgClean(p.base.entityStr, raw))
    case Unknown(_) => (Prompt(p.base, Unknown(Detect(raw))), UnknownClean(p.base, raw))
  }

  lemma SortedFits(base: ComplexPrompt, b: seq<SubPromptResult>)
    requires BufferFits(base, b)
    ensures BufferFits(base, SortedWhenComplete(base, b))
  {
    if |base.targets| > 0 && |base.targets| == |b| {
      var sorted := SortBy(b, ResultStart);
      assert SortedWhenComplete(base, b) == sorted;
      SortedResultsAreSpans(b);
      forall i | 0 <= i < |sorted| ensures sorted[i].target in base.targets {
        var j := IndexOfElement(b, sorted[i]);
      }
    }
  }

  /** The replies buffered by delivering `replies` to the first sub-requests, in order. */
  function DeliverAll(p: Prompt, subs: seq<SubPrompt>, replies: seq<string>): (q: Prompt)
    requires WellFormed(p) && |replies| <= |subs|
    requires forall i :: 0 <= i < |subs| && subs[i].onDone.Record? ==> subs[i].onDone.target in p.base.targets
    ensures WellFormed(q) && q.base == p.base
    ensures p.variant.Text? <==> q.variant.Text?
    ensures p.variant.Code? <==> q.variant.Code?
    decreases |replies|
  {
    if replies == [] then p
    else
      var k := |replies| - 1;
      Deliver(DeliverAll(p, subs, replies[..k]), subs[k].onDone, replies[k])
  }

  /**
   * A fresh text or code prompt with targets, once every sub-request has been answered in
   * order, holds one reply per target, target i answered by reply i; its next reconciliation
   * therefore splices every reply into its span.
   */
  lemma DeliverAllFillsBuffer(p: Prompt, current: string, replies: seq<string>)
    requires WellFormed(p) && (p.variant == Text([]) || p.variant == Code([]))
    requires |p.base.targets| > 0 && |replies| == |p.base.targets|
    ensures var q := DeliverAll(p, Compile(p, current), replies);
      |q.variant.buffer| == |p.base.targets|
      && forall i :: 0 <= i < |replies| ==> q.variant.buffer[i] == SubPromptResult(p.base.targets[i], replies[i])
  {
    DeliverPrefix(p, Compile(p, current), replies);
  }

  lemma {:induction false} DeliverPrefix(p: Prompt, subs: seq<SubPrompt>, rs: seq<string>)
    requires WellFormed(p) && (p.variant == Text([]) || p.variant == Code([]))
    requires |subs| == |p.base.targets| && |rs| <= |subs|
    requires forall i :: 0 <= i < |subs| ==> subs[i].onDone == Record(p.base.targets[i])
    ensures var b := DeliverAll(p, subs, rs).variant.buffer;
      |b| == |rs| && forall i :: 0 <= i < |rs| ==> b[i] == SubPromptResult(p.base.targets[i], rs[i])
    decreases |rs|
  {
    if rs != [] {
      var k := |rs| - 1;
      var init := rs[..k];
      DeliverPrefix(p, subs, init);
      var b := DeliverAll(p, subs, init).variant.buffer;
      var e := SubPromptResult(p.base.targets[k], rs[k]);
      assert DeliverAll(p, subs, rs).variant.buffer == b + [e];
      forall i | 0 <= i < |rs| ensures (b + [e])[i] == SubPromptResult(p.base.targets[i], rs[i]) {
        if i < k {
          assert init[i] == rs[i];
        }
      }
    }
  }
}
