/**
 * The variant used before the kind of artifact is known. Its reconciliation guesses the kind
 * from the reply, records the guess, and reconciles the reply as the guessed variant would.
 */
module UnknownPrompts {
  import opened Wrappers
  import opened Element
  import opened JsString
  import opened ComplexPrompts
  import opened TextPrompts
  import opened CodePrompts
  import opened SvgPrompts

  /** The kinds of artifact the interface can show. */
  datatype ActivityType = TextType | SvgType | CodeType | UnknownType

  /** The kind a reply reveals: an SVG document first, then a fenced code block, else text. */
  function Detect(raw: string): ActivityType {
    if FindSvg(raw).Some? then SvgType
    else if FencedBody(raw).Some? then CodeType
    else TextType
  }

  /**
   * `getCleanResult`: an SVG reply is reconciled as the SVG variant would; a fenced reply as
   * the code variant would with an empty reply buffer, which keeps only the re-indented block;
   * any other reply is kept as it is.
   */
  function UnknownClean(p: ComplexPrompt, raw: string): (r: string)
    ensures Detect(raw) == SvgType ==> r == SvgClean(p.entityStr, raw)
    ensures Detect(raw) == CodeType ==> r == FixIndentation(FencedBody(raw).value)
    ensures Detect(raw) == TextType ==> r == raw
  {
    match Detect(raw)
    case SvgType => SvgClean(p.entityStr, raw)
    case CodeType => FixIndentation(FencedBody(raw).value)
    case _ => raw
  }

  /**
   * The code branch agrees with the code variant built over the same prompt, whose reply
   * buffer is fresh and empty.
   */
  lemma UnknownCleanIsCodeClean(p: ComplexPrompt, raw: string)
    requires AllTextSpans(p.targets)
    requires Detect(raw) == CodeType
    ensures UnknownClean(p, raw) == CodeClean(p, [], raw)
  {
    assert TextReady(p, []);
  }

  /** The SVG test comes first: an SVG document inside a code fence is detected as SVG. */
  lemma FencedSvgIsSvg(p: ComplexPrompt, lang: string, mid: string)
    requires forall k :: 0 <= k < |lang| ==> IsLetter(lang[k])
    ensures var raw := "```" + lang + "\n" + SvgOpen + mid + SvgClose + "\n```";
      Detect(raw) == SvgType && UnknownClean(p, raw) == SvgOpen + mid + SvgClose
  {
    var pre := "```" + lang + "\n";
    var post := "\n```";
    assert '<' !in pre by {
      forall k | 0 <= k < |pre| ensures pre[k] != '<' {
        if 3 <= k < 3 + |lang| {
          assert pre[k] == lang[k - 3];
        }
      }
    }
    SvgCleanOfDocument("", pre, mid, post);
    SvgCleanOfDocument(p.entityStr, pre, mid, post);
    assert pre + SvgOpen + mid + SvgClose + post == "```" + lang + "\n" + SvgOpen + mid + SvgClose + "\n```";
  }

  /** A fenced reply with no `<` in it is detected as code. */
  lemma FencedCodeIsCode(p: ComplexPrompt, lang: string, body: string)
    requires forall k :: 0 <= k < |lang| ==> IsLetter(lang[k])
    requires '`' !in body && '<' !in body && |body| >= 1
    ensures var raw := "```" + lang + "\n" + body + "\n```";
      Detect(raw) == CodeType && UnknownClean(p, raw) == FixIndentation(body)
  {
    WholeBlockBody(lang, body);
    WholeBlockHasNoTag(lang, body);
    NoSvgWithoutTag("```" + lang + "\n" + body + "\n```");
  }

  /** A reply that is exactly one fenced block has that block's body. */
  lemma WholeBlockBody(lang: string, body: string)
    requires forall k :: 0 <= k < |lang| ==> IsLetter(lang[k])
    requires |body| >= 1
    ensures FencedBody("```" + lang + "\n" + body + "\n```") == Some(body)
  {
    FencedBodyOfBlock("", lang, body, "");
    assert "" + "```" + lang + "\n" + body + "\n```" + "" == "```" + lang + "\n" + body + "\n```";
  }

  lemma WholeBlockHasNoTag(lang: string, body: string)
    requires forall k :: 0 <= k < |lang| ==> IsLetter(lang[k])
    requires '<' !in body
    ensures '<' !in "```" + lang + "\n" + body + "\n```"
  {
    forall k | 0 <= k < |lang| ensures lang[k] != '<' {
      assert IsLetter(lang[k]);
    }
  }

  class UnknownPrompt {
    const entityStr: string
    const targets: seq<EntityElement>
    const promptElements: seq<PromptElement>
    const isReusable: bool
    /** The kind guessed from the last reconciled reply. */
    var detectedType: ActivityType

    constructor(entityStr: string, targets: seq<EntityElement>, promptElements: seq<PromptElement>,
                isReusable: bool)
      ensures this.entityStr == entityStr && this.targets == targets
      ensures this.promptElements == promptElements && this.isReusable == isReusable
      ensures detectedType == UnknownType
    {
      this.entityStr := entityStr;
      this.targets := targets;
      this.promptElements := promptElements;
      this.isReusable := isReusable;
      detectedType := UnknownType;
    }

    function Base(): ComplexPrompt {
      ComplexPrompt(entityStr, targets, promptElements, isReusable)
    }

    /**
     * `getCleanResult`: records the kind the reply reveals and returns its reconciliation. The
     * outcome depends on the reply and the constant fields only, so two calls with the same
     * reply agree.
     */
    method CleanResult(raw: string) returns (r: string)
      modifies this
      ensures detectedType == Detect(raw)
      ensures r == UnknownClean(Base(), raw)
    {
      detectedType := TextType;
      r := raw;
      if FindSvg(raw).Some? {
        detectedType := SvgType;
        r := SvgClean(entityStr, raw);
      } else {
        var fenced := FencedBody(raw);
        if fenced.Some? {
          detectedType := CodeType;
          r := FixIndentationOf(fenced.value);
        }
      }
    }
  }
}
