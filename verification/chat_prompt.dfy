/**
 * The chat variant: a prompt typed in the conversation panel. It targets nothing, edits no
 * artifact and is never offered for reuse; its request is the prompt's text alone.
 */
module ChatPrompts {
  import opened JsString
  import opened ComplexPrompts

  /** The constructor: no artifact, no targets, not reusable. */
  function ChatPrompt(es: seq<PromptElement>): (p: ComplexPrompt)
    ensures p.promptElements == es && p.entityStr == "" && p.targets == [] && !p.isReusable
    ensures LoadingElements(p) == Entities(es)
  {
    ComplexPrompt("", [], es, false)
  }

  /**
   * `toGPTPrompt` of the chat variant: one request holding the prompt's text, whose reply is
   * not recorded. It is the default request without the artifact and the line break before it.
   */
  function ChatCompile(p: ComplexPrompt, current: string): (r: seq<SubPrompt>)
    ensures |r| == 1 && r[0].onDone == Ignore
    ensures DefaultCompile(p, current)[0].promptStr == current + "\n" + r[0].promptStr
    ensures EndsWith(DefaultCompile(p, current)[0].promptStr, r[0].promptStr)
  {
    [SubPrompt(ToString(p.promptElements), Ignore)]
  }
}
