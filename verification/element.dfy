/**
 * The things a prompt can point at on the canvas. A text selection is a span of the current
 * artifact; an SVG or code selection is identified by a DOM id. Positions are kept as integers:
 * the only use the engine makes of them is to tell two selections apart.
 */
module Element {

  datatype CustomData =
    | TextData(startIndex: int, endIndex: int, text: string)
    | SvgData(id: string)
    | CodeData(id: string)

  /**
   * A selected entity. `caption` stands for the rendered chip (`htmlRepresentation`) and
   * `textRepresentation` is what the entity contributes to a prompt's text.
   */
  datatype EntityElement = EntityElement(
    x: int,
    y: int,
    caption: string,
    textRepresentation: string,
    customData: CustomData)

  predicate IsTextSpan(e: EntityElement) {
    e.customData.TextData?
  }

  predicate AllTextSpans(es: seq<EntityElement>) {
    forall i :: 0 <= i < |es| ==> IsTextSpan(es[i])
  }

  /** Start offset of a text span (0 for other entities, which have none). */
  function StartOf(e: EntityElement): int {
    if e.customData.TextData? then e.customData.startIndex else 0
  }

  /** End offset of a text span (0 for other entities). */
  function EndOf(e: EntityElement): int {
    if e.customData.TextData? then e.customData.endIndex else 0
  }
}
