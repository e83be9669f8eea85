# DirectGPT prompt engine, store and study flow in Dafny

DirectGPT is an interface for editing text, code and SVG with a language model by direct
manipulation. The user selects parts of the artifact (entities and targets) and writes a prompt
made of text segments and entity references. The interface compiles that prompt into one or
more sub-requests, sends them to the service and reconciles the replies into a new artifact.

This project models the core of that system and proves properties of the model:

- **The prompt variants** (`ComplexPrompt`, `ChatPrompt`, `TextPrompt`, `CodePrompt`,
  `SVGPrompt`, `UnknownPrompt`). Each one compiles the current artifact into sub-requests and
  cleans a raw reply back into an artifact. The steps are:
  - tagging (`<blank>` and `k]…k]`);
  - buffering one result per target and splicing the results back in start-offset order;
  - echo stripping and whitespace restoration;
  - extracting the code fence and the `<svg>` block;
  - brace-depth re-indentation;
  - modality detection.
- **The store** (`Model.tsx`):
  - undo/redo over the history and the redo stack;
  - the FIFO prompt queue, with the head-identity test for stale executions;
  - the conversation log;
  - the execution of a queued prompt, modelled as a step function driven by the service's
    replies and stream chunks. Other store actions may interleave between steps.
- **The selection merge and label** (`TextualEntity.tsx`).
- **Reusable prompts**: matching and re-binding (`ReusablePromptButton.tsx`), and the
  history scan that builds the toolbar (`PromptReuseToolbar.tsx`).
- **The user-study flow**: the Latin-square step generator (`StudyTaskGenerator.tsx`) and the
  step/task state machine with its CSV log (`StudyModel.tsx`).

Tag removal on a reply to a prompt without targets runs one pass per entity, for `0]`, then
`1]`, and so on. It gives back exactly the reply's words when there are at most ten entities.
With eleven or more, the pass for `0]` also matches the end of `10]` and leaves a stray `1`;
the model keeps this behaviour and states it with a concrete reply.

The form of each module follows the source:

- Expression code is modelled with datatypes and functions.
- Objects whose fields are updated in place are classes:
  - the `TextPrompt` result buffer;
  - `UnknownPrompt.detectedType`;
  - the store;
  - the study model;
  - the shared `modalityTask` conditions.
- Loops are methods with invariants. Each is proved against a specification function:
  - the re-indentation loop runs in place on an array;
  - the splice and tagging loops;
  - the selection-merge loop;
  - the toolbar scan;
  - the step generator.

Modules, one file each:

| module | file | models |
|---|---|---|
| `Wrappers` | `wrappers.dfy` | `Option` |
| `JsString` | `jsstring.dfy` | the JavaScript string operations the source relies on |
| `Seqs` | `seqs.dfy` | the stable numeric-comparator sort and the subsequence relation |
| `Element` | `element.dfy` | entities |
| `ComplexPrompts` | `complex_prompt.dfy` | the base prompt |
| `TextPrompts` | `text_prompt.dfy` | the text prompt |
| `CodePrompts` | `code_prompt.dfy` | the code prompt |
| `SvgPrompts` | `svg_prompt.dfy` | the SVG prompt |
| `ChatPrompts` | `chat_prompt.dfy` | the chat prompt |
| `UnknownPrompts` | `unknown_prompt.dfy` | the unknown-modality prompt |
| `Prompts` | `prompts.dfy` | dispatch over the variants |
| `ModelStore` | `model.dfy` | the store's transitions as functions |
| `StoreObject` | `store.dfy` | the store as an object |
| `QueueSystem` | `queue_system.dfy` | the queue invariant over executions in flight |
| `TextSelection` | `textual_entity.dfy` | the selection merge and label |
| `ReusablePromptButton` | `reusable_prompt_button.dfy` | the reusable-prompt button |
| `PromptReuseToolbar` | `prompt_reuse_toolbar.dfy` | the reusable-prompt toolbar |
| `StudyTaskGenerator` | `study_task_generator.dfy` | the step generator |
| `StudyState` | `study_model.dfy` | the study model |

In the tagged artifact, entity numbers follow artifact position. In the instruction they
follow segment order, so the two numberings can differ (`TextPrompts.TagNumbersFollowPosition`
exhibits such a case).

## Model

| member | source | states |
|---|---|---|
| ComplexPrompts.ToString | src/model/prompts/ComplexPrompt.tsx:33-35 | a one-segment prompt reads as that segment's text or its entity's text representation |
| ComplexPrompts.ToStringAppend | src/model/prompts/ComplexPrompt.tsx:33-35 | the prompt text of a concatenation is the concatenation of the prompt texts, so segments appear in segment order |
| ComplexPrompts.Entities | src/model/prompts/ComplexPrompt.tsx:39 | the entity list holds exactly the entities of the entity segments, and it is no longer than the segment list |
| ComplexPrompts.EntitiesAppend | src/model/prompts/ComplexPrompt.tsx:39 | collecting entities distributes over concatenation, so they come in segment order |
| ComplexPrompts.EntitiesOfTexts | src/model/prompts/ComplexPrompt.tsx:39 | a prompt made only of text segments references no entity |
| ComplexPrompts.LoadingElements | src/model/prompts/ComplexPrompt.tsx:37-40 | the loading elements are the segment entities in order followed by all targets; the length is #entities + #targets |
| ComplexPrompts.DefaultCompile | src/model/prompts/ComplexPrompt.tsx:42-44 | one sub-request whose text is the artifact, a newline, then the prompt text; its callback does nothing |
| ChatPrompts.ChatPrompt | src/model/prompts/ChatPrompt.tsx:5-7 | empty artifact, no targets, not reusable, segments stored unchanged; the loading elements are then only the segment entities |
| ChatPrompts.ChatCompile | src/model/prompts/ChatPrompt.tsx:9-11 | one sub-request whose text is the prompt text alone, which is the default request without its artifact prefix |
| TextPrompts.StripEchoes | src/model/prompts/TextPrompt.tsx:16-23 | removing the echoes leaves a suffix of the reply |
| TextPrompts.CleanReplacementKeepsSpacing | src/model/prompts/TextPrompt.tsx:25-30 | the cleaned replacement has exactly the replaced text's leading and trailing whitespace runs, with the trimmed de-echoed reply between them |
| TextPrompts.CleanReplacementOfBlankSpan | src/model/prompts/TextPrompt.tsx:25-30 | an all-whitespace span is restored on both sides of the trimmed reply |
| TextPrompts.CleanReplacementDropsArrowEcho | src/model/prompts/TextPrompt.tsx:17-19 | a reply starting with `previous -> ` has exactly that echo removed |
| TextPrompts.CleanReplacementDropsBlankEcho | src/model/prompts/TextPrompt.tsx:21-23 | a reply starting with `<blank>: ` has exactly that prefix removed |
| TextPrompts.CleanReplacementOfSameText | src/model/prompts/TextPrompt.tsx:15-33 | replying with the target's own trimmed text gives back the target's text |
| TextPrompts.ReplaceSpan | src/model/prompts/TextPrompt.tsx:53 | replacing one span changes the length by the replacement's length minus the span's |
| TextPrompts.ReplaceAll | src/model/prompts/TextPrompt.tsx:42-48 | replacing ordered spans keeps the artifact up to the first span unchanged |
| TextPrompts.Splice | src/model/prompts/TextPrompt.tsx:42-48 | with no piece left, the splice is the rest of the artifact from the last offset |
| TextPrompts.SpliceReplacesSpans | src/model/prompts/TextPrompt.tsx:42-48 | the `lastOffset` splice loop equals replacing each span of the artifact by its piece |
| TextPrompts.OrderedTail | src/model/prompts/TextPrompt.tsx:44-47 | after the first span, the remaining spans are ordered and start after it |
| TextPrompts.SortedResultsAreSpans | src/model/prompts/TextPrompt.tsx:40 | sorting the buffer keeps every result a text span |
| TextPrompts.PiecesOrdered | src/model/prompts/TextPrompt.tsx:42-47 | disjoint in-bounds results give ordered pieces |
| TextPrompts.SortedDisjoint | src/model/prompts/TextPrompt.tsx:40 | sorting non-overlapping in-bounds results by start index makes them disjoint in order |
| Seqs.PermutedPairFollows | src/model/prompts/TextPrompt.tsx:40 | in any arrangement of non-overlapping results, a span that starts no later than another ends before it starts |
| TextPrompts.TextCleanReplacesTargets | src/model/prompts/TextPrompt.tsx:37-50 | with a complete buffer, the result is the artifact with every target span replaced by its cleaned result, in ascending start order |
| TextPrompts.TextCleanIgnoresArrivalOrder | src/model/prompts/TextPrompt.tsx:37-50 | with distinct start offsets, the result does not depend on the order in which results were recorded |
| TextPrompts.TextCleanIncompleteBuffer | src/model/prompts/TextPrompt.tsx:51-53 | with an incomplete buffer, only the first target's span is replaced, by the cleaned raw reply |
| TextPrompts.StripTagsWithoutBrackets | src/model/prompts/TextPrompt.tsx:56-62 | tag removal leaves a text without `]` unchanged |
| TextPrompts.TextCleanUntaggedReply | src/model/prompts/TextPrompt.tsx:55-63 | without targets, a reply containing no tag is returned unchanged |
| TextPrompts.TextCleanOfTaggedReply | src/model/prompts/TextPrompt.tsx:35-65 | without targets and with at most ten entities, a reply made of words and the entities' single-digit tags is cleaned into exactly its words |
| TextPrompts.StripTags | src/model/prompts/TextPrompt.tsx:55-62 | removing the tags never lengthens the reply |
| TextPrompts.RemoveMark | src/model/prompts/TextPrompt.tsx:58-61 | one pass of the loop removes every occurrence of the tag `m]` from a reply whose tags below `m` are already gone, and nothing else |
| TextPrompts.StripTagsOfMarkedReply | src/model/prompts/TextPrompt.tsx:55-62 | the passes from `from` to `n` (`n` at most ten) remove exactly the tags numbered `from` to `n - 1` |
| TextPrompts.StripTagsOfTaggedReply | src/model/prompts/TextPrompt.tsx:55-62 | for at most ten entities the loop removes every entity tag and keeps every other character |
| TextPrompts.StripTagsCutsTagTen | src/model/prompts/TextPrompt.tsx:55-62 | with eleven entities the pass for `0]` runs first and cuts the tag `10]` down to `1`, so the reply `10]x10]` becomes `1x1` |
| TextPrompts.TagPiecesAt | src/model/prompts/TextPrompt.tsx:92-101 | the i-th piece spans the i-th element; a target becomes `<blank>`; an entity is wrapped in the tag numbered by the entities tagged before it |
| TextPrompts.TaggedNothing | src/model/prompts/TextPrompt.tsx:72-104 | with no target and no entity, the tagged artifact is the artifact |
| TextPrompts.TaggedTargetOnly | src/model/prompts/TextPrompt.tsx:72-104 | with only a target, its span becomes exactly `<blank>` and everything else is copied |
| TextPrompts.TagNumbersFollowPosition | src/model/prompts/TextPrompt.tsx:87-110 | tags are numbered by artifact position while the instruction numbers entities in segment order; a two-entity example where `0]` wraps the second segment's entity |
| TextPrompts.InstructionOfTexts | src/model/prompts/TextPrompt.tsx:110 | without entity segments, the instruction is the prompt text |
| TextPrompts.TaggedReplacesSpans | src/model/prompts/TextPrompt.tsx:70-105 | for disjoint spans inside the artifact, the tagged artifact is the artifact with each span, taken in start order, replaced: the target's span by `<blank>`, the i-th entity in position order by its text wrapped in the tag `i]` |
| TextPrompts.InstructionAppend | src/model/prompts/TextPrompt.tsx:108-110 | the instruction of a concatenation is the two instructions, the second numbering its entities after the first's |
| TextPrompts.InstructionAtSegment | src/model/prompts/TextPrompt.tsx:108-110 | every segment of the instruction is its text, or, for an entity, "<type> delimited by k]" with k the number of entity segments before it |
| TextPrompts.TargetPrompt | src/model/prompts/TextPrompt.tsx:114-119 | a per-target request starts with the tagged artifact, `<blank>: ` and the target's text, then `INSTRUCTION: ` and the instruction, and ends with the rewrite order and the `<blank>:` cue |
| TextPrompts.WholePrompt | src/model/prompts/TextPrompt.tsx:128 | the whole-artifact request starts with the tagged artifact, a blank line and the instruction, and ends with "Keep rest of the <type> identical" |
| TextPrompts.TextCompile | src/model/prompts/TextPrompt.tsx:108-131 | one sub-request per target in target order, each recording its own target; or, with no targets, one whole-artifact request whose callback does nothing; every request has the layout of TargetPrompt or WholePrompt |
| TextPrompts.SortedResultsAnswerTargets | src/model/prompts/TextPrompt.tsx:40 | sorting keeps every buffered result attached to one of the targets |
| TextPrompts.TextPrompt.constructor | src/model/prompts/TextPrompt.tsx:8-11 | the base fields are stored unchanged and the result buffer starts empty |
| TextPrompts.TextPrompt.RecordResult | src/model/prompts/TextPrompt.tsx:121-123 | appends exactly one `{target, result}` to the buffer and changes nothing else |
| TextPrompts.TextPrompt.CleanResult | src/model/prompts/TextPrompt.tsx:35-65 | returns the reconciliation of the buffer and reply; a complete buffer is left sorted by start index, any other buffer is left unchanged |
| TextPrompts.TextPrompt.SpliceResults | src/model/prompts/TextPrompt.tsx:42-48 | the `lastOffset` loop computes the splice of the results into the artifact |
| TextPrompts.TextPrompt.RemoveTags | src/model/prompts/TextPrompt.tsx:56-62 | the loop removes every `k]`, for k counting the entity segments in increasing order |
| TextPrompts.TextPrompt.TaggedEntityStr | src/model/prompts/TextPrompt.tsx:72-105 | collecting, sorting by start and rebuilding give the tagged artifact |
| TextPrompts.TextPrompt.ElementsToTag | src/model/prompts/TextPrompt.tsx:72-83 | the collection loop lists the target first, if any, then every entity segment in segment order |
| TextPrompts.TextPrompt.TagSpans | src/model/prompts/TextPrompt.tsx:87-104 | the rebuilding loop computes the splice of the blank and the numbered tags into the artifact |
| TextPrompts.TextPrompt.ToGPTPrompt | src/model/prompts/TextPrompt.tsx:108-131 | the sub-requests are those of the text compilation for this prompt's type string |
| TextPrompts.TextPrompt.TargetSubPrompt | src/model/prompts/TextPrompt.tsx:113-124 | one target's request, with a callback that records into that target |
| TextPrompts.TextPrompt.TargetSubPrompts | src/model/prompts/TextPrompt.tsx:111-124 | the map over the targets gives the text compilation when there are targets, and nothing otherwise |
| TextPrompts.TextPrompt.WholeSubPrompt | src/model/prompts/TextPrompt.tsx:126-128 | the fallback request is the whole-artifact request with a callback that does nothing |
| Seqs.InsertBy | src/model/prompts/TextPrompt.tsx:40 | inserting into a sorted list keeps it sorted and adds exactly the element |
| Seqs.SortBy | src/model/prompts/TextPrompt.tsx:40 | the stable numeric-comparator sort returns a sorted permutation of its input |
| Seqs.SortedUnique | src/model/prompts/TextPrompt.tsx:40 | with distinct keys there is only one sorted arrangement of the same elements |
| Seqs.SortIgnoresArrivalOrder | src/model/prompts/TextPrompt.tsx:87 | sorting permutations of the same elements with distinct keys gives the same list |
| JsString.Substring | src/model/prompts/TextPrompt.tsx:16 | JavaScript `substring`: the slice for ordered in-range bounds, swapped bounds taken in order, never longer than the string |
| JsString.Trim | src/model/prompts/TextPrompt.tsx:30 | `trim` leaves no whitespace at either end and is empty exactly for all-whitespace input |
| JsString.TrimDecomposition | src/model/prompts/TextPrompt.tsx:26-30 | a text that is not all whitespace is its leading run, its trimmed core and its trailing run |
| JsString.IntToString | src/view/study/StudyModel.tsx:108-109 | the decimal text of a number is never empty |
| JsString.IntToStringChars | src/view/study/StudyModel.tsx:108-109 | the decimal text of a number holds only digits and a minus sign |
| JsString.Split | src/model/prompts/CodePrompt.tsx:16 | `split` returns at least one piece, and no piece contains the separator |
| JsString.JoinSplit | src/model/prompts/CodePrompt.tsx:16-30 | joining the pieces of a split with the separator gives the text back |
| JsString.SplitJoin | src/model/prompts/CodePrompt.tsx:16-30 | splitting a join of separator-free pieces gives the pieces back |
| JsString.IndexOf | src/model/prompts/CodePrompt.tsx:5 | the first occurrence at or after a position, or none |
| JsString.LastIndexOf | src/model/prompts/SVGPrompt.tsx:7 | the last occurrence up to a position, or none |
| JsString.RemoveAll | src/model/prompts/TextPrompt.tsx:59 | a global replace by the empty string; it never lengthens the text and is the identity without an occurrence |
| JsString.RemoveAllSplit | src/model/prompts/TextPrompt.tsx:59 | when no occurrence straddles the cut, the removal of a concatenation is the concatenation of the removals |
| JsString.RemoveAllDropsOccurrence | src/model/prompts/TextPrompt.tsx:59 | an occurrence of the pattern with none before it is dropped and the text before it kept |
| JsString.RemoveAllCanLeaveOccurrence | src/model/prompts/TextPrompt.tsx:59 | the scan does not rescan what it leaves: removing `0]` from `00]]` leaves `0]` |
| CodePrompts.LetterRun | src/model/prompts/CodePrompt.tsx:5 | the maximal run of ASCII letters, the `[a-zA-Z]*` of the fence opener |
| CodePrompts.FenceAt | src/model/prompts/CodePrompt.tsx:5 | a fence at a position: an opener of backquotes, letters and a newline, content of at least one character, and the last closer |
| CodePrompts.FindFence | src/model/prompts/CodePrompt.tsx:5-9 | the leftmost position where a fence matches, or none anywhere |
| CodePrompts.FencedBodyOfBlock | src/model/prompts/CodePrompt.tsx:5-12 | a single fenced block surrounded by backquote-free text yields exactly its body |
| CodePrompts.LastCloser | src/model/prompts/CodePrompt.tsx:5 | the greedy match closes at the last closer |
| CodePrompts.NoFenceWithoutBackquote | src/model/prompts/CodePrompt.tsx:8-12 | a reply without a backquote has no fence |
| CodePrompts.ClosesOpensAreTrimTests | src/model/prompts/CodePrompt.tsx:19-27 | the line tests are `trim().startsWith("}")` and `trim().endsWith("{")` |
| CodePrompts.IndentKeepsCode | src/model/prompts/CodePrompt.tsx:23 | an indented line is `max(0, depth)` spaces and the line without its leading whitespace; its trimmed text and its brace tests are unchanged |
| CodePrompts.Reindent | src/model/prompts/CodePrompt.tsx:16-30 | re-indentation keeps the number of lines |
| CodePrompts.ReindentByCounts | src/model/prompts/CodePrompt.tsx:17-28 | line i gets depth 2 × (opening lines before it) − 2 × (closing lines up to and including it), never below 0 |
| CodePrompts.ReindentIdempotent | src/model/prompts/CodePrompt.tsx:17-28 | re-indenting re-indented lines changes nothing |
| CodePrompts.ReindentBlock | src/model/prompts/CodePrompt.tsx:17-28 | an opening line, a plain line and a closing line come out at depths 0, 2 and 0 |
| CodePrompts.ReindentStrayClose | src/model/prompts/CodePrompt.tsx:19-23 | a closing line at depth 0 drives the depth negative, but no indentation is emitted |
| CodePrompts.FixIndentationLines | src/model/prompts/CodePrompt.tsx:15-30 | with both braces present, the output lines are the re-indented input lines, and there are as many of them |
| CodePrompts.FixIndentationIdempotent | src/model/prompts/CodePrompt.tsx:15-30 | fixing the indentation twice is fixing it once |
| CodePrompts.KeepsBrace | src/model/prompts/CodePrompt.tsx:15-30 | re-indentation keeps every brace, so it keeps the condition for re-indentation |
| CodePrompts.FixIndentationNeedsBothBraces | src/model/prompts/CodePrompt.tsx:15-33 | without both `{` and `}`, the text is returned unchanged |
| CodePrompts.CodeCleanOfFencedReply | src/model/prompts/CodePrompt.tsx:8-33 | a reply holding one fenced block is cleaned to the re-indented body of the block |
| CodePrompts.CodeCleanOfPlainReply | src/model/prompts/CodePrompt.tsx:8-33 | a reply without a fence is cleaned to the re-indented text reconciliation |
| CodePrompts.CodeInstruction | src/model/prompts/CodePrompt.tsx:36-38 | entity references in the inherited instruction read `code delimited by k]` |
| CodePrompts.ReindentInPlace | src/model/prompts/CodePrompt.tsx:17-28 | the loop over the lines array, updating the depth and rewriting each line in place, leaves the re-indented lines |
| CodePrompts.CleanCode | src/model/prompts/CodePrompt.tsx:7-34 | returns the code clean of the buffer and reply, and leaves the buffer as the text clean does |
| CodePrompts.FixIndentationOf | src/model/prompts/CodePrompt.tsx:15-31 | split, in-place re-indentation and join compute the fixed indentation |
| SvgPrompts.FindSvg | src/model/prompts/SVGPrompt.tsx:7-11 | the match runs from the first `<svg` with a later `</svg>` through the last `</svg>`; there is no match exactly when no `</svg>` follows any `<svg` |
| SvgPrompts.SvgClean | src/model/prompts/SVGPrompt.tsx:10-18 | a match is returned, starting with `<svg` and ending with `</svg>`; otherwise the previous artifact is returned |
| SvgPrompts.SvgCleanOfDocument | src/model/prompts/SVGPrompt.tsx:7-14 | an svg block surrounded by tag-free text is extracted exactly |
| SvgPrompts.LastSvgClose | src/model/prompts/SVGPrompt.tsx:7 | the greedy match closes at the last `</svg>` |
| SvgPrompts.SvgCleanWithoutTag | src/model/prompts/SVGPrompt.tsx:15-17 | a reply without `<` falls back to the previous artifact |
| SvgPrompts.SvgCleanIdempotent | src/model/prompts/SVGPrompt.tsx:11-14 | cleaning a cleaned match returns it unchanged |
| SvgPrompts.Locations | src/model/prompts/SVGPrompt.tsx:33-34 | there are no more location labels than targets |
| SvgPrompts.Ids | src/model/prompts/SVGPrompt.tsx:35-36 | there are no more ids than targets |
| SvgPrompts.PartitionCounts | src/model/prompts/SVGPrompt.tsx:29-38 | every target goes to exactly one of the two lists |
| SvgPrompts.PartitionAppend | src/model/prompts/SVGPrompt.tsx:31-38 | both lists keep target order |
| SvgPrompts.LocationIndex | src/model/prompts/SVGPrompt.tsx:33-34 | a location target's label, with `location ` removed, is in the locations list |
| SvgPrompts.IdIndex | src/model/prompts/SVGPrompt.tsx:35-36 | a non-location target's id is in the ids list |
| SvgPrompts.SvgCompile | src/model/prompts/SVGPrompt.tsx:21-48 | exactly one sub-request, whose callback does nothing |
| SvgPrompts.SvgPromptNamesTargets | src/model/prompts/SVGPrompt.tsx:40-45 | every selected element is named in the request, by its id or by its location label |
| SvgPrompts.NamesLocation | src/model/prompts/SVGPrompt.tsx:45 | every location occurs in the request |
| SvgPrompts.NamesId | src/model/prompts/SVGPrompt.tsx:43 | every id occurs in the request |
| SvgPrompts.SvgPromptWithoutIds | src/model/prompts/SVGPrompt.tsx:40-45 | with only locations, there is no `ID:` text and no "to ID", and the locations are joined by " and " |
| SvgPrompts.OnlyLocations | src/model/prompts/SVGPrompt.tsx:31-38 | targets that are all locations leave the ids list empty |
| SvgPrompts.SvgToGPTPrompt | src/model/prompts/SVGPrompt.tsx:21-48 | the `forEach` partition loop builds the compiled request |
| UnknownPrompts.UnknownClean | src/model/prompts/UnknownPrompt.tsx:16-28 | an svg match gives the svg clean, then a fence match gives the code clean of the fenced body, and otherwise the reply is returned unchanged |
| UnknownPrompts.UnknownCleanIsCodeClean | src/model/prompts/UnknownPrompt.tsx:22-24 | the code branch equals the clean of a fresh code prompt with an empty buffer |
| UnknownPrompts.FencedSvgIsSvg | src/model/prompts/UnknownPrompt.tsx:19-22 | an svg inside a code fence is detected as svg, because the svg test comes first |
| UnknownPrompts.FencedCodeIsCode | src/model/prompts/UnknownPrompt.tsx:22-24 | a fenced block without `<` is detected as code |
| UnknownPrompts.UnknownPrompt.constructor | src/model/prompts/UnknownPrompt.tsx:11-14 | the base fields are stored and the detected type is `unknown` |
| UnknownPrompts.UnknownPrompt.CleanResult | src/model/prompts/UnknownPrompt.tsx:16-28 | sets the detected type from the reply alone and returns the unknown clean; it is a function of the reply, so calling twice gives the same type and output |
| Prompts.Compile | src/model/Model.tsx:211 | dispatch of `toGPTPrompt`: at least one request; per-target requests only for text and code prompts with targets, and only those record results |
| Prompts.Deliver | src/model/prompts/TextPrompt.tsx:121-123 | a recording callback appends one result to a text or code prompt's buffer; every other callback leaves the prompt unchanged |
| Prompts.Clean | src/model/prompts/ComplexPrompt.tsx:46-48 | dispatch of `getCleanResult`: identity for base and chat prompts, the text/code reconciliation (sorting a complete buffer), the svg clean, and the unknown clean that also records the detected type |
| Prompts.SortedFits | src/model/prompts/TextPrompt.tsx:40 | sorting keeps the buffer attached to the prompt's targets |
| Prompts.DeliverAll | src/model/Model.tsx:218-253 | delivering replies keeps the prompt's variant and base |
| Prompts.DeliverAllFillsBuffer | src/model/Model.tsx:218-253 | delivering one reply per per-target request fills the buffer with exactly one result per target, in target order |
| Prompts.DeliverPrefix | src/model/Model.tsx:218-253 | after n replies, the buffer holds the first n targets with their replies |
| ModelStore.InitialState | src/model/Model.tsx:96-110 | the initial store has an empty queue, history and redo stack |
| ModelStore.LastMessage | src/model/Model.tsx:187-193 | the last message, or an empty assistant message when the log is empty |
| ModelStore.WithLastMessage | src/model/Model.tsx:175-186 | the last message becomes an assistant message with the given content; the log length and the earlier messages are kept, and an empty log gets one message |
| ModelStore.WithLastMessageTwice | src/model/Model.tsx:175-186 | setting the last message twice is setting it once |
| ModelStore.FindIndex | src/model/Model.tsx:124 | `findIndex` by `(x, y)`: the first matching position, or -1 when none matches |
| ModelStore.UniqueElementsAreFirsts | src/model/Model.tsx:124 | the `filter`/`findIndex` expression keeps exactly the first element of each place |
| ModelStore.FirstsPlaces | src/model/Model.tsx:121-128 | the kept elements are at pairwise different places, cover the same places, and each place keeps its first element |
| ModelStore.FirstsIsSubsequence | src/model/Model.tsx:124 | the kept elements keep their order |
| ModelStore.ClearPromptQueue | src/model/Model.tsx:341 | the queue and the loading elements are emptied, so the store is no longer loading |
| ModelStore.Undo | src/model/Model.tsx:132-152 | undo keeps the store invariant |
| ModelStore.Redo | src/model/Model.tsx:153-171 | redo keeps the store invariant |
| ModelStore.UndoWhileLoading | src/model/Model.tsx:132-134 | while loading, undo only empties the queue and the loading elements |
| ModelStore.UndoWhenIdle | src/model/Model.tsx:135-151 | when idle with history, undo pops the last entry, restores its prompt and messages, pushes the replaced state on the redo stack and clears selection, hover, loading and tool |
| ModelStore.RedoUndoesUndo | src/model/Model.tsx:132-171 | redo after an idle undo restores the prompt, the messages and both stacks |
| ModelStore.UndoUndoesRedo | src/model/Model.tsx:132-171 | an idle undo after a redo restores the prompt, the messages and both stacks |
| ModelStore.UndoRedoKeepSnapshots | src/model/Model.tsx:145-167 | undo and redo keep the total number of snapshots across the two stacks |
| ModelStore.RemoveId | src/model/Model.tsx:327 | the filter removes every prompt with the id and keeps the others in order |
| ModelStore.Send | src/model/Model.tsx:218-232 | sending one sub-request records it and, when it adds to the conversation, appends the user message |
| ModelStore.Begin | src/model/Model.tsx:210-215 | an execution compiles its prompt against the last message's content and marks the prompt's loading elements; the activity type is untouched |
| ModelStore.ExecutePrompt | src/model/Model.tsx:361-375 | the prompt is appended at the tail, and execution starts exactly when it is the only queued prompt |
| ModelStore.AddMessage | src/model/Model.tsx:257-270 | pushes a history entry with the previous messages, empties the redo stack, and appends an empty assistant message (or replaces the log with one) |
| ModelStore.Retire | src/model/Model.tsx:323-329 | the done callback runs only for the queue head; the prompt is removed by id and loading is cleared; an unknown store type adopts the type an unknown-modality prompt detected, any other type is kept |
| ModelStore.FinishAsWritten | src/model/Model.tsx:323-336 | as written: after removal, the new head is started whenever the queue is not empty |
| ModelStore.Finish | src/model/Model.tsx:318-336 | an unknown store adopts the type the unknown prompt detected, and only then; corrected: the new head is started only when the finishing execution was the head, and with no new head the loading elements are cleared and the conversation kept |
| ModelStore.AfterLoop | src/model/Model.tsx:274-316 | after the last reply, a streamed execution goes on to read chunks and any other execution ends; an ending removes the prompt by id and starts the new head only when the execution was the head |
| ModelStore.Complete | src/model/Model.tsx:307-337 | a complete reply is committed only while the execution is the head: the history gains exactly the snapshot of the cleaned prompt and the conversation before it, the redo stack empties, and (when no new head starts) the last message shown is the assistant's cleaned reply; a stale one leaves history and conversation alone; either way the execution ends as a step of the queue |
| ModelStore.Absorb | src/model/Model.tsx:242-245 | a non-streamed reply is delivered to the sub-request's callback |
| ModelStore.Respond | src/model/Model.tsx:234-253 | the next sub-request is sent while any remain; a stream is read only for a single sub-request with streaming on |
| ModelStore.SendNext | src/model/Model.tsx:218-232 | the next turn of the loop sends the next sub-request as the last user message, appends exactly one conversation and leaves the queue alone |
| ModelStore.Chunk | src/model/Model.tsx:282-303 | the chunk is accumulated; the first chunk commits history before the head check; the head updates the last message, and a stale execution stops |
| ModelStore.EndOfStream | src/model/Model.tsx:304-337 | the end of a stream reconciles the text read once more with the prompt (so an unknown prompt detects its type), an unknown store adopts that type, and the execution finishes without touching history or the redo stack |
| ModelStore.EmptyStreamDetectsText | src/model/Model.tsx:304-321 | a stream that ends without a chunk still settles an unknown store's type, as text (src/model/prompts/UnknownPrompt.tsx:17 defaults the detection to text) |
| ModelStore.RespondFrom | src/model/Model.tsx:217-252 | the replies from the awaited sub-request on, one step each, keep the store invariant and the execution's prompt and sub-requests, and end reading a stream or finished |
| ModelStore.ReadFrom | src/model/Model.tsx:282-337 | chunk after chunk while the execution reads, then the end of the stream, keeps the store invariant and ends finished |
| QueueSystem.RemoveHead | src/model/Model.tsx:327 | with distinct ids, removing the head's id drops exactly the head |
| QueueSystem.InitiallyOneRunner | src/model/Model.tsx:96-110 | the initial store satisfies the queue invariant: the head has exactly one execution in flight and no other queued prompt runs |
| QueueSystem.EnqueueKeepsOneRunner | src/model/Model.tsx:361-375 | `executePrompt` with a fresh id keeps the invariant |
| QueueSystem.UndoKeepsOneRunner | src/model/Model.tsx:132-134 | undo keeps the invariant |
| QueueSystem.RedoKeepsOneRunner | src/model/Model.tsx:153-171 | redo keeps the invariant |
| QueueSystem.StepKeepsOneRunner | src/model/Model.tsx:323-336 | every execution step, with the corrected end, keeps the invariant |
| QueueSystem.RespondKeepsOneRunner | src/model/Model.tsx:234-253 | a reply keeps the invariant |
| QueueSystem.ChunkKeepsOneRunner | src/model/Model.tsx:282-303 | a stream chunk keeps the invariant |
| QueueSystem.EndOfStreamKeepsOneRunner | src/model/Model.tsx:303-316 | the end of a stream keeps the invariant |
| QueueSystem.AsWrittenStartsRunningPromptTwice | src/model/Model.tsx:331-336 | the end as written starts a prompt that is already running; the corrected end starts nothing |
| StoreObject.Store.constructor | src/model/Model.tsx:96-113 | the store starts in the initial state |
| StoreObject.Store.Reset | src/model/Model.tsx:114 | `reset` restores the initial state |
| StoreObject.Store.SetType | src/model/Model.tsx:173 | only the activity type changes |
| StoreObject.Store.SetGptMessages | src/model/Model.tsx:174 | only the messages change |
| StoreObject.Store.SetInMultipleSelectionMode | src/model/Model.tsx:115 | only the multiple-selection flag changes |
| StoreObject.Store.SetSelectedTool | src/model/Model.tsx:116-120 | the tool is set and multiple selection is switched off |
| StoreObject.Store.SetSelectedElements | src/model/Model.tsx:121-128 | the selection becomes the first element of each place, and nothing else changes |
| StoreObject.Store.SetLastGptMessage | src/model/Model.tsx:175-186 | the last message becomes the given assistant message, and nothing else changes |
| StoreObject.Store.ClearPromptQueue | src/model/Model.tsx:341 | the queue and the loading elements are emptied |
| StoreObject.Store.ResetInteraction | src/model/Model.tsx:140-144 | mode, tool, selection, hover and loading are cleared |
| StoreObject.Store.Undo | src/model/Model.tsx:132-152 | the new state is the undo of the old one |
| StoreObject.Store.Redo | src/model/Model.tsx:153-171 | the new state is the redo of the old one |
| StoreObject.Store.ExecutePrompt | src/model/Model.tsx:361-375 | the new state and the started execution are those of `executePrompt` |
| StoreObject.Store.Respond | src/model/Model.tsx:234-253 | the state and the execution advance by one reply |
| StoreObject.Store.Chunk | src/model/Model.tsx:282-303 | the state and the execution advance by one chunk |
| StoreObject.Store.EndOfStream | src/model/Model.tsx:304-337 | the fields and the execution become exactly what the end-of-stream step of the store gives for the old state |
| StoreObject.Store.RespondAll | src/model/Model.tsx:217-252 | the loop over the sub-requests, one reply each, leaves the fields, the execution and the started one exactly as the fold of the reply steps gives them; it keeps the store invariant and ends reading a stream or finished |
| StoreObject.Store.ReadAll | src/model/Model.tsx:282-337 | reading chunk after chunk, then the end of the stream, leaves the fields, the execution and the started one exactly as the fold of the chunk steps gives them; it ends finished with the execution and the store still valid |
| StoreObject.Store.Run | src/model/Model.tsx:210-337 | a whole execution with no interleaving is the reply fold followed by the chunk fold: every sub-request is sent in order, streaming only for a single request, and it ends finished, keeping the store invariant |
| TextSelection.Absorb | src/view/entities/TextualEntity.tsx:177-179 | the merged range spans the minimum start and maximum end, and its text is the output's substring over it |
| TextSelection.HullBounds | src/view/entities/TextualEntity.tsx:177-178 | the hull contains the new range and every absorbed selection, and each end is attained by one of them |
| TextSelection.AbsorbExtendsHull | src/view/entities/TextualEntity.tsx:175-179 | absorbing one more selection gives the hull of the new range and all absorbed selections |
| TextSelection.PartitionMove | src/view/entities/TextualEntity.tsx:185 | moving a selection out of the list keeps the remaining and absorbed selections a partition of the originals |
| TextSelection.KeptAtRemove | src/view/entities/TextualEntity.tsx:185 | removing a selection keeps the others in their original relative order |
| TextSelection.Merge | src/view/entities/TextualEntity.tsx:168-190 | when the loop ends, no remaining selection overlaps or touches the range (inclusive test); remaining and absorbed partition the input; the remaining keep their order; the range is the hull of the absorbed selections, with the output's text over it; each absorbed selection touched the hull of the range and of the selections absorbed before it |
| TextSelection.AbsorbedInTurnSnoc | src/view/entities/TextualEntity.tsx:175-185 | absorbing one more selection that touches the current hull keeps the record of selections absorbed in turn |
| TextSelection.Label | src/view/entities/TextualEntity.tsx:194 | texts of up to 16 characters are kept; longer ones become the first 8, ` [...] ` and the last 8 |
| TextSelection.Select | src/view/entities/TextualEntity.tsx:152-200 | without adding, only the new selection remains; otherwise the earlier selections split into those the new one absorbs and those kept in order, the merged element comes last spanning the hull of the new range and the absorbed ones, with the raw selection as its text and the label as its caption |
| ReusablePromptButton.SameShapeSameIdentifier | src/view/components/ReusablePromptButton.tsx:17 | prompts with the same text segments and entity slots have the same identifier |
| ReusablePromptButton.IdentifierOfTexts | src/view/components/ReusablePromptButton.tsx:17 | a prompt without entity slots is identified by its own text |
| ReusablePromptButton.Rebound | src/view/components/ReusablePromptButton.tsx:37-49 | the segments keep their shape: same count and unchanged text segments |
| ReusablePromptButton.ReboundEntities | src/view/components/ReusablePromptButton.tsx:37-49 | the k-th entity slot receives the k-th selected element |
| ReusablePromptButton.SelectedToPromptElements | src/view/components/ReusablePromptButton.tsx:37-49 | the `tmpIdx` loop computes the re-bound segments |
| ReusablePromptButton.Arrange | src/view/components/ReusablePromptButton.tsx:54-69 | the three cases: all targets; all entity slots with no target; or the first element as the target and the rest in slots; the prompt elements keep their shape and the identifier is kept |
| ReusablePromptButton.OnClick | src/view/components/ReusablePromptButton.tsx:72-91 | a selected tool is deselected; with enough elements the prompt is sent and the tool cleared; otherwise the tool is selected in multiple-selection mode |
| ReusablePromptButton.OnSelectionChange | src/view/components/ReusablePromptButton.tsx:94-102 | when the tool is selected and enough elements are selected, the prompt is sent and the selection emptied; otherwise nothing happens |
| PromptReuseToolbar.FirstWith | src/view/components/PromptReuseToolbar.tsx:12-19 | the first reusable history entry with a key, or -1 |
| PromptReuseToolbar.ReusablePrompts | src/view/components/PromptReuseToolbar.tsx:10-24 | the keys are exactly those of reusable entries; each keeps its earliest entry; each key appears once, in first-appearance order; a key an empty object already inherits (`toString`, `constructor`, …) is never listed |
| StudyTaskGenerator.StudyCondition.constructor | src/view/study/StudyTaskGenerator.tsx:9-13 | a condition stores its type, messages and tasks |
| StudyTaskGenerator.ModalityTasks.constructor | src/view/study/StudyTaskGenerator.tsx:110-275 | the table holds one condition per modality |
| StudyTaskGenerator.LatinSquareRows | src/view/study/StudyTaskGenerator.tsx:33-47 | every row is a permutation of the six modalities, with one text, one code and one svg condition per half |
| StudyTaskGenerator.Order | src/view/study/StudyTaskGenerator.tsx:49 | the order for a participant is the row `participantId % 12`: two halves of three |
| StudyTaskGenerator.OrderPlaces | src/view/study/StudyTaskGenerator.tsx:33-49 | each modality is in exactly one half, and no half repeats one |
| StudyTaskGenerator.Fenced | src/view/study/StudyTaskGenerator.tsx:65-71 | only the last message's content changes, and only for baseline code or svg conditions |
| StudyTaskGenerator.FencedCodeReadsBack | src/view/study/StudyTaskGenerator.tsx:65-67 | fence extraction reads a javascript-fenced last message back as its original content |
| StudyTaskGenerator.Tasks | src/view/study/StudyTaskGenerator.tsx:54-84 | three steps per modality |
| StudyTaskGenerator.TasksAt | src/view/study/StudyTaskGenerator.tsx:54-84 | each modality contributes its video, its condition (direct exactly when not baseline) and a break with `saveData`, in that order |
| StudyTaskGenerator.StepsShape | src/view/study/StudyTaskGenerator.tsx:26-103 | 22 steps: the survey first, "Done!" last, a questionnaire ending each block, and at each place the video, the condition and the break; block c is direct exactly when `participantId % 2 == c` |
| StudyTaskGenerator.FenceBlock | src/view/study/StudyTaskGenerator.tsx:54-71 | fencing a block keeps every conversation's length |
| StudyTaskGenerator.FenceBlocks | src/view/study/StudyTaskGenerator.tsx:50-71 | fencing blocks keeps every conversation's length |
| StudyTaskGenerator.FenceBlocksAll | src/view/study/StudyTaskGenerator.tsx:49-71 | after both blocks, each conversation is fenced according to whether its block is baseline |
| StudyTaskGenerator.FenceTask | src/view/study/StudyTaskGenerator.tsx:65-71 | the shared condition's last message is fenced in place, and no other condition changes |
| StudyTaskGenerator.BlockSteps | src/view/study/StudyTaskGenerator.tsx:54-84 | the inner loop pushes the block's steps and fences its conditions |
| StudyTaskGenerator.BlocksInOrder | src/view/study/StudyTaskGenerator.tsx:27-92 | the survey, then each block of the order followed by its questionnaire; after block c the conversations are those fenced by the first c blocks |
| StudyTaskGenerator.GenerateSteps | src/view/study/StudyTaskGenerator.tsx:26-105 | the steps are those of the participant's order, and every condition's conversation ends fenced according to its block |
| StudyState.StepAt | src/view/study/StudyModel.tsx:62 | the current step exists exactly when the index is in range |
| StudyState.Code | src/view/study/StudyModel.tsx:80-97 | empty exactly off condition steps; otherwise `[M_C] X`, with the modality letter, D or C, and the task letters |
| StudyState.CodeDetermines | src/view/study/StudyModel.tsx:84-94 | the task code determines the modality letter, the interface and the task |
| StudyState.NoCommaInDecimal | src/view/study/StudyModel.tsx:108-109 | numbers printed in a CSV line contain no comma and no newline |
| StudyState.LogLineFields | src/view/study/StudyModel.tsx:108-109 | a log line splits back into its nine fields when the event and the parameters have no comma |
| StudyState.LoggedAddsOneLine | src/view/study/StudyModel.tsx:98-112 | logging adds exactly one line when data is saved, and nothing otherwise |
| StudyState.Advance | src/view/study/StudyModel.tsx:59-79 | the position stays in range; it stays put exactly when there is no next task and no next step; otherwise it moves to the next task or to a later step |
| StudyState.NeverPastLast | src/view/study/StudyModel.tsx:70 | from any position in range, any number of steps never moves past the last step |
| StudyState.TaskCodeDefined | src/view/study/StudyModel.tsx:92 | within a condition of at most four tasks, the task letter is defined |
| StudyState.StudyModel.constructor | src/view/study/StudyModel.tsx:28-38 | the initial state: no participant, before the first step, task 0, the CSV header, not saving |
| StudyState.StudyModel.Reset | src/view/study/StudyModel.tsx:39 | `reset` restores the initial state |
| StudyState.StudyModel.SetParticipantId | src/view/study/StudyModel.tsx:40 | only the participant changes |
| StudyState.StudyModel.SetStepId | src/view/study/StudyModel.tsx:41 | only the step index changes |
| StudyState.StudyModel.SetSteps | src/view/study/StudyModel.tsx:42 | only the steps change |
| StudyState.StudyModel.SetIsDataSaved | src/view/study/StudyModel.tsx:134 | only the saving flag changes |
| StudyState.StudyModel.LogEvent | src/view/study/StudyModel.tsx:98-113 | one CSV line is appended when data is saved and the current step exists; nothing else changes |
| StudyState.StudyModel.SaveData | src/view/study/StudyModel.tsx:115-132 | the log is emptied exactly when data is saved and `clear` holds |
| StudyState.StudyModel.StartFresh | src/view/study/StudyModel.tsx:43-58 | the model store is reset, then loaded with the condition's type and messages on a condition step |
| StudyState.StudyModel.NextStep | src/view/study/StudyModel.tsx:59-79 | the position moves as `Advance` says; a move is logged, a step that saves data empties the log, and the store starts fresh; at the end nothing changes |

## Left out

- The service client is not modelled: the API key, the model choice, and the URL and hash
  parsing. Replies are inputs to the execution steps: an optional string per sub-request, or
  a sequence of stream deltas. A failed request is a missing reply.
- Asynchrony is not modelled. Each awaited event is one step. Store actions that happen
  between awaits are modelled by the caller invoking store transitions between steps.
- Prompt ids, which the source draws at random, are a parameter. The queue invariant assumes
  the id is fresh.
- The log timestamp is a parameter.
- The JSON and base64 encoding of log parameters is taken as an already encoded string.
- Console output, alerts and the CSV download through a DOM anchor are not modelled.
- The `logEvent` calls made by store actions and buttons are not modelled: undo and redo,
  tool and element selection, a prompt added to the queue, a request sent, a sub-result or
  result received, and a reusable prompt used. The study log holds only the events the study
  model writes itself.
- DOM selection offsets, rectangle union (floating point) and the word diff are not modelled.
  The selection's preceding offset, position and text are parameters.
- Strings are sequences of characters, while JavaScript strings are sequences of UTF-16 code
  units. Characters outside the Basic Multilingual Plane count as one position here and as two
  in the source. This affects selection offsets, `substring`, `length`, and the 8/16 split of
  selection labels. The model is exact for text within the Basic Multilingual Plane.
- Regular expressions are replaced by explicit scanners with the same first-opener /
  last-closer semantics. JavaScript `\s` is written out as a fixed character set, without a
  Unicode category engine.
- Prompt objects are shared by reference in the source and are modelled as values, except
  where state is mutated: the text/code result buffer, `detectedType`, and the study
  conditions.
- ModelStore.Retire: the store adopts a detected type only from an unknown prompt. When the
  store's type is `unknown` and a prompt of another kind finishes, the source reads
  `detectedType` from that prompt anyway and sets the store's type to `undefined`. That
  state is not modelled: the store's type stays `unknown`.
- PromptReuseToolbar.ReusablePrompts: the keys are in first-appearance order. JavaScript
  objects list integer-like keys first, and that ordering of buttons is not modelled.
- StudyTaskGenerator.Order: participant ids are natural numbers. A negative id would index
  the Latin square with a negative remainder.
- The drag state and the first-result timestamp are not modelled: they have no effect on the
  queue or the artifact.
- StudyState.StudyModel.StartFresh requires the current step to exist. The source throws a
  `TypeError` on a missing step.
- StudyState.StudyModel.NextStep requires a step index of at least -1. Below that, the source
  throws when it reads `saveData` from a missing step.
- The `ComplexPrompt` constructor is the datatype's constructor. Its default
  `isReusable = true` is applied where a prompt is built without the argument.
- The first statement of `getCleanResult` in `TextPrompt` discards the value of its
  `replace`, so it has no effect. The model has no counterpart for it.
- Interface files (prompt builder, drag and drop, entity views, chat and direct interfaces,
  study views, launcher) are rendering and gesture code and are not modelled. Element
  interfaces are datatypes.

## Findings

| source | as written | input that shows it | evidently intended | confidence | as-written member | corrected member |
|---|---|---|---|---|---|---|
| src/model/Model.tsx:331-336 | when an execution finishes, the new queue head is started whenever the queue is non-empty, even if the finishing execution was stale | prompt 1 is sent; undo clears the queue; prompt 2 is enqueued and starts at once; prompt 1's execution then ends and starts prompt 2 a second time | start the next prompt only when the finishing execution was the queue head | not executed | QueueSystem.AsWrittenStartsRunningPromptTwice | QueueSystem.StepKeepsOneRunner |
