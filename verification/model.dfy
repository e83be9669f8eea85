/**
 * The application store: the conversation with the language model, the prompt currently shown,
 * the undo and redo stacks of (prompt, conversation) snapshots, the selections on the canvas,
 * and the queue of prompts waiting to be sent.
 *
 * A prompt's execution is asynchronous: between two awaited replies any other store action may
 * run. It is modelled as the frame of that asynchronous call (`Execution`), advanced one step
 * per awaited event by `Respond`, `Chunk` and `EndOfStream`; the service's replies are the
 * parameters of those steps. The store's transitions are functions on `StoreState`; the `Store`
 * class performs them in place.
 */
module ModelStore {
  import opened Wrappers
  import opened Seqs
  import opened Element
  import opened ComplexPrompts
  import opened UnknownPrompts
  import opened Prompts

  const SystemPrompt := "You are ChatGPT, a large language model trained by OpenAI. Follow the user's instructions carefully. Respond using markdown."

  datatype Role = User | Assistant | System
  datatype Message = Message(role: Role, content: string)

  /** An undo or redo entry: a prompt and the conversation as it was. */
  datatype Snapshot = Snapshot(prompt: Prompt, gptMessages: seq<Message>)

  /**
   * A queued prompt. The completion and stream-start callbacks always exist (the enqueuing
   * action gives them empty defaults); what they do is outside the store, so the store only
   * records that they ran.
   */
  datatype QueuedPrompt = QueuedPrompt(
    uniqueId: int,
    prompt: Prompt,
    addToConversation: bool,
    useChatGptSystemPrompt: bool,
    stream: bool)

  datatype CallbackRun = StreamStarted(id: int) | Done(id: int)

  datatype StoreState = StoreState(
    gptMessages: seq<Message>,
    currentPrompt: Prompt,
    activityType: ActivityType,
    history: seq<Snapshot>,
    redoStack: seq<Snapshot>,
    selectedElements: seq<EntityElement>,
    loadingElements: seq<EntityElement>,
    hoveredElements: seq<EntityElement>,
    selectedTool: string,
    inMultipleSelectionMode: bool,
    promptQueue: seq<QueuedPrompt>,
    callbacks: seq<CallbackRun>)

  /** Every queued prompt can be compiled. */
  predicate StoreValid(s: StoreState) {
    forall i :: 0 <= i < |s.promptQueue| ==> WellFormed(s.promptQueue[i].prompt)
  }

  function InitialState(): (s: StoreState)
    ensures StoreValid(s) && s.promptQueue == [] && s.history == [] && s.redoStack == []
  {
    StoreState([], Prompt(ComplexPrompt("", [], [], true), Plain), SvgType, [], [], [], [], [], "",
               false, [], [])
  }

  // ---------------------------------------------------------------------------------------
  // Messages

  /** `getLastGptMessage`: the last message, or an empty assistant message for an empty log. */
  function LastMessage(msgs: seq<Message>): (m: Message)
    ensures |msgs| > 0 ==> m == msgs[|msgs| - 1]
    ensures |msgs| == 0 ==> m == Message(Assistant, "")
  {
    if |msgs| == 0 then Message(Assistant, "") else msgs[|msgs| - 1]
  }

  /**
   * `setLastGptMessage`: the last message becomes an assistant message with the given content;
   * an empty log becomes a one-message log. Reading the last message back gives that message.
   */
  function WithLastMessage(msgs: seq<Message>, content: string): (r: seq<Message>)
    ensures |msgs| > 0 ==> |r| == |msgs| && r[..|r| - 1] == msgs[..|msgs| - 1]
    ensures |msgs| == 0 ==> |r| == 1
    ensures LastMessage(r) == Message(Assistant, content)
  {
    if |msgs| > 0 then msgs[..|msgs| - 1] + [Message(Assistant, content)]
    else [Message(Assistant, content)]
  }

  /** Setting the last message twice keeps only the second content. */
  lemma WithLastMessageTwice(msgs: seq<Message>, a: string, b: string)
    ensures WithLastMessage(WithLastMessage(msgs, a), b) == WithLastMessage(msgs, b)
  {
    var once := WithLastMessage(msgs, a);
    assert once[..|once| - 1] == if |msgs| > 0 then msgs[..|msgs| - 1] else [];
  }

  // ---------------------------------------------------------------------------------------
  // Selection

  predicate SamePlace(a: EntityElement, b: EntityElement) {
    a.x == b.x && a.y == b.y
  }

  /** `findIndex` of the first element at the same place as `e`, or -1. */
  function FindIndex(es: seq<EntityElement>, e: EntityElement, from: nat): (r: int)
    requires from <= |es|
    ensures r == -1 || from <= r < |es|
    ensures r == -1 ==> forall j :: from <= j < |es| ==> !SamePlace(es[j], e)
    ensures r != -1 ==> SamePlace(es[r], e) && forall j :: from <= j < r ==> !SamePlace(es[j], e)
    decreases |es| - from
  {
    if from == |es| then -1
    else if SamePlace(es[from], e) then from
    else FindIndex(es, e, from + 1)
  }

  /** The filter of `setSelectedElements`: positions `i..` whose element is the first at its place. */
  function KeepFirsts(es: seq<EntityElement>, i: nat): seq<EntityElement>
    requires i <= |es|
    decreases |es| - i
  {
    if i == |es| then []
    else (if FindIndex(es, es[i], 0) == i then [es[i]] else []) + KeepFirsts(es, i + 1)
  }

  /** The elements of `setSelectedElements`, without a second element at an already used place. */
  function UniqueElements(es: seq<EntityElement>): seq<EntityElement> {
    KeepFirsts(es, 0)
  }

  /**
   * The reference definition: walking the elements in order, an element is kept when no
   * earlier element is at its place.
   */
  function Firsts(es: seq<EntityElement>): seq<EntityElement>
    decreases |es|
  {
    if es == [] then []
    else
      var init, e := es[..|es| - 1], es[|es| - 1];
      Firsts(init) + (if FindIndex(init, e, 0) == -1 then [e] else [])
  }

  /** Looking for a place in a list extended by one element. */
  lemma FindIndexSnoc(init: seq<EntityElement>, e: EntityElement, x: EntityElement)
    ensures FindIndex(init + [e], x, 0)
      == if FindIndex(init, x, 0) != -1 then FindIndex(init, x, 0)
         else if SamePlace(e, x) then |init| else -1
  {
    var es := init + [e];
    var r0, r1 := FindIndex(init, x, 0), FindIndex(es, x, 0);
    if r0 != -1 {
      assert es[r0] == init[r0] && SamePlace(es[r0], x);
      assert r1 != -1 && r1 <= r0;
      assert es[r1] == init[r1];
    } else if SamePlace(e, x) {
      assert es[|init|] == e;
    }
  }

  lemma {:induction false} KeepFirstsSnoc(init: seq<EntityElement>, e: EntityElement, i: nat)
    requires i <= |init|
    ensures KeepFirsts(init + [e], i)
      == KeepFirsts(init, i) + (if FindIndex(init, e, 0) == -1 then [e] else [])
    decreases |init| - i
  {
    var es := init + [e];
    var tail := if FindIndex(init, e, 0) == -1 then [e] else [];
    if i == |init| {
      FindIndexSnoc(init, e, e);
      assert es[i] == e && SamePlace(e, e);
      assert KeepFirsts(es, i + 1) == [];
      assert KeepFirsts(es, i) == tail + [];
    } else {
      KeepFirstsSnoc(init, e, i + 1);
      var x := init[i];
      assert es[i] == x && SamePlace(x, x);
      FindIndexSnoc(init, e, x);
      var keep := if FindIndex(init, x, 0) == i then [x] else [];
      assert KeepFirsts(es, i) == keep + KeepFirsts(es, i + 1);
      assert KeepFirsts(init, i) == keep + KeepFirsts(init, i + 1);
    }
  }

  /** The filter the store applies is the reference definition. */
  lemma {:induction false} UniqueElementsAreFirsts(es: seq<EntityElement>)
    ensures UniqueElements(es) == Firsts(es)
    decreases |es|
  {
    if es != [] {
      var init, e := es[..|es| - 1], es[|es| - 1];
      assert es == init + [e];
      KeepFirstsSnoc(init, e, 0);
      UniqueElementsAreFirsts(init);
    }
  }

  /**
   * The kept elements are at pairwise different places, and each place of the selection keeps
   * its first element.
   */
  lemma {:induction false} FirstsPlaces(es: seq<EntityElement>)
    ensures var r := Firsts(es);
      forall a, b :: 0 <= a < b < |r| ==> !SamePlace(r[a], r[b])
    ensures var r := Firsts(es);
      forall x :: (FindIndex(r, x, 0) == -1 <==> FindIndex(es, x, 0) == -1)
    ensures var r := Firsts(es);
      forall x :: FindIndex(r, x, 0) != -1 ==> r[FindIndex(r, x, 0)] == es[FindIndex(es, x, 0)]
    decreases |es|
  {
    if es != [] {
      var init, e := es[..|es| - 1], es[|es| - 1];
      assert es == init + [e];
      FirstsPlaces(init);
      var f := Firsts(init);
      var r := Firsts(es);
      forall x ensures (FindIndex(r, x, 0) == -1 <==> FindIndex(es, x, 0) == -1)
        && (FindIndex(r, x, 0) != -1 ==> r[FindIndex(r, x, 0)] == es[FindIndex(es, x, 0)])
      {
        FindIndexSnoc(init, e, x);
        if FindIndex(init, e, 0) == -1 {
          FindIndexSnoc(f, e, x);
          if FindIndex(f, x, 0) != -1 {
            assert r[FindIndex(f, x, 0)] == f[FindIndex(f, x, 0)];
            assert es[FindIndex(init, x, 0)] == init[FindIndex(init, x, 0)];
          }
        } else {
          assert r == f;
          if FindIndex(f, x, 0) != -1 {
            assert es[FindIndex(init, x, 0)] == init[FindIndex(init, x, 0)];
          }
        }
      }
      forall a, b | 0 <= a < b < |r| ensures !SamePlace(r[a], r[b]) {
        if b == |f| {
          assert r[a] == f[a];
          assert FindIndex(f, e, 0) == -1;
        } else {
          assert r[a] == f[a] && r[b] == f[b];
        }
      }
    }
  }

  /** The kept elements appear in the selection, in the selection's order. */
  lemma {:induction false} FirstsIsSubsequence(es: seq<EntityElement>)
    ensures IsSubsequence(Firsts(es), es)
    decreases |es|
  {
    if es != [] {
      var init, e := es[..|es| - 1], es[|es| - 1];
      assert es == init + [e];
      FirstsIsSubsequence(init);
      assert Firsts(es) == Firsts(init) + (if FindIndex(init, e, 0) == -1 then [e] else []);
      if FindIndex(init, e, 0) == -1 {
        SubsequenceSnoc(Firsts(init), init, e);
      } else {
        assert Firsts(es) == Firsts(init);
        SubsequenceExtend(Firsts(init), init, e);
      }
    }
  }

  lemma {:induction false} SubsequenceSnoc<T>(a: seq<T>, b: seq<T>, e: T)
    requires IsSubsequence(a, b)
    ensures IsSubsequence(a + [e], b + [e])
    decreases |b|
  {
    if a == [] {
      EverySingletonIsSubsequence(b, e);
      assert a + [e] == [e];
    } else if a[0] == b[0] && IsSubsequence(a[1..], b[1..]) {
      SubsequenceSnoc(a[1..], b[1..], e);
      assert (a + [e])[1..] == a[1..] + [e];
      assert (b + [e])[1..] == b[1..] + [e];
    } else {
      SubsequenceSnoc(a, b[1..], e);
      assert (b + [e])[1..] == b[1..] + [e];
    }
  }

  lemma {:induction false} EverySingletonIsSubsequence<T>(b: seq<T>, e: T)
    ensures IsSubsequence([e], b + [e])
    decreases |b|
  {
    if b != [] {
      EverySingletonIsSubsequence(b[1..], e);
      assert (b + [e])[1..] == b[1..] + [e];
    }
  }

  lemma {:induction false} SubsequenceExtend<T>(a: seq<T>, b: seq<T>, e: T)
    requires IsSubsequence(a, b)
    ensures IsSubsequence(a, b + [e])
    decreases |b|
  {
    if a != [] {
      if b == [] {
        assert false;
      } else if a[0] == b[0] && IsSubsequence(a[1..], b[1..]) {
        SubsequenceExtend(a[1..], b[1..], e);
        assert (b + [e])[1..] == b[1..] + [e];
      } else {
        SubsequenceExtend(a, b[1..], e);
        assert (b + [e])[1..] == b[1..] + [e];
      }
    }
  }

  // ---------------------------------------------------------------------------------------
  // Undo and redo

  /** `isLoading`: a prompt is queued or running. */
  predicate IsLoading(s: StoreState) {
    |s.promptQueue| > 0
  }

  /** `clearPromptQueue`. */
  function ClearPromptQueue(s: StoreState): (r: StoreState)
    ensures StoreValid(r) && !IsLoading(r)
  {
    s.(promptQueue := [], loadingElements := [])
  }

  /** The canvas interaction state that restoring a snapshot resets. */
  function ResetInteraction(s: StoreState): StoreState {
    s.(inMultipleSelectionMode := false, selectedTool := "", selectedElements := [],
       hoveredElements := [], loadingElements := [])
  }

  /**
   * `undo`: while loading, it cancels the queue; otherwise it restores the last history entry
   * and pushes the state it replaces onto the redo stack; with no history it does nothing.
   */
  function Undo(s: StoreState): (r: StoreState)
    requires StoreValid(s)
    ensures StoreValid(r)
  {
    if IsLoading(s) then ClearPromptQueue(s)
    else if |s.history| > 0 then
      var last := s.history[|s.history| - 1];
      ResetInteraction(s).(
        history := s.history[..|s.history| - 1],
        currentPrompt := last.prompt,
        gptMessages := last.gptMessages,
        redoStack := s.redoStack + [Snapshot(s.currentPrompt, s.gptMessages)])
    else s
  }

  /**
   * `redo`: restores the last redo entry and pushes the state it replaces onto the history;
   * with an empty redo stack it does nothing. It is not blocked while a prompt is loading.
   */
  function Redo(s: StoreState): (r: StoreState)
    requires StoreValid(s)
    ensures StoreValid(r)
  {
    if |s.redoStack| > 0 then
      var last := s.redoStack[|s.redoStack| - 1];
      ResetInteraction(s).(
        redoStack := s.redoStack[..|s.redoStack| - 1],
        currentPrompt := last.prompt,
        gptMessages := last.gptMessages,
        history := s.history + [Snapshot(s.currentPrompt, s.gptMessages)])
    else s
  }

  /** While loading, undo only cancels: history, redo stack, prompt and conversation are kept. */
  lemma UndoWhileLoading(s: StoreState)
    requires StoreValid(s) && IsLoading(s)
    ensures var r := Undo(s);
      r.promptQueue == [] && r.loadingElements == []
      && r == s.(promptQueue := [], loadingElements := [])
  {
  }

  /** When idle, undo moves one snapshot from the history to the redo stack. */
  lemma UndoWhenIdle(s: StoreState)
    requires StoreValid(s) && !IsLoading(s) && |s.history| > 0
    ensures var r := Undo(s);
      |r.history| == |s.history| - 1 && r.history == s.history[..|s.history| - 1]
      && Snapshot(r.currentPrompt, r.gptMessages) == s.history[|s.history| - 1]
      && r.redoStack == s.redoStack + [Snapshot(s.currentPrompt, s.gptMessages)]
      && r.selectedElements == [] && r.hoveredElements == [] && r.loadingElements == []
      && r.selectedTool == "" && !r.inMultipleSelectionMode
  {
  }

  /** Redo after an undo brings back the prompt, the conversation and both stacks. */
  lemma RedoUndoesUndo(s: StoreState)
    requires StoreValid(s) && !IsLoading(s) && |s.history| > 0
    ensures var r := Redo(Undo(s));
      r.currentPrompt == s.currentPrompt && r.gptMessages == s.gptMessages
      && r.history == s.history && r.redoStack == s.redoStack
      && r.promptQueue == s.promptQueue
  {
    var u := Undo(s);
    assert u.redoStack[..|u.redoStack| - 1] == s.redoStack;
    assert s.history[..|s.history| - 1] + [s.history[|s.history| - 1]] == s.history;
  }

  /** Undo after a redo, when idle, brings back the prompt, the conversation and both stacks. */
  lemma UndoUndoesRedo(s: StoreState)
    requires StoreValid(s) && !IsLoading(s) && |s.redoStack| > 0
    ensures var r := Undo(Redo(s));
      r.currentPrompt == s.currentPrompt && r.gptMessages == s.gptMessages
      && r.history == s.history && r.redoStack == s.redoStack
  {
    var d := Redo(s);
    assert d.history[..|d.history| - 1] == s.history;
    assert s.redoStack[..|s.redoStack| - 1] + [s.redoStack[|s.redoStack| - 1]] == s.redoStack;
  }

  /** Undo and redo never lose a snapshot: the two stacks together only change by the entry moved. */
  lemma UndoRedoKeepSnapshots(s: StoreState)
    requires StoreValid(s)
    ensures |Undo(s).history| + |Undo(s).redoStack| == |s.history| + |s.redoStack|
    ensures |Redo(s).history| + |Redo(s).redoStack| == |s.history| + |s.redoStack|
  {
  }

  // ---------------------------------------------------------------------------------------
  // The prompt queue and the execution of a queued prompt

  /** One request sent to the service: the conversation it carries and whether it streams. */
  datatype Request = Request(messages: seq<Message>, stream: bool)

  /** The last response object the execution kept (`readStream`). */
  datatype ReadStream = NoStream | Completed(text: string) | Streaming

  /** Where the asynchronous execution is suspended. */
  datatype Phase = Awaiting(k: nat) | Reading | Finished

  /**
   * The frame of `_executeQueuedPrompt`: the queued prompt, the state of its prompt object (its
   * reply buffer or detected kind change as replies arrive), the sub-requests, the streamed
   * text so far, and the requests sent, in order.
   */
  datatype Execution = Execution(
    q: QueuedPrompt,
    prompt: Prompt,
    subs: seq<SubPrompt>,
    phase: Phase,
    readStream: ReadStream,
    result: string,
    nbChunks: nat,
    sent: seq<Request>)

  predicate ExecValid(x: Execution) {
    WellFormed(x.prompt) && x.prompt.base == x.q.prompt.base && |x.subs| >= 1
    && (forall i :: 0 <= i < |x.subs| && x.subs[i].onDone.Record? ==>
          x.subs[i].onDone.target in x.prompt.base.targets)
    && (x.phase.Awaiting? ==> x.phase.k < |x.subs| && |x.sent| == x.phase.k + 1)
    && (x.phase == Reading ==> x.readStream == Streaming)
    && (x.readStream == Streaming ==> |x.subs| == 1 && x.q.stream)
    && SentInOrder(x)
  }

  /**
   * Sub-requests go out one at a time, in order: request `j` carries sub-request `j`, every
   * request streams exactly when the prompt streams, and once the loop is over all were sent.
   */
  predicate SentInOrder(x: Execution) {
    |x.sent| <= |x.subs|
    && (!x.phase.Awaiting? ==> |x.sent| == |x.subs|)
    && forall j :: 0 <= j < |x.sent| ==>
         x.sent[j].stream == Streams(x) && LastMessage(x.sent[j].messages) == Message(User, x.subs[j].promptStr)
  }

  /** The outcome of one step: the store, the advanced execution, and the execution it started. */
  datatype Step = Step(store: StoreState, exec: Execution, started: Option<Execution>)

  /**
   * What every step of an execution `x` does to the queue: a step that does not end the
   * execution leaves the queue alone; the end removes the prompt by id, and starts the new
   * head exactly when `x` was the head it replaces.
   */
  predicate StepOf(s: StoreState, x: Execution, r: Step) {
    StoreValid(r.store) && r.exec.q == x.q
    && (r.exec.phase != Finished ==>
          ExecValid(r.exec) && r.store.promptQueue == s.promptQueue && r.started.None?)
    && (r.exec.phase == Finished ==>
          r.store.promptQueue == RemoveId(s.promptQueue, x.q.uniqueId)
          && (r.started.Some? <==> IsHead(s, x.q.uniqueId) && |r.store.promptQueue| > 0))
    && (r.started.Some? ==>
          r.started.value.q == r.store.promptQueue[0] && ExecValid(r.started.value)
          && r.started.value.phase == Awaiting(0))
  }

  /** A request streams only when it is the prompt's only sub-request and streaming was asked for. */
  function Streams(x: Execution): bool {
    if |x.subs| > 1 then false else x.q.stream
  }

  /** Whether the execution of prompt `id` is still the head of the queue. */
  predicate IsHead(s: StoreState, id: int) {
    |s.promptQueue| > 0 && s.promptQueue[0].uniqueId == id
  }

  /** The queue without the entries of prompt `id`, in order. */
  function RemoveId(queue: seq<QueuedPrompt>, id: int): (r: seq<QueuedPrompt>)
    ensures |r| <= |queue|
    ensures forall i :: 0 <= i < |r| ==> r[i].uniqueId != id && r[i] in queue
    ensures IsSubsequence(r, queue)
  {
    if queue == [] then []
    else
      var rest := RemoveId(queue[1..], id);
      if queue[0].uniqueId == id then
        assert rest == [] || IsSubsequence(rest, queue[1..]);
        rest
      else
        assert ([queue[0]] + rest)[1..] == rest;
        [queue[0]] + rest
  }

  /**
   * Sending sub-request `k`: the user message joins the conversation when the prompt adds to
   * it; the request carries the conversation, behind the system message when one is asked for.
   */
  function Send(s: StoreState, x: Execution, k: nat): (r: (StoreState, Execution))
    requires k < |x.subs|
    ensures r.1 == x.(phase := Awaiting(k), sent := r.1.sent)
    ensures |r.1.sent| == |x.sent| + 1 && r.1.sent[..|x.sent|] == x.sent
    ensures var req := r.1.sent[|x.sent|];
      req.stream == Streams(x) && |req.messages| > 0
      && req.messages[|req.messages| - 1] == Message(User, x.subs[k].promptStr)
    ensures x.q.addToConversation ==> r.0 == s.(gptMessages := s.gptMessages + [Message(User, x.subs[k].promptStr)])
    ensures !x.q.addToConversation ==> r.0 == s
    ensures |x.sent| == k && SentInOrder(x.(phase := Awaiting(k))) ==> SentInOrder(r.1)
  {
    var user := Message(User, x.subs[k].promptStr);
    var conv := if x.q.addToConversation then s.gptMessages + [user] else [user];
    var s1 := if x.q.addToConversation then s.(gptMessages := conv) else s;
    var messages := if x.q.useChatGptSystemPrompt then [Message(System, SystemPrompt)] + conv else conv;
    var req := Request(messages, Streams(x));
    assert messages[|messages| - 1] == user;
    SentInOrderSnoc(x, k, req);
    (s1, x.(phase := Awaiting(k), sent := x.sent + [req]))
  }

  /** A request for the next sub-request, streaming as the prompt does, keeps requests in order. */
  lemma SentInOrderSnoc(x: Execution, k: nat, req: Request)
    requires k < |x.subs|
    requires req.stream == Streams(x) && |req.messages| > 0
    requires req.messages[|req.messages| - 1] == Message(User, x.subs[k].promptStr)
    ensures |x.sent| == k && SentInOrder(x.(phase := Awaiting(k))) ==>
      SentInOrder(x.(phase := Awaiting(k), sent := x.sent + [req]))
  {
    var y := x.(phase := Awaiting(k), sent := x.sent + [req]);
    if |x.sent| == k && SentInOrder(x.(phase := Awaiting(k))) {
      forall j | 0 <= j < |y.sent|
        ensures y.sent[j].stream == Streams(y) && LastMessage(y.sent[j].messages) == Message(User, y.subs[j].promptStr)
      {
        if j < k {
          assert y.sent[j] == x.sent[j];
        }
      }
    }
  }

  /**
   * The start of `_executeQueuedPrompt`, up to the first awaited reply: the prompt compiled
   * against the last message's content, its entities and targets shown as loading, and the first
   * sub-request sent.
   */
  function Begin(s: StoreState, q: QueuedPrompt): (r: (StoreState, Execution))
    requires WellFormed(q.prompt)
    ensures ExecValid(r.1) && r.1.q == q && r.1.prompt == q.prompt
    ensures r.1.phase == Awaiting(0) && |r.1.sent| == 1
    ensures r.1.subs == Compile(q.prompt, LastMessage(s.gptMessages).content)
    ensures r.0.loadingElements == LoadingElements(q.prompt.base)
    ensures r.0.promptQueue == s.promptQueue && r.0.history == s.history && r.0.callbacks == s.callbacks
    ensures r.0.activityType == s.activityType
  {
    var subs := Compile(q.prompt, LastMessage(s.gptMessages).content);
    var s1 := s.(loadingElements := LoadingElements(q.prompt.base));
    Send(s1, Execution(q, q.prompt, subs, Awaiting(0), NoStream, "", 0, []), 0)
  }

  /**
   * `executePrompt`: the prompt joins the tail of the queue under the fresh id; it starts at
   * once only when it is the only queued prompt, otherwise it waits for the running one.
   */
  function ExecutePrompt(s: StoreState, prompt: Prompt, uniqueId: int, addToConversation: bool,
                         useChatGptSystemPrompt: bool, stream: bool): (r: Step)
    requires StoreValid(s) && WellFormed(prompt)
    ensures StoreValid(r.store)
    ensures r.store.promptQueue == s.promptQueue + [r.exec.q] && r.exec.q.uniqueId == uniqueId
    ensures r.started.Some? <==> |s.promptQueue| == 0
    ensures r.started.Some? ==> r.started.value == r.exec && ExecValid(r.exec) && IsHead(r.store, uniqueId)
    ensures r.started.None? ==> r.store == s.(promptQueue := s.promptQueue + [r.exec.q])
  {
    var q := QueuedPrompt(uniqueId, prompt, addToConversation, useChatGptSystemPrompt, stream);
    var s1 := s.(promptQueue := s.promptQueue + [q]);
    if |s1.promptQueue| > 1 then Step(s1, Execution(q, prompt, [], Finished, NoStream, "", 0, []), None)
    else
      var (s2, x) := Begin(s1, q);
      Step(s2, x, Some(x))
  }

  /**
   * `addMessage`, the commit of a reply: a history entry with the conversation as it was, an
   * emptied redo stack, and an empty assistant message appended (or alone, when the prompt does
   * not add to the conversation).
   */
  function AddMessage(s: StoreState, x: Execution): (r: StoreState)
    ensures r.history == s.history + [Snapshot(x.prompt, s.gptMessages)]
    ensures r.redoStack == []
    ensures x.q.addToConversation ==> r.gptMessages == s.gptMessages + [Message(Assistant, "")]
    ensures !x.q.addToConversation ==> r.gptMessages == [Message(Assistant, "")]
    ensures r.promptQueue == s.promptQueue
  {
    var messages := if x.q.addToConversation then s.gptMessages + [Message(Assistant, "")]
                    else [Message(Assistant, "")];
    s.(gptMessages := messages, history := s.history + [Snapshot(x.prompt, s.gptMessages)],
       redoStack := [])
  }

  /**
   * The end of `_executeQueuedPrompt` before the next prompt starts: the detected kind adopted
   * if the store's kind is still unknown, the completion callback run if this execution is
   * still the head, the prompt removed from the queue by id, and nothing left loading.
   */
  function Retire(s: StoreState, x: Execution): (r: StoreState)
    requires StoreValid(s)
    ensures StoreValid(r)
    ensures r.promptQueue == RemoveId(s.promptQueue, x.q.uniqueId) && r.loadingElements == []
    ensures r.history == s.history && r.redoStack == s.redoStack && r.gptMessages == s.gptMessages
    ensures r.callbacks == s.callbacks + (if IsHead(s, x.q.uniqueId) then [Done(x.q.uniqueId)] else [])
    ensures r.activityType == (if s.activityType == UnknownType && x.prompt.variant.Unknown?
                               then x.prompt.variant.detected else s.activityType)
  {
    var id := x.q.uniqueId;
    var s1 := if s.activityType == UnknownType && x.prompt.variant.Unknown?
              then s.(activityType := x.prompt.variant.detected) else s;
    var s2 := if IsHead(s1, id) then s1.(callbacks := s1.callbacks + [Done(id)]) else s1;
    s2.(promptQueue := RemoveId(s2.promptQueue, id), loadingElements := [])
  }

  /**
   * The end of `_executeQueuedPrompt` as written: the prompt retired, then the new head
   * started whenever the queue is not empty, even when this execution was no longer the head
   * and the new head is already running.
   */
  function FinishAsWritten(s: StoreState, x: Execution): (r: Step)
    requires StoreValid(s)
    ensures StoreValid(r.store) && r.exec == x.(phase := Finished)
    ensures r.store.promptQueue == RemoveId(s.promptQueue, x.q.uniqueId)
    ensures r.started.Some? <==> |RemoveId(s.promptQueue, x.q.uniqueId)| > 0
    ensures r.started.Some? ==> r.started.value.q == RemoveId(s.promptQueue, x.q.uniqueId)[0]
  {
    var s3 := Retire(s, x);
    var x1 := x.(phase := Finished);
    if |s3.promptQueue| > 0 then
      var started := Begin(s3, s3.promptQueue[0]);
      Step(started.0, x1, Some(started.1))
    else Step(s3, x1, None)
  }

  /**
   * The end of `_executeQueuedPrompt`, as intended: the prompt retired, then the new head
   * started only when this execution was the head it replaces. A stale execution (its prompt
   * was cancelled while it awaited) starts nothing: the prompt now at the head was started by
   * `executePrompt` and is already running.
   */
  function Finish(s: StoreState, x: Execution): (r: Step)
    requires StoreValid(s)
    ensures StoreValid(r.store) && r.exec == x.(phase := Finished)
    ensures r.started.Some? <==> IsHead(s, x.q.uniqueId) && |RemoveId(s.promptQueue, x.q.uniqueId)| > 0
    ensures r.started.Some? ==> r.started.value.q == RemoveId(s.promptQueue, x.q.uniqueId)[0]
    ensures r.started.Some? ==> ExecValid(r.started.value) && r.started.value.phase == Awaiting(0)
    ensures r.started.None? ==> r.store.loadingElements == [] && r.store.gptMessages == s.gptMessages
    ensures r.store.promptQueue == RemoveId(s.promptQueue, x.q.uniqueId)
    ensures r.store.history == s.history && r.store.redoStack == s.redoStack
    ensures r.store.callbacks == s.callbacks + (if IsHead(s, x.q.uniqueId) then [Done(x.q.uniqueId)] else [])
    ensures r.store.activityType == (if s.activityType == UnknownType && x.prompt.variant.Unknown?
                                     then x.prompt.variant.detected else s.activityType)
  {
    var wasHead := IsHead(s, x.q.uniqueId);
    var s3 := Retire(s, x);
    var x1 := x.(phase := Finished);
    if wasHead && |s3.promptQueue| > 0 then
      var started := Begin(s3, s3.promptQueue[0]);
      Step(started.0, x1, Some(started.1))
    else Step(s3, x1, None)
  }

  /**
   * After the last sub-request: nothing to do without a response; a stream is read chunk by
   * chunk; a complete response is reconciled and, if the execution is still the head, committed
   * and shown as the last message.
   */
  function AfterLoop(s: StoreState, x: Execution): (r: Step)
    requires StoreValid(s) && ExecValid(x) && |x.sent| == |x.subs|
    ensures StoreValid(r.store) && r.exec.q == x.q && r.exec.subs == x.subs
    ensures r.started.Some? ==> ExecValid(r.started.value)
    ensures r.exec.phase == (if x.readStream == Streaming then Reading else Finished)
    ensures r.exec.readStream == x.readStream
    ensures ExecValid(r.exec)
    ensures StepOf(s, x, r)
  {
    match x.readStream
    case NoStream => Finish(s, x)
    case Streaming => Step(s, x.(phase := Reading), None)
    case Completed(text) => Complete(s, x, text)
  }

  /**
   * A complete response: reconciled and, if the execution is still the head, committed and
   * shown as the last message; then the end of the execution.
   */
  function Complete(s: StoreState, x: Execution, text: string): (r: Step)
    requires StoreValid(s) && ExecValid(x) && |x.sent| == |x.subs| && x.readStream == Completed(text)
    ensures r.exec.q == x.q && r.exec.subs == x.subs && r.exec.sent == x.sent
    ensures r.exec.phase == Finished && r.exec.readStream == x.readStream
    ensures ExecValid(r.exec)
    ensures IsHead(s, x.q.uniqueId) ==>
      r.store.history == s.history + [Snapshot(Clean(x.prompt, text).0, s.gptMessages)] && r.store.redoStack == []
    ensures IsHead(s, x.q.uniqueId) && r.started.None? ==>
      LastMessage(r.store.gptMessages) == Message(Assistant, Clean(Clean(x.prompt, text).0, text).1)
    ensures !IsHead(s, x.q.uniqueId) ==> r.store.history == s.history && r.store.gptMessages == s.gptMessages
    ensures StepOf(s, x, r)
  {
    var (p1, _) := Clean(x.prompt, text);
    var x1 := x.(prompt := p1);
    if IsHead(s, x.q.uniqueId) then
      var s1 := AddMessage(s, x1);
      var (p2, shown) := Clean(p1, text);
      Finish(s1.(gptMessages := WithLastMessage(s1.gptMessages, shown)), x1.(prompt := p2))
    else Finish(s, x1)
  }

  /**
   * What the response to the awaited sub-request does to the frame: `None` when the call
   * failed (the failure is reported and the previous response kept), otherwise the reply text;
   * a streamed response's text arrives later, in chunks. A complete reply goes to the
   * sub-request's callback.
   */
  function Absorb(x: Execution, reply: Option<string>): (r: Execution)
    requires ExecValid(x) && x.phase.Awaiting?
    ensures ExecValid(r) && r.q == x.q && r.subs == x.subs && r.phase == x.phase && r.sent == x.sent
  {
    match reply
    case None => x
    case Some(text) =>
      if Streams(x) then x.(readStream := Streaming)
      else x.(prompt := Deliver(x.prompt, x.subs[x.phase.k].onDone, text), readStream := Completed(text))
  }

  /**
   * The response to the awaited sub-request `k`, then the next sub-request sent, or the end of
   * the loop. Sub-requests go out one at a time, in order, and a response streams only when it
   * answers the prompt's only sub-request.
   */
  function Respond(s: StoreState, x: Execution, reply: Option<string>): (r: Step)
    requires StoreValid(s) && ExecValid(x) && x.phase.Awaiting?
    ensures StoreValid(r.store)
    ensures r.started.Some? ==> ExecValid(r.started.value)
    ensures x.phase.k + 1 < |x.subs| ==> r.exec.phase == Awaiting(x.phase.k + 1) && r.started.None?
    ensures x.phase.k + 1 < |x.subs| ==> |r.exec.sent| == |x.sent| + 1 && r.exec.sent[..|x.sent|] == x.sent
    ensures x.phase.k + 1 < |x.subs| ==>
      LastMessage(r.exec.sent[|x.sent|].messages) == Message(User, x.subs[x.phase.k + 1].promptStr)
    ensures x.phase.k + 1 == |x.subs| ==> !r.exec.phase.Awaiting?
    ensures r.exec.subs == x.subs
    ensures r.exec.readStream == Streaming ==> |x.subs| == 1 && x.q.stream
    ensures StepOf(s, x, r)
  {
    var x1 := Absorb(x, reply);
    if x.phase.k + 1 < |x.subs| then SendNext(s, x1)
    else AfterLoop(s, x1)
  }

  /** The next turn of the loop over the sub-requests: the next one sent, the queue untouched. */
  function SendNext(s: StoreState, x: Execution): (r: Step)
    requires StoreValid(s) && ExecValid(x) && x.phase.Awaiting? && x.phase.k + 1 < |x.subs|
    ensures r.store.promptQueue == s.promptQueue && r.started.None?
    ensures r.exec.q == x.q && r.exec.subs == x.subs && r.exec.readStream == x.readStream
    ensures r.exec.phase == Awaiting(x.phase.k + 1) && ExecValid(r.exec)
    ensures |r.exec.sent| == |x.sent| + 1 && r.exec.sent[..|x.sent|] == x.sent
    ensures LastMessage(r.exec.sent[|x.sent|].messages) == Message(User, x.subs[x.phase.k + 1].promptStr)
  {
    var sent := Send(s, x, x.phase.k + 1);
    Step(sent.0, sent.1, None)
  }

  /**
   * One streamed chunk: the first one commits the reply and runs the stream-start callback; the
   * text so far is reconciled and shown as the last message while the execution is the head of
   * the queue; otherwise reading stops and the execution finishes.
   */
  function Chunk(s: StoreState, x: Execution, delta: string): (r: Step)
    requires StoreValid(s) && ExecValid(x) && x.phase == Reading
    ensures StoreValid(r.store)
    ensures r.exec.result == x.result + delta && r.exec.nbChunks == x.nbChunks + 1 && r.exec.subs == x.subs
    ensures x.nbChunks == 0 ==> r.store.history == s.history + [Snapshot(x.prompt, s.gptMessages)]
    ensures x.nbChunks > 0 ==> r.store.history == s.history
    ensures ExecValid(r.exec) && (r.started.Some? ==> ExecValid(r.started.value))
    ensures IsHead(s, x.q.uniqueId) ==> r.exec.phase == Reading && r.started.None?
    ensures IsHead(s, x.q.uniqueId) ==>
      LastMessage(r.store.gptMessages) == Message(Assistant, Clean(x.prompt, x.result + delta).1)
    ensures !IsHead(s, x.q.uniqueId) ==> r.exec.phase == Finished
    ensures !IsHead(s, x.q.uniqueId) ==>
      r.store.callbacks == s.callbacks + (if x.nbChunks == 0 then [StreamStarted(x.q.uniqueId)] else [])
    ensures StepOf(s, x, r)
  {
    var id := x.q.uniqueId;
    var s1 := if x.nbChunks == 0 then AddMessage(s, x) else s;
    var s2 := if x.nbChunks == 0 then s1.(callbacks := s1.callbacks + [StreamStarted(id)]) else s1;
    var result := x.result + delta;
    var (p, shown) := Clean(x.prompt, result);
    var x1 := x.(prompt := p, result := result, nbChunks := x.nbChunks + 1);
    if IsHead(s2, id) then Step(s2.(gptMessages := WithLastMessage(s2.gptMessages, shown)), x1, None)
    else Finish(s2, x1)
  }

  /**
   * The end of the stream: the text read so far is reconciled once more for the log (an
   * unknown prompt detects its type even when no chunk arrived), then the execution ends.
   */
  function EndOfStream(s: StoreState, x: Execution): (r: Step)
    requires StoreValid(s) && ExecValid(x) && x.phase == Reading
    ensures StoreValid(r.store)
    ensures r.exec == x.(prompt := Clean(x.prompt, x.result).0, phase := Finished) && ExecValid(r.exec)
    ensures r.store.history == s.history && r.store.redoStack == s.redoStack
    ensures s.activityType == UnknownType && x.prompt.variant.Unknown? ==>
      r.store.activityType == Detect(x.result)
    ensures StepOf(s, x, r)
  {
    var (p, _) := Clean(x.prompt, x.result);
    Finish(s, x.(prompt := p))
  }

  /** A stream that ends without a chunk still settles an unknown store's type, as text. */
  lemma EmptyStreamDetectsText(s: StoreState, x: Execution)
    requires StoreValid(s) && ExecValid(x) && x.phase == Reading && x.result == ""
    requires s.activityType == UnknownType && x.prompt.variant.Unknown?
    ensures EndOfStream(s, x).store.activityType == TextType
  {
    assert SvgPrompts.FindSvg("").None?;
    assert CodePrompts.FencedBody("").None?;
  }

  /**
   * The loop over the sub-requests with no other action in between: the replies from the
   * awaited one on, one per remaining sub-request, each handled by `Respond`.
   */
  function RespondFrom(s: StoreState, x: Execution, replies: seq<Option<string>>): (r: Step)
    requires StoreValid(s) && ExecValid(x) && x.phase.Awaiting? && |replies| == |x.subs| - x.phase.k
    ensures StoreValid(r.store) && ExecValid(r.exec) && r.exec.q == x.q && r.exec.subs == x.subs
    ensures r.exec.phase == Reading || r.exec.phase == Finished
    ensures r.started.Some? ==> ExecValid(r.started.value) && r.started.value.phase == Awaiting(0)
    decreases |replies|
  {
    var r := Respond(s, x, replies[0]);
    if |replies| == 1 then r else RespondFrom(r.store, r.exec, replies[1..])
  }

  /**
   * The reading of a stream with no other action in between: a chunk per delta while the
   * execution reads, and the end of the stream once the deltas run out.
   */
  function ReadFrom(s: StoreState, x: Execution, started: Option<Execution>, deltas: seq<string>): (r: Step)
    requires StoreValid(s) && ExecValid(x) && (x.phase == Reading || x.phase == Finished)
    requires started.Some? ==> ExecValid(started.value) && started.value.phase == Awaiting(0)
    ensures StoreValid(r.store) && ExecValid(r.exec) && r.exec.q == x.q && r.exec.subs == x.subs
    ensures r.exec.phase == Finished
    ensures r.started.Some? ==> ExecValid(r.started.value) && r.started.value.phase == Awaiting(0)
    decreases |deltas|
  {
    if x.phase != Reading then Step(s, x, started)
    else if deltas == [] then EndOfStream(s, x)
    else
      var r := Chunk(s, x, deltas[0]);
      ReadFrom(r.store, r.exec, r.started, deltas[1..])
  }
}
