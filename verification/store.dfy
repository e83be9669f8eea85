/**
 * The store as the object the application holds: each action replaces some of its fields, as
 * the transition of the same name on `StoreState` says. `Run` is the loop of
 * `_executeQueuedPrompt` when no other action comes between its awaited replies.
 */
module StoreObject {
  import opened Wrappers
  import opened Element
  import opened UnknownPrompts
  import opened Prompts
  import opened ModelStore

  class Store {
    var gptMessages: seq<Message>
    var currentPrompt: Prompt
    var activityType: ActivityType
    var history: seq<Snapshot>
    var redoStack: seq<Snapshot>
    var selectedElements: seq<EntityElement>
    var loadingElements: seq<EntityElement>
    var hoveredElements: seq<EntityElement>
    var selectedTool: string
    var inMultipleSelectionMode: bool
    var promptQueue: seq<QueuedPrompt>
    var callbacks: seq<CallbackRun>

    function State(): StoreState
      reads this
    {
      StoreState(gptMessages, currentPrompt, activityType, history, redoStack, selectedElements,
                 loadingElements, hoveredElements, selectedTool, inMultipleSelectionMode, promptQueue,
                 callbacks)
    }

    /** The initial state, which `reset` also restores. */
    constructor ()
      ensures State() == InitialState()
    {
      gptMessages := [];
      currentPrompt := Prompt(ComplexPrompts.ComplexPrompt("", [], [], true), Plain);
      activityType := SvgType;
      history := [];
      redoStack := [];
      selectedElements := [];
      loadingElements := [];
      hoveredElements := [];
      selectedTool := "";
      inMultipleSelectionMode := false;
      promptQueue := [];
      callbacks := [];
    }

    /** `set` with a whole new state. */
    method Load(s: StoreState)
      modifies this
      ensures State() == s
    {
      gptMessages, currentPrompt, activityType := s.gptMessages, s.currentPrompt, s.activityType;
      history, redoStack := s.history, s.redoStack;
      selectedElements, loadingElements, hoveredElements := s.selectedElements, s.loadingElements, s.hoveredElements;
      selectedTool, inMultipleSelectionMode := s.selectedTool, s.inMultipleSelectionMode;
      promptQueue, callbacks := s.promptQueue, s.callbacks;
    }

    /** `reset`: back to the initial state. */
    method Reset()
      modifies this
      ensures State() == InitialState()
    {
      Load(InitialState());
    }

    /** `setType`. */
    method SetType(t: ActivityType)
      modifies this
      ensures State() == old(State()).(activityType := t)
    {
      activityType := t;
    }

    /** `setGptMessages`. */
    method SetGptMessages(msgs: seq<Message>)
      modifies this
      ensures State() == old(State()).(gptMessages := msgs)
    {
      gptMessages := msgs;
    }

    /** `setInMultipleSelectionMode`. */
    method SetInMultipleSelectionMode(on: bool)
      modifies this
      ensures State() == old(State()).(inMultipleSelectionMode := on)
    {
      inMultipleSelectionMode := on;
    }

    /** `setSelectedTool`: selecting a tool, or none with `""`, leaves the multiple-selection mode. */
    method SetSelectedTool(tool: string)
      modifies this
      ensures State() == old(State()).(selectedTool := tool, inMultipleSelectionMode := false)
    {
      selectedTool := tool;
      inMultipleSelectionMode := false;
    }

    /** `setSelectedElements`: the selection, keeping the first element at each place. */
    method SetSelectedElements(es: seq<EntityElement>)
      modifies this
      ensures State() == old(State()).(selectedElements := UniqueElements(es))
      ensures selectedElements == Firsts(es)
    {
      UniqueElementsAreFirsts(es);
      selectedElements := UniqueElements(es);
    }

    /** `setLastGptMessage`. */
    method SetLastGptMessage(content: string)
      modifies this
      ensures State() == old(State()).(gptMessages := WithLastMessage(old(gptMessages), content))
      ensures LastMessage(gptMessages) == Message(Assistant, content)
    {
      if |gptMessages| > 0 {
        gptMessages := gptMessages[..|gptMessages| - 1] + [Message(Assistant, content)];
      } else {
        gptMessages := [Message(Assistant, content)];
      }
    }

    /** `clearPromptQueue`. */
    method ClearPromptQueue()
      modifies this
      ensures State() == ModelStore.ClearPromptQueue(old(State()))
    {
      promptQueue := [];
      loadingElements := [];
    }

    /** Restoring a snapshot resets the canvas interaction. */
    method ResetInteraction()
      modifies this
      ensures State() == ModelStore.ResetInteraction(old(State()))
    {
      inMultipleSelectionMode := false;
      selectedTool := "";
      selectedElements := [];
      hoveredElements := [];
      loadingElements := [];
    }

    /** `undo`. */
    method Undo()
      requires StoreValid(State())
      modifies this
      ensures State() == ModelStore.Undo(old(State()))
    {
      if |promptQueue| > 0 {
        ClearPromptQueue();
      } else if |history| > 0 {
        var last := history[|history| - 1];
        ResetInteraction();
        redoStack := redoStack + [Snapshot(currentPrompt, gptMessages)];
        history := history[..|history| - 1];
        currentPrompt := last.prompt;
        gptMessages := last.gptMessages;
      }
    }

    /** `redo`. */
    method Redo()
      requires StoreValid(State())
      modifies this
      ensures State() == ModelStore.Redo(old(State()))
    {
      if |redoStack| > 0 {
        var last := redoStack[|redoStack| - 1];
        ResetInteraction();
        history := history + [Snapshot(currentPrompt, gptMessages)];
        redoStack := redoStack[..|redoStack| - 1];
        currentPrompt := last.prompt;
        gptMessages := last.gptMessages;
      }
    }

    /** `executePrompt`; the execution it starts, if any, is returned to the caller to drive. */
    method ExecutePrompt(prompt: Prompt, uniqueId: int, addToConversation: bool,
                         useChatGptSystemPrompt: bool, stream: bool) returns (started: Option<Execution>)
      requires StoreValid(State()) && WellFormed(prompt)
      modifies this
      ensures var r := ModelStore.ExecutePrompt(old(State()), prompt, uniqueId, addToConversation,
                                                useChatGptSystemPrompt, stream);
        State() == r.store && started == r.started
    {
      var q := QueuedPrompt(uniqueId, prompt, addToConversation, useChatGptSystemPrompt, stream);
      promptQueue := promptQueue + [q];
      if |promptQueue| == 1 {
        var b := Begin(State(), q);
        Load(b.0);
        started := Some(b.1);
      } else {
        started := None;
      }
    }

    /** The reply to the awaited sub-request of `x`. */
    method Respond(x: Execution, reply: Option<string>) returns (next: Execution, started: Option<Execution>)
      requires StoreValid(State()) && ExecValid(x) && x.phase.Awaiting?
      modifies this
      ensures var r := ModelStore.Respond(old(State()), x, reply);
        State() == r.store && next == r.exec && started == r.started
    {
      var r := ModelStore.Respond(State(), x, reply);
      Load(r.store);
      next, started := r.exec, r.started;
    }

    /** One streamed chunk for `x`. */
    method Chunk(x: Execution, delta: string) returns (next: Execution, started: Option<Execution>)
      requires StoreValid(State()) && ExecValid(x) && x.phase == Reading
      modifies this
      ensures var r := ModelStore.Chunk(old(State()), x, delta);
        State() == r.store && next == r.exec && started == r.started
    {
      var r := ModelStore.Chunk(State(), x, delta);
      Load(r.store);
      next, started := r.exec, r.started;
    }

    /** The end of the stream read by `x`. */
    method EndOfStream(x: Execution) returns (next: Execution, started: Option<Execution>)
      requires StoreValid(State()) && ExecValid(x) && x.phase == Reading
      modifies this
      ensures var r := ModelStore.EndOfStream(old(State()), x);
        State() == r.store && next == r.exec && started == r.started
    {
      var r := ModelStore.EndOfStream(State(), x);
      Load(r.store);
      next, started := r.exec, r.started;
    }

    /**
     * The loop of `_executeQueuedPrompt` over the sub-requests: one reply per sub-request, each
     * sent once, in order; the last reply ends the loop.
     */
    method RespondAll(x: Execution, replies: seq<Option<string>>) returns (cur: Execution, started: Option<Execution>)
      requires StoreValid(State()) && ExecValid(x) && x.phase == Awaiting(0) && |replies| == |x.subs|
      modifies this
      ensures StoreValid(State()) && ExecValid(cur) && cur.q == x.q && cur.subs == x.subs
      ensures cur.phase == Reading || cur.phase == Finished
      ensures started.Some? ==> ExecValid(started.value) && started.value.phase == Awaiting(0)
      ensures var r := ModelStore.RespondFrom(old(State()), x, replies);
        State() == r.store && cur == r.exec && started == r.started
    {
      cur := x;
      var k := 0;
      while k < |x.subs| - 1
        invariant 0 <= k < |x.subs|
        invariant cur.phase == Awaiting(k) && ExecValid(cur) && cur.q == x.q && cur.subs == x.subs
        invariant StoreValid(State())
        invariant ModelStore.RespondFrom(old(State()), x, replies) == ModelStore.RespondFrom(State(), cur, replies[k..])
      {
        cur, started := Respond(cur, replies[k]);
        k := k + 1;
      }
      cur, started := Respond(cur, replies[k]);
    }

    /** The reading of a streamed response: chunk after chunk, until the stream or the execution ends. */
    method ReadAll(x: Execution, deltas: seq<string>, started0: Option<Execution>)
      returns (done: Execution, started: Option<Execution>)
      requires StoreValid(State()) && ExecValid(x) && (x.phase == Reading || x.phase == Finished)
      requires started0.Some? ==> ExecValid(started0.value) && started0.value.phase == Awaiting(0)
      modifies this
      ensures StoreValid(State()) && ExecValid(done) && done.q == x.q && done.subs == x.subs
      ensures done.phase == Finished
      ensures started.Some? ==> ExecValid(started.value) && started.value.phase == Awaiting(0)
      ensures var r := ModelStore.ReadFrom(old(State()), x, started0, deltas);
        State() == r.store && done == r.exec && started == r.started
    {
      ghost var target := ModelStore.ReadFrom(State(), x, started0, deltas);
      done, started := x, started0;
      var i := 0;
      while done.phase == Reading && i < |deltas|
        invariant 0 <= i <= |deltas|
        invariant done.phase == Reading || done.phase == Finished
        invariant ExecValid(done) && done.q == x.q && done.subs == x.subs
        invariant StoreValid(State())
        invariant started.Some? ==> ExecValid(started.value) && started.value.phase == Awaiting(0)
        invariant target == ModelStore.ReadFrom(State(), done, started, deltas[i..])
        decreases |deltas| - i
      {
        done, started := Chunk(done, deltas[i]);
        i := i + 1;
      }
      if done.phase == Reading {
        assert deltas[i..] == [];
        assert target == ModelStore.EndOfStream(State(), done);
        done, started := EndOfStream(done);
      } else {
        assert target == Step(State(), done, started);
      }
    }

    /**
     * `_executeQueuedPrompt` from its first awaited reply to its end, with no other action in
     * between: one reply per sub-request, then the stream's chunks until the stream ends. It
     * ends finished, having sent every sub-request once, in order.
     */
    method Run(x: Execution, replies: seq<Option<string>>, deltas: seq<string>)
      returns (done: Execution, started: Option<Execution>)
      requires StoreValid(State()) && ExecValid(x) && x.phase == Awaiting(0) && |replies| == |x.subs|
      modifies this
      ensures StoreValid(State())
      ensures done.q == x.q && done.subs == x.subs && done.phase == Finished
      ensures |done.sent| == |x.subs|
      ensures forall j :: 0 <= j < |done.sent| ==>
        LastMessage(done.sent[j].messages) == Message(User, x.subs[j].promptStr)
      ensures forall j :: 0 <= j < |done.sent| ==> done.sent[j].stream == (|x.subs| == 1 && x.q.stream)
      ensures started.Some? ==> ExecValid(started.value) && started.value.phase == Awaiting(0)
      ensures var a := ModelStore.RespondFrom(old(State()), x, replies);
        var b := ModelStore.ReadFrom(a.store, a.exec, a.started, deltas);
        State() == b.store && done == b.exec && started == b.started
    {
      var cur, started0 := RespondAll(x, replies);
      done, started := ReadAll(cur, deltas, started0);
    }
  }
}
