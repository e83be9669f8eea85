/**
 * The store together with the executions in flight. Each event is one store action, or one
 * awaited event of one execution; the events may come in any order. The property the queue
 * exists for: a prompt runs only when it heads the queue, and the head runs exactly once.
 */
module QueueSystem {
  import opened Wrappers
  import opened Prompts
  import opened ComplexPrompts
  import opened ModelStore

  /** The store and the executions that have not finished yet. */
  datatype Session = Session(store: StoreState, live: seq<Execution>)

  /** How many executions in flight run prompt `id`. */
  function Running(live: seq<Execution>, id: int): nat {
    if live == [] then 0 else (if live[0].q.uniqueId == id then 1 else 0) + Running(live[1..], id)
  }

  predicate DistinctIds(q: seq<QueuedPrompt>) {
    forall i, j :: 0 <= i < j < |q| ==> q[i].uniqueId != q[j].uniqueId
  }

  /**
   * The queue's invariant: ids are distinct, the head is run by exactly one execution in
   * flight, and no other queued prompt is running.
   */
  predicate OneRunnerPerHead(sys: Session) {
    var q := sys.store.promptQueue;
    StoreValid(sys.store) && DistinctIds(q)
    && (forall e :: e in sys.live ==> ExecValid(e) && e.phase != Finished)
    && (|q| > 0 ==> Running(sys.live, q[0].uniqueId) == 1)
    && (forall k :: 1 <= k < |q| ==> Running(sys.live, q[k].uniqueId) == 0)
  }

  /** A new prompt's id is used by no queued prompt and no execution in flight. */
  predicate Fresh(sys: Session, id: int) {
    (forall k :: 0 <= k < |sys.store.promptQueue| ==> sys.store.promptQueue[k].uniqueId != id)
    && Running(sys.live, id) == 0
  }

  function Enqueue(sys: Session, prompt: Prompt, id: int, addToConversation: bool,
                   useChatGptSystemPrompt: bool, stream: bool): Session
    requires StoreValid(sys.store) && WellFormed(prompt)
  {
    var r := ExecutePrompt(sys.store, prompt, id, addToConversation, useChatGptSystemPrompt, stream);
    Session(r.store, sys.live + (if r.started.Some? then [r.started.value] else []))
  }

  function UndoEvent(sys: Session): Session
    requires StoreValid(sys.store)
  {
    Session(Undo(sys.store), sys.live)
  }

  function RedoEvent(sys: Session): Session
    requires StoreValid(sys.store)
  {
    Session(Redo(sys.store), sys.live)
  }

  /** The executions in flight after execution `i` took step `r`. */
  function Advance(live: seq<Execution>, i: nat, r: Step): seq<Execution>
    requires i < |live|
  {
    live[..i] + live[i + 1..]
      + (if r.exec.phase != Finished then [r.exec] else [])
      + (if r.started.Some? then [r.started.value] else [])
  }

  function RespondEvent(sys: Session, i: nat, reply: Option<string>): Session
    requires StoreValid(sys.store) && i < |sys.live| && ExecValid(sys.live[i]) && sys.live[i].phase.Awaiting?
  {
    var r := Respond(sys.store, sys.live[i], reply);
    Session(r.store, Advance(sys.live, i, r))
  }

  function ChunkEvent(sys: Session, i: nat, delta: string): Session
    requires StoreValid(sys.store) && i < |sys.live| && ExecValid(sys.live[i]) && sys.live[i].phase == Reading
  {
    var r := Chunk(sys.store, sys.live[i], delta);
    Session(r.store, Advance(sys.live, i, r))
  }

  function EndOfStreamEvent(sys: Session, i: nat): Session
    requires StoreValid(sys.store) && i < |sys.live| && ExecValid(sys.live[i]) && sys.live[i].phase == Reading
  {
    var r := EndOfStream(sys.store, sys.live[i]);
    Session(r.store, Advance(sys.live, i, r))
  }

  // ---------------------------------------------------------------------------------------
  // Counting

  lemma {:induction false} RunningAppend(a: seq<Execution>, b: seq<Execution>, id: int)
    ensures Running(a + b, id) == Running(a, id) + Running(b, id)
  {
    if a == [] {
      assert a + b == b;
    } else {
      assert (a + b)[1..] == a[1..] + b;
      RunningAppend(a[1..], b, id);
    }
  }

  lemma {:induction false} RunningMember(live: seq<Execution>, e: Execution)
    requires e in live
    ensures Running(live, e.q.uniqueId) >= 1
  {
    if live[0] != e {
      RunningMember(live[1..], e);
    }
  }

  /** Counting after a step: the stepping execution is taken out and what the step left is added. */
  lemma RunningAdvance(live: seq<Execution>, i: nat, r: Step, id: int)
    requires i < |live|
    ensures Running(Advance(live, i, r), id)
      == Running(live, id) - (if live[i].q.uniqueId == id then 1 else 0)
         + (if r.exec.phase != Finished && r.exec.q.uniqueId == id then 1 else 0)
         + (if r.started.Some? && r.started.value.q.uniqueId == id then 1 else 0)
  {
    var kept := live[..i] + live[i + 1..];
    var mine := if r.exec.phase != Finished then [r.exec] else [];
    var other := if r.started.Some? then [r.started.value] else [];
    assert live == live[..i] + [live[i]] + live[i + 1..];
    RunningAppend(live[..i] + [live[i]], live[i + 1..], id);
    RunningAppend(live[..i], [live[i]], id);
    RunningAppend(live[..i], live[i + 1..], id);
    RunningAppend(kept + mine, other, id);
    RunningAppend(kept, mine, id);
  }

  /** Removing a prompt that is not queued changes nothing; removing the head leaves the rest. */
  lemma {:induction false} RemoveAbsent(q: seq<QueuedPrompt>, id: int)
    requires forall k :: 0 <= k < |q| ==> q[k].uniqueId != id
    ensures RemoveId(q, id) == q
  {
    if q != [] {
      RemoveAbsent(q[1..], id);
    }
  }

  lemma RemoveHead(q: seq<QueuedPrompt>)
    requires |q| > 0 && DistinctIds(q)
    ensures RemoveId(q, q[0].uniqueId) == q[1..]
  {
    RemoveAbsent(q[1..], q[0].uniqueId);
  }

  // ---------------------------------------------------------------------------------------
  // The invariant

  lemma InitiallyOneRunner()
    ensures OneRunnerPerHead(Session(InitialState(), []))
  {
  }

  lemma EnqueueKeepsOneRunner(sys: Session, prompt: Prompt, id: int, addToConversation: bool,
                              useChatGptSystemPrompt: bool, stream: bool)
    requires OneRunnerPerHead(sys) && WellFormed(prompt) && Fresh(sys, id)
    ensures OneRunnerPerHead(Enqueue(sys, prompt, id, addToConversation, useChatGptSystemPrompt, stream))
  {
    var r := ExecutePrompt(sys.store, prompt, id, addToConversation, useChatGptSystemPrompt, stream);
    var added := if r.started.Some? then [r.started.value] else [];
    var q := r.store.promptQueue;
    forall k | 0 <= k < |q| ensures Running(sys.live + added, q[k].uniqueId) == (if k == 0 then 1 else 0) {
      RunningAppend(sys.live, added, q[k].uniqueId);
      if k < |sys.store.promptQueue| {
        assert q[k] == sys.store.promptQueue[k];
      }
    }
  }

  lemma UndoKeepsOneRunner(sys: Session)
    requires OneRunnerPerHead(sys)
    ensures OneRunnerPerHead(UndoEvent(sys))
  {
  }

  lemma RedoKeepsOneRunner(sys: Session)
    requires OneRunnerPerHead(sys)
    ensures OneRunnerPerHead(RedoEvent(sys))
  {
  }

  /**
   * The queue after a step: without its head when the head's execution finished, unchanged
   * otherwise (an execution that finishes while not the head is not queued at all).
   */
  lemma QueueAfterStep(sys: Session, i: nat, r: Step)
    requires OneRunnerPerHead(sys) && i < |sys.live| && StepOf(sys.store, sys.live[i], r)
    ensures r.exec.phase == Finished && IsHead(sys.store, sys.live[i].q.uniqueId) ==>
      r.store.promptQueue == sys.store.promptQueue[1..]
    ensures !(r.exec.phase == Finished && IsHead(sys.store, sys.live[i].q.uniqueId)) ==>
      r.store.promptQueue == sys.store.promptQueue
  {
    var x := sys.live[i];
    var q := sys.store.promptQueue;
    if r.exec.phase == Finished {
      if IsHead(sys.store, x.q.uniqueId) {
        RemoveHead(q);
      } else {
        assert x in sys.live;
        RunningMember(sys.live, x);
        forall k | 0 <= k < |q| ensures q[k].uniqueId != x.q.uniqueId {
          if k == 0 {
            assert !IsHead(sys.store, x.q.uniqueId);
          }
        }
        RemoveAbsent(q, x.q.uniqueId);
      }
    }
  }

  /** After a step, every execution in flight is still valid and unfinished. */
  lemma LiveAfterStep(sys: Session, i: nat, r: Step)
    requires OneRunnerPerHead(sys) && i < |sys.live| && StepOf(sys.store, sys.live[i], r)
    ensures forall e :: e in Advance(sys.live, i, r) ==> ExecValid(e) && e.phase != Finished
  {
    forall e | e in Advance(sys.live, i, r) ensures ExecValid(e) && e.phase != Finished {
      if e in sys.live[..i] + sys.live[i + 1..] {
        assert e in sys.live;
      }
    }
  }

  /** Any step of any execution in flight keeps the invariant. */
  lemma StepKeepsOneRunner(sys: Session, i: nat, r: Step)
    requires OneRunnerPerHead(sys) && i < |sys.live| && StepOf(sys.store, sys.live[i], r)
    ensures OneRunnerPerHead(Session(r.store, Advance(sys.live, i, r)))
  {
    var x := sys.live[i];
    var q, q' := sys.store.promptQueue, r.store.promptQueue;
    var live' := Advance(sys.live, i, r);
    var popped := r.exec.phase == Finished && IsHead(sys.store, x.q.uniqueId);
    QueueAfterStep(sys, i, r);
    LiveAfterStep(sys, i, r);
    forall k | 0 <= k < |q'|
      ensures Running(live', q'[k].uniqueId) == (if k == 0 then 1 else 0)
    {
      RunningAdvance(sys.live, i, r, q'[k].uniqueId);
      if popped {
        assert q'[k] == q[k + 1];
      }
    }
  }

  lemma RespondKeepsOneRunner(sys: Session, i: nat, reply: Option<string>)
    requires OneRunnerPerHead(sys) && i < |sys.live| && sys.live[i].phase.Awaiting?
    ensures OneRunnerPerHead(RespondEvent(sys, i, reply))
  {
    assert sys.live[i] in sys.live;
    StepKeepsOneRunner(sys, i, Respond(sys.store, sys.live[i], reply));
  }

  lemma ChunkKeepsOneRunner(sys: Session, i: nat, delta: string)
    requires OneRunnerPerHead(sys) && i < |sys.live| && sys.live[i].phase == Reading
    ensures OneRunnerPerHead(ChunkEvent(sys, i, delta))
  {
    assert sys.live[i] in sys.live;
    StepKeepsOneRunner(sys, i, Chunk(sys.store, sys.live[i], delta));
  }

  lemma EndOfStreamKeepsOneRunner(sys: Session, i: nat)
    requires OneRunnerPerHead(sys) && i < |sys.live| && sys.live[i].phase == Reading
    ensures OneRunnerPerHead(EndOfStreamEvent(sys, i))
  {
    assert sys.live[i] in sys.live;
    StepKeepsOneRunner(sys, i, EndOfStream(sys.store, sys.live[i]));
  }

  // ---------------------------------------------------------------------------------------
  // The end of an execution as written

  /** The prompt of the scenario below: no text, no targets, no segments. */
  const EmptyPrompt := Prompt(ComplexPrompt("", [], [], false), Plain)

  /** Prompt 1 enqueued into a fresh session starts at once and is the only one running. */
  lemma FirstPromptRuns()
    ensures var sys := Enqueue(Session(InitialState(), []), EmptyPrompt, 1, true, false, false);
      OneRunnerPerHead(sys) && |sys.live| == 1 && sys.live[0].q.uniqueId == 1
  {
    var sys0 := Session(InitialState(), []);
    InitiallyOneRunner();
    EnqueueKeepsOneRunner(sys0, EmptyPrompt, 1, true, false, false);
  }

  /** After undo empties the queue, prompt 2 starts at once while prompt 1 is still in flight. */
  lemma SecondPromptRunsAfterUndo(sys1: Session)
    requires OneRunnerPerHead(sys1) && |sys1.live| == 1 && sys1.live[0].q.uniqueId == 1
    ensures var sys := Enqueue(UndoEvent(sys1), EmptyPrompt, 2, true, false, false);
      && OneRunnerPerHead(sys)
      && |sys.live| == 2 && sys.live[0].q.uniqueId == 1 && sys.live[1].q.uniqueId == 2
      && |sys.store.promptQueue| == 1 && sys.store.promptQueue[0].uniqueId == 2
  {
    UndoKeepsOneRunner(sys1);
    var sys2 := UndoEvent(sys1);
    assert sys2.store.promptQueue == [];
    EnqueueKeepsOneRunner(sys2, EmptyPrompt, 2, true, false, false);
  }

  /**
   * Prompt 1 is sent; undo cancels the queue while prompt 1 awaits its reply; prompt 2 is
   * enqueued and, the queue being empty, starts at once. Prompt 1's reply then fails (or
   * arrives), and its execution ends while prompt 2 heads the queue and is running. The end as
   * written starts prompt 2 a second time; the intended end starts nothing.
   */
  lemma AsWrittenStartsRunningPromptTwice()
    ensures var sys := Enqueue(UndoEvent(Enqueue(Session(InitialState(), []), EmptyPrompt, 1, true, false, false)),
                               EmptyPrompt, 2, true, false, false);
      var r := FinishAsWritten(sys.store, sys.live[0]);
      OneRunnerPerHead(sys) && r.started.Some? && !OneRunnerPerHead(Session(r.store, Advance(sys.live, 0, r)))
    ensures var sys := Enqueue(UndoEvent(Enqueue(Session(InitialState(), []), EmptyPrompt, 1, true, false, false)),
                               EmptyPrompt, 2, true, false, false);
      Finish(sys.store, sys.live[0]).started.None?
  {
    FirstPromptRuns();
    var sys1 := Enqueue(Session(InitialState(), []), EmptyPrompt, 1, true, false, false);
    SecondPromptRunsAfterUndo(sys1);
    StaleEndRestartsHead(Enqueue(UndoEvent(sys1), EmptyPrompt, 2, true, false, false));
  }

  /**
   * An execution that is not the head (id 1) ending while the head (id 2) runs: the end as
   * written starts the head again, the corrected end starts nothing.
   */
  lemma StaleEndRestartsHead(sys: Session)
    requires OneRunnerPerHead(sys)
    requires |sys.live| == 2 && sys.live[0].q.uniqueId == 1 && sys.live[1].q.uniqueId == 2
    requires |sys.store.promptQueue| == 1 && sys.store.promptQueue[0].uniqueId == 2
    ensures var r := FinishAsWritten(sys.store, sys.live[0]);
      r.started.Some? && !OneRunnerPerHead(Session(r.store, Advance(sys.live, 0, r)))
    ensures Finish(sys.store, sys.live[0]).started.None?
  {
    var q := sys.store.promptQueue;
    var x := sys.live[0];
    assert RemoveId(q, 1) == q by {
      RemoveAbsent(q, 1);
    }
    var r := FinishAsWritten(sys.store, x);
    assert r.started.Some? && r.started.value.q.uniqueId == 2;
    RunningAdvance(sys.live, 0, r, 2);
    assert Running(sys.live, 2) == 1;
    assert Running(Advance(sys.live, 0, r), 2) == 2;
  }
}
