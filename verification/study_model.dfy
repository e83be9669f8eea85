/**
 * The study session store: the participant, the generated steps, the current step and task
 * within it, and the CSV log of events. `nextStep` walks through the tasks of a condition step
 * and then through the steps; `startFresh` loads a condition's conversation into the model store.
 */
module StudyState {
  import opened Wrappers
  import opened JsString
  import opened UnknownPrompts
  import opened ModelStore
  import opened StoreObject
  import opened StudyTaskGenerator

  const CsvHeader := "Timestamp,Participant,StepId,StepType,TaskId,TaskCode,Condition,Event,Parameters"

  /** `steps[i]`, which is `undefined` outside the list. */
  function StepAt(steps: seq<StudyStep>, i: int): (r: Option<StudyStep>)
    ensures r.Some? <==> 0 <= i < |steps|
  {
    if 0 <= i < |steps| then Some(steps[i]) else None
  }

  /** The step has another task after task `taskId`. */
  predicate HasNextTask(s: Option<StudyStep>, taskId: int) {
    s.Some? && s.value.ConditionStep? && taskId + 1 < |s.value.condition.tasks|
  }

  // ---------------------------------------------------------------------------------------
  // Task codes

  function ModalityLetter(k: ActivityType): char {
    if k == SvgType then 'S' else if k == CodeType then 'C' else 'T'
  }

  const TaskLetters: seq<string> := ["LT", "LA", "LR", "GT"]

  /** `['LT', 'LA', 'LR', 'GT'][taskId]`, which a template literal renders as "undefined" out of range. */
  function TaskLetter(taskId: int): string {
    if 0 <= taskId < 4 then TaskLetters[taskId] else "undefined"
  }

  /** `getTaskCode`: `[M_C] X` on a condition step, the empty string elsewhere. */
  function Code(step: Option<StudyStep>, taskId: int): (r: string)
    ensures r == [] <==> !(step.Some? && step.value.ConditionStep?)
    ensures step.Some? && step.value.ConditionStep? ==>
      |r| == 6 + |TaskLetter(taskId)| && r[0] == '[' && r[2] == '_' && r[4] == ']' && r[5] == ' '
      && r[1] == ModalityLetter(step.value.condition.kind) && (r[3] == 'D' <==> step.value.isDirect)
      && r[6..] == TaskLetter(taskId)
  {
    match step
    case Some(ConditionStep(condition, isDirect)) =>
      "[" + [ModalityLetter(condition.kind)] + "_" + [if isDirect then 'D' else 'C'] + "] " + TaskLetter(taskId)
    case _ => ""
  }

  /** Two task codes of defined tasks are equal only for the same modality letter, interface and task. */
  lemma CodeDetermines(c1: StudyCondition, d1: bool, t1: int, c2: StudyCondition, d2: bool, t2: int)
    requires 0 <= t1 < 4 && 0 <= t2 < 4
    requires Code(Some(ConditionStep(c1, d1)), t1) == Code(Some(ConditionStep(c2, d2)), t2)
    ensures ModalityLetter(c1.kind) == ModalityLetter(c2.kind) && d1 == d2 && t1 == t2
  {
    var r := Code(Some(ConditionStep(c1, d1)), t1);
    assert r[6..] == TaskLetters[t1] == TaskLetters[t2];
    assert TaskLetters[t1][0] == TaskLetters[t2][0] && TaskLetters[t1][1] == TaskLetters[t2][1];
  }

  // ---------------------------------------------------------------------------------------
  // The event log

  function StepType(s: StudyStep): string {
    match s
    case MessageStep(_, _) => "message"
    case VideoStep(_) => "video"
    case ConditionStep(_, _) => "condition"
  }

  function ConditionName(s: StudyStep): string {
    if s.ConditionStep? then (if s.isDirect then "direct" else "chat") else ""
  }

  /** The nine values of a CSV line, in the order of the header. */
  function LogFields(now: int, participantId: int, stepId: int, step: StudyStep, taskId: int,
                     eventName: string, encodedParameters: string): seq<string>
  {
    [IntToString(now), IntToString(participantId), IntToString(stepId), StepType(step), IntToString(taskId),
     Code(Some(step), taskId), ConditionName(step), eventName, encodedParameters]
  }

  function LogLine(now: int, participantId: int, stepId: int, step: StudyStep, taskId: int,
                   eventName: string, encodedParameters: string): string
  {
    Join(LogFields(now, participantId, stepId, step, taskId, eventName, encodedParameters), ",")
  }

  /** The log after one `logEvent` that writes `line`: one more line when data is saved. */
  function Logged(csv: string, isDataSaved: bool, line: string): string {
    if isDataSaved then csv + "\n" + line else csv
  }

  lemma NoCommaInDecimal(n: int)
    ensures ',' !in IntToString(n) && '\n' !in IntToString(n)
  {
    IntToStringChars(n);
  }

  /**
   * A CSV line has the nine fields of the header, read back by splitting at commas, provided the
   * event name and the encoded parameters hold no comma.
   */
  lemma LogLineFields(now: int, participantId: int, stepId: int, step: StudyStep, taskId: int,
                      eventName: string, encodedParameters: string)
    requires ',' !in eventName && ',' !in encodedParameters
    ensures var fields := LogFields(now, participantId, stepId, step, taskId, eventName, encodedParameters);
      Split(LogLine(now, participantId, stepId, step, taskId, eventName, encodedParameters), ',') == fields
      && |fields| == 9
  {
    var fields := LogFields(now, participantId, stepId, step, taskId, eventName, encodedParameters);
    assert forall i :: 0 <= i < |fields| ==> ',' !in fields[i] by {
      NoCommaInDecimal(now);
      NoCommaInDecimal(participantId);
      NoCommaInDecimal(stepId);
      NoCommaInDecimal(taskId);
      LabelsHoldNoComma(step, taskId);
    }
    SplitJoin(fields, ',');
  }

  lemma LabelsHoldNoComma(step: StudyStep, taskId: int)
    ensures ',' !in StepType(step) && ',' !in Code(Some(step), taskId) && ',' !in ConditionName(step)
  {
    assert ',' !in TaskLetter(taskId);
  }

  /** A logged event adds exactly one line to the log when the line holds no line break. */
  lemma LoggedAddsOneLine(csv: string, line: string)
    requires '\n' !in line
    ensures Split(Logged(csv, true, line), '\n') == Split(csv, '\n') + [line]
    ensures Logged(csv, false, line) == csv
  {
    SplitSnoc(csv, line, '\n');
  }

  // ---------------------------------------------------------------------------------------
  // Moving through the session

  /** `stepId` is -1 or a step, and `taskId` is a task of the current condition step (or 0). */
  predicate InRange(steps: seq<StudyStep>, stepId: int, taskId: int) {
    -1 <= stepId < |steps| && 0 <= taskId
    && (StepAt(steps, stepId).Some? && StepAt(steps, stepId).value.ConditionStep?
        && |StepAt(steps, stepId).value.condition.tasks| > 0
        ==> taskId < |StepAt(steps, stepId).value.condition.tasks|)
  }

  /**
   * The position (`stepId`, `taskId`) after `nextStep`: the next task of a condition step, else the
   * first task of the next step, else unchanged at the last step.
   */
  function Advance(steps: seq<StudyStep>, stepId: int, taskId: int): (r: (int, int))
    ensures InRange(steps, stepId, taskId) ==> InRange(steps, r.0, r.1)
    ensures r == (stepId, taskId) <==> !HasNextTask(StepAt(steps, stepId), taskId) && stepId + 1 >= |steps|
    ensures r != (stepId, taskId) ==> r.0 > stepId || (r.0 == stepId && r.1 == taskId + 1)
  {
    if HasNextTask(StepAt(steps, stepId), taskId) then (stepId, taskId + 1)
    else if stepId + 1 < |steps| then (stepId + 1, 0)
    else (stepId, taskId)
  }

  /** The position after `n` calls of `nextStep`. */
  function AdvanceN(steps: seq<StudyStep>, stepId: int, taskId: int, n: nat): (int, int)
    decreases n
  {
    if n == 0 then (stepId, taskId)
    else
      var p := Advance(steps, stepId, taskId);
      AdvanceN(steps, p.0, p.1, n - 1)
  }

  /** From the initial position, no number of `nextStep` calls moves past the last step. */
  lemma {:induction false} NeverPastLast(steps: seq<StudyStep>, stepId: int, taskId: int, n: nat)
    requires InRange(steps, stepId, taskId)
    ensures var p := AdvanceN(steps, stepId, taskId, n); -1 <= p.0 < |steps| && InRange(steps, p.0, p.1)
    decreases n
  {
    if n > 0 {
      var p := Advance(steps, stepId, taskId);
      NeverPastLast(steps, p.0, p.1, n - 1);
    }
  }

  /** With at most four tasks per condition, every task code of a session in range is defined. */
  lemma TaskCodeDefined(steps: seq<StudyStep>, stepId: int, taskId: int)
    requires InRange(steps, stepId, taskId)
    requires StepAt(steps, stepId).Some? && StepAt(steps, stepId).value.ConditionStep?
    requires 0 < |StepAt(steps, stepId).value.condition.tasks| <= 4
    ensures 0 <= taskId < 4 && Code(StepAt(steps, stepId), taskId)[6..] == TaskLetters[taskId]
  {
  }

  /** What `startFresh` loads into the model store for a step. */
  function Fresh(step: StudyStep): StoreState
    reads if step.ConditionStep? then {step.condition} else {}
  {
    match step
    case ConditionStep(condition, _) => InitialState().(activityType := condition.kind, gptMessages := condition.messages)
    case _ => InitialState()
  }

  class StudyModel {
    var participantId: int
    var stepId: int
    var steps: seq<StudyStep>
    var taskId: int
    var csvData: string
    var isDataSaved: bool
    /** The model store of the interface, which `startFresh` resets. */
    const store: Store

    predicate Initial()
      reads this
    {
      participantId == -1 && stepId == -1 && steps == [] && taskId == 0 && csvData == CsvHeader && !isDataSaved
    }

    constructor (store: Store)
      ensures Initial() && this.store == store
    {
      participantId := -1;
      stepId := -1;
      steps := [];
      taskId := 0;
      csvData := CsvHeader;
      isDataSaved := false;
      this.store := store;
    }

    function CurrentStep(): Option<StudyStep>
      reads this
    {
      StepAt(steps, stepId)
    }

    /** `getTaskCode`. */
    function TaskCode(): string
      reads this
    {
      Code(CurrentStep(), taskId)
    }

    /** `reset`: the initial state. */
    method Reset()
      modifies this
      ensures Initial()
    {
      participantId, stepId, steps, taskId, csvData, isDataSaved := -1, -1, [], 0, CsvHeader, false;
    }

    method SetParticipantId(participantId: int)
      modifies this
      ensures this.participantId == participantId
      ensures stepId == old(stepId) && steps == old(steps) && taskId == old(taskId)
      ensures csvData == old(csvData) && isDataSaved == old(isDataSaved)
    {
      this.participantId := participantId;
    }

    method SetStepId(stepId: int)
      modifies this
      ensures this.stepId == stepId
      ensures participantId == old(participantId) && steps == old(steps) && taskId == old(taskId)
      ensures csvData == old(csvData) && isDataSaved == old(isDataSaved)
    {
      this.stepId := stepId;
    }

    method SetSteps(steps: seq<StudyStep>)
      modifies this
      ensures this.steps == steps
      ensures participantId == old(participantId) && stepId == old(stepId) && taskId == old(taskId)
      ensures csvData == old(csvData) && isDataSaved == old(isDataSaved)
    {
      this.steps := steps;
    }

    method SetIsDataSaved(isDataSaved: bool)
      modifies this
      ensures this.isDataSaved == isDataSaved
      ensures participantId == old(participantId) && stepId == old(stepId) && steps == old(steps)
      ensures taskId == old(taskId) && csvData == old(csvData)
    {
      this.isDataSaved := isDataSaved;
    }

    /**
     * `logEvent`: when data is saved and the current step exists, one CSV line with the time
     * `now`, the position, the step, the task code, the interface, the event and its encoded
     * parameters; otherwise nothing.
     */
    method LogEvent(eventName: string, now: int, encodedParameters: string)
      modifies this
      ensures csvData == if CurrentStep().Some?
        then Logged(old(csvData), isDataSaved, LogLine(now, participantId, stepId, CurrentStep().value, taskId, eventName, encodedParameters))
        else old(csvData)
      ensures participantId == old(participantId) && stepId == old(stepId) && steps == old(steps)
      ensures taskId == old(taskId) && isDataSaved == old(isDataSaved)
    {
      if isDataSaved {
        var currentStep := CurrentStep();
        if currentStep.Some? {
          var values := LogFields(now, participantId, stepId, currentStep.value, taskId, eventName, encodedParameters);
          csvData := csvData + "\n" + Join(values, ",");
        }
      }
    }

    /** `saveData`: after the download, the log is emptied when data is saved and `clear` holds. */
    method SaveData(clear: bool)
      modifies this
      ensures csvData == if isDataSaved && clear then "" else old(csvData)
      ensures participantId == old(participantId) && stepId == old(stepId) && steps == old(steps)
      ensures taskId == old(taskId) && isDataSaved == old(isDataSaved)
    {
      if isDataSaved {
        if clear {
          csvData := "";
        }
      }
    }

    /** `startFresh`: a fresh model store, holding a condition step's kind and conversation. */
    method StartFresh()
      requires CurrentStep().Some?
      modifies store
      ensures store.State() == Fresh(CurrentStep().value)
    {
      var currentStep := CurrentStep().value;
      store.Reset();
      if currentStep.ConditionStep? {
        store.SetType(currentStep.condition.kind);
        store.SetGptMessages(currentStep.condition.messages);
      }
    }

    /**
     * `nextStep`: the position advances as `Advance` says; the move is logged, a step that saves
     * data empties the log after its download, and the model store is loaded afresh. At the last
     * step nothing changes.
     */
    method NextStep(now: int, encodedParameters: string)
      requires -1 <= stepId
      modifies this, store
      ensures (stepId, taskId) == Advance(old(steps), old(stepId), old(taskId))
      ensures steps == old(steps) && participantId == old(participantId) && isDataSaved == old(isDataSaved)
      ensures (stepId, taskId) == (old(stepId), old(taskId)) ==>
        csvData == old(csvData) && store.State() == old(store.State())
      ensures (stepId, taskId) != (old(stepId), old(taskId)) ==>
        CurrentStep().Some? && store.State() == Fresh(CurrentStep().value)
        && csvData == if stepId != old(stepId) && SavesData(CurrentStep().value) && isDataSaved then ""
           else Logged(old(csvData), isDataSaved,
                       LogLine(now, participantId, stepId, CurrentStep().value, taskId, "NEXT_STEP", encodedParameters))
    {
      var currentStep := CurrentStep();
      if HasNextTask(currentStep, taskId) {
        taskId := taskId + 1;
        StartFresh();
        LogEvent("NEXT_STEP", now, encodedParameters);
        return;
      }
      if stepId + 1 < |steps| {
        stepId, taskId := stepId + 1, 0;
        LogEvent("NEXT_STEP", now, encodedParameters);
        if SavesData(steps[stepId]) {
          SaveData(true);
        }
        StartFresh();
      }
    }
  }

  /** `saveData` on a step: only message steps carry the flag. */
  predicate SavesData(s: StudyStep) {
    s.MessageStep? && s.saveData
  }
}
