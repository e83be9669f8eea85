/**
 * The steps of a study session: a survey, then two blocks of three tasks (one text, one code,
 * one svg task each), one block in the chat interface and one in the direct interface, then the
 * end. The order of the six tasks comes from a 12-row latin square indexed by the participant.
 */
module StudyTaskGenerator {
  import opened Wrappers
  import opened UnknownPrompts
  import opened ModelStore
  import opened CodePrompts
  import Seqs

  datatype Modality = T1 | T2 | C1 | C2 | S1 | S2

  function KindOf(m: Modality): ActivityType {
    match m
    case T1 => TextType
    case T2 => TextType
    case C1 => CodeType
    case C2 => CodeType
    case S1 => SvgType
    case S2 => SvgType
  }

  function KindName(k: ActivityType): string {
    match k
    case TextType => "text"
    case SvgType => "svg"
    case CodeType => "code"
    case UnknownType => "unknown"
  }

  datatype StudyTask = StudyTask(action: string, imageUrl: string)

  /** A task of the study: its kind, the conversation it starts from, and its four sub-tasks. */
  class StudyCondition {
    const kind: ActivityType
    var messages: seq<Message>
    const tasks: seq<StudyTask>

    constructor (kind: ActivityType, messages: seq<Message>, tasks: seq<StudyTask>)
      ensures this.kind == kind && this.messages == messages && this.tasks == tasks
    {
      this.kind := kind;
      this.messages := messages;
      this.tasks := tasks;
    }
  }

  /** The shared table of the six tasks, one object per modality; generating the steps updates it. */
  class ModalityTasks {
    const t1: StudyCondition
    const t2: StudyCondition
    const c1: StudyCondition
    const c2: StudyCondition
    const s1: StudyCondition
    const s2: StudyCondition

    constructor (t1: StudyCondition, t2: StudyCondition, c1: StudyCondition, c2: StudyCondition,
                 s1: StudyCondition, s2: StudyCondition)
      ensures this.t1 == t1 && this.t2 == t2 && this.c1 == c1 && this.c2 == c2
      ensures this.s1 == s1 && this.s2 == s2
    {
      this.t1, this.t2, this.c1, this.c2, this.s1, this.s2 := t1, t2, c1, c2, s1, s2;
    }

    function Get(m: Modality): StudyCondition {
      match m
      case T1 => t1
      case T2 => t2
      case C1 => c1
      case C2 => c2
      case S1 => s1
      case S2 => s2
    }

    function Conditions(): set<StudyCondition> {
      {t1, t2, c1, c2, s1, s2}
    }

    /** The six conversations, by modality. */
    function Conversations(): (r: map<Modality, seq<Message>>)
      reads Conditions()
      ensures forall m :: m in r && r[m] == Get(m).messages
    {
      map m: Modality | true :: Get(m).messages
    }

    /** Six different objects, each of its modality's kind, each with a conversation. */
    predicate Valid()
      reads Conditions()
    {
      (forall m, n :: m != n ==> Get(m) != Get(n))
      && (forall m :: Get(m).kind == KindOf(m) && |Get(m).messages| > 0)
    }
  }

  datatype StudyStep =
    | MessageStep(message: string, saveData: bool)
    | VideoStep(video: string)
    | ConditionStep(condition: StudyCondition, isDirect: bool)

  const Survey := "Thank you for participating in this study. Please, first complete this survey questionnaire: [demographic questions (link removed)]"
  const Break := "Feel free to take a break, and press 'Next' whenever you are ready."
  const Questionnaire := "End of this part. Please answer this questionnaire: [usability questions (link removed)]"
  const Goodbye := "Done! Thank you for participating in this study."

  /** Row `r` of the latin square of task orders, for `r` below 12. */
  function LatinSquare(r: nat): seq<seq<Modality>> {
    match r
    case 0 => [[T1, C1, S2], [C2, S1, T2]]
    case 1 => [[C1, S2, T1], [T2, C2, S1]]
    case 2 => [[C2, T2, S1], [C1, T1, S2]]
    case 3 => [[T2, S1, C2], [S2, C1, T1]]
    case 4 => [[S1, C2, T2], [T1, S2, C1]]
    case 5 => [[S2, T1, C1], [S1, T2, C2]]
    case 6 => [[C2, S1, T2], [T1, C1, S2]]
    case 7 => [[T2, C2, S1], [C1, S2, T1]]
    case 8 => [[C1, T1, S2], [C2, T2, S1]]
    case 9 => [[S2, C1, T1], [T2, S1, C2]]
    case 10 => [[T1, S2, C1], [S1, C2, T2]]
    case _ => [[S1, T2, C2], [S2, T1, C1]]
  }

  /** A block of three tasks, one of each kind. */
  predicate OneOfEachKind(h: seq<Modality>) {
    |h| == 3
    && KindOf(h[0]) != KindOf(h[1]) && KindOf(h[0]) != KindOf(h[2]) && KindOf(h[1]) != KindOf(h[2])
  }

  /** Two blocks of three that together hold every modality, none twice. */
  predicate IsOrder(o: seq<seq<Modality>>) {
    |o| == 2 && OneOfEachKind(o[0]) && OneOfEachKind(o[1])
    && (forall i, j :: 0 <= i < j < 6 ==> (o[0] + o[1])[i] != (o[0] + o[1])[j])
    && T1 in o[0] + o[1] && T2 in o[0] + o[1] && C1 in o[0] + o[1]
    && C2 in o[0] + o[1] && S1 in o[0] + o[1] && S2 in o[0] + o[1]
  }

  /** Every row of the latin square is an order. */
  lemma LatinSquareRows(r: nat)
    requires r < 12
    ensures IsOrder(LatinSquare(r))
  {
    match r
    case 0 => RowIsOrder(T1, C1, S2, C2, S1, T2);
    case 1 => RowIsOrder(C1, S2, T1, T2, C2, S1);
    case 2 => RowIsOrder(C2, T2, S1, C1, T1, S2);
    case 3 => RowIsOrder(T2, S1, C2, S2, C1, T1);
    case 4 => RowIsOrder(S1, C2, T2, T1, S2, C1);
    case 5 => RowIsOrder(S2, T1, C1, S1, T2, C2);
    case 6 => RowIsOrder(C2, S1, T2, T1, C1, S2);
    case 7 => RowIsOrder(T2, C2, S1, C1, S2, T1);
    case 8 => RowIsOrder(C1, T1, S2, C2, T2, S1);
    case 9 => RowIsOrder(S2, C1, T1, T2, S1, C2);
    case 10 => RowIsOrder(T1, S2, C1, S1, C2, T2);
    case 11 => RowIsOrder(S1, T2, C2, S2, T1, C1);
  }

  /** Six different modalities, one of each kind in each half, make an order. */
  lemma RowIsOrder(a: Modality, b: Modality, c: Modality, d: Modality, e: Modality, f: Modality)
    requires a != b && a != c && a != d && a != e && a != f && b != c && b != d && b != e && b != f
    requires c != d && c != e && c != f && d != e && d != f && e != f
    requires KindOf(a) != KindOf(b) && KindOf(a) != KindOf(c) && KindOf(b) != KindOf(c)
    requires KindOf(d) != KindOf(e) && KindOf(d) != KindOf(f) && KindOf(e) != KindOf(f)
    requires var all := [a, b, c, d, e, f];
      T1 in all && T2 in all && C1 in all && C2 in all && S1 in all && S2 in all
    ensures IsOrder([[a, b, c], [d, e, f]])
  {
    var all := [a, b, c, d, e, f];
    assert [a, b, c] + [d, e, f] == all;
    forall i, j | 0 <= i < j < 6 ensures all[i] != all[j] {
      SixApart(all, i, j);
    }
  }

  lemma SixApart(all: seq<Modality>, i: nat, j: nat)
    requires |all| == 6 && i < j < 6
    requires all[0] != all[1] && all[0] != all[2] && all[0] != all[3] && all[0] != all[4] && all[0] != all[5]
    requires all[1] != all[2] && all[1] != all[3] && all[1] != all[4] && all[1] != all[5]
    requires all[2] != all[3] && all[2] != all[4] && all[2] != all[5]
    requires all[3] != all[4] && all[3] != all[5] && all[4] != all[5]
    ensures all[i] != all[j]
  {
  }

  /** The participant's row of the latin square. */
  function Order(participantId: nat): (o: seq<seq<Modality>>)
    ensures |o| == 2 && |o[0]| == 3 && |o[1]| == 3
    ensures IsOrder(o)
  {
    LatinSquareRows(participantId % 12);
    LatinSquare(participantId % 12)
  }

  /** In an order each modality is in exactly one block, at exactly one position. */
  lemma OrderPlaces(o: seq<seq<Modality>>)
    requires IsOrder(o)
    ensures forall m :: m in o[0] <==> m !in o[1]
    ensures forall c, i, j :: 0 <= c < 2 && 0 <= i < j < 3 ==> o[c][i] != o[c][j]
  {
    var all := o[0] + o[1];
    forall m ensures m in o[0] <==> m !in o[1] {
      assert m in all by {
        match m
        case T1 =>
        case T2 =>
        case C1 =>
        case C2 =>
        case S1 =>
        case S2 =>
      }
      if m in o[0] {
        var i :| 0 <= i < 3 && o[0][i] == m;
        forall j | 0 <= j < 3 ensures o[1][j] != m {
          assert all[i] == o[0][i] && all[3 + j] == o[1][j];
        }
      }
    }
    forall c, i, j | 0 <= c < 2 && 0 <= i < j < 3 ensures o[c][i] != o[c][j] {
      assert all[3 * c + i] == o[c][i] && all[3 * c + j] == o[c][j];
    }
  }

  /** The block of modality `m` in the order. */
  function BlockOf(o: seq<seq<Modality>>, m: Modality): nat
    requires |o| == 2
  {
    if m in o[0] then 0 else 1
  }

  /** Block `c` is done in the chat interface (the baseline) unless `c` is the participant's parity. */
  function Baseline(participantId: nat, c: nat): bool {
    participantId % 2 != c
  }

  function VideoPath(publicUrl: string, k: ActivityType, baseline: bool): string {
    publicUrl + "/study/tuto/" + KindName(k) + "_" + (if baseline then "chat" else "direct") + ".mp4"
  }

  /** The conversation of a task done in the chat interface shows code and svg inside a fence. */
  function Fenced(msgs: seq<Message>, k: ActivityType, baseline: bool): (r: seq<Message>)
    requires |msgs| > 0
    ensures |r| == |msgs| && r[..|r| - 1] == msgs[..|msgs| - 1]
    ensures r[|r| - 1].role == msgs[|msgs| - 1].role
    ensures !(baseline && (k == CodeType || k == SvgType)) ==> r == msgs
  {
    var last := msgs[|msgs| - 1];
    if baseline && k == CodeType then
      msgs[..|msgs| - 1] + [last.(content := "```javascript\n" + last.content + "\n```")]
    else if baseline && k == SvgType then
      msgs[..|msgs| - 1] + [last.(content := "```html\n" + last.content + "\n```")]
    else msgs
  }

  /** The fence put around a code task's text is the fence a code prompt's reply is read from. */
  lemma FencedCodeReadsBack(msgs: seq<Message>)
    requires |msgs| > 0 && |msgs[|msgs| - 1].content| >= 1 && '`' !in msgs[|msgs| - 1].content
    ensures var r := Fenced(msgs, CodeType, true);
      FencedBody(r[|r| - 1].content) == Some(msgs[|msgs| - 1].content)
  {
    var body := msgs[|msgs| - 1].content;
    var lang := "javascript";
    assert forall k :: 0 <= k < |lang| ==> IsLetter(lang[k]);
    assert "" + FenceOpen + lang + "\n" + body + FenceClose + "" == "```javascript\n" + body + "\n```";
    FencedBodyOfBlock("", lang, body, "");
  }

  function TaskSteps(publicUrl: string, cond: StudyCondition, baseline: bool): seq<StudyStep> {
    [VideoStep(VideoPath(publicUrl, cond.kind, baseline)), ConditionStep(cond, !baseline), MessageStep(Break, true)]
  }

  /** The steps of the tasks `ms` of a block: video, task, break, for each in turn. */
  function Tasks(publicUrl: string, table: ModalityTasks, ms: seq<Modality>, baseline: bool): (r: seq<StudyStep>)
    ensures |r| == 3 * |ms|
  {
    if ms == [] then []
    else Tasks(publicUrl, table, ms[..|ms| - 1], baseline) + TaskSteps(publicUrl, table.Get(ms[|ms| - 1]), baseline)
  }

  /** The first `c` blocks, each ending with the questionnaire. */
  function Blocks(order: seq<seq<Modality>>, participantId: nat, publicUrl: string, table: ModalityTasks, c: nat)
    : seq<StudyStep>
    requires c <= |order|
  {
    if c == 0 then []
    else
      Blocks(order, participantId, publicUrl, table, c - 1)
      + Tasks(publicUrl, table, order[c - 1], Baseline(participantId, c - 1))
      + [MessageStep(Questionnaire, false)]
  }

  /** The whole session. */
  function Steps(order: seq<seq<Modality>>, participantId: nat, publicUrl: string, table: ModalityTasks): seq<StudyStep> {
    [MessageStep(Survey, false)] + Blocks(order, participantId, publicUrl, table, |order|) + [MessageStep(Goodbye, false)]
  }

  /** The `j`-th task of a block takes steps `3j`, `3j+1`, `3j+2`: its video, the task, a break that saves the data. */
  lemma {:induction false} TasksAt(publicUrl: string, table: ModalityTasks, ms: seq<Modality>, baseline: bool, j: nat)
    requires j < |ms|
    ensures var r := Tasks(publicUrl, table, ms, baseline);
      r[3 * j] == VideoStep(VideoPath(publicUrl, KindOf(ms[j]), baseline)) && r[3 * j + 1] == ConditionStep(table.Get(ms[j]), !baseline)
      && r[3 * j + 2] == MessageStep(Break, true)
    requires KindsMatch(table)
  {
    if j < |ms| - 1 {
      TasksAt(publicUrl, table, ms[..|ms| - 1], baseline, j);
    }
  }

  /**
   * The session has 22 steps: the survey, then for each block `c` and each of its tasks `j` the
   * video, the task (direct exactly when `c` is the participant's parity) and a break, each block
   * closed by the questionnaire, and the goodbye message last.
   */
  lemma StepsShape(order: seq<seq<Modality>>, participantId: nat, publicUrl: string, table: ModalityTasks, c: nat, j: nat)
    requires KindsMatch(table) && |order| == 2 && |order[0]| == 3 && |order[1]| == 3 && c < 2 && j < 3
    ensures |Steps(order, participantId, publicUrl, table)| == 22
    ensures Steps(order, participantId, publicUrl, table)[0] == MessageStep(Survey, false)
    ensures Steps(order, participantId, publicUrl, table)[21] == MessageStep(Goodbye, false)
    ensures Steps(order, participantId, publicUrl, table)[10 * c + 10] == MessageStep(Questionnaire, false)
    ensures Steps(order, participantId, publicUrl, table)[1 + 10 * c + 3 * j]
      == VideoStep(VideoPath(publicUrl, KindOf(order[c][j]), participantId % 2 != c))
    ensures Steps(order, participantId, publicUrl, table)[2 + 10 * c + 3 * j]
      == ConditionStep(table.Get(order[c][j]), participantId % 2 == c)
    ensures Steps(order, participantId, publicUrl, table)[3 + 10 * c + 3 * j] == MessageStep(Break, true)
  {
    var ts := Tasks(publicUrl, table, order[c], Baseline(participantId, c));
    var t0 := Tasks(publicUrl, table, order[0], Baseline(participantId, 0));
    var t1 := Tasks(publicUrl, table, order[1], Baseline(participantId, 1));
    assert ts == if c == 0 then t0 else t1;
    StepsUnfold(order, participantId, publicUrl, table);
    TasksAt(publicUrl, table, order[c], Baseline(participantId, c), j);
    SessionAt(MessageStep(Survey, false), t0, t1, MessageStep(Questionnaire, false), MessageStep(Goodbye, false), c, j);
  }

  /** Where the survey, the two blocks of three tasks, their questionnaires and the goodbye sit in the session. */
  lemma SessionAt<T>(s: T, t0: seq<T>, t1: seq<T>, q: T, g: T, c: nat, j: nat)
    requires |t0| == 9 && |t1| == 9 && c < 2 && j < 3
    ensures var r := [s] + (t0 + [q]) + (t1 + [q]) + [g];
      |r| == 22 && r[0] == s && r[21] == g && r[10 * c + 10] == q
    ensures var r := [s] + (t0 + [q]) + (t1 + [q]) + [g];
      var t := if c == 0 then t0 else t1;
      r[1 + 10 * c + 3 * j] == t[3 * j] && r[2 + 10 * c + 3 * j] == t[3 * j + 1] && r[3 + 10 * c + 3 * j] == t[3 * j + 2]
  {
  }

  lemma StepsUnfold(order: seq<seq<Modality>>, participantId: nat, publicUrl: string, table: ModalityTasks)
    requires |order| == 2
    ensures Steps(order, participantId, publicUrl, table)
      == [MessageStep(Survey, false)]
         + (Tasks(publicUrl, table, order[0], Baseline(participantId, 0)) + [MessageStep(Questionnaire, false)])
         + (Tasks(publicUrl, table, order[1], Baseline(participantId, 1)) + [MessageStep(Questionnaire, false)])
         + [MessageStep(Goodbye, false)]
  {
    var q := [MessageStep(Questionnaire, false)];
    BlocksSucc(order, participantId, publicUrl, table, 0);
    BlocksSucc(order, participantId, publicUrl, table, 1);
    TwoBlocks(MessageStep(Survey, false), Blocks(order, participantId, publicUrl, table, 0),
              Blocks(order, participantId, publicUrl, table, 1), Blocks(order, participantId, publicUrl, table, 2),
              Tasks(publicUrl, table, order[0], Baseline(participantId, 0)),
              Tasks(publicUrl, table, order[1], Baseline(participantId, 1)), q, MessageStep(Goodbye, false));
  }

  lemma TwoBlocks<T>(s: T, b0: seq<T>, b1: seq<T>, b2: seq<T>, t0: seq<T>, t1: seq<T>, q: seq<T>, g: T)
    requires b0 == [] && b1 == b0 + t0 + q && b2 == b1 + t1 + q
    ensures [s] + b2 + [g] == [s] + (t0 + q) + (t1 + q) + [g]
  {
  }

  lemma TasksSnoc(publicUrl: string, table: ModalityTasks, ms: seq<Modality>, j: nat, baseline: bool)
    requires j < |ms|
    ensures Tasks(publicUrl, table, ms[..j + 1], baseline)
      == Tasks(publicUrl, table, ms[..j], baseline) + TaskSteps(publicUrl, table.Get(ms[j]), baseline)
  {
    assert ms[..j + 1][..j] == ms[..j];
  }

  /** Six different task objects, each of its modality's kind. */
  predicate Distinct(table: ModalityTasks) {
    (forall m, n :: m != n ==> table.Get(m) != table.Get(n)) && KindsMatch(table)
  }

  /** Each task object is of its modality's kind. */
  predicate KindsMatch(table: ModalityTasks) {
    forall m :: table.Get(m).kind == KindOf(m)
  }

  /** The conversations after the tasks `ms` are prepared: those tasks' conversations are fenced. */
  function FenceBlock(conv: map<Modality, seq<Message>>, ms: seq<Modality>, baseline: bool)
    : (r: map<Modality, seq<Message>>)
    ensures r.Keys == conv.Keys
    ensures forall m :: m in conv ==> |r[m]| == |conv[m]|
  {
    map m | m in conv :: if m in ms && |conv[m]| > 0 then Fenced(conv[m], KindOf(m), baseline) else conv[m]
  }

  /** The conversations after the first `c` blocks of `order` are prepared. */
  function FenceBlocks(conv: map<Modality, seq<Message>>, participantId: nat, order: seq<seq<Modality>>, c: nat)
    : (r: map<Modality, seq<Message>>)
    requires c <= |order|
    ensures r.Keys == conv.Keys
    ensures forall m :: m in conv ==> |r[m]| == |conv[m]|
  {
    if c == 0 then conv
    else FenceBlock(FenceBlocks(conv, participantId, order, c - 1), order[c - 1], Baseline(participantId, c - 1))
  }

  /** Preparing one more task of a block fences that task's conversation and no other. */
  lemma FenceBlockSnoc(conv: map<Modality, seq<Message>>, ms: seq<Modality>, j: nat, baseline: bool)
    requires j < |ms| && ms[j] !in ms[..j] && ms[j] in conv && |conv[ms[j]]| > 0
    ensures FenceBlock(conv, ms[..j + 1], baseline)
      == FenceBlock(conv, ms[..j], baseline)[ms[j] := Fenced(conv[ms[j]], KindOf(ms[j]), baseline)]
  {
    assert ms[..j + 1] == ms[..j] + [ms[j]];
  }

  /** After both blocks each task's conversation is fenced exactly when its own block is done in the chat interface. */
  lemma FenceBlocksAll(conv: map<Modality, seq<Message>>, participantId: nat, order: seq<seq<Modality>>)
    requires |order| == 2 && forall m :: m in order[0] <==> m !in order[1]
    requires forall m :: m in conv && |conv[m]| > 0
    ensures forall m :: (FenceBlocks(conv, participantId, order, 2)[m]
      == Fenced(conv[m], KindOf(m), Baseline(participantId, BlockOf(order, m))))
  {
    assert FenceBlocks(conv, participantId, order, 0) == conv;
    var first := FenceBlocks(conv, participantId, order, 1);
    var second := FenceBlocks(conv, participantId, order, 2);
    assert first == FenceBlock(conv, order[0], Baseline(participantId, 0));
    assert second == FenceBlock(first, order[1], Baseline(participantId, 1));
    forall m ensures second[m] == Fenced(conv[m], KindOf(m), Baseline(participantId, BlockOf(order, m))) {
      if m in order[0] {
        assert first[m] == Fenced(conv[m], KindOf(m), Baseline(participantId, 0));
        assert second[m] == first[m];
      } else {
        assert first[m] == conv[m];
        assert second[m] == Fenced(first[m], KindOf(m), Baseline(participantId, 1));
      }
    }
  }

  /**
   * In a task done in the chat interface, the last message of a code or svg task's conversation
   * is fenced in place; no other task's conversation changes.
   */
  method FenceTask(table: ModalityTasks, m: Modality, isBaseline: bool)
    requires Distinct(table) && |table.Get(m).messages| > 0
    modifies table.Get(m)
    ensures table.Get(m).messages == Fenced(old(table.Get(m).messages), KindOf(m), isBaseline)
    ensures table.Conversations() == old(table.Conversations())[m := table.Get(m).messages]
  {
    ghost var before := table.Conversations();
    var condition := table.Get(m);
    var msgs := condition.messages;
    var last := msgs[|msgs| - 1];
    if condition.kind == CodeType && isBaseline {
      msgs := msgs[..|msgs| - 1] + [last.(content := "```javascript\n" + last.content + "\n```")];
    }
    if condition.kind == SvgType && isBaseline {
      msgs := msgs[..|msgs| - 1] + [last.(content := "```html\n" + last.content + "\n```")];
    }
    assert msgs == Fenced(before[m], KindOf(m), isBaseline);
    condition.messages := msgs;
    forall n ensures table.Get(n).messages == before[m := msgs][n] {
      if n != m {
        assert table.Get(n) != condition;
      }
    }
    assert table.Conversations() == before[m := msgs];
  }

  /**
   * The inner loop of `generateSteps`: the steps of one block, whose tasks' conversations are
   * fenced in place when the block is done in the chat interface.
   */
  method BlockSteps(publicUrl: string, table: ModalityTasks, modalities: seq<Modality>, isBaseline: bool)
    returns (steps: seq<StudyStep>)
    requires Distinct(table)
    requires forall i, j :: 0 <= i < j < |modalities| ==> modalities[i] != modalities[j]
    requires forall m :: |table.Get(m).messages| > 0
    modifies table.Conditions()
    ensures steps == Tasks(publicUrl, table, modalities, isBaseline)
    ensures table.Conversations() == FenceBlock(old(table.Conversations()), modalities, isBaseline)
  {
    ghost var before := table.Conversations();
    steps := [];
    for j := 0 to |modalities|
      invariant steps == Tasks(publicUrl, table, modalities[..j], isBaseline)
      invariant table.Conversations() == FenceBlock(before, modalities[..j], isBaseline)
    {
      var m := modalities[j];
      var condition := table.Get(m);
      assert condition in table.Conditions() by { match m case _ => }
      assert m !in modalities[..j];
      assert condition.messages == before[m];
      TasksSnoc(publicUrl, table, modalities, j, isBaseline);
      FenceBlockSnoc(before, modalities, j, isBaseline);
      steps := steps + TaskSteps(publicUrl, condition, isBaseline);
      FenceTask(table, m, isBaseline);
    }
    assert modalities[..|modalities|] == modalities;
  }

  lemma BlocksSucc(order: seq<seq<Modality>>, participantId: nat, publicUrl: string, table: ModalityTasks, c: nat)
    requires c < |order|
    ensures Blocks(order, participantId, publicUrl, table, c + 1)
      == Blocks(order, participantId, publicUrl, table, c)
         + Tasks(publicUrl, table, order[c], Baseline(participantId, c))
         + [MessageStep(Questionnaire, false)]
  {
  }

  /**
   * `generateSteps`: the steps of the session, and the shared table updated in place, each
   * task's conversation fenced when its block is done in the chat interface.
   */
  method GenerateSteps(participantId: nat, publicUrl: string, table: ModalityTasks) returns (steps: seq<StudyStep>)
    requires table.Valid()
    modifies table.Conditions()
    ensures steps == Steps(Order(participantId), participantId, publicUrl, table)
    ensures forall m :: (table.Get(m).messages
      == Fenced(old(table.Get(m).messages), KindOf(m), Baseline(participantId, BlockOf(Order(participantId), m))))
  {
    ghost var before := table.Conversations();
    var order := Order(participantId);
    steps := BlocksInOrder(participantId, publicUrl, table, order);
    OrderPlaces(order);
    FenceBlocksAll(before, participantId, order);
    steps := steps + [MessageStep(Goodbye, false)];
  }

  /** The outer loop of `generateSteps`: the survey, then each block followed by its questionnaire. */
  method BlocksInOrder(participantId: nat, publicUrl: string, table: ModalityTasks, order: seq<seq<Modality>>)
    returns (steps: seq<StudyStep>)
    requires table.Valid() && IsOrder(order)
    modifies table.Conditions()
    ensures steps == [MessageStep(Survey, false)] + Blocks(order, participantId, publicUrl, table, |order|)
    ensures table.Conversations() == FenceBlocks(old(table.Conversations()), participantId, order, |order|)
  {
    ghost var before := table.Conversations();
    steps := [MessageStep(Survey, false)];
    OrderPlaces(order);
    for c := 0 to |order|
      invariant steps == [MessageStep(Survey, false)] + Blocks(order, participantId, publicUrl, table, c)
      invariant table.Conversations() == FenceBlocks(before, participantId, order, c)
    {
      var isBaseline := participantId % 2 != c;
      var block := BlockSteps(publicUrl, table, order[c], isBaseline);
      BlocksSucc(order, participantId, publicUrl, table, c);
      Seqs.Assoc([MessageStep(Survey, false)], Blocks(order, participantId, publicUrl, table, c) + block,
                 [MessageStep(Questionnaire, false)]);
      Seqs.Assoc([MessageStep(Survey, false)], Blocks(order, participantId, publicUrl, table, c), block);
      steps := steps + block + [MessageStep(Questionnaire, false)];
    }
  }
}
