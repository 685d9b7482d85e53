/**
 * The interview progression engine of `src/stores/interview.ts`: a session
 * with a stage, a round, a cursor into the stage's question list and the
 * responses given so far, walked forward and backward over a question
 * catalog held in memory.
 *
 * Every call to the remote store is an input of type `Reply`: the model
 * receives what the server answered (or that it failed) and changes local
 * state exactly as the store does with that answer. Calls whose failure the
 * store swallows and whose success changes nothing locally (saving the
 * cursor and stage after a move) have no counterpart here.
 */
module Interview {
  import opened Wrappers
  import opened Js
  import opened Seqs

  /** `Question.round`: a property that may be missing, explicitly `null`
      (the question belongs to every round) or a round number. */
  datatype RoundTag = Missing | AnyRound | InRound(n: int)

  datatype QuestionType = FreeText | MultipleChoice | Scale | YesNo

  datatype Question = Question(
    id: int,
    text: string,
    qtype: QuestionType,
    stage: int,
    required: bool,
    round: RoundTag)

  datatype Response = Response(questionId: int, answer: JsValue, completedAt: Option<string>)

  datatype RoundStatus = Pending | Active | RoundCompleted | Cancelled

  /** `scheduledAt` is the scheduled instant, already parsed to a number. */
  datatype InterviewRound = InterviewRound(
    id: int,
    roundNumber: int,
    status: RoundStatus,
    scheduledAt: int,
    canStartInterview: bool)

  datatype Status = InProgress | Completed | Paused

  /** An interview session. `cursor` is `current_question_index`. */
  datatype Interview = Interview(
    id: int,
    contactId: int,
    round: Option<InterviewRound>,
    stage: int,
    status: Status,
    responses: seq<Response>,
    startedAt: string,
    completedAt: Option<string>,
    cursor: nat)

  // ---------------------------------------------------------------------
  // Stage questions
  // ---------------------------------------------------------------------

  /** `q.round === null || q.round === round`: a missing round matches no round. */
  predicate RoundApplies(tag: RoundTag, round: int) {
    tag == AnyRound || tag == InRound(round)
  }

  predicate InStage(q: Question, stage: int, round: int) {
    q.stage == stage && RoundApplies(q.round, round)
  }

  /** The stage-question list: the catalog filtered by stage and round, in catalog order. */
  function StageQuestions(qs: seq<Question>, stage: int, round: int): (r: seq<Question>)
    ensures |r| <= |qs|
  {
    Filter((q: Question) => InStage(q, stage, round), qs)
  }

  /** The stage list holds exactly the catalog's questions of that stage and
      round, in catalog order. */
  lemma StageQuestionsSpec(qs: seq<Question>, stage: int, round: int)
    ensures forall q :: q in StageQuestions(qs, stage, round) <==>
      q in qs && q.stage == stage && RoundApplies(q.round, round)
    ensures SubsequenceOf(StageQuestions(qs, stage, round), qs)
  {
    FilterMembers((q: Question) => InStage(q, stage, round), qs);
    FilterSubsequence((q: Question) => InStage(q, stage, round), qs);
  }

  /** The questions of every stage that belong to `round`. */
  function RoundQuestions(qs: seq<Question>, round: int): (r: seq<Question>)
    ensures |r| <= |qs|
  {
    Filter((q: Question) => RoundApplies(q.round, round), qs)
  }

  lemma RoundQuestionsSpec(qs: seq<Question>, round: int)
    ensures forall q :: q in RoundQuestions(qs, round) <==> q in qs && RoundApplies(q.round, round)
    ensures SubsequenceOf(RoundQuestions(qs, round), qs)
  {
    FilterMembers((q: Question) => RoundApplies(q.round, round), qs);
    FilterSubsequence((q: Question) => RoundApplies(q.round, round), qs);
  }

  /** Every stage question belongs to the round, so the round's question
      count is never below the stage's. */
  lemma StageWithinRound(qs: seq<Question>, stage: int, round: int)
    ensures |StageQuestions(qs, stage, round)| <= |RoundQuestions(qs, round)|
  {
    FilterWeaker((q: Question) => InStage(q, stage, round), (q: Question) => RoundApplies(q.round, round), qs);
  }

  /** `totalStages`: the largest stage number in the catalog, or 1 for an empty catalog. */
  function TotalStages(qs: seq<Question>): (r: int)
    ensures qs == [] ==> r == 1
    ensures qs != [] ==> exists i :: 0 <= i < |qs| && qs[i].stage == r
    ensures forall i :: 0 <= i < |qs| ==> qs[i].stage <= r
  {
    if |qs| == 0 then 1
    else if |qs| == 1 then qs[0].stage
    else
      var rest := TotalStages(qs[1..]);
      assert forall i :: 1 <= i < |qs| ==> qs[i] == qs[1..][i - 1];
      if qs[0].stage >= rest then qs[0].stage else rest
  }

  // ---------------------------------------------------------------------
  // Responses
  // ---------------------------------------------------------------------

  /** `responses.findIndex(r => r.question_id === qid)`, with `None` for -1. */
  function FindIndex(rs: seq<Response>, qid: int): (r: Option<nat>)
    ensures r.Some? ==> r.value < |rs| && rs[r.value].questionId == qid
    ensures r.Some? ==> forall j :: 0 <= j < r.value ==> rs[j].questionId != qid
    ensures r.None? ==> forall j :: 0 <= j < |rs| ==> rs[j].questionId != qid
  {
    if rs == [] then None
    else if rs[0].questionId == qid then Some(0)
    else match FindIndex(rs[1..], qid)
      case None => None
      case Some(i) => Some(i + 1)
  }

  /** The contract of FindIndex pins its result down. */
  lemma FindIndexAt(rs: seq<Response>, qid: int, k: nat)
    requires k < |rs| && rs[k].questionId == qid
    requires forall j :: 0 <= j < k ==> rs[j].questionId != qid
    ensures FindIndex(rs, qid) == Some(k)
  {
  }

  /** `getResponseForQuestion`: the first response recorded for the question. */
  function FindResponse(rs: seq<Response>, qid: int): (r: Option<Response>)
    ensures r.Some? <==> exists j :: 0 <= j < |rs| && rs[j].questionId == qid
    ensures r.Some? ==> r.value in rs && r.value.questionId == qid
  {
    match FindIndex(rs, qid)
    case None => None
    case Some(i) => Some(rs[i])
  }

  /** A question counts as answered only when its first response holds a
      truthy answer (`!existingResponse?.answer` is the negation). */
  predicate Answered(rs: seq<Response>, qid: int) {
    var r := FindResponse(rs, qid);
    r.Some? && Truthy(r.value.answer)
  }

  /** The local upsert of `submitResponse`: replace the first response for the
      question, or append the server's reply when there is none. */
  function Upsert(rs: seq<Response>, qid: int, reply: Response): (r: seq<Response>)
    ensures |rs| <= |r| <= |rs| + 1
    ensures (exists j :: 0 <= j < |rs| && rs[j].questionId == qid) <==> |r| == |rs|
    ensures |r| == |rs| + 1 ==> r == rs + [reply]
    ensures |r| == |rs| ==>
      exists k :: (0 <= k < |rs| && rs[k].questionId == qid && r == rs[k := reply]
                   && forall j :: 0 <= j < k ==> rs[j].questionId != qid)
  {
    match FindIndex(rs, qid)
    case None => rs + [reply]
    case Some(i) => rs[i := reply]
  }

  /** After an upsert whose reply carries the question's id, the recorded
      response for that question is the reply, and no other question's
      recorded response changes. */
  lemma UpsertRecords(rs: seq<Response>, qid: int, reply: Response, other: int)
    requires reply.questionId == qid
    ensures FindResponse(Upsert(rs, qid, reply), qid) == Some(reply)
    ensures other != qid ==> FindResponse(Upsert(rs, qid, reply), other) == FindResponse(rs, other)
  {
    var r := Upsert(rs, qid, reply);
    match FindIndex(rs, qid)
    case None =>
      assert r == rs + [reply];
      assert r[|rs|] == reply;
      if other != qid {
        match FindIndex(rs, other)
        case None =>
          assert forall j :: 0 <= j < |r| ==> r[j].questionId != other;
        case Some(i) =>
          assert r[i] == rs[i];
          FindIndexAt(r, other, i);
      }
    case Some(k) =>
      assert r == rs[k := reply];
      FindIndexAt(r, qid, k);
      if other != qid {
        match FindIndex(rs, other)
        case None =>
          assert forall j :: 0 <= j < |r| ==> r[j].questionId != other;
        case Some(i) =>
          assert r[i] == rs[i];
          FindIndexAt(r, other, i);
      }
  }

  // ---------------------------------------------------------------------
  // The scan for the first unanswered question
  // ---------------------------------------------------------------------

  predicate AllAnswered(qs: seq<Question>, rs: seq<Response>, from: nat) {
    forall j :: from <= j < |qs| ==> Answered(rs, qs[j].id)
  }

  /** The first position at or after `from` whose question is unanswered. */
  function FirstUnanswered(qs: seq<Question>, rs: seq<Response>, from: nat): (r: Option<nat>)
    ensures r.None? <==> AllAnswered(qs, rs, from)
    ensures r.Some? ==> from <= r.value < |qs| && !Answered(rs, qs[r.value].id)
    ensures r.Some? ==> forall j :: from <= j < r.value ==> Answered(rs, qs[j].id)
    decreases |qs| - from
  {
    if from >= |qs| then None
    else if !Answered(rs, qs[from].id) then Some(from)
    else FirstUnanswered(qs, rs, from + 1)
  }

  /** The forward scan both `setCurrentQuestion` and `nextQuestion` run over
      the stage questions: the first position at or after `from` whose
      question has no truthy answer, if any. */
  method ScanUnanswered(qs: seq<Question>, rs: seq<Response>, from: nat) returns (r: Option<nat>)
    ensures r == FirstUnanswered(qs, rs, from)
  {
    var index := from;
    while index < |qs|
      invariant from <= index
      invariant forall j :: from <= j < index && j < |qs| ==> Answered(rs, qs[j].id)
      decreases |qs| - index
    {
      var existing := FindResponse(rs, qs[index].id);
      if existing.None? || !Truthy(existing.value.answer) {
        SettleAt(qs, rs, from, index);
        return Some(index);
      }
      index := index + 1;
    }
    assert AllAnswered(qs, rs, from);
    return None;
  }

  /** The cursor `setCurrentQuestion` leaves: the first unanswered position at
      or after the cursor, or the cursor itself when all from there on are
      answered. */
  function Settle(qs: seq<Question>, rs: seq<Response>, cursor: nat): (k: nat)
    ensures k >= cursor
  {
    match FirstUnanswered(qs, rs, cursor)
    case None => cursor
    case Some(k) => k
  }

  /** Where the scan lands: on the first unanswered question at or after the
      cursor, or on the cursor itself when there is none. */
  lemma SettleSpec(qs: seq<Question>, rs: seq<Response>, cursor: nat)
    ensures AllAnswered(qs, rs, cursor) ==> Settle(qs, rs, cursor) == cursor
    ensures !AllAnswered(qs, rs, cursor) ==>
      var k := Settle(qs, rs, cursor);
      cursor <= k < |qs| && !Answered(rs, qs[k].id)
      && forall j :: cursor <= j < k ==> Answered(rs, qs[j].id)
  {
  }

  /** The first unanswered position at or after the cursor is where settling stops. */
  lemma SettleAt(qs: seq<Question>, rs: seq<Response>, cursor: nat, k: nat)
    requires cursor <= k < |qs| && !Answered(rs, qs[k].id)
    requires forall j :: cursor <= j < k ==> Answered(rs, qs[j].id)
    ensures FirstUnanswered(qs, rs, cursor) == Some(k)
    ensures Settle(qs, rs, cursor) == k
  {
  }

  /** `stageQs[i] || null` */
  function QuestionAt(qs: seq<Question>, i: nat): (r: Option<Question>)
    ensures r.Some? <==> i < |qs|
    ensures r.Some? ==> r.value == qs[i]
  {
    if i < |qs| then Some(qs[i]) else None
  }

  /** Settling never moves the cursor backward, and a cursor already on an
      unanswered question stays where it is. */
  lemma SettleMonotone(qs: seq<Question>, rs: seq<Response>, cursor: nat)
    ensures Settle(qs, rs, cursor) >= cursor
    ensures cursor < |qs| && !Answered(rs, qs[cursor].id) ==> Settle(qs, rs, cursor) == cursor
  {
  }

  /** `previousQuestion` from cursor `c > 0`: the cursor lands on `c - 1` exactly
      when that question is unanswered (or out of range), and never below it. */
  lemma {:induction false} PreviousLanding(qs: seq<Question>, rs: seq<Response>, c: nat)
    requires c > 0
    ensures Settle(qs, rs, c - 1) >= c - 1
    ensures Settle(qs, rs, c - 1) == c - 1 <==> (c - 1 >= |qs| || !Answered(rs, qs[c - 1].id) || AllAnswered(qs, rs, c - 1))
  {
  }

  /** What `nextQuestion` does, decided from the stage list, the responses,
      the cursor, the stage and `totalStages`. */
  datatype Step = MoveTo(index: nat) | EnterNextStage | Finish

  function NextStep(stageQs: seq<Question>, rs: seq<Response>, cursor: nat, stage: int, totalStages: int): Step
  {
    match FirstUnanswered(stageQs, rs, cursor + 1)
    case Some(k) => MoveTo(k)
    case None => if stage < totalStages then EnterNextStage else Finish
  }

  /** `nextQuestion` moves to the first unanswered question after the cursor;
      only when there is none does it leave the stage, entering the next one
      while the stage is below `totalStages` and finishing otherwise. */
  lemma NextStepSpec(stageQs: seq<Question>, rs: seq<Response>, cursor: nat, stage: int, totalStages: int)
    ensures var s := NextStep(stageQs, rs, cursor, stage, totalStages);
      && (s.MoveTo? ==>
            cursor < s.index < |stageQs| && !Answered(rs, stageQs[s.index].id)
            && forall j :: cursor < j < s.index ==> Answered(rs, stageQs[j].id))
      && (!s.MoveTo? <==> AllAnswered(stageQs, rs, cursor + 1))
      && (s.EnterNextStage? <==> AllAnswered(stageQs, rs, cursor + 1) && stage < totalStages)
  {
  }

  // ---------------------------------------------------------------------
  // Derived values
  // ---------------------------------------------------------------------

  /** `Math.round(100 * answered / total)` for non-negative operands, in integers. */
  function RoundedPercent(answered: nat, total: nat): (r: nat)
    requires total > 0
    ensures 2 * total * r <= 200 * answered + total < 2 * total * (r + 1)
  {
    (200 * answered + total) / (2 * total)
  }

  /** With no more answers than questions the percentage is at most 100,
      and with all of them answered it is exactly 100. */
  lemma PercentBounded(answered: nat, total: nat)
    requires 0 < total && answered <= total
    ensures RoundedPercent(answered, total) <= 100
    ensures answered == total ==> RoundedPercent(answered, total) == 100
  {
    var r := RoundedPercent(answered, total);
    if r > 100 {
      MulMonotone(101, r, 2 * total);
      assert false;
    }
    if answered == total && r < 100 {
      MulMonotone(r + 1, 100, 2 * total);
      assert false;
    }
  }

  lemma MulMonotone(a: int, b: int, c: nat)
    requires a <= b
    ensures c * a <= c * b
  {
    assert c * b - c * a == c * (b - a);
  }

  /** An interview appears in `dueInterviews` at instant `now`. */
  predicate IsDue(iv: Interview, now: int) {
    iv.round.Some? && iv.round.value.roundNumber < 4
    && iv.round.value.scheduledAt <= now && iv.round.value.status == Active
  }

  /** `dueInterviews`: the due interviews, in list order. */
  function DueInterviews(ivs: seq<Interview>, now: int): (r: seq<Interview>)
    ensures |r| <= |ivs|
  {
    Filter((iv: Interview) => IsDue(iv, now), ivs)
  }

  /** `dueInterviews` keeps, in list order, exactly the interviews with a round
      below 4 that is active and scheduled no later than `now`; an interview
      without a round, or of round 4 or later, is never due. */
  lemma DueInterviewsSpec(ivs: seq<Interview>, now: int)
    ensures forall iv :: iv in DueInterviews(ivs, now) <==>
      iv in ivs && iv.round.Some? && iv.round.value.roundNumber < 4
      && iv.round.value.scheduledAt <= now && iv.round.value.status == Active
    ensures forall iv :: iv in ivs && (iv.round.None? || iv.round.value.roundNumber >= 4) ==>
      iv !in DueInterviews(ivs, now)
    ensures SubsequenceOf(DueInterviews(ivs, now), ivs)
  {
    FilterMembers((iv: Interview) => IsDue(iv, now), ivs);
    FilterSubsequence((iv: Interview) => IsDue(iv, now), ivs);
  }

  /** `canGoNext` over an explicit session and current question. */
  function CanGoNext(session: Option<Interview>, current: Option<Question>): (b: bool)
    ensures session.None? || current.None? ==> !b
    ensures session.Some? && current.Some? && !current.value.required ==> b
    ensures session.Some? && current.Some? && current.value.required ==>
      (b <==> exists j :: 0 <= j < |session.value.responses|
                && session.value.responses[j].questionId == current.value.id
                && Truthy(FindResponse(session.value.responses, current.value.id).value.answer))
  {
    if current.None? || session.None? then false
    else if current.value.required then Answered(session.value.responses, current.value.id)
    else true
  }

  /** `stageQs.some(q => !answered(q))` */
  function SomeUnanswered(qs: seq<Question>, rs: seq<Response>): (b: bool)
    ensures b <==> exists i :: 0 <= i < |qs| && !Answered(rs, qs[i].id)
  {
    if qs == [] then false
    else if !Answered(rs, qs[0].id) then true
    else
      assert forall i :: 1 <= i < |qs| ==> qs[i] == qs[1..][i - 1];
      SomeUnanswered(qs[1..], rs)
  }

  // ---------------------------------------------------------------------
  // Session transitions as functions of the catalog and the old session
  // ---------------------------------------------------------------------

  /** The stage list of a session. */
  function SessionStage(qs: seq<Question>, s: Interview): seq<Question>
    requires s.round.Some?
  {
    StageQuestions(qs, s.stage, s.round.value.roundNumber)
  }

  /** The session after `setCurrentQuestion`. */
  function Settled(qs: seq<Question>, s: Interview): Interview
    requires s.round.Some?
  {
    s.(cursor := Settle(SessionStage(qs, s), s.responses, s.cursor))
  }

  /** `setCurrentQuestion` moves only the cursor, forward to the first
      unanswered stage question, and leaves it in place when every stage
      question from the cursor on is answered. */
  lemma SettledSpec(qs: seq<Question>, s: Interview)
    requires s.round.Some?
    ensures var r := Settled(qs, s);
      && r == s.(cursor := r.cursor)
      && r.cursor >= s.cursor
      && (AllAnswered(SessionStage(qs, s), s.responses, s.cursor) ==> r.cursor == s.cursor)
      && (!AllAnswered(SessionStage(qs, s), s.responses, s.cursor) ==>
            r.cursor < |SessionStage(qs, s)| && !Answered(s.responses, SessionStage(qs, s)[r.cursor].id)
            && forall j :: s.cursor <= j < r.cursor ==> Answered(s.responses, SessionStage(qs, s)[j].id))
  {
    SettleSpec(SessionStage(qs, s), s.responses, s.cursor);
  }

  /** The step `nextQuestion` takes from session `s`. */
  function StepOf(qs: seq<Question>, s: Interview): Step
    requires s.round.Some?
  {
    NextStep(SessionStage(qs, s), s.responses, s.cursor, s.stage, TotalStages(qs))
  }

  /** The session after `nextQuestion`, given whether the completion patch
      succeeds and the completion instant. */
  function Advanced(qs: seq<Question>, s: Interview, completeOk: bool, now: string): Interview
    requires s.round.Some?
  {
    match StepOf(qs, s)
    case MoveTo(k) => s.(cursor := k)
    case EnterNextStage => Settled(qs, s.(stage := s.stage + 1, cursor := 0))
    case Finish => if completeOk then s.(status := Completed, completedAt := Some(now)) else s
  }

  /** The three outcomes of `nextQuestion`. Within a stage the cursor only
      moves forward, onto an unanswered question past every answered one
      it skips; the stage advances only when nothing after the cursor is
      left and the stage is below `totalStages`; otherwise the interview is
      completed in place, with stage and cursor unchanged. Responses and
      round are never touched. */
  lemma AdvancedSpec(qs: seq<Question>, s: Interview, completeOk: bool, now: string)
    requires s.round.Some?
    ensures var r := Advanced(qs, s, completeOk, now);
      && r.responses == s.responses && r.round == s.round && r.id == s.id
      && (r.stage == s.stage || r.stage == s.stage + 1)
      && (r.stage == s.stage ==> r.cursor >= s.cursor)
      && (r.stage == s.stage && r.cursor != s.cursor ==>
            r.status == s.status && r.cursor < |SessionStage(qs, s)|
            && !Answered(s.responses, SessionStage(qs, s)[r.cursor].id)
            && forall j :: s.cursor < j < r.cursor ==> Answered(s.responses, SessionStage(qs, s)[j].id))
      && (r.stage == s.stage + 1 <==>
            AllAnswered(SessionStage(qs, s), s.responses, s.cursor + 1) && s.stage < TotalStages(qs))
      && (r.stage == s.stage + 1 ==> r.status == s.status)
      && (AllAnswered(SessionStage(qs, s), s.responses, s.cursor + 1) && s.stage >= TotalStages(qs) ==>
            r.stage == s.stage && r.cursor == s.cursor
            && r.status == (if completeOk then Completed else s.status)
            && (completeOk ==> r.completedAt == Some(now)))
  {
    var r := Advanced(qs, s, completeOk, now);
    match StepOf(qs, s)
    case MoveTo(k) =>
      assert r == s.(cursor := k);
    case EnterNextStage =>
      assert r.stage == s.stage + 1;
    case Finish =>
      assert r.stage == s.stage && r.cursor == s.cursor;
  }

  /** The session as resuming leaves it: a paused one is back in progress,
      any other status is kept. */
  function Resumed(iv: Interview): (r: Interview)
    ensures r.status != Paused
    ensures iv.status == Paused ==> r.status == InProgress
    ensures iv.status != Paused ==> r == iv
    ensures r == iv.(status := r.status)
  {
    if iv.status == Paused then iv.(status := InProgress) else iv
  }

  // ---------------------------------------------------------------------
  // The store
  // ---------------------------------------------------------------------

  /** The interview store: the active session, the fetched interviews, the
      question catalog and the current question. `error` records only
      whether an error message is set. */
  class InterviewStore {
    var session: Option<Interview>
    var interviews: seq<Interview>
    var questions: seq<Question>
    var currentQuestion: Option<Question>
    var error: bool

    /** The active session carries its round: every computation over it reads
        `interview_round.round_number`. */
    ghost predicate Valid()
      reads this
    {
      session.Some? ==> session.value.round.Some?
    }

    /** `stageQuestions` */
    function StageQs(): (r: seq<Question>)
      reads this
      requires Valid()
      ensures session.None? ==> r == []
      ensures session.Some? ==> r == SessionStage(questions, session.value)
    {
      if session.None? then [] else SessionStage(questions, session.value)
    }

    /** The current question is the stage question under the cursor. Every
        operation of the engine that recomputes it leaves the store in this
        state. */
    ghost predicate Synced()
      reads this
      requires Valid()
    {
      session.Some? ==> currentQuestion == QuestionAt(StageQs(), session.value.cursor)
    }

    constructor ()
      ensures Valid() && Synced()
      ensures session == None && interviews == [] && questions == []
      ensures currentQuestion == None && !error
    {
      session := None;
      interviews := [];
      questions := [];
      currentQuestion := None;
      error := false;
    }

    /** `getResponseForQuestion` */
    function GetResponseForQuestion(qid: int): (r: Option<Response>)
      reads this
      ensures session.None? ==> r.None?
      ensures session.Some? ==> r == FindResponse(session.value.responses, qid)
    {
      if session.None? then None else FindResponse(session.value.responses, qid)
    }

    /** `progressPercentage` */
    function ProgressPercentage(): (r: nat)
      reads this
      requires Valid()
      ensures session.None? || StageQs() == [] ==> r == 0
      ensures session.Some? && StageQs() != [] ==>
        var total := |RoundQuestions(questions, session.value.round.value.roundNumber)|;
        var answered := |session.value.responses|;
        total > 0 && 2 * total * r <= 200 * answered + total < 2 * total * (r + 1)
    {
      if session.None? || StageQs() == [] then 0
      else
        var round := session.value.round.value.roundNumber;
        StageWithinRound(questions, session.value.stage, round);
        RoundedPercent(|session.value.responses|, |RoundQuestions(questions, round)|)
    }

    /** `dueInterviews` at the instant `now`. */
    function Due(now: int): (r: seq<Interview>)
      reads this
      ensures forall iv :: iv in r <==> iv in interviews && IsDue(iv, now)
    {
      DueInterviewsSpec(interviews, now);
      DueInterviews(interviews, now)
    }

    /** `totalStages` */
    function Stages(): (r: int)
      reads this
      ensures questions == [] ==> r == 1
      ensures forall i :: 0 <= i < |questions| ==> questions[i].stage <= r
    {
      TotalStages(questions)
    }

    /** `canGoNext` */
    function CanAdvance(): (b: bool)
      reads this
      ensures b <==>
        session.Some? && currentQuestion.Some?
        && (currentQuestion.value.required ==> Answered(session.value.responses, currentQuestion.value.id))
    {
      CanGoNext(session, currentQuestion)
    }

    /** `hasUnansweredQuestions` */
    function HasUnansweredQuestions(): (b: bool)
      reads this
      requires Valid()
      ensures b <==>
        session.Some? && exists i :: 0 <= i < |StageQs()| && !Answered(session.value.responses, StageQs()[i].id)
    {
      session.Some? && SomeUnanswered(StageQs(), session.value.responses)
    }

    /** `setCurrentQuestion`: scan forward from the cursor to the first
        unanswered stage question. */
    method SetCurrentQuestion()
      requires Valid()
      modifies this
      ensures Valid() && Synced()
      ensures questions == old(questions) && interviews == old(interviews) && error == old(error)
      ensures old(session).None? ==> session == None && currentQuestion == old(currentQuestion)
      ensures old(session).Some? ==> session == Some(Settled(questions, old(session).value))
    {
      if session.None? {
        return;
      }
      var s := session.value;
      var stageQs := StageQs();
      var found := ScanUnanswered(stageQs, s.responses, s.cursor);
      if found.Some? {
        SettleAt(stageQs, s.responses, s.cursor, found.value);
        session := Some(s.(cursor := found.value));
        currentQuestion := Some(stageQs[found.value]);
      } else {
        currentQuestion := QuestionAt(stageQs, s.cursor);
      }
    }

    /** `fetchQuestions`: a failure is recorded and swallowed. */
    method FetchQuestions(reply: Reply<seq<Question>>)
      requires Valid()
      modifies this
      ensures Valid()
      ensures session == old(session) && interviews == old(interviews) && currentQuestion == old(currentQuestion)
      ensures questions == (if reply.Ok? then reply.payload else old(questions))
      ensures error == reply.Failed?
    {
      error := false;
      match reply
      case Ok(qs) => questions := qs;
      case Failed => error := true;
    }

    /** `fetchInterviews` */
    method FetchInterviews(reply: Reply<seq<Interview>>) returns (threw: bool)
      modifies this
      ensures threw <==> reply.Failed?
      ensures session == old(session) && questions == old(questions) && currentQuestion == old(currentQuestion)
      ensures interviews == (if reply.Ok? then reply.payload else old(interviews))
      ensures error == reply.Failed?
    {
      error := false;
      match reply
      case Ok(ivs) =>
        interviews := ivs;
        threw := false;
      case Failed =>
        error := true;
        threw := true;
    }

    /** `startInterview`: the server creates the session; the catalog is
        fetched only when none is loaded yet, and the current question is
        then recomputed. The contact and round ids only shape the request. */
    method StartInterview(created: Reply<Interview>, fetched: Reply<seq<Question>>) returns (threw: bool)
      requires Valid()
      requires created.Ok? ==> created.payload.round.Some?
      modifies this
      ensures Valid()
      ensures threw <==> created.Failed?
      ensures interviews == old(interviews)
      ensures created.Failed? ==>
        session == old(session) && questions == old(questions)
        && currentQuestion == old(currentQuestion) && error
      ensures created.Ok? ==>
        Synced()
        && questions == (if old(questions) == [] && fetched.Ok? then fetched.payload else old(questions))
        && error == (old(questions) == [] && fetched.Failed?)
        && session == Some(Settled(questions, created.payload))
    {
      error := false;
      if created.Failed? {
        error := true;
        return true;
      }
      session := Some(created.payload);
      if |questions| == 0 {
        FetchQuestions(fetched);
      }
      SetCurrentQuestion();
      return false;
    }

    /** `resumeInterview`: fetch the session, turn `paused` into `in_progress`
        on the server and locally, fetch the round's questions afresh and
        recompute the current question; no current question is an error. */
    method ResumeInterview(fetched: Reply<Interview>, patchOk: bool, catalog: Reply<seq<Question>>) returns (threw: bool)
      requires Valid()
      requires fetched.Ok? ==> fetched.payload.round.Some?
      modifies this
      ensures Valid()
      ensures interviews == old(interviews)
      ensures threw <==>
        fetched.Failed? || (fetched.payload.status == Paused && !patchOk)
        || catalog.Failed? || currentQuestion.None?
      ensures error == threw
      ensures fetched.Failed? ==>
        session == old(session) && questions == old(questions)
        && currentQuestion == old(currentQuestion)
      ensures fetched.Ok? && fetched.payload.status == Paused && !patchOk ==>
        session == Some(fetched.payload) && questions == old(questions) && currentQuestion == old(currentQuestion)
      ensures fetched.Ok? && (fetched.payload.status != Paused || patchOk) && catalog.Failed? ==>
        session == Some(Resumed(fetched.payload))
        && questions == old(questions) && currentQuestion == old(currentQuestion)
      ensures fetched.Ok? && (fetched.payload.status != Paused || patchOk) && catalog.Ok? ==>
        Synced() && questions == catalog.payload
        && session == Some(Settled(catalog.payload, Resumed(fetched.payload)))
    {
      error := false;
      if fetched.Failed? {
        error := true;
        return true;
      }
      session := Some(fetched.payload);
      if fetched.payload.status == Paused {
        if !patchOk {
          error := true;
          return true;
        }
        session := Some(session.value.(status := InProgress));
      }
      if catalog.Failed? {
        error := true;
        return true;
      }
      questions := catalog.payload;
      SetCurrentQuestion();
      if currentQuestion.None? {
        error := true;
        return true;
      }
      return false;
    }

    /** `submitResponse`: post the answer; only after the server accepts it is
        its reply upserted into the session's responses. */
    method SubmitResponse(questionId: int, reply: Reply<Response>) returns (threw: bool, result: Option<Response>)
      requires Valid()
      modifies this
      ensures Valid()
      ensures questions == old(questions) && interviews == old(interviews) && currentQuestion == old(currentQuestion)
      ensures old(Synced()) ==> Synced()
      ensures old(session).None? ==> !threw && result.None? && session == None && error == old(error)
      ensures old(session).Some? ==> (threw <==> reply.Failed?)
      ensures old(session).Some? && reply.Failed? ==> session == old(session) && result.None? && error
      ensures old(session).Some? && reply.Ok? ==>
        result == Some(reply.payload) && error == old(error)
        && session == Some(old(session).value.(responses := Upsert(old(session).value.responses, questionId, reply.payload)))
    {
      if session.None? {
        return false, None;
      }
      if reply.Failed? {
        error := true;
        return true, None;
      }
      var s := session.value;
      session := Some(s.(responses := Upsert(s.responses, questionId, reply.payload)));
      return false, Some(reply.payload);
    }

    /** `nextStage`: enter the next stage at its first position and recompute. */
    method NextStage()
      requires Valid()
      modifies this
      ensures Valid()
      ensures questions == old(questions) && interviews == old(interviews) && error == old(error)
      ensures old(session).None? ==> session == None && currentQuestion == old(currentQuestion)
      ensures old(session).Some? ==>
        Synced()
        && session == Some(Settled(questions, old(session).value.(stage := old(session).value.stage + 1, cursor := 0)))
    {
      if session.None? {
        return;
      }
      var s := session.value;
      session := Some(s.(stage := s.stage + 1, cursor := 0));
      SetCurrentQuestion();
    }

    /** `completeInterview`: only a successful patch marks the session completed. */
    method CompleteInterview(patchOk: bool, now: string) returns (threw: bool)
      requires Valid()
      modifies this
      ensures Valid()
      ensures questions == old(questions) && interviews == old(interviews) && currentQuestion == old(currentQuestion)
      ensures old(Synced()) ==> Synced()
      ensures old(session).None? ==> !threw && session == None && error == old(error)
      ensures old(session).Some? ==> (threw <==> !patchOk)
      ensures old(session).Some? && patchOk ==>
        error == old(error)
        && session == Some(old(session).value.(status := Completed, completedAt := Some(now)))
      ensures old(session).Some? && !patchOk ==> session == old(session) && error
    {
      if session.None? {
        return false;
      }
      if !patchOk {
        error := true;
        return true;
      }
      session := Some(session.value.(status := Completed, completedAt := Some(now)));
      return false;
    }

    /** `pauseInterview`: only a successful patch marks the session paused. */
    method PauseInterview(patchOk: bool) returns (threw: bool)
      requires Valid()
      modifies this
      ensures Valid()
      ensures questions == old(questions) && interviews == old(interviews) && currentQuestion == old(currentQuestion)
      ensures old(Synced()) ==> Synced()
      ensures old(session).None? ==> !threw && session == None && error == old(error)
      ensures old(session).Some? ==> (threw <==> !patchOk)
      ensures old(session).Some? && patchOk ==>
        error == old(error)
        && session == Some(old(session).value.(status := Paused))
      ensures old(session).Some? && !patchOk ==> session == old(session) && error
    {
      if session.None? {
        return false;
      }
      if !patchOk {
        error := true;
        return true;
      }
      session := Some(session.value.(status := Paused));
      return false;
    }

    /** `nextQuestion`: move to the next unanswered question of the stage, or
        enter the next stage, or complete the interview on the last one. */
    method NextQuestion(completeOk: bool, now: string) returns (threw: bool)
      requires Valid()
      modifies this
      ensures Valid()
      ensures questions == old(questions) && interviews == old(interviews)
      ensures old(session).None? ==>
        !threw && session == None && currentQuestion == old(currentQuestion) && error == old(error)
      ensures old(session).Some? ==>
        session == Some(Advanced(questions, old(session).value, completeOk, now))
        && (threw <==> StepOf(questions, old(session).value).Finish? && !completeOk)
        && error == (old(error) || threw)
        && (StepOf(questions, old(session).value).Finish? ==> currentQuestion == old(currentQuestion))
        && (!StepOf(questions, old(session).value).Finish? ==> Synced())
    {
      if session.None? {
        return false;
      }
      var s := session.value;
      var stageQs := StageQs();
      ghost var step := StepOf(questions, s);
      ghost var target := Advanced(questions, s, completeOk, now);
      var found := ScanUnanswered(stageQs, s.responses, s.cursor + 1);
      if found.Some? {
        var nextIndex := found.value;
        SettleAt(stageQs, s.responses, nextIndex, nextIndex);
        assert step == MoveTo(nextIndex) && target == s.(cursor := nextIndex);
        session := Some(s.(cursor := nextIndex));
        SetCurrentQuestion();
        threw := false;
      } else if s.stage < TotalStages(questions) {
        assert step == EnterNextStage;
        NextStage();
        threw := false;
      } else {
        assert step == Finish;
        threw := CompleteInterview(completeOk, now);
      }
    }

    /** `previousQuestion`: step back one position, then recompute; a no-op at 0. */
    method PreviousQuestion()
      requires Valid()
      modifies this
      ensures Valid()
      ensures questions == old(questions) && interviews == old(interviews) && error == old(error)
      ensures old(session).None? || old(session).value.cursor == 0 ==>
        session == old(session) && currentQuestion == old(currentQuestion)
      ensures old(session).Some? && old(session).value.cursor > 0 ==>
        Synced()
        && session == Some(Settled(questions, old(session).value.(cursor := old(session).value.cursor - 1)))
    {
      if session.None? || session.value.cursor == 0 {
        return;
      }
      var s := session.value;
      session := Some(s.(cursor := s.cursor - 1));
      SetCurrentQuestion();
    }
  }
}
